/** Facts about sequences the models share. */
module Sequences {
  lemma Regroup<T>(a: seq<T>, b: seq<T>, c: seq<T>)
    ensures a + (b + c) == (a + b) + c
  {
  }

  lemma Two<T>(x: T, y: T, z: seq<T>)
    ensures [x, y] + z == [x] + ([y] + z)
  {
  }
}
