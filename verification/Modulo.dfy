/** Facts about positions that wrap around. */
module Modulo {
  lemma Grows(d: nat, k: nat)
    requires k >= 1
    ensures d * k >= d
  {
  }

  lemma Unique(x: nat, d: nat, q: nat, r: nat)
    requires d > 0 && x == d * q + r && r < d
    ensures x % d == r && x / d == q
  {
    var q', r' := x / d, x % d;
    assert d * q' + r' == d * q + r;
    if q' < q {
      assert d * q - d * q' == d * (q - q');
      Grows(d, q - q');
    } else if q' > q {
      assert d * q' - d * q == d * (q' - q);
      Grows(d, q' - q);
    }
  }

  lemma SameResidue(n: nat, x: nat, d: nat, t: int)
    requires n < d && x < d && x == n + d * t
    ensures x == n
  {
    if t > 0 {
      Grows(d, t);
    } else if t < 0 {
      assert d * t == -(d * -t);
      Grows(d, -t);
    }
  }

  /** Stepping a wrapped position. */
  lemma Next(x: nat, d: nat)
    requires d > 0
    ensures (x % d + 1) % d == (x + 1) % d
  {
    var q, r := x / d, x % d;
    if r + 1 < d {
      Unique(x + 1, d, q, r + 1);
      Unique(r + 1, d, 0, r + 1);
    } else {
      assert x + 1 == d * (q + 1) + 0;
      Unique(x + 1, d, q + 1, 0);
      Unique(r + 1, d, 1, 0);
    }
  }

  /** Positions less than a full turn apart are in different slots. */
  lemma Apart(x: nat, y: nat, d: nat)
    requires x < y < x + d
    ensures x % d != y % d
  {
    var q, r := x / d, x % d;
    var k := r + (y - x);
    if k < d {
      Unique(y, d, q, k);
    } else {
      assert y == d * (q + 1) + (k - d);
      Unique(y, d, q + 1, k - d);
    }
  }

  lemma FullTurn(x: nat, d: nat)
    requires d > 0
    ensures (x + d) % d == x % d
  {
    var q, r := x / d, x % d;
    assert x + d == d * (q + 1) + r;
    Unique(x + d, d, q + 1, r);
  }
}
