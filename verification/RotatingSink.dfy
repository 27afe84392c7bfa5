/**
 The rotating file sink over a model file system: a map from names to contents. A rename
 may fail; which ones do is fixed by the field `faults`, an arbitrary finite sequence.
 */
module RotatingSink {
  import opened Options
  import opened FileNames
  import opened Sequences

  type Bytes = seq<bv8>

  /** History of one file: what was in it before the sink came, and the messages since. */
  datatype File = File(prior: Bytes, msgs: seq<Bytes>)

  function Flatten(msgs: seq<Bytes>): Bytes {
    if msgs == [] then [] else Flatten(msgs[..|msgs| - 1]) + msgs[|msgs| - 1]
  }

  function Content(f: File): Bytes { f.prior + Flatten(f.msgs) }

  const FRESH: File := File([], [])

  /** Files 0..max_files, absent ones included. */
  type Files = seq<Option<File>>

  function ContentOf(f: Option<File>): Bytes { if f.Some? then Content(f.value) else [] }

  /** The bytes kept, oldest first: file max_files down to file 0. */
  function Kept(files: Files): Bytes
    decreases files
  {
    if files == [] then [] else Kept(files[1..]) + ContentOf(files[0])
  }

  /** Every file moves up by one; the last place keeps its file when nothing moves in. */
  function Rotated(files: Files): (r: Files)
    requires files != []
    ensures |r| == |files|
  {
    var max := |files| - 1;
    seq(|files|, i requires 0 <= i < |files| =>
      if i == 0 then Some(FRESH)
      else if i < max || files[i - 1].Some? then files[i - 1]
      else files[i])
  }

  function Written(files: Files, msg: Bytes): Files
    requires files != [] && files[0].Some?
  {
    files[0 := Some(File(files[0].value.prior, files[0].value.msgs + [msg]))]
  }

  /** There is a file to be moved to place i. */
  predicate Movable(files: Files, i: nat) { 0 < i < |files| && files[i - 1].Some? }

  /** A rotation that could not move its file to place i: file 0 is truncated, the places
      below i are as they were, place i has been vacated, those above have their new file. */
  function FailedAt(files: Files, i: nat): (r: Files)
    requires Movable(files, i)
    ensures |r| == |files|
  {
    [Some(FRESH)] + files[1..i] + [None] + Rotated(files)[i + 1..]
  }

  predicate Due(files: Files, maxSize: nat, msg: Bytes)
    requires files != []
  {
    var size := |ContentOf(files[0])|;
    size + |msg| > maxSize && size > 0
  }

  /** A call that logs msg. If it rotates, moving a file to place fails does not succeed. */
  datatype Call = Call(msg: Bytes, fails: nat)

  /** The call throws. */
  predicate Fails(files: Files, maxSize: nat, call: Call)
    requires files != []
  {
    Due(files, maxSize, call.msg) && Movable(files, call.fails)
  }

  /** What a call does to the files. */
  function Logged(files: Files, maxSize: nat, call: Call): Files
    requires files != [] && files[0].Some?
  {
    if Fails(files, maxSize, call) then FailedAt(files, call.fails)
    else Written(if Due(files, maxSize, call.msg) then Rotated(files) else files, call.msg)
  }

  function LoggedAll(files: Files, maxSize: nat, calls: seq<Call>): (r: Files)
    requires files != [] && files[0].Some?
    ensures |r| == |files| && r[0].Some?
  {
    if calls == [] then files
    else Logged(LoggedAll(files, maxSize, calls[..|calls| - 1]), maxSize, calls[|calls| - 1])
  }

  // ----- what is lost -----

  ghost predicate IsSuffix(a: Bytes, b: Bytes) {
    |a| <= |b| && b[|b| - |a|..] == a
  }

  lemma SuffixAppend(a: Bytes, b: Bytes, c: Bytes)
    requires IsSuffix(a, b)
    ensures IsSuffix(a + c, b + c)
  {
    assert (b + c)[|b| - |a|..] == a + c;
  }

  lemma SuffixTransitive(a: Bytes, b: Bytes, c: Bytes)
    requires IsSuffix(a, b) && IsSuffix(b, c)
    ensures IsSuffix(a, c)
  {
    assert c[|c| - |a|..] == c[|c| - |b|..][|b| - |a|..];
  }

  lemma {:induction false} KeptAppend(files: Files, f: Option<File>)
    ensures Kept(files + [f]) == ContentOf(f) + Kept(files)
    decreases files
  {
    if files == [] {
      assert files + [f] == [f] && [f][1..] == [];
    } else {
      KeptAppend(files[1..], f);
      assert (files + [f])[1..] == files[1..] + [f] && (files + [f])[0] == files[0];
      Regroup(ContentOf(f), Kept(files[1..]), ContentOf(files[0]));
    }
  }

  lemma KeptFresh(low: Files)
    ensures Kept([Some(FRESH)] + low) == Kept(low)
  {
    assert ([Some(FRESH)] + low)[1..] == low;
  }

  lemma RotatedShape(files: Files)
    requires |files| >= 2
    ensures var max := |files| - 1;
            Rotated(files) == [Some(FRESH)] + files[..max - 1] + [if files[max - 1].Some? then files[max - 1] else files[max]]
  {
  }

  lemma KeptLastTwo(low: Files, a: Option<File>, b: Option<File>)
    ensures Kept(low + [a] + [b]) == ContentOf(b) + (ContentOf(a) + Kept(low))
  {
    KeptAppend(low, a);
    KeptAppend(low + [a], b);
  }

  /** What a rotation loses: the last file, and that only when another file moves into
      its place. */
  function Lost(files: Files): Bytes
    requires files != []
  {
    var max := |files| - 1;
    if max == 0 || files[max - 1].Some? then ContentOf(files[max]) else []
  }

  lemma RotationLosesOldest(files: Files)
    requires files != []
    ensures Kept(files) == Lost(files) + Kept(Rotated(files))
  {
    var max := |files| - 1;
    if max == 0 {
      OneFile(files);
    } else {
      var low, a, b := files[..max - 1], files[max - 1], files[max];
      assert files == low + [a] + [b];
      RotatedShape(files);
      LastTwo(low, a, b);
    }
  }

  lemma OneFile(files: Files)
    requires |files| == 1
    ensures Kept(files) == ContentOf(files[0]) + Kept(Rotated(files))
  {
    KeptAppend([], files[0]);
    KeptAppend([], Some(FRESH));
    assert files == [] + [files[0]] && Rotated(files) == [] + [Some(FRESH)];
  }

  lemma LastTwo(low: Files, a: Option<File>, b: Option<File>)
    ensures var last := if a.Some? then a else b;
            var lost := if a.Some? then ContentOf(b) else [];
            Kept(low + [a] + [b]) == lost + Kept([Some(FRESH)] + low + [last])
  {
    var last := if a.Some? then a else b;
    KeptLastTwo(low, a, b);
    KeptAppend([Some(FRESH)] + low, last);
    KeptFresh(low);
    if a.None? {
      assert ContentOf(a) + Kept(low) == Kept(low);
      assert [] + (ContentOf(b) + Kept(low)) == ContentOf(b) + Kept(low);
    }
  }

  lemma FileGrows(f: File, msg: Bytes)
    ensures Content(f.(msgs := f.msgs + [msg])) == Content(f) + msg
  {
    var msgs := f.msgs + [msg];
    assert msgs[..|msgs| - 1] == f.msgs;
    Regroup(f.prior, Flatten(f.msgs), msg);
  }

  lemma WriteAppends(files: Files, msg: Bytes)
    requires files != [] && files[0].Some?
    ensures Kept(Written(files, msg)) == Kept(files) + msg
  {
    FileGrows(files[0].value, msg);
    assert Written(files, msg)[1..] == files[1..];
    Regroup(Kept(files[1..]), Content(files[0].value), msg);
  }

  lemma {:induction false} KeptConcat(low: Files, high: Files)
    ensures Kept(low + high) == Kept(high) + Kept(low)
    decreases low
  {
    if low == [] {
      assert low + high == high;
    } else {
      assert (low + high)[1..] == low[1..] + high;
      KeptConcat(low[1..], high);
      Regroup(Kept(high), Kept(low[1..]), ContentOf(low[0]));
    }
  }

  lemma EmptyHead(f: Option<File>, rest: Files)
    requires ContentOf(f) == []
    ensures Kept([f] + rest) == Kept(rest)
  {
    assert ([f] + rest)[1..] == rest;
  }

  lemma RotatedAbove(files: Files, i: nat)
    requires Movable(files, i)
    ensures Rotated(files[i..]) == [Some(FRESH)] + Rotated(files)[i + 1..]
  {
    forall j | 0 < j < |files| - i ensures Rotated(files[i..])[j] == Rotated(files)[i + j] {
    }
  }

  lemma LostAbove(files: Files, i: nat)
    requires Movable(files, i)
    ensures Lost(files[i..]) == Lost(files)
  {
  }

  /** The places from i on lose by a failure at i what they lose by a rotation of their own. */
  lemma AboveLost(files: Files, i: nat)
    requires Movable(files, i)
    ensures Kept(files[i..]) == Lost(files) + Kept(Rotated(files)[i + 1..])
  {
    RotationLosesOldest(files[i..]);
    LostAbove(files, i);
    RotatedAbove(files, i);
    EmptyHead(Some(FRESH), Rotated(files)[i + 1..]);
  }

  lemma FailedKept(files: Files, i: nat)
    requires Movable(files, i)
    ensures Kept(FailedAt(files, i)) == Kept(Rotated(files)[i + 1..]) + Kept(files[1..i])
  {
    var low, high := files[1..i], Rotated(files)[i + 1..];
    assert FailedAt(files, i) == [Some(FRESH)] + (low + ([None] + high));
    EmptyHead(Some(FRESH), low + ([None] + high));
    KeptConcat(low, [None] + high);
    EmptyHead(None, high);
  }

  /** A failed rotation loses the newest file, and the last one as if it had not failed. */
  lemma FailureLosesNewest(files: Files, i: nat)
    requires Movable(files, i)
    ensures Kept(files) == Lost(files) + Kept(FailedAt(files, i)) + ContentOf(files[0])
  {
    var low, high := files[1..i], Rotated(files)[i + 1..];
    assert files[1..] == low + files[i..];
    KeptConcat(low, files[i..]);
    AboveLost(files, i);
    FailedKept(files, i);
    Regroup(Lost(files), Kept(high), Kept(low));
  }

  /** All bytes of these calls. */
  function Total(calls: seq<Call>): Bytes {
    if calls == [] then [] else Total(calls[..|calls| - 1]) + calls[|calls| - 1].msg
  }

  function DropLast(s: Bytes, n: nat): Bytes { if n <= |s| then s[..|s| - n] else [] }

  /** What was there and all that was written since, less what failed rotations cut: such a
      call drops its own message and the bytes of file 0. */
  function Survivors(files: Files, maxSize: nat, calls: seq<Call>): Bytes
    requires files != [] && files[0].Some?
  {
    if calls == [] then Kept(files)
    else
      var before, call := calls[..|calls| - 1], calls[|calls| - 1];
      var f, s := LoggedAll(files, maxSize, before), Survivors(files, maxSize, before);
      if Fails(f, maxSize, call) then DropLast(s, |ContentOf(f[0])|) else s + call.msg
  }

  lemma SuffixDrop(a: Bytes, b: Bytes, c: Bytes)
    requires IsSuffix(a + c, b)
    ensures IsSuffix(a, DropLast(b, |c|))
  {
    var k := |b| - |a + c|;
    assert b[k..][..|a|] == a;
    assert DropLast(b, |c|)[k..] == b[k..][..|a|];
  }

  lemma LoggedIsSuffix(f: Files, maxSize: nat, call: Call)
    requires f != [] && f[0].Some? && !Fails(f, maxSize, call)
    ensures IsSuffix(Kept(Logged(f, maxSize, call)), Kept(f) + call.msg)
  {
    if Due(f, maxSize, call.msg) {
      RotationLosesOldest(f);
      WriteAppends(Rotated(f), call.msg);
      SuffixAppend(Kept(Rotated(f)), Kept(f), call.msg);
    } else {
      WriteAppends(f, call.msg);
    }
  }

  /** The step of KeptIsSuffix. */
  lemma StaysSuffix(f: Files, maxSize: nat, call: Call, s: Bytes)
    requires f != [] && f[0].Some? && IsSuffix(Kept(f), s)
    ensures IsSuffix(Kept(Logged(f, maxSize, call)),
                     if Fails(f, maxSize, call) then DropLast(s, |ContentOf(f[0])|) else s + call.msg)
  {
    if Fails(f, maxSize, call) {
      var kept := Kept(FailedAt(f, call.fails));
      FailureLosesNewest(f, call.fails);
      Regroup(Lost(f), kept, ContentOf(f[0]));
      assert IsSuffix(kept + ContentOf(f[0]), Kept(f));
      SuffixTransitive(kept + ContentOf(f[0]), Kept(f), s);
      SuffixDrop(kept, s, ContentOf(f[0]));
    } else {
      LoggedIsSuffix(f, maxSize, call);
      SuffixAppend(Kept(f), s, call.msg);
      SuffixTransitive(Kept(Logged(f, maxSize, call)), Kept(f) + call.msg, s + call.msg);
    }
  }

  /** Over any run, failed rotations included, what is kept is a suffix of the survivors. */
  lemma {:induction false} KeptIsSuffix(files: Files, maxSize: nat, calls: seq<Call>)
    requires files != [] && files[0].Some?
    ensures IsSuffix(Kept(LoggedAll(files, maxSize, calls)), Survivors(files, maxSize, calls))
    decreases calls
  {
    if calls != [] {
      var before := calls[..|calls| - 1];
      KeptIsSuffix(files, maxSize, before);
      StaysSuffix(LoggedAll(files, maxSize, before), maxSize, calls[|calls| - 1], Survivors(files, maxSize, before));
    }
  }

  /** Unless a rotation fails, everything survives. */
  lemma {:induction false} AllSurvive(files: Files, maxSize: nat, calls: seq<Call>)
    requires files != [] && files[0].Some?
    requires forall call :: call in calls ==> call.fails == 0
    ensures Survivors(files, maxSize, calls) == Kept(files) + Total(calls)
    decreases calls
  {
    if calls == [] {
      assert Kept(files) + [] == Kept(files);
    } else {
      var before, call := calls[..|calls| - 1], calls[|calls| - 1];
      AllSurvive(files, maxSize, before);
      assert call in calls;
      Regroup(Kept(files), Total(before), call.msg);
    }
  }

  // ----- what a call does with room, and without -----

  /** There is room for the message in file 0, or nothing in it yet. */
  predicate Fits(files: Files, maxSize: nat, msg: Bytes)
    requires files != []
  {
    |ContentOf(files[0])| + |msg| <= maxSize || ContentOf(files[0]) == []
  }

  /** The message is behind what file 0 held, and no other file has changed. */
  ghost predicate Appended(files: Files, after: Files, msg: Bytes)
    requires files != []
  {
    |after| == |files| && after[1..] == files[1..] && ContentOf(after[0]) == ContentOf(files[0]) + msg
  }

  /** A call appends its message to file 0 if and only if it fits; otherwise file 0, if the call
      does not throw, holds the message alone, and the file that was file 0 is file 1. */
  lemma AppendsExactlyWhenFits(files: Files, maxSize: nat, call: Call)
    requires files != [] && files[0].Some?
    ensures var after := Logged(files, maxSize, call);
            && (Appended(files, after, call.msg) <==> Fits(files, maxSize, call.msg))
            && (Fits(files, maxSize, call.msg) ==> !Fails(files, maxSize, call))
            && (!Fits(files, maxSize, call.msg) && !Fails(files, maxSize, call) ==>
                  ContentOf(after[0]) == call.msg && (|files| >= 2 ==> after[1] == files[0]))
  {
    FileGrows(files[0].value, call.msg);
    FileGrows(FRESH, call.msg);
  }

  /** A run whose bytes fit into file 0 loses nothing and touches no other file. */
  lemma {:induction false} SmallRunsStay(files: Files, maxSize: nat, calls: seq<Call>)
    requires files != [] && files[0].Some? && |ContentOf(files[0])| + |Total(calls)| <= maxSize
    ensures Appended(files, LoggedAll(files, maxSize, calls), Total(calls))
    decreases calls
  {
    if calls == [] {
      assert ContentOf(files[0]) + [] == ContentOf(files[0]);
    } else {
      var before, call := calls[..|calls| - 1], calls[|calls| - 1];
      SmallRunsStay(files, maxSize, before);
      AppendsExactlyWhenFits(LoggedAll(files, maxSize, before), maxSize, call);
      Regroup(ContentOf(files[0]), Total(before), call.msg);
    }
  }

  /** Whatever a run does, a call of it that touches another file than file 0, or loses anything
      of file 0, found what was there and its message together above the limit. */
  lemma RotatesOnlyWhenFull(files: Files, maxSize: nat, calls: seq<Call>, k: nat)
    requires files != [] && files[0].Some? && k < |calls|
    requires var f, after := LoggedAll(files, maxSize, calls[..k]), LoggedAll(files, maxSize, calls[..k + 1]);
             !Appended(f, after, calls[k].msg)
    ensures var f := LoggedAll(files, maxSize, calls[..k]);
            ContentOf(f[0]) != [] && |ContentOf(f[0])| + |calls[k].msg| > maxSize
  {
    assert calls[..k + 1][..k] == calls[..k];
    AppendsExactlyWhenFits(LoggedAll(files, maxSize, calls[..k]), maxSize, calls[k]);
  }

  // ----- the size limit -----

  /** The messages of a file that are not empty. */
  function NonEmpty(msgs: seq<Bytes>): nat {
    if msgs == [] then 0 else NonEmpty(msgs[..|msgs| - 1]) + if msgs[|msgs| - 1] != [] then 1 else 0
  }

  /** A file the sink started is within the limit, or holds a single message. */
  predicate WithinLimit(f: File, maxSize: nat) {
    f.prior == [] ==> |Content(f)| <= maxSize || NonEmpty(f.msgs) == 1
  }

  ghost predicate AllWithinLimit(files: Files, maxSize: nat) {
    forall i :: 0 <= i < |files| && files[i].Some? ==> WithinLimit(files[i].value, maxSize)
  }

  lemma {:induction false} EmptyMeansNone(msgs: seq<Bytes>)
    ensures Flatten(msgs) == [] <==> NonEmpty(msgs) == 0
    decreases msgs
  {
    if msgs != [] { EmptyMeansNone(msgs[..|msgs| - 1]); }
  }

  lemma WriteKeepsLimit(files: Files, maxSize: nat, msg: Bytes)
    requires files != [] && files[0].Some? && AllWithinLimit(files, maxSize)
    requires var size := |ContentOf(files[0])|; size + |msg| <= maxSize || size == 0
    ensures AllWithinLimit(Written(files, msg), maxSize)
  {
    FileGrows(files[0].value, msg);
    var f := files[0].value;
    var msgs := f.msgs + [msg];
    assert msgs[..|msgs| - 1] == f.msgs;
    EmptyMeansNone(f.msgs);
  }

  lemma LoggedKeepsLimit(f: Files, maxSize: nat, call: Call)
    requires f != [] && f[0].Some? && AllWithinLimit(f, maxSize)
    ensures AllWithinLimit(Logged(f, maxSize, call), maxSize)
  {
    if Fails(f, maxSize, call) {
    } else if Due(f, maxSize, call.msg) {
      WriteKeepsLimit(Rotated(f), maxSize, call.msg);
    } else {
      WriteKeepsLimit(f, maxSize, call.msg);
    }
  }

  lemma {:induction false} LimitHolds(files: Files, maxSize: nat, calls: seq<Call>)
    requires files != [] && files[0].Some? && AllWithinLimit(files, maxSize)
    ensures AllWithinLimit(LoggedAll(files, maxSize, calls), maxSize)
    decreases calls
  {
    if calls != [] {
      var before := calls[..|calls| - 1];
      LimitHolds(files, maxSize, before);
      LoggedKeepsLimit(LoggedAll(files, maxSize, before), maxSize, calls[|calls| - 1]);
    }
  }

  // ----- the sink -----

  function Shifted(files: Files, i: nat): Files
    requires 0 < i < |files|
  {
    if files[i - 1].Some? then files[i := files[i - 1]][i - 1 := None] else files
  }

  /** The places above i have their new file, place i has been vacated, and those below
      are as they were. */
  ghost predicate Halfway(was: Files, now: Files, i: nat) {
    && i < |was| == |now|
    && (forall j :: i < j < |now| ==> now[j] == Rotated(was)[j])
    && now[i] == (if i == |now| - 1 then was[i] else None)
    && (forall j :: 0 <= j < i ==> now[j] == was[j])
  }

  lemma HalfwayStep(was: Files, now: Files, i: nat)
    requires Halfway(was, now, i) && i > 0
    ensures Halfway(was, Shifted(now, i), i - 1)
  {
  }

  lemma FailedPlaces(files: Files, i: nat, j: nat)
    requires Movable(files, i) && j < |files|
    ensures FailedAt(files, i)[j] == if j == 0 then Some(FRESH) else if j < i then files[j]
                                     else if j == i then None else Rotated(files)[j]
  {
  }

  lemma HalfwayFails(was: Files, now: Files, i: nat)
    requires Halfway(was, now, i) && Movable(now, i)
    ensures Movable(was, i) && now[i := None][0 := Some(FRESH)] == FailedAt(was, i)
  {
    var after, failed := now[i := None][0 := Some(FRESH)], FailedAt(was, i);
    forall j | 0 <= j < |was| ensures after[j] == failed[j] {
      FailedPlaces(was, i, j);
    }
  }

  /** The name n stands for the file f, an absent one included. */
  predicate StandsFor(n: string, fs: map<string, Bytes>, f: Option<File>) {
    (n in fs <==> f.Some?) && (f.Some? ==> fs[n] == Content(f.value))
  }

  /** n is one of the names of a sink. */
  predicate IsName(base: string, maxFiles: nat, n: string) {
    exists i :: 0 <= i <= maxFiles && n == CalcFilename(base, i)
  }

  predicate Same(was: map<string, Bytes>, now: map<string, Bytes>, n: string) {
    (n in now <==> n in was) && (n in now ==> now[n] == was[n])
  }

  /** The names of a sink hold these files. */
  ghost predicate Holds(base: string, maxFiles: nat, fs: map<string, Bytes>, files: Files) {
    |files| == maxFiles + 1 && forall i :: 0 <= i <= maxFiles ==> StandsFor(CalcFilename(base, i), fs, files[i])
  }

  /** File 0 opened for appending. */
  function Opened(files: Files): (r: Files)
    requires files != []
    ensures |r| == |files| && r[0].Some?
  {
    files[0 := if files[0].None? then Some(FRESH) else files[0]]
  }

  class RotatingFileSink {
    const base: string
    const maxSize: nat
    const maxFiles: nat
    var fs: map<string, Bytes>  // the file system
    var currentSize: nat
    var faults: seq<bool>       // outcomes of the coming renames; true is a failure
    ghost var files: Files      // what the sink's names hold

    ghost predicate View()
      reads this`fs, this`files
    {
      Holds(base, maxFiles, fs, files)
    }

    ghost predicate Valid()
      reads this
    {
      View() && files[0].Some? && currentSize == |Content(files[0].value)|
    }

    /** No other file is touched. */
    twostate predicate OthersUntouched()
      reads this`fs
    {
      forall n :: !IsName(base, maxFiles, n) ==> Same(old(fs), fs, n)
    }

    /** file_helper::open of the base file: "wb" first when truncating, then "ab". */
    method Open(truncate: bool)
      requires View()
      modifies this`fs, this`files
      ensures View() && files[0].Some? && OthersUntouched()
      ensures files == old(files)[0 := if truncate || old(files)[0].None? then Some(FRESH) else old(files)[0]]
    {
      assert StandsFor(CalcFilename(base, 0), fs, files[0]);
      if truncate || base !in fs {
        fs := fs[base := []];
        files := files[0 := Some(FRESH)];
      }
      forall i | 0 <= i <= maxFiles ensures StandsFor(CalcFilename(base, i), fs, files[i]) {
        if CalcFilename(base, i) == base { NamesDistinct(base, i, 0); }
        assert old(StandsFor(CalcFilename(base, i), fs, files[i]));
      }
    }

    /** Removes the target, then renames; a rename that fails leaves the source. */
    method RenameFile(src: nat, target: nat) returns (ok: bool)
      requires View() && src < target <= maxFiles && files[src].Some?
      modifies this`fs, this`files, this`faults
      ensures View() && OthersUntouched()
      ensures old(faults) == [] ==> ok && faults == []
      ensures ok ==> files == old(files)[target := old(files)[src]][src := None]
      ensures !ok ==> files == old(files)[target := None]
    {
      assert StandsFor(CalcFilename(base, src), fs, files[src]);
      assert StandsFor(CalcFilename(base, target), fs, files[target]);
      var from, to := CalcFilename(base, src), CalcFilename(base, target);
      var content := fs[from];
      fs := fs - {to};
      ok := faults == [] || !faults[0];
      if faults != [] {
        faults := faults[1..];
      }
      if ok {
        fs := fs[to := content] - {from};
        files := files[target := files[src]][src := None];
      } else {
        files := files[target := None];
      }
      forall i | 0 <= i <= maxFiles ensures StandsFor(CalcFilename(base, i), fs, files[i]) {
        assert old(StandsFor(CalcFilename(base, i), fs, files[i]));
        if i != src && CalcFilename(base, i) == from { NamesDistinct(base, i, src); }
        if i != target && CalcFilename(base, i) == to { NamesDistinct(base, i, target); }
        if from == to { NamesDistinct(base, src, target); }
      }
    }

    /** A rename that fails is tried once more, after a short sleep. */
    method Move(src: nat, target: nat) returns (ok: bool)
      requires View() && src < target <= maxFiles && files[src].Some?
      modifies this`fs, this`files, this`faults
      ensures View() && OthersUntouched()
      ensures old(faults) == [] ==> ok && faults == []
      ensures ok ==> files == old(files)[target := old(files)[src]][src := None]
      ensures !ok ==> files == old(files)[target := None]
    {
      ok := RenameFile(src, target);
      if !ok {
        ghost var once := files;
        ok := RenameFile(src, target);
        assert once[target := once[src]] == old(files)[target := old(files)[src]];
      }
    }

    /** One round of the loop of rotate_: file i-1, if there is one, becomes file i. */
    method Shift(i: nat) returns (ok: bool)
      requires View() && 0 < i <= maxFiles
      modifies this`fs, this`files, this`faults
      ensures View() && OthersUntouched()
      ensures old(faults) == [] ==> ok && faults == []
      ensures ok ==> files == Shifted(old(files), i)
      ensures !ok ==> Movable(old(files), i) && files == old(files)[i := None]
    {
      assert StandsFor(CalcFilename(base, i - 1), fs, files[i - 1]);
      if CalcFilename(base, i - 1) !in fs {
        return true;
      }
      ok := Move(i - 1, i);
    }

    /** Shifts every file up by one and starts a new file 0. When a rename fails twice, file
        0 is emptied all the same and the sink throws. */
    method Rotate() returns (ok: bool, ghost place: nat)
      requires View() && files[0].Some?
      modifies this`fs, this`files, this`faults, this`currentSize
      ensures View() && OthersUntouched()
      ensures old(faults) == [] ==> ok && faults == []
      ensures if ok then place == 0 && files == Rotated(old(files)) && currentSize == old(currentSize)
              else Movable(old(files), place) && files == FailedAt(old(files), place) && currentSize == 0
    {
      ok, place := ShiftAll();
      Open(true);
      if !ok {
        currentSize := 0;
      }
    }

    method ShiftAll() returns (ok: bool, ghost place: nat)
      requires View() && files[0].Some?
      modifies this`fs, this`files, this`faults
      ensures View() && OthersUntouched()
      ensures old(faults) == [] ==> ok && faults == []
      ensures ok ==> place == 0 && files[0 := Some(FRESH)] == Rotated(old(files))
      ensures !ok ==> Movable(old(files), place) && files[0 := Some(FRESH)] == FailedAt(old(files), place)
    {
      var i := maxFiles;
      while i > 0
        invariant 0 <= i <= maxFiles && View() && OthersUntouched()
        invariant old(faults) == [] ==> faults == []
        invariant Halfway(old(files), files, i)
      {
        HalfwayStep(old(files), files, i);
        if files[i - 1].Some? {
          HalfwayFails(old(files), files, i);
        }
        ok := Shift(i);
        if !ok {
          place := i;
          return;
        }
        i := i - 1;
      }
      ok, place := true, 0;
    }

    /** base_sink's sink_it_: rotate when the estimate exceeds the limit, then append. */
    method SinkIt(formatted: Bytes) returns (ok: bool, ghost place: nat)
      requires Valid()
      modifies this`fs, this`files, this`faults, this`currentSize
      ensures Valid() && OthersUntouched()
      ensures old(faults) == [] ==> ok && faults == []
      ensures files == Logged(old(files), maxSize, Call(formatted, place))
      ensures ok <==> !Fails(old(files), maxSize, Call(formatted, place))
      ensures Fits(old(files), maxSize, formatted) ==> ok && Appended(old(files), files, formatted)
      ensures !Fits(old(files), maxSize, formatted) && ok ==>
                ContentOf(files[0]) == formatted && (maxFiles >= 1 ==> files[1] == old(files)[0])
    {
      ok, place := RotateAndAppend(formatted);
      AppendsExactlyWhenFits(old(files), maxSize, Call(formatted, place));
    }

    method RotateAndAppend(formatted: Bytes) returns (ok: bool, ghost place: nat)
      requires Valid()
      modifies this`fs, this`files, this`faults, this`currentSize
      ensures Valid() && OthersUntouched()
      ensures old(faults) == [] ==> ok && faults == []
      ensures files == Logged(old(files), maxSize, Call(formatted, place))
      ensures ok <==> !Fails(old(files), maxSize, Call(formatted, place))
    {
      assert StandsFor(CalcFilename(base, 0), fs, files[0]);
      place := 0;
      var newSize := currentSize + |formatted|;
      if newSize > maxSize && |fs[base]| > 0 {
        assert Due(files, maxSize, formatted);
        ok, place := Rotate();
        if !ok {
          return;
        }
        newSize := |formatted|;
      }
      assert !Fails(old(files), maxSize, Call(formatted, place));
      assert Logged(old(files), maxSize, Call(formatted, place)) == Written(files, formatted);
      Append(formatted);
      currentSize := newSize;
      ok := true;
    }

    method Append(formatted: Bytes)
      requires View() && files[0].Some?
      modifies this`fs, this`files
      ensures View() && OthersUntouched() && files == Written(old(files), formatted)
      ensures Content(files[0].value) == Content(old(files)[0].value) + formatted
    {
      assert StandsFor(CalcFilename(base, 0), fs, files[0]);
      FileGrows(files[0].value, formatted);
      fs := fs[base := fs[base] + formatted];
      files := Written(files, formatted);
      forall i | 0 <= i <= maxFiles ensures StandsFor(CalcFilename(base, i), fs, files[i]) {
        assert old(StandsFor(CalcFilename(base, i), fs, files[i]));
        if i != 0 && CalcFilename(base, i) == base { NamesDistinct(base, i, 0); }
      }
    }

    /** The member initializers. faults are the outcomes of the renames to come. */
    constructor (base: string, maxSize: nat, maxFiles: nat, fs: map<string, Bytes>, faults: seq<bool>, ghost files: Files)
      requires Holds(base, maxFiles, fs, files)
      ensures View() && this.base == base && this.maxSize == maxSize && this.maxFiles == maxFiles
      ensures this.fs == fs && this.files == files && this.faults == faults
    {
      this.base := base;
      this.maxSize, this.maxFiles := maxSize, maxFiles;
      this.fs, this.files := fs, files;
      this.faults := faults;
      currentSize := 0;
      new;
      assert forall i :: 0 <= i <= maxFiles ==> StandsFor(CalcFilename(base, i), fs, files[i]);
    }

    /** The constructor: it throws on a zero size and on too many files before touching any
        file, and when the rotation it was asked for fails. */
    static method Make(base: string, maxSize: nat, maxFiles: nat, rotateOnOpen: bool, fs: map<string, Bytes>,
                       faults: seq<bool>, ghost files: Files)
      returns (r: Option<RotatingFileSink>, after: map<string, Bytes>, ghost place: nat)
      requires Holds(base, maxFiles, fs, files)
      ensures maxSize == 0 || maxFiles > 200000 ==> r.None? && after == fs
      ensures r.None? && maxSize > 0 && maxFiles <= 200000 ==>
                && rotateOnOpen && faults != [] && ContentOf(Opened(files)[0]) != []
                && Movable(Opened(files), place) && Holds(base, maxFiles, after, FailedAt(Opened(files), place))
      ensures r.Some? ==> fresh(r.value) && r.value.Valid() && r.value.base == base
                          && r.value.maxSize == maxSize && r.value.maxFiles == maxFiles && r.value.fs == after
                          && r.value.files == (if rotateOnOpen && ContentOf(Opened(files)[0]) != []
                                               then Rotated(Opened(files)) else Opened(files))
    {
      if maxSize == 0 {
        return None, fs, 0;
      }
      if maxFiles > 200000 {
        return None, fs, 0;
      }
      var sink := new RotatingFileSink(base, maxSize, maxFiles, fs, faults, files);
      var ok;
      ok, place := sink.Start(rotateOnOpen);
      r, after := if ok then Some(sink) else None, sink.fs;
    }

    /** Opens file 0 and measures it; rotates first if asked to and there is something in it. */
    method Start(rotateOnOpen: bool) returns (ok: bool, ghost place: nat)
      requires View()
      modifies this`fs, this`files, this`faults, this`currentSize
      ensures View() && OthersUntouched()
      ensures old(faults) == [] ==> ok && faults == []
      ensures ok ==> Valid()
      ensures ok ==> files == if rotateOnOpen && ContentOf(Opened(old(files))[0]) != []
                              then Rotated(Opened(old(files))) else Opened(old(files))
      ensures !ok ==> && rotateOnOpen && ContentOf(Opened(old(files))[0]) != []
                      && Movable(Opened(old(files)), place) && files == FailedAt(Opened(old(files)), place)
    {
      Open(false);
      assert StandsFor(CalcFilename(base, 0), fs, files[0]);
      currentSize := |fs[base]|;
      ok, place := true, 0;
      if rotateOnOpen && currentSize > 0 {
        ok, place := Rotate();
        assert StandsFor(CalcFilename(base, 0), fs, files[0]);
        currentSize := 0;
      }
    }
  }
}
