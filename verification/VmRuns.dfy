/** Runs of the virtual-memory machine: a key that goes out and comes back, a swap write that fails,
    the job of another database canceled. */
module VmRuns {
  import opened Bytes
  import opened SwapFile
  import opened VmModel
  import opened VmInvariant
  import opened VmTheorems
  import opened VmDatabases

  lemma RunOne(s: State, e: Step, rest: seq<Step>)
    requires Enabled(s, e) && CanRun(Next(s, e), rest)
    ensures CanRun(s, [e] + rest) && Run(s, [e] + rest) == Run(Next(s, e), rest)
  {
    hide Enabled, Next, Whole;
    assert ([e] + rest)[1..] == rest;
  }

  lemma RunNone(s: State)
    ensures CanRun(s, []) && Run(s, []) == s
  {
  }

  /** No job anywhere and no child. */
  predicate Calm(s: State) {
    s.newjobs == [] && s.processing == [] && s.processed == [] && s.bgsave.None? && s.bgrewrite.None?
  }

  /** The state with one key in the given storage and the given jobs. */
  function With(s: State, k: Key, st: Storage, newjobs: seq<Job>, processing: seq<Job>, processed: seq<Job>): State {
    s.(keys := s.keys[k := st], newjobs := newjobs, processing := processing, processed := processed)
  }

  /** The job that prepares the swap of the key, as it is queued. */
  function Prepare(k: Key, v: Value): Job { Job(PrepareSwap, k, Some(v), v.vtype, 0, 0, false, false) }

  /** The same job when the pages are counted. */
  function Prepared(k: Key, v: Value): Job { Prepare(k, v).(pages := PagesOf(v), done := true) }

  /** The job that writes the value to the pages from `f` on. */
  function Write(k: Key, v: Value, f: nat): Job { Prepared(k, v).(kind := DoSwap, page := f, done := false) }

  lemma SwapTake(s: State, k: Key, v: Value)
    requires Calm(s) && k in s.keys && s.keys[k] == Memory(v)
    ensures var j := Prepare(k, v); var s1 := With(s, k, Swapping(v), [j], [], []);
      && Enabled(s, StSwapOut(k)) && Next(s, StSwapOut(k)) == s1
      && Enabled(s1, StTake) && Next(s1, StTake) == With(s, k, Swapping(v), [], [j], [])
  {
    hide Whole, PagesOf;
    var j := Prepare(k, v);
    assert [] + [j] == [j] && [j][1..] == [];
  }

  lemma PrepareFinish(s: State, k: Key, v: Value)
    ensures var j, p := Prepare(k, v), Prepared(k, v);
      var s2, s3 := With(s, k, Swapping(v), [], [j], []), With(s, k, Swapping(v), [], [p], []);
      && Enabled(s2, StPerform(0)) && Next(s2, StPerform(0)) == s3
      && Enabled(s3, StFinish(0)) && Next(s3, StFinish(0)) == With(s, k, Swapping(v), [], [], [p])
  {
    hide PagesOf, Whole;
    var j, p := Prepare(k, v), Prepared(k, v);
    assert [j][0 := p] == [p] && [p][..0] + [p][1..] == [] && [] + [p] == [p];
  }

  lemma CompleteTake(s: State, k: Key, v: Value, f: nat)
    requires Calm(s) && FreeRange(s.bitmap, f, PagesOf(v))
    ensures var p, w := Prepared(k, v), Write(k, v, f); var m := MarkUsed(s, f, PagesOf(v));
      var s4, s5 := With(s, k, Swapping(v), [], [], [p]), With(m, k, Swapping(v), [w], [], []);
      && Enabled(s4, StComplete(Some(f))) && Next(s4, StComplete(Some(f))) == s5
      && Enabled(s5, StTake) && Next(s5, StTake) == With(m, k, Swapping(v), [], [w], [])
  {
    hide PagesOf, Whole, SetRange;
    var p, w := Prepared(k, v), Write(k, v, f);
    assert [p][1..] == [] && [] + [w] == [w] && [w][1..] == [];
  }

  /** From a calm state to the moment when a thread holds the write of the key's value. */
  lemma ToTheWrite(s: State, k: Key, v: Value, f: nat)
    requires Calm(s) && k in s.keys && s.keys[k] == Memory(v) && FreeRange(s.bitmap, f, PagesOf(v))
    ensures var steps := [StSwapOut(k), StTake, StPerform(0), StFinish(0), StComplete(Some(f)), StTake];
      && CanRun(s, steps)
      && Run(s, steps) == With(MarkUsed(s, f, PagesOf(v)), k, Swapping(v), [], [Write(k, v, f)], [])
  {
    hide Run, CanRun, Next, Enabled, PagesOf, FreeRange, MarkUsed, Whole;
    var j, p, w, m := Prepare(k, v), Prepared(k, v), Write(k, v, f), MarkUsed(s, f, PagesOf(v));
    SwapTake(s, k, v);
    PrepareFinish(s, k, v);
    CompleteTake(s, k, v, f);
    RunNone(With(m, k, Swapping(v), [], [w], []));
    var r5 := [StTake] + [];
    RunOne(With(m, k, Swapping(v), [w], [], []), StTake, []);
    var r4 := [StComplete(Some(f))] + r5;
    RunOne(With(s, k, Swapping(v), [], [], [p]), StComplete(Some(f)), r5);
    var r3 := [StFinish(0)] + r4;
    RunOne(With(s, k, Swapping(v), [], [p], []), StFinish(0), r4);
    var r2 := [StPerform(0)] + r3;
    RunOne(With(s, k, Swapping(v), [], [j], []), StPerform(0), r3);
    var r1 := [StTake] + r2;
    RunOne(With(s, k, Swapping(v), [j], [], []), StTake, r2);
    RunOne(s, StSwapOut(k), r1);
    assert [StSwapOut(k)] + r1 == [StSwapOut(k), StTake, StPerform(0), StFinish(0), StComplete(Some(f)), StTake];
  }

  // ---------------------------------------------------------------- out and in again

  /** The state after a key's value went to the pages from `f` on. */
  function SwappedOut(s: State, k: Key, v: Value, f: nat): State {
    MarkUsed(s, f, PagesOf(v)).(file := WriteValue(s.file, f, v), swappedObjects := s.swappedObjects + 1,
      keys := s.keys[k := Swapped(f, PagesOf(v), v.vtype)])
  }

  lemma WriteFinish(m: State, k: Key, v: Value, f: nat)
    ensures var w := Write(k, v, f); var d, n := w.(done := true), m.(file := WriteValue(m.file, f, v));
      var s6, s7 := With(m, k, Swapping(v), [], [w], []), With(n, k, Swapping(v), [], [d], []);
      && Enabled(s6, StPerform(0)) && Next(s6, StPerform(0)) == s7
      && Enabled(s7, StFinish(0)) && Next(s7, StFinish(0)) == With(n, k, Swapping(v), [], [], [d])
  {
    hide PagesOf, Whole, WriteValue;
    var w := Write(k, v, f);
    var d := w.(done := true);
    assert [w][0 := d] == [d] && [d][..0] + [d][1..] == [] && [] + [d] == [d];
  }

  lemma WriteComplete(s: State, k: Key, v: Value, f: nat)
    requires Calm(s)
    ensures var d, n := Write(k, v, f).(done := true), MarkUsed(s, f, PagesOf(v)).(file := WriteValue(s.file, f, v));
      var s8 := With(n, k, Swapping(v), [], [], [d]);
      Enabled(s8, StComplete(None)) && Next(s8, StComplete(None)) == SwappedOut(s, k, v, f)
  {
    hide PagesOf, Whole, SetRange, WriteValue;
    var d := Write(k, v, f).(done := true);
    assert [d][1..] == [];
  }

  lemma LoadTake(s: State, k: Key, f: nat, n: nat, t: byte)
    requires Calm(s) && k in s.keys && s.keys[k] == Swapped(f, n, t)
    ensures var l := Job(Load, k, None, t, f, 0, false, false); var d := l.(val := Read(s.file, f, t), done := true);
      var s1, s2 := With(s, k, Loading(f, n, t), [l], [], []), With(s, k, Loading(f, n, t), [], [l], []);
      && Enabled(s, StWaitFor(k)) && Next(s, StWaitFor(k)) == s1
      && Enabled(s1, StTake) && Next(s1, StTake) == s2
      && Enabled(s2, StPerform(0)) && Next(s2, StPerform(0)) == With(s, k, Loading(f, n, t), [], [d], [])
  {
    hide PagesOf, Whole, Read;
    var l := Job(Load, k, None, t, f, 0, false, false);
    var d := l.(val := Read(s.file, f, t), done := true);
    assert [] + [l] == [l] && [l][1..] == [] && [l][0 := d] == [d];
  }

  lemma LoadComplete(s: State, k: Key, v: Value, f: nat, n: nat)
    requires Calm(s)
    ensures var d := Job(Load, k, Some(v), v.vtype, f, 0, false, true); var st := Loading(f, n, v.vtype);
      var s3, s4 := With(s, k, st, [], [d], []), With(s, k, st, [], [], [d]);
      && Enabled(s3, StFinish(0)) && Next(s3, StFinish(0)) == s4
      && Enabled(s4, StComplete(None)) && Next(s4, StComplete(None)) ==
           MarkFree(s, f, n).(swappedObjects := s.swappedObjects - 1, keys := s.keys[k := Memory(v)])
  {
    hide PagesOf, Whole, SetRange;
    var d := Job(Load, k, Some(v), v.vtype, f, 0, false, true);
    assert [d][..0] + [d][1..] == [] && [] + [d] == [d] && [d][1..] == [];
  }

  const WRITTEN := [StPerform(0), StFinish(0), StComplete(None)]

  /** Swapping a key out and using it again, from any calm state and to any free pages: in between
      the key is on those pages, nothing else has changed, and they hold its bytes; at the end keys,
      bitmap and counters are what they were. */
  lemma OutAndIn(s: State, k: Key, v: Value, f: nat)
    requires Inv(s) && Calm(s) && k in s.keys && s.keys[k] == Memory(v) && FreeRange(s.bitmap, f, PagesOf(v))
    ensures
      var out := [StSwapOut(k), StTake, StPerform(0), StFinish(0), StComplete(Some(f)), StTake] + WRITTEN;
      CanRun(s, out) && var m := Run(s, out);
      && m == SwappedOut(s, k, v, f) && Read(m.file, f, v.vtype) == Some(v) && Holds(m.file, f, v)
      && var back := [StWaitFor(k), StTake, StPerform(0), StFinish(0), StComplete(None)];
        CanRun(m, back) && Run(m, back) == s.(file := m.file)
  {
    hide Run, CanRun, Next, Enabled, PagesOf, FreeRange, Whole, Inv, SwappedOut, Read, Holds, Write;
    OutOfMemory(s, k, v, f);
    SameLength(s);
    InSwappedFile(s, k, v, f);
    BackInMemory(s, k, v, f);
  }

  lemma OutOfMemory(s: State, k: Key, v: Value, f: nat)
    requires Calm(s) && k in s.keys && s.keys[k] == Memory(v) && FreeRange(s.bitmap, f, PagesOf(v))
    ensures
      var out := [StSwapOut(k), StTake, StPerform(0), StFinish(0), StComplete(Some(f)), StTake] + WRITTEN;
      CanRun(s, out) && Run(s, out) == SwappedOut(s, k, v, f)
  {
    hide Run, CanRun, Next, Enabled, PagesOf, FreeRange, Whole, MarkUsed, SwappedOut, WriteValue;
    var a := [StSwapOut(k), StTake, StPerform(0), StFinish(0), StComplete(Some(f)), StTake];
    ToTheWrite(s, k, v, f);
    WriteFinish(MarkUsed(s, f, PagesOf(v)), k, v, f);
    WriteComplete(s, k, v, f);
    SameFile(s, f, PagesOf(v));
    var w, m := Write(k, v, f), MarkUsed(s, f, PagesOf(v));
    var d, n := w.(done := true), m.(file := WriteValue(s.file, f, v));
    RunNone(SwappedOut(s, k, v, f));
    RunOne(With(n, k, Swapping(v), [], [], [d]), StComplete(None), []);
    RunOne(With(n, k, Swapping(v), [], [d], []), StFinish(0), [StComplete(None)] + []);
    RunOne(With(m, k, Swapping(v), [], [w], []), StPerform(0), [StFinish(0)] + ([StComplete(None)] + []));
    assert [StPerform(0)] + ([StFinish(0)] + ([StComplete(None)] + [])) == WRITTEN;
    RunMore(s, a, WRITTEN);
  }

  lemma SameFile(s: State, f: nat, n: nat)
    ensures MarkUsed(s, f, n).file == s.file
  {
  }

  lemma {:induction false} RunMore(s: State, a: seq<Step>, b: seq<Step>)
    requires CanRun(s, a) && CanRun(Run(s, a), b)
    ensures CanRun(s, a + b) && Run(s, a + b) == Run(Run(s, a), b)
    decreases |a|
  {
    hide Enabled, Next;
    if a == [] {
      assert a + b == b;
    } else {
      RunMore(Next(s, a[0]), a[1..], b);
      assert (a + b)[1..] == a[1..] + b;
    }
  }

  lemma SameLength(s: State)
    requires Inv(s)
    ensures |s.file| == |s.bitmap|
  {
    hide KeysOk, QueuesOk, StatsOk, ChildrenOk;
  }

  lemma InSwappedFile(s: State, k: Key, v: Value, f: nat)
    requires |s.file| == |s.bitmap| && FreeRange(s.bitmap, f, PagesOf(v))
    ensures Read(SwappedOut(s, k, v, f).file, f, v.vtype) == Some(v) && Holds(SwappedOut(s, k, v, f).file, f, v)
  {
    hide PagesOf, Whole, Read, Holds, WriteValue;
    WriteThenRead(s.file, f, v);
  }

  lemma BackInMemory(s: State, k: Key, v: Value, f: nat)
    requires Calm(s) && k in s.keys && s.keys[k] == Memory(v) && FreeRange(s.bitmap, f, PagesOf(v))
    requires Read(SwappedOut(s, k, v, f).file, f, v.vtype) == Some(v)
    ensures var m := SwappedOut(s, k, v, f);
      var back := [StWaitFor(k), StTake, StPerform(0), StFinish(0), StComplete(None)];
      CanRun(m, back) && Run(m, back) == s.(file := m.file)
  {
    hide Run, CanRun, Next, Enabled, PagesOf, Whole, Read, WriteValue;
    var m, n, t := SwappedOut(s, k, v, f), PagesOf(v), v.vtype;
    var l, st := Job(Load, k, None, t, f, 0, false, false), Loading(f, n, t);
    var d := Job(Load, k, Some(v), t, f, 0, false, true);
    LoadTake(m, k, f, n, t);
    LoadComplete(m, k, v, f, n);
    var e := s.(file := m.file);
    assert SetRange(SetRange(s.bitmap, f, n, true), f, n, false) == s.bitmap;
    assert m.keys[k := Memory(v)] == s.keys;
    RunNone(e);
    RunOne(With(m, k, st, [], [], [d]), StComplete(None), []);
    RunOne(With(m, k, st, [], [d], []), StFinish(0), [StComplete(None)] + []);
    var r := [StFinish(0)] + ([StComplete(None)] + []);
    RunOne(With(m, k, st, [], [l], []), StPerform(0), r);
    RunOne(With(m, k, st, [l], [], []), StTake, [StPerform(0)] + r);
    RunOne(m, StWaitFor(k), [StTake] + ([StPerform(0)] + r));
    assert [StWaitFor(k)] + ([StTake] + ([StPerform(0)] + r))
      == [StWaitFor(k), StTake, StPerform(0), StFinish(0), StComplete(None)];
  }

  // ---------------------------------------------------------------- a failed write

  /** A server with `n` free pages whose only key is in memory. */
  function OneKey(n: nat, k: Key, v: Value): State { Init(n).(keys := map[k := Memory(v)]) }

  lemma StoreFirst(n: nat, k: Key, v: Value)
    ensures Enabled(Init(n), StStore(k, v)) && Next(Init(n), StStore(k, v)) == OneKey(n, k, v) && Calm(OneKey(n, k, v))
  {
    hide Whole;
  }

  /** A key is stored, swapped out by a thread, and the write fails: from an empty server with room
      for the value, the key ends up SWAPPING with no job, and no use of it is possible any more. */
  lemma FailedWriteRun(n: nat, k: Key, v: Value)
    requires PagesOf(v) <= n
    ensures
      var steps := [StStore(k, v), StSwapOut(k), StTake, StPerform(0), StFinish(0), StComplete(Some(0)), StTake];
      CanRun(Init(n), steps) && var s := Run(Init(n), steps);
      && |s.processing| == 1 && s.processing[0].kind == DoSwap && !s.processing[0].done && Inv(s)
      && var f := Finish(PerformFailed(s, 0), 0);
        f.keys == map[k := Swapping(v)] && !Reachable(f, k) && !Inv(f)
  {
    hide Run, CanRun, Inv, Next, Enabled, FindJob, PagesOf, Whole;
    StoreFirst(n, k, v);
    var b := OneKey(n, k, v);
    ToTheWrite(b, k, v, 0);
    var rest := [StSwapOut(k), StTake, StPerform(0), StFinish(0), StComplete(Some(0)), StTake];
    RunOne(Init(n), StStore(k, v), rest);
    var steps := [StStore(k, v), StSwapOut(k), StTake, StPerform(0), StFinish(0), StComplete(Some(0)), StTake];
    assert [StStore(k, v)] + rest == steps;
    EveryRunIsSafe(n, steps);
    FailedWriteBreaksKey(With(MarkUsed(b, 0, PagesOf(v)), k, Swapping(v), [], [Write(k, v, 0)], []), 0);
  }

  // ---------------------------------------------------------------- two databases

  /** A server whose two keys are in the given states, with the given new jobs. */
  function Pair(n: nat, a: Key, b: Key, st: Storage, su: Storage, newjobs: seq<Job>): State {
    State(map[a := st, b := su], newjobs, [], [], seq(n, _ => false), 0, 0, seq(n, _ => ZEROS), None, None)
  }

  lemma StoreSecond(n: nat, a: Key, b: Key, v: Value, w: Value)
    requires a != b
    ensures var s1 := OneKey(n, a, v);
      Enabled(s1, StStore(b, w)) && Next(s1, StStore(b, w)) == Pair(n, a, b, Memory(v), Memory(w), [])
  {
  }

  lemma SwapBoth(n: nat, a: Key, b: Key, v: Value, w: Value)
    requires a != b
    ensures var s2 := Pair(n, a, b, Memory(v), Memory(w), []);
      var s3 := Pair(n, a, b, Swapping(v), Memory(w), [Prepare(a, v)]);
      && Enabled(s2, StSwapOut(a)) && Next(s2, StSwapOut(a)) == s3 && Enabled(s3, StSwapOut(b))
      && Next(s3, StSwapOut(b)) == Pair(n, a, b, Swapping(v), Swapping(w), [Prepare(a, v), Prepare(b, w)])
  {
    hide Whole, PagesOf;
    assert [] + [Prepare(a, v)] == [Prepare(a, v)];
    assert [Prepare(a, v)] + [Prepare(b, w)] == [Prepare(a, v), Prepare(b, w)];
  }

  lemma FirstIsFound(n: nat, a: Key, b: Key, v: Value, w: Value)
    requires a != b && a.name == b.name
    ensures var s4 := Pair(n, a, b, Swapping(v), Swapping(w), [Prepare(a, v), Prepare(b, w)]);
      && Found(s4, b.name) == Some(Prepare(a, v))
      && CancelByName(s4, b) == Some(Pair(n, a, b, Swapping(v), Memory(w), [Prepare(b, w)]))
  {
    var q := [Prepare(a, v), Prepare(b, w)];
    assert FindName(q, b.name) == 0 && Remove(q, 0) == [Prepare(b, w)];
    var keys := map[a := Swapping(v), b := Swapping(w)];
    assert keys[b := Undo(keys[b])] == map[a := Swapping(v), b := Memory(w)];
  }

  /** Two keys of one name in two databases are swapped out, and the second is then used: the job of
      the first is canceled, and the first ends up SWAPPING with no job. */
  lemma SameNameRun(n: nat, name: string, v: Value, w: Value)
    ensures var a, b := Key(0, name), Key(1, name);
      var steps := [StStore(a, v), StStore(b, w), StSwapOut(a), StSwapOut(b)];
      CanRun(Init(n), steps) && var s := Run(Init(n), steps);
      && Inv(s) && b in s.keys && CancelByName(s, b).Some? && var r := CancelByName(s, b).value;
        r.keys == map[a := Swapping(v), b := Memory(w)] && !Reachable(r, a) && !Inv(r)
  {
    hide Run, CanRun, Inv, Next, Enabled, FindJob, FindName, CancelByName, Found, Whole;
    var a, b := Key(0, name), Key(1, name);
    StoreFirst(n, a, v);
    StoreSecond(n, a, b, v, w);
    SwapBoth(n, a, b, v, w);
    FirstIsFound(n, a, b, v, w);
    var s4 := Pair(n, a, b, Swapping(v), Swapping(w), [Prepare(a, v), Prepare(b, w)]);
    RunNone(s4);
    var r3 := [StSwapOut(b)] + [];
    RunOne(Pair(n, a, b, Swapping(v), Memory(w), [Prepare(a, v)]), StSwapOut(b), []);
    var r2 := [StSwapOut(a)] + r3;
    RunOne(Pair(n, a, b, Memory(v), Memory(w), []), StSwapOut(a), r3);
    var r1 := [StStore(b, w)] + r2;
    RunOne(OneKey(n, a, v), StStore(b, w), r2);
    RunOne(Init(n), StStore(a, v), r1);
    var steps := [StStore(a, v), StStore(b, w), StSwapOut(a), StSwapOut(b)];
    assert [StStore(a, v)] + r1 == steps;
    EveryRunIsSafe(n, steps);
    CancelByNameIff(s4, b);
  }
}
