/** What every run of the virtual-memory subsystem guarantees. */
module VmTheorems {
  import opened Bytes
  import opened SwapFile
  import opened VmModel
  import opened VmInvariant
  import opened VmSteps

  /** What a step means to clients: the database is a plain map that only commands change. */
  function AbsNext(m: map<Key, Value>, st: Step): map<Key, Value> {
    match st
    case StDelete(k) => m - {k}
    case StStore(k, v) => m[k := v]
    case _ => m
  }

  function AbsRun(m: map<Key, Value>, steps: seq<Step>): map<Key, Value>
    decreases |steps|
  {
    if steps == [] then m else AbsRun(AbsNext(m, steps[0]), steps[1..])
  }

  /** One key changed its place but not its value. */
  lemma MovedKeeps(s: State, s': State, k: Key)
    requires Inv(s) && KeyStep(s, s', k)
    requires k in s.keys && k in s'.keys && ValueOf(s'.file, s'.keys[k]) == ValueOf(s.file, s.keys[k])
    ensures Inv(s') && Content(s') == Content(s)
  {
    hide KeyStep, Inv, ValueOf, Whole;
    KeyStepKeeps(s, s', k);
    KeyStepContent(s, s', k);
    assert Content(s)[k := Content(s)[k]] == Content(s);
  }

  lemma CancelKeeps(s: State, k: Key)
    requires Inv(s) && CanCancel(s, k)
    ensures Inv(Cancel(s, k)) && Content(Cancel(s, k)) == Content(s)
    ensures k in Cancel(s, k).keys && (Cancel(s, k).keys[k].Swapped? || Cancel(s, k).keys[k].Memory?)
  {
    hide KeyStep, Inv, Cancel, Read, Whole;
    CancelStep(s, k);
    MovedKeeps(s, Cancel(s, k), k);
  }

  lemma SettleKeeps(s: State, k: Key)
    requires Inv(s) && Reachable(s, k)
    ensures Inv(Settle(s, k)) && Content(Settle(s, k)) == Content(s)
    ensures k in Settle(s, k).keys ==> Settle(s, k).keys[k].Swapped? || Settle(s, k).keys[k].Memory?
  {
    hide Inv, Cancel, CanCancel, Whole;
    if k in s.keys && (s.keys[k].Loading? || s.keys[k].Swapping?) { CancelKeeps(s, k); }
  }

  /** A lookup leaves the value in memory, and it is the value last stored. */
  lemma LookupKeeps(s: State, k: Key)
    requires Inv(s) && Reachable(s, k)
    ensures Inv(Lookup(s, k)) && Content(Lookup(s, k)) == Content(s)
    ensures k in Content(s) ==> k in Lookup(s, k).keys && Lookup(s, k).keys[k] == Memory(Content(s)[k])
    ensures k !in Content(s) ==> k !in Lookup(s, k).keys
  {
    hide Inv, KeyStep, Settle, Reachable, BringIn, Read, Whole;
    var s1 := Settle(s, k);
    SettleKeeps(s, k);
    if k in s1.keys && s1.keys[k].Swapped? {
      BringInStep(s1, k);
      MovedKeeps(s1, BringIn(s1, k), k);
    }
    HasContent(s1, k);
  }

  lemma HasContent(s: State, k: Key)
    requires Inv(s)
    ensures k in s.keys <==> k in Content(s)
    ensures k in s.keys && s.keys[k].Memory? ==> Content(s)[k] == s.keys[k].val
  {
    hide KeyOk, Live, Read, Whole;
    AllReadable(s, k);
  }

  lemma DeleteKeeps(s: State, k: Key)
    requires Inv(s) && Reachable(s, k)
    ensures Inv(Delete(s, k)) && Content(Delete(s, k)) == Content(s) - {k} && k !in Delete(s, k).keys
  {
    hide Inv, KeyStep, Settle, Reachable, Content, Whole;
    SettleKeeps(s, k);
    var s1 := Settle(s, k);
    DropStep(s1, k);
    KeyStepKeeps(s1, Drop(s1, k), k);
    KeyStepContent(s1, Drop(s1, k), k);
  }

  lemma StoreKeeps(s: State, k: Key, v: Value)
    requires Inv(s) && Reachable(s, k)
    ensures Inv(Store(s, k, v)) && Content(Store(s, k, v)) == Content(s)[k := v]
  {
    hide Inv, KeyStep, Delete, Reachable, Content, Whole;
    var s1 := if k in s.keys && !s.keys[k].Memory? then Delete(s, k) else s;
    if k in s.keys && !s.keys[k].Memory? { DeleteKeeps(s, k); }
    PutStep(s1, k, v);
    KeyStepKeeps(s1, Store(s, k, v), k);
    KeyStepContent(s1, Store(s, k, v), k);
    assert (Content(s) - {k})[k := v] == Content(s)[k := v];
  }

  lemma WaitForKeeps(s: State, k: Key)
    requires Inv(s) && Enabled(s, StWaitFor(k))
    ensures Inv(WaitFor(s, k)) && Content(WaitFor(s, k)) == Content(s)
  {
    hide Inv, KeyStep, Cancel, CanCancel, Content, Read, Whole;
    if k in s.keys && s.keys[k].Swapping? { CancelKeeps(s, k); }
    if k in s.keys && s.keys[k].Swapped? {
      LoadJobStep(s, k);
      MovedKeeps(s, WaitFor(s, k), k);
    }
  }

  lemma SwapOutKeeps(s: State, k: Key)
    requires Inv(s) && k in s.keys && s.keys[k].Memory?
    ensures Inv(SwapOut(s, k)) && Content(SwapOut(s, k)) == Content(s)
  {
    hide Inv, KeyStep, Content, Read, Whole;
    SwapOutStep(s, k);
    MovedKeeps(s, SwapOut(s, k), k);
  }

  lemma SwapOutBlockingKeeps(s: State, k: Key, page: nat)
    requires Inv(s) && Enabled(s, StSwapOutBlocking(k, page))
    ensures Inv(SwapOutBlocking(s, k, page)) && Content(SwapOutBlocking(s, k, page)) == Content(s)
  {
    hide Inv, KeyStep, Content, Read, FreeRange, SetRange, WriteValue, Whole;
    SwapOutBlockingStep(s, k, page);
    MovedKeeps(s, SwapOutBlocking(s, k, page), k);
  }

  lemma PerformKeeps(s: State, i: nat)
    requires Inv(s) && i < |s.processing| && !s.processing[i].done
    ensures Inv(Perform(s, i)) && Content(Perform(s, i)) == Content(s)
  {
    hide KeyStep, Content, KeyOk, Live, WriteValue, Whole;
    var j := s.processing[i];
    assert j in s.processing;
    OneLiveJob(s, j);
    PerformStep(s, i);
    PerformSameValue(s, i);
    MovedKeeps(s, Perform(s, i), j.key);
  }

  /** A write by an I/O thread does not change any value, including its own key's. */
  lemma PerformSameValue(s: State, i: nat)
    requires Inv(s) && i < |s.processing| && !s.processing[i].canceled && s.processing[i].key in s.keys
    ensures var k := s.processing[i].key;
      Perform(s, i).keys == s.keys && ValueOf(Perform(s, i).file, s.keys[k]) == ValueOf(s.file, s.keys[k])
  {
    hide Inv, Read, Live, WriteValue, Whole;
    OneLiveJob(s, s.processing[i]) by { assert KeysOk(s) by { InvKeys(s); } }
  }

  lemma InvKeys(s: State)
    requires Inv(s)
    ensures KeysOk(s) && QueuesOk(s)
  {
    hide KeysOk, QueuesOk, Whole;
  }

  lemma CompleteKeeps(s: State, page: Option<nat>)
    requires Inv(s) && Enabled(s, StComplete(page))
    ensures Inv(Complete(s, page)) && Content(Complete(s, page)) == Content(s)
  {
    hide Inv, KeyStep, Content, FreeRange, SetRange, Live, Read, Whole;
    InvKeys(s);
    var s' := Complete(s, page);
    var j := s.processed[0];
    if j.canceled {
      CompleteCanceledKeeps(s, page);
    } else {
      CompletedJob(s);
      match j.kind {
        case Load => CompleteLoadStep(s, page);
        case DoSwap => CompleteSwapStep(s, page);
        case PrepareSwap =>
          if !CanSwapOut(s) || page.None? { CompleteUndoStep(s, page); } else { CompletePrepareStep(s, page); }
      }
      MovedKeeps(s, s', j.key);
    }
  }

  /** Forking with empty queues: the child's view is exactly the database at that moment. */
  lemma ForkKeeps(s: State)
    requires Inv(s) && s.newjobs == [] && s.processing == []
    ensures ChildOk(s.file, Some(Child(s.keys, Content(s))))
    ensures s.bgsave.None? ==> Inv(s.(bgsave := Some(Child(s.keys, Content(s)))))
    ensures s.bgrewrite.None? ==> Inv(s.(bgrewrite := Some(Child(s.keys, Content(s)))))
  {
    hide ValueOf, KeyOk, RangeOf, CountUsed, DiskKeys, Whole;
    var c := Some(Child(s.keys, Content(s)));
    forall k | k in s.keys ensures ValueOf(s.file, s.keys[k]).Some? { AllReadable(s, k); }
    assert ChildOk(s.file, c);
    var s1 := s.(bgsave := c);
    var s2 := s.(bgrewrite := c);
    forall k ensures ViewOf(s1, k) == ViewOf(s, k) && ViewOf(s2, k) == ViewOf(s, k) {}
    SameViews(s, s1);
    SameViews(s, s2);
  }

  lemma ExitKeeps(s: State)
    requires Inv(s)
    ensures Inv(s.(bgsave := None)) && Inv(s.(bgrewrite := None))
  {
    hide ValueOf, KeyOk, RangeOf, CountUsed, DiskKeys, Whole;
    var s1 := s.(bgsave := None);
    var s2 := s.(bgrewrite := None);
    forall k ensures ViewOf(s1, k) == ViewOf(s, k) && ViewOf(s2, k) == ViewOf(s, k) {}
    SameViews(s, s1);
    SameViews(s, s2);
  }

  lemma CommandKeeps(s: State, st: Step)
    requires Inv(s) && Enabled(s, st) && (st.StLookup? || st.StDelete? || st.StStore? || st.StWaitFor?)
    ensures Inv(Next(s, st)) && Content(Next(s, st)) == AbsNext(Content(s), st)
  {
    hide Inv, Content, Lookup, Delete, Store, WaitFor, Whole;
    match st
    case StLookup(k) => LookupKeeps(s, k);
    case StDelete(k) => DeleteKeeps(s, k);
    case StStore(k, v) => StoreKeeps(s, k, v);
    case StWaitFor(k) => WaitForKeeps(s, k);
  }

  /** Every step keeps the invariant and acts on the database as a plain map. */
  lemma StepKeeps(s: State, st: Step)
    requires Inv(s) && Enabled(s, st)
    ensures Inv(Next(s, st)) && Content(Next(s, st)) == AbsNext(Content(s), st)
  {
    hide Inv, Lookup, Delete, Store, WaitFor, SwapOut, SwapOutBlocking, Perform, Complete, ValueOf, Whole;
    match st
    case StSwapOut(k) => SwapOutKeeps(s, k);
    case StSwapOutBlocking(k, page) => SwapOutBlockingKeeps(s, k, page);
    case StTake => TakeKeeps(s);
    case StPerform(i) => PerformKeeps(s, i);
    case StFinish(i) => FinishKeeps(s, i);
    case StComplete(page) => CompleteKeeps(s, page);
    case StForkSave => ForkKeeps(s);
    case StForkRewrite => ForkKeeps(s);
    case StSaveExit => ExitKeeps(s);
    case StRewriteExit => ExitKeeps(s);
    case _ => CommandKeeps(s, st);
  }

  lemma {:induction false} NoneUsed(n: nat)
    ensures CountUsed(seq(n, _ => false)) == 0
  {
    if n > 0 {
      assert seq(n, _ => false)[1..] == seq(n - 1, _ => false);
      NoneUsed(n - 1);
    }
  }

  lemma InitOk(vmPages: nat)
    ensures Inv(Init(vmPages)) && Content(Init(vmPages)) == map[]
  {
    var s := Init(vmPages);
    forall k ensures ViewOf(s, k) == View(None, []) {}
    NoneUsed(vmPages);
    assert DiskKeys(s.keys) == {};
  }

  lemma {:induction false} RunKeeps(s: State, steps: seq<Step>)
    requires Inv(s) && CanRun(s, steps)
    ensures Inv(Run(s, steps)) && Content(Run(s, steps)) == AbsRun(Content(s), steps)
    decreases |steps|
  {
    hide Inv, Content, Next, Enabled, AbsNext, Whole;
    if steps != [] {
      StepKeeps(s, steps[0]);
      RunKeeps(Next(s, steps[0]), steps[1..]);
    }
  }

  /** Main theorem: in every reachable state the invariant holds, and the database seen through
      memory, swap file and jobs is the map that the commands alone would have produced. */
  lemma EveryRunIsSafe(vmPages: nat, steps: seq<Step>)
    requires CanRun(Init(vmPages), steps)
    ensures Inv(Run(Init(vmPages), steps))
    ensures Content(Run(Init(vmPages), steps)) == AbsRun(map[], steps)
  {
    hide Inv, Content, Whole;
    InitOk(vmPages);
    RunKeeps(Init(vmPages), steps);
  }

  /** The non-canceled jobs naming a key are exactly what its storage state says. */
  lemma StorageTellsJobs(s: State, k: Key)
    requires Inv(s)
    ensures k in s.keys && s.keys[k].Swapping? <==> |Live(s, k)| == 1 && Live(s, k)[0].kind != Load
    ensures k in s.keys && s.keys[k].Loading? <==> |Live(s, k)| == 1 && Live(s, k)[0].kind == Load
    ensures |Live(s, k)| <= 1
  {
    hide Live, Read, Whole;
    assert KeyOk(s.file, ViewOf(s, k));
  }

  /** Every used page has exactly one owner and every owned page is used. */
  lemma PageHasOneOwner(s: State, p: nat)
    requires Inv(s) && p < |s.bitmap|
    ensures s.bitmap[p] <==> exists k :: Covers(ViewOf(s, k), p)
    ensures forall k, k' :: Covers(ViewOf(s, k), p) && Covers(ViewOf(s, k'), p) ==> k == k'
  {
    hide ViewOf, Covers, KeyOk, Whole;
  }

  /** The search loop of vmCancelThreadedIOJob never falls through: the job of a key being
      swapped or loaded is in a queue, and if a thread holds it, it can be canceled once the
      thread is done with it. */
  lemma CancelNeverFallsThrough(s: State, k: Key)
    requires Inv(s) && k in s.keys && (s.keys[k].Swapping? || s.keys[k].Loading?)
    ensures CanCancel(s, k) || FindJob(s.processing, k) < |s.processing|
  {
    hide FindJob, Whole;
    assert KeyOk(s.file, ViewOf(s, k));
    FindJobSpec(s.newjobs, k);
    FindJobSpec(s.processing, k);
    FindJobSpec(s.processed, k);
  }

  /** A key with a new job has none in the hands of a thread. */
  lemma NotTwice(s: State, k: Key)
    requires Inv(s) && FindJob(s.newjobs, k) < |s.newjobs|
    ensures FindJob(s.processing, k) == |s.processing|
  {
    hide FindJob, JobsOf, Whole;
    FindJobSpec(s.newjobs, k);
    FindJobSpec(s.processing, k);
    OneLiveJob(s, s.newjobs[FindJob(s.newjobs, k)]);
  }

  // ---------------------------------------------------------------- failed writes

  /** The thread's other outcome of a DO_SWAP job: the write failed and the thread itself
      marked the job as canceled. */
  function PerformFailed(s: State, i: nat): State
    requires i < |s.processing|
  {
    s.(processing := s.processing[i := s.processing[i].(canceled := true, done := true)])
  }

  lemma FailedLive(s: State, i: nat)
    requires KeysOk(s) && i < |s.processing| && !s.processing[i].canceled
    ensures Live(Finish(PerformFailed(s, i), i), s.processing[i].key) == []
  {
    hide JobsOf, Whole;
    var j := s.processing[i];
    var j' := j.(canceled := true, done := true);
    OneLiveJob(s, j);
    JobsOfSplit(s.processing, i, j.key);
    JobsOfUpdate(s.processing, i, j', j.key);
    JobsOfSplit(s.processing[i := j'], i, j.key);
    JobsOfAppend(s.processed, j', j.key);
    var q := s.processing[i := j'];
    assert q[..i] == s.processing[..i] && q[i + 1..] == s.processing[i + 1..];
  }

  /** The invariant survives the I/O of a DO_SWAP job if and only if the write succeeds: a
      failed write always leaves its key SWAPPING without a job, so that the next use of the
      key falls through the search for it and fails the assertion there. */
  lemma FailedWriteBreaksKey(s: State, i: nat)
    requires Inv(s) && i < |s.processing| && s.processing[i].kind == DoSwap && !s.processing[i].done
    ensures Inv(Finish(Perform(s, i), i))
    ensures var s' := Finish(PerformFailed(s, i), i); var k := s.processing[i].key;
      && k in s'.keys && s'.keys[k].Swapping? && !Inv(s')
      && FindJob(s'.newjobs, k) == |s'.newjobs| && FindJob(s'.processing, k) == |s'.processing|
      && FindJob(s'.processed, k) == |s'.processed|
  {
    hide FindJob, Perform, KeyOk, Whole;
    var j := s.processing[i];
    var k := j.key;
    assert j in s.processing;
    PerformKeeps(s, i);
    PerformMarks(s, i);
    FinishKeeps(Perform(s, i), i);
    OneLiveJob(s, j);
    FailedLive(s, i);
    var s' := Finish(PerformFailed(s, i), i);
    FindJobSpec(s'.newjobs, k);
    FindJobSpec(s'.processing, k);
    FindJobSpec(s'.processed, k);
    if Inv(s') { StorageTellsJobs(s', k); }
  }

  lemma PerformMarks(s: State, i: nat)
    requires i < |s.processing|
    ensures |Perform(s, i).processing| == |s.processing| && Perform(s, i).processing[i].done
  {
  }

  // ---------------------------------------------------------------- saving children

  /** While a child is alive the swap file is not written. */
  lemma NoWriteWithChild(s: State, st: Step)
    requires Inv(s) && Enabled(s, st) && !CanSwapOut(s)
    ensures Next(s, st).file == s.file
  {
    hide Read, SetRange, FindJob, Content, Whole;
    match st
    case StPerform(i) => PerformStep(s, i);
    case _ =>
  }

  /** The two kinds of saving children: BGSAVE and BGREWRITEAOF. */
  datatype Saver = Save | Rewrite

  function ChildOf(s: State, c: Saver): Option<Child> { if c.Save? then s.bgsave else s.bgrewrite }

  function ForkOf(c: Saver): Step { if c.Save? then StForkSave else StForkRewrite }

  function ExitOf(c: Saver): Step { if c.Save? then StSaveExit else StRewriteExit }

  lemma SameSave(s: State, st: Step)
    requires Enabled(s, st) && s.bgsave.Some? && !st.StSaveExit?
    ensures Next(s, st).bgsave == s.bgsave
  {
    hide Read, SetRange, FindJob, Content, Whole;
  }

  lemma SameRewrite(s: State, st: Step)
    requires Enabled(s, st) && s.bgrewrite.Some? && !st.StRewriteExit?
    ensures Next(s, st).bgrewrite == s.bgrewrite
  {
    hide Read, SetRange, FindJob, Content, Whole;
  }

  lemma {:induction false} FileFrozen(s: State, steps: seq<Step>, c: Saver)
    requires Inv(s) && ChildOf(s, c).Some? && CanRun(s, steps) && ExitOf(c) !in steps
    ensures Run(s, steps).file == s.file && ChildOf(Run(s, steps), c) == ChildOf(s, c)
    decreases |steps|
  {
    hide Inv, Next, Enabled, Whole;
    if steps != [] {
      var s1 := Next(s, steps[0]);
      NoWriteWithChild(s, steps[0]);
      if c.Save? { SameSave(s, steps[0]); } else { SameRewrite(s, steps[0]); }
      StepKeeps(s, steps[0]);
      FileFrozen(s1, steps[1..], c);
    }
  }

  /** A saving child sees the database at fork time: whatever happens before it exits, reading
      any key through the child's copy of the key table gives the value the key had when the
      child was forked. */
  lemma ChildSeesForkTime(s: State, steps: seq<Step>, k: Key, c: Saver)
    requires Inv(s) && Enabled(s, ForkOf(c))
    requires CanRun(Next(s, ForkOf(c)), steps) && ExitOf(c) !in steps
    ensures k in s.keys <==> k in Content(s)
    ensures var now := Run(Next(s, ForkOf(c)), steps);
      && ChildOf(now, c).Some? && ChildOf(now, c).value.keys == s.keys
      && (k in s.keys ==> ValueOf(now.file, s.keys[k]) == Some(Content(s)[k]))
  {
    hide Run, CanRun, ValueOf, KeyOk, Live, Whole;
    StepKeeps(s, ForkOf(c));
    FileFrozen(Next(s, ForkOf(c)), steps, c);
    AllReadable(s, k);
  }
}
