/** Every step of the virtual-memory state machine keeps the invariant. */
module VmSteps {
  import opened Bytes
  import opened SwapFile
  import opened VmModel
  import opened VmInvariant

  // ---------------------------------------------------------------- bitmap patterns

  lemma RangeIsUsed(s: State, k: Key)
    requires PagesOk(s) && RangeOf(ViewOf(s, k)).1 > 0
    ensures var r := RangeOf(ViewOf(s, k)); r.0 >= 0 && UsedRange(s.bitmap, r.0, r.1)
  {
    hide RangeOf, ViewOf, Whole;
    var w := ViewOf(s, k);
    var r := RangeOf(w);
    assert Covers(w, r.0) && Covers(w, r.0 + r.1 - 1);
    forall i | r.0 <= i < r.0 + r.1 ensures s.bitmap[i] {
      assert Covers(w, i);
    }
  }

  lemma BitmapSame(s: State, k: Key, now: View)
    requires PagesOk(s) && RangeOf(now) == RangeOf(ViewOf(s, k))
    ensures BitmapFollows(s.bitmap, s.bitmap, ViewOf(s, k), now)
  {
    hide RangeOf, ViewOf, Whole;
    assert forall p :: Covers(now, p) == Covers(ViewOf(s, k), p);
  }

  lemma BitmapFreed(s: State, k: Key, now: View)
    requires PagesOk(s) && RangeOf(now) == (0, 0) && RangeOf(ViewOf(s, k)).1 > 0
    ensures var r := RangeOf(ViewOf(s, k));
      r.0 >= 0 && BitmapFollows(s.bitmap, SetRange(s.bitmap, r.0, r.1, false), ViewOf(s, k), now)
      && CountUsed(SetRange(s.bitmap, r.0, r.1, false)) == CountUsed(s.bitmap) as int - r.1
  {
    hide RangeOf, ViewOf, Whole;
    var r := RangeOf(ViewOf(s, k));
    RangeIsUsed(s, k);
    CountSet(s.bitmap, r.0, r.1, false);
  }

  lemma BitmapTaken(s: State, k: Key, now: View, page: nat, n: nat)
    requires PagesOk(s) && RangeOf(ViewOf(s, k)) == (0, 0) && RangeOf(now) == (page, n)
    requires FreeRange(s.bitmap, page, n)
    ensures BitmapFollows(s.bitmap, SetRange(s.bitmap, page, n, true), ViewOf(s, k), now)
    ensures CountUsed(SetRange(s.bitmap, page, n, true)) == CountUsed(s.bitmap) + n
  {
    hide RangeOf, ViewOf, Whole;
    CountSet(s.bitmap, page, n, true);
  }

  // ---------------------------------------------------------------- threads

  /** Nothing observable through any key changed. */
  lemma SameViews(s: State, s': State)
    requires KeysOk(s) && PagesOk(s)
    requires forall k :: ViewOf(s', k) == ViewOf(s, k)
    requires s'.file == s.file && s'.bitmap == s.bitmap
    ensures KeysOk(s') && PagesOk(s')
  {
    hide KeyOk, RangeOf, Whole;
    var k0 := Key(0, "");
    BitmapSame(s, k0, ViewOf(s', k0));
    Frame(s, s', k0);
  }

  /** The single live job of a key, wherever it is. */
  lemma OneLiveJob(s: State, j: Job)
    requires KeysOk(s) && !j.canceled
    requires j in s.newjobs || j in s.processing || j in s.processed
    ensures Live(s, j.key) == [j] && j.key in s.keys
    ensures s.keys[j.key].Swapping? || s.keys[j.key].Loading?
    ensures j.kind == Load <==> s.keys[j.key].Loading?
  {
    hide Read, Holds, PagesOf, Whole;
    if j in s.newjobs { JobFound(s.newjobs, j); }
    if j in s.processing { JobFound(s.processing, j); }
    if j in s.processed { JobFound(s.processed, j); }
    assert j in Live(s, j.key);
    assert KeyOk(s.file, ViewOf(s, j.key));
    assert |Live(s, j.key)| == 1;
  }

  lemma {:induction false} JobFound(q: seq<Job>, j: Job)
    requires j in q && !j.canceled
    ensures j in JobsOf(q, j.key)
    decreases |q|
  {
    if q[0] != j { JobFound(q[1..], j); }
  }

  lemma TakeLive(s: State, k: Key)
    requires KeysOk(s) && s.newjobs != [] && !s.newjobs[0].canceled
    ensures Live(Take(s), k) == Live(s, k)
  {
    hide JobsOf, Whole;
    var j := s.newjobs[0];
    OneLiveJob(s, j);
    assert s.newjobs == [j] + s.newjobs[1..];
    JobsOfConcat([j], s.newjobs[1..], k);
    JobsOfOne(j, k);
    JobsOfAppend(s.processing, j, k);
  }

  lemma TakeKeeps(s: State)
    requires Inv(s) && s.newjobs != []
    ensures Inv(Take(s))
  {
    hide KeyOk, RangeOf, Live, CountUsed, DiskKeys, ChildOk, Whole;
    var s' := Take(s);
    assert s.newjobs[0] in s.newjobs;
    forall k ensures ViewOf(s', k) == ViewOf(s, k) { TakeLive(s, k); }
    SameViews(s, s');
  }

  lemma FinishLive(s: State, i: nat, k: Key)
    requires KeysOk(s) && i < |s.processing| && s.processing[i].done && !s.processing[i].canceled
    ensures Live(Finish(s, i), k) == Live(s, k)
  {
    hide JobsOf, Whole;
    var j := s.processing[i];
    OneLiveJob(s, j);
    JobsOfSplit(s.processing, i, k);
    JobsOfAppend(s.processed, j, k);
  }

  lemma FinishKeeps(s: State, i: nat)
    requires Inv(s) && i < |s.processing| && s.processing[i].done
    ensures Inv(Finish(s, i))
  {
    hide KeyOk, RangeOf, Live, CountUsed, DiskKeys, ChildOk, Whole;
    var s' := Finish(s, i);
    assert s.processing[i] in s.processing;
    forall k ensures ViewOf(s', k) == ViewOf(s, k) { FinishLive(s, i, k); }
    SameViews(s, s');
  }

  lemma PerformLive(s: State, i: nat, k: Key)
    requires KeysOk(s) && i < |s.processing| && !s.processing[i].canceled
    ensures var j := s.processing[i];
      Live(Perform(s, i), k) == if k == j.key then [Worked(s, j)] else Live(s, k)
  {
    hide JobsOf, Whole;
    var j := s.processing[i];
    OneLiveJob(s, j);
    JobsOfSplit(s.processing, i, k);
    JobsOfUpdate(s.processing, i, Worked(s, j), k);
  }

  /** The I/O of a job establishes what its next state promises. */
  lemma PerformKeyOk(s: State, i: nat)
    requires KeysOk(s) && PagesOk(s) && i < |s.processing| && !s.processing[i].canceled
    ensures var w := ViewOf(Perform(s, i), s.processing[i].key);
      KeyOk(Perform(s, i).file, w) && RangeOf(w) == RangeOf(ViewOf(s, s.processing[i].key))
  {
    hide JobsOf, PagesOf, Live, Whole, Read, Holds, WriteValue;
    var j := s.processing[i];
    OneLiveJob(s, j);
    PerformLive(s, i, j.key);
    assert KeyOk(s.file, ViewOf(s, j.key));
    if j.kind == DoSwap {
      RangeIsUsed(s, j.key);
      WriteThenRead(s.file, j.page, j.val.value);
    }
  }

  lemma PerformStep(s: State, i: nat)
    requires Inv(s) && i < |s.processing| && !s.processing[i].done
    ensures KeyStep(s, Perform(s, i), s.processing[i].key)
    ensures !CanSwapOut(s) ==> Perform(s, i).file == s.file
  {
    hide KeyOk, RangeOf, Live, CountUsed, DiskKeys, ChildOk, Whole;
    var s' := Perform(s, i);
    var j := s.processing[i];
    assert j in s.processing;
    forall k | k != j.key ensures ViewOf(s', k) == ViewOf(s, k) { PerformLive(s, i, k); }
    PerformKeyOk(s, i);
    PerformFile(s, i);
    BitmapSame(s, j.key, ViewOf(s', j.key));
    PerformQueues(s, i);
  }

  /** Only the pages of the job's key are written. */
  lemma PerformFile(s: State, i: nat)
    requires KeysOk(s) && i < |s.processing| && !s.processing[i].canceled
    ensures var s' := Perform(s, i);
      |s'.file| == |s.file| && forall p :: 0 <= p < |s.file| && !Covers(ViewOf(s', s.processing[i].key), p) ==>
        s'.file[p] == s.file[p]
  {
    hide JobsOf, PagesOf, Live, Whole, Read, Holds, WriteValue;
    var j := s.processing[i];
    OneLiveJob(s, j);
    PerformLive(s, i, j.key);
    assert KeyOk(s.file, ViewOf(s, j.key));
    if j.kind == DoSwap {
      var v := j.val.value;
      forall p | 0 <= p < |s.file| && !InRange(p, j.page, PagesOf(v))
        ensures WriteValue(s.file, j.page, v)[p] == s.file[p]
      {
        WriteElsewhere(s.file, j.page, v, p);
      }
    }
  }

  lemma PerformQueues(s: State, i: nat)
    requires QueuesOk(s) && ChildrenOk(s) && i < |s.processing|
    ensures QueuesOk(Perform(s, i)) && ChildrenOk(Perform(s, i))
  {
    hide ChildOk, Whole;
    var s' := Perform(s, i);
    var j := s.processing[i];
    assert j in s.processing;
    forall x | x in s'.processing ensures x in s.processing || x == Worked(s, j) {}
    if j.kind == DoSwap {
      assert CanSwapOut(s);
      NoChild(s'.file);
    }
  }

  lemma NoChild(file: seq<Page>)
    ensures ChildOk(file, None)
  {
  }

  // ---------------------------------------------------------------- one key changes

  /** A consistent change of one key, with everything the invariant needs about it. */
  ghost predicate KeyStep(s: State, s': State, k0: Key) {
    && OnlyKey(s, s', k0) && KeyOk(s'.file, ViewOf(s', k0))
    && QueuesOk(s') && StatsOk(s') && ChildrenOk(s')
  }

  lemma KeyStepKeeps(s: State, s': State, k0: Key)
    requires Inv(s) && KeyStep(s, s', k0)
    ensures Inv(s')
  {
    hide OnlyKey, KeyOk, QueuesOk, StatsOk, ChildrenOk, Whole;
    Frame(s, s', k0);
  }

  /** With the invariant, every key has a value. */
  lemma AllReadable(s: State, k: Key)
    requires KeysOk(s)
    ensures k in s.keys ==> ValueOf(s.file, s.keys[k]).Some?
  {
    hide Live, Read, Whole;
    assert KeyOk(s.file, ViewOf(s, k));
  }

  lemma KeyStepContent(s: State, s': State, k0: Key)
    requires Inv(s) && KeyStep(s, s', k0)
    ensures k0 in s'.keys ==> ValueOf(s'.file, s'.keys[k0]).Some?
    ensures k0 in s'.keys ==> Content(s') == Content(s)[k0 := ValueOf(s'.file, s'.keys[k0]).value]
    ensures k0 !in s'.keys ==> Content(s') == Content(s) - {k0}
  {
    hide KeyOk, QueuesOk, StatsOk, ChildrenOk, ValueOf, RangeOf, Live, Covers, Whole;
    KeyStepKeeps(s, s', k0);
    forall k ensures k in s.keys ==> ValueOf(s.file, s.keys[k]).Some? { AllReadable(s, k); }
    forall k ensures k in s'.keys ==> ValueOf(s'.file, s'.keys[k]).Some? { AllReadable(s', k); }
    forall k | k != k0
      ensures k in s'.keys <==> k in s.keys
      ensures k in s.keys ==> s'.keys[k] == s.keys[k] && ValueOf(s'.file, s.keys[k]) == ValueOf(s.file, s.keys[k])
    {
      OtherKeyKeeps(s, s', k0, k);
      assert ViewOf(s', k) == ViewOf(s, k);
    }
    ContentSame(s, s', k0);
  }

  lemma ContentSame(s: State, s': State, k0: Key)
    requires forall k :: k in s.keys ==> ValueOf(s.file, s.keys[k]).Some?
    requires forall k :: k in s'.keys ==> ValueOf(s'.file, s'.keys[k]).Some?
    requires forall k :: k != k0 ==> (k in s'.keys <==> k in s.keys)
    requires forall k :: k != k0 && k in s.keys ==> ValueOf(s'.file, s'.keys[k]) == ValueOf(s.file, s.keys[k])
    ensures k0 in s'.keys ==> Content(s') == Content(s)[k0 := ValueOf(s'.file, s'.keys[k0]).value]
    ensures k0 !in s'.keys ==> Content(s') == Content(s) - {k0}
  {
    hide ValueOf, Whole;
  }

  // ---------------------------------------------------------------- cancel

  lemma CancelLive(s: State, k: Key, k': Key)
    requires KeysOk(s) && CanCancel(s, k)
    ensures Live(Cancel(s, k), k') == if k' == k then [] else Live(s, k')
  {
    hide JobsOf, FindJob, SetRange, Whole;
    FindJobSpec(s.newjobs, k);
    FindJobSpec(s.processing, k);
    FindJobSpec(s.processed, k);
    var i := FindJob(s.newjobs, k);
    if i < |s.newjobs| {
      OneLiveJob(s, s.newjobs[i]);
      JobsOfSplit(s.newjobs, i, k');
    } else {
      var i := FindJob(s.processed, k);
      OneLiveJob(s, s.processed[i]);
      JobsOfSplit(s.processed, i, k');
      JobsOfUpdate(s.processed, i, s.processed[i].(canceled := true), k');
    }
  }

  /** The job that Cancel finds is the key's only live one. */
  lemma CancelFinds(s: State, k: Key) returns (j: Job)
    requires KeysOk(s) && CanCancel(s, k)
    ensures Live(s, k) == [j]
    ensures var c := Cancel(s, k);
      if j.kind == DoSwap then
        c.bitmap == SetRange(s.bitmap, j.page, j.pages, false) && c.usedPages == s.usedPages - j.pages
      else c.bitmap == s.bitmap && c.usedPages == s.usedPages
  {
    hide JobsOf, SetRange, Whole;
    FindJobSpec(s.newjobs, k);
    FindJobSpec(s.processed, k);
    var i := FindJob(s.newjobs, k);
    j := if i < |s.newjobs| then s.newjobs[i] else s.processed[FindJob(s.processed, k)];
    OneLiveJob(s, j);
  }

  lemma CancelQueues(s: State, k: Key)
    requires QueuesOk(s) && ChildrenOk(s) && CanCancel(s, k)
    ensures QueuesOk(Cancel(s, k)) && ChildrenOk(Cancel(s, k))
  {
    hide ChildOk, FindJob, SetRange, Whole;
  }

  lemma CancelStep(s: State, k: Key)
    requires Inv(s) && CanCancel(s, k)
    ensures KeyStep(s, Cancel(s, k), k)
    ensures Cancel(s, k).keys == s.keys[k := Undo(s.keys[k])] && Cancel(s, k).file == s.file
  {
    hide FindJob, SetRange, CountUsed, DiskKeys, JobsOf, ChildrenOk, QueuesOk, Whole;
    var s' := Cancel(s, k);
    forall k' | k' != k ensures ViewOf(s', k') == ViewOf(s, k') { CancelLive(s, k, k'); }
    CancelLive(s, k, k);
    var j := CancelFinds(s, k);
    assert KeyOk(s.file, ViewOf(s, k));
    if j.kind == DoSwap {
      BitmapFreed(s, k, ViewOf(s', k));
    } else {
      BitmapSame(s, k, ViewOf(s', k));
    }
    DiskKeysUpdate(s.keys, k, Undo(s.keys[k]));
    CancelQueues(s, k);
  }

  // ---------------------------------------------------------------- commands

  lemma BringInStep(s: State, k: Key)
    requires Inv(s) && k in s.keys && s.keys[k].Swapped?
    ensures KeyStep(s, BringIn(s, k), k) && BringIn(s, k).file == s.file
    ensures var v := Read(s.file, s.keys[k].page, s.keys[k].vtype);
      v.Some? && BringIn(s, k).keys == s.keys[k := Memory(v.value)]
  {
    hide SetRange, CountUsed, DiskKeys, JobsOf, ChildOk, PagesOf, Read, Whole;
    var s' := BringIn(s, k);
    assert KeyOk(s.file, ViewOf(s, k));
    forall k' | k' != k ensures ViewOf(s', k') == ViewOf(s, k') {}
    BitmapFreed(s, k, ViewOf(s', k));
    DiskKeysUpdate(s.keys, k, s'.keys[k]);
  }

  lemma DropStep(s: State, k: Key)
    requires Inv(s) && (k in s.keys ==> s.keys[k].Swapped? || s.keys[k].Memory?)
    ensures KeyStep(s, Drop(s, k), k)
  {
    hide SetRange, CountUsed, DiskKeys, JobsOf, ChildOk, PagesOf, Read, Whole;
    var s' := Drop(s, k);
    assert KeyOk(s.file, ViewOf(s, k));
    forall k' | k' != k ensures ViewOf(s', k') == ViewOf(s, k') {}
    if k in s.keys && s.keys[k].Swapped? {
      BitmapFreed(s, k, ViewOf(s', k));
    } else {
      BitmapSame(s, k, ViewOf(s', k));
    }
    DiskKeysRemove(s.keys, k);
  }

  /** A value in memory is created or replaced. */
  lemma PutStep(s: State, k: Key, v: Value)
    requires Inv(s) && (k in s.keys ==> s.keys[k].Memory?)
    ensures KeyStep(s, s.(keys := s.keys[k := Memory(v)]), k)
  {
    hide CountUsed, DiskKeys, JobsOf, ChildOk, PagesOf, Read, Whole;
    var s' := s.(keys := s.keys[k := Memory(v)]);
    assert KeyOk(s.file, ViewOf(s, k));
    forall k' | k' != k ensures ViewOf(s', k') == ViewOf(s, k') {}
    BitmapSame(s, k, ViewOf(s', k));
    DiskKeysUpdate(s.keys, k, Memory(v));
  }

  /** Appending a job for a key that has none. */
  lemma QueueLive(s: State, s': State, j: Job, k: Key)
    requires s'.newjobs == s.newjobs + [j] && s'.processing == s.processing && s'.processed == s.processed
    requires !j.canceled && (k == j.key ==> Live(s, k) == [])
    ensures Live(s', k) == if k == j.key then [j] else Live(s, k)
  {
    hide JobsOf, Whole;
    JobsOfAppend(s.newjobs, j, k);
  }

  lemma LoadJobStep(s: State, k: Key)
    requires Inv(s) && k in s.keys && s.keys[k].Swapped?
    ensures KeyStep(s, WaitFor(s, k), k) && WaitFor(s, k).file == s.file
  {
    hide CountUsed, DiskKeys, Live, ChildOk, PagesOf, Read, Whole;
    var s' := WaitFor(s, k);
    assert KeyOk(s.file, ViewOf(s, k));
    var j := s'.newjobs[|s.newjobs|];
    forall k' | k' != k ensures ViewOf(s', k') == ViewOf(s, k') { QueueLive(s, s', j, k'); }
    QueueLive(s, s', j, k);
    BitmapSame(s, k, ViewOf(s', k));
    DiskKeysUpdate(s.keys, k, s'.keys[k]);
  }

  lemma SwapOutStep(s: State, k: Key)
    requires Inv(s) && k in s.keys && s.keys[k].Memory?
    ensures KeyStep(s, SwapOut(s, k), k) && SwapOut(s, k).file == s.file
  {
    hide CountUsed, DiskKeys, Live, ChildOk, PagesOf, Read, Whole;
    var s' := SwapOut(s, k);
    assert KeyOk(s.file, ViewOf(s, k));
    var j := s'.newjobs[|s.newjobs|];
    forall k' | k' != k ensures ViewOf(s', k') == ViewOf(s, k') { QueueLive(s, s', j, k'); }
    QueueLive(s, s', j, k);
    BitmapSame(s, k, ViewOf(s', k));
    DiskKeysUpdate(s.keys, k, s'.keys[k]);
  }

  lemma SwapOutBlockingStep(s: State, k: Key, page: nat)
    requires Inv(s) && Enabled(s, StSwapOutBlocking(k, page))
    ensures KeyStep(s, SwapOutBlocking(s, k, page), k)
    ensures ValueOf(SwapOutBlocking(s, k, page).file, SwapOutBlocking(s, k, page).keys[k]) == Some(s.keys[k].val)
  {
    hide CountUsed, DiskKeys, JobsOf, PagesOf, Read, Holds, SetRange, WriteValue, Whole;
    var s' := SwapOutBlocking(s, k, page);
    var v := s.keys[k].val;
    assert KeyOk(s.file, ViewOf(s, k));
    forall k' | k' != k ensures ViewOf(s', k') == ViewOf(s, k') {}
    WriteThenRead(s.file, page, v);
    forall p | 0 <= p < |s.file| && !InRange(p, page, PagesOf(v)) ensures s'.file[p] == s.file[p] {
      WriteElsewhere(s.file, page, v, p);
    }
    BitmapTaken(s, k, ViewOf(s', k), page, PagesOf(v));
    DiskKeysUpdate(s.keys, k, s'.keys[k]);
  }

  // ---------------------------------------------------------------- completed jobs

  /** The oldest processed job leaves its queue. */
  lemma PopLive(s: State, s': State, k: Key)
    requires KeysOk(s) && s.processed != []
    requires s'.newjobs == s.newjobs && s'.processing == s.processing && s'.processed == s.processed[1..]
    ensures var j := s.processed[0];
      Live(s', k) == if !j.canceled && j.key == k then [] else Live(s, k)
  {
    hide JobsOf, Whole;
    var j := s.processed[0];
    if !j.canceled { OneLiveJob(s, j); }
    assert s.processed == [j] + s.processed[1..];
    JobsOfConcat([j], s.processed[1..], k);
    JobsOfOne(j, k);
  }

  /** The main thread's assertions about a completed job hold: its key exists and is in the
      storage state the job's type calls for, and its result is right. */
  lemma CompletedJob(s: State)
    requires KeysOk(s) && QueuesOk(s) && s.processed != [] && !s.processed[0].canceled
    ensures var j := s.processed[0];
      && j.key in s.keys && Live(s, j.key) == [j] && j.done
      && (j.kind == Load ==>
            s.keys[j.key].Loading? && j.val.Some? && j.val == ValueOf(s.file, s.keys[j.key]))
      && (j.kind != Load ==> s.keys[j.key].Swapping? && SwapJobOk(s.file, j, s.keys[j.key].val))
  {
    hide JobsOf, PagesOf, Read, Live, Whole;
    var j := s.processed[0];
    OneLiveJob(s, j);
    assert j in s.processed;
    assert KeyOk(s.file, ViewOf(s, j.key));
  }

  lemma CompleteCanceledKeeps(s: State, page: Option<nat>)
    requires Inv(s) && s.processed != [] && s.processed[0].canceled
    ensures Inv(Complete(s, page)) && Content(Complete(s, page)) == Content(s)
  {
    hide KeyOk, RangeOf, Live, CountUsed, DiskKeys, ChildOk, Whole;
    var s' := Complete(s, page);
    forall k ensures ViewOf(s', k) == ViewOf(s, k) { PopLive(s, s', k); }
    SameViews(s, s');
  }

  lemma CompleteLoadStep(s: State, page: Option<nat>)
    requires Inv(s) && s.processed != [] && !s.processed[0].canceled && s.processed[0].kind == Load
    ensures KeyStep(s, Complete(s, page), s.processed[0].key)
    ensures Complete(s, page).file == s.file
    ensures Complete(s, page).keys == s.keys[s.processed[0].key := Memory(s.processed[0].val.value)]
  {
    hide SetRange, CountUsed, DiskKeys, Live, ChildOk, PagesOf, Read, Whole;
    var s' := Complete(s, page);
    var j := s.processed[0];
    CompletedJob(s);
    forall k ensures Live(s', k) == if j.key == k then [] else Live(s, k) { PopLive(s, s', k); }
    forall k | k != j.key ensures ViewOf(s', k) == ViewOf(s, k) {}
    assert KeyOk(s.file, ViewOf(s, j.key));
    BitmapFreed(s, j.key, ViewOf(s', j.key));
    DiskKeysUpdate(s.keys, j.key, s'.keys[j.key]);
  }

  lemma CompleteUndoStep(s: State, page: Option<nat>)
    requires Inv(s) && s.processed != [] && !s.processed[0].canceled && s.processed[0].kind == PrepareSwap
    requires !CanSwapOut(s) || page.None?
    ensures KeyStep(s, Complete(s, page), s.processed[0].key)
  {
    hide SetRange, CountUsed, DiskKeys, Live, ChildOk, PagesOf, Read, Whole;
    var s' := Complete(s, page);
    var j := s.processed[0];
    CompletedJob(s);
    forall k ensures Live(s', k) == if j.key == k then [] else Live(s, k) { PopLive(s, s', k); }
    forall k | k != j.key ensures ViewOf(s', k) == ViewOf(s, k) {}
    BitmapSame(s, j.key, ViewOf(s', j.key));
    DiskKeysUpdate(s.keys, j.key, s'.keys[j.key]);
  }

  lemma CompletePrepareStep(s: State, page: Option<nat>)
    requires Inv(s) && s.processed != [] && !s.processed[0].canceled && s.processed[0].kind == PrepareSwap
    requires CanSwapOut(s) && page.Some? && FreeRange(s.bitmap, page.value, s.processed[0].pages)
    ensures KeyStep(s, Complete(s, page), s.processed[0].key)
  {
    hide SetRange, CountUsed, DiskKeys, Live, PagesOf, Read, Whole;
    var s' := Complete(s, page);
    var j := s.processed[0];
    CompletedJob(s);
    var mid := s.(processed := s.processed[1..]);
    var j' := j.(kind := DoSwap, page := page.value, done := false);
    forall k ensures Live(s', k) == if j.key == k then [j'] else Live(s, k) {
      PopLive(s, mid, k);
      QueueLive(mid, s', j', k);
    }
    forall k | k != j.key ensures ViewOf(s', k) == ViewOf(s, k) {}
    BitmapTaken(s, j.key, ViewOf(s', j.key), page.value, j.pages);
  }

  lemma CompleteSwapStep(s: State, page: Option<nat>)
    requires Inv(s) && s.processed != [] && !s.processed[0].canceled && s.processed[0].kind == DoSwap
    ensures KeyStep(s, Complete(s, page), s.processed[0].key)
    ensures var j := s.processed[0]; var s' := Complete(s, page);
      s'.file == s.file && s'.keys == s.keys[j.key := Swapped(j.page, j.pages, j.vtype)]
      && ValueOf(s'.file, s'.keys[j.key]) == Some(s.keys[j.key].val)
  {
    hide SetRange, CountUsed, DiskKeys, Live, PagesOf, ChildOk, Whole, Read, Holds;
    var s' := Complete(s, page);
    var j := s.processed[0];
    CompletedJob(s);
    HeldIsRead(s.file, j.page, s.keys[j.key].val);
    forall k ensures Live(s', k) == if j.key == k then [] else Live(s, k) { PopLive(s, s', k); }
    forall k | k != j.key ensures ViewOf(s', k) == ViewOf(s, k) {}
    BitmapSame(s, j.key, ViewOf(s', j.key));
    DiskKeysUpdate(s.keys, j.key, s'.keys[j.key]);
  }
}
