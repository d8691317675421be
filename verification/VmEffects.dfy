/** What the steps of the virtual-memory machine achieve for the key they are about: its storage,
    its job, its pages. */
module VmEffects {
  import opened Bytes
  import opened SwapFile
  import opened VmModel
  import opened VmInvariant
  import opened VmSteps
  import opened VmTheorems

  /** A key that is swapped out has one job, which prepares the swap of its value. */
  lemma SwapOutStarts(s: State, k: Key)
    requires Inv(s) && k in s.keys && s.keys[k].Memory?
    ensures var r, v := SwapOut(s, k), s.keys[k].val;
      r.keys == s.keys[k := Swapping(v)] && Live(r, k) == [Job(PrepareSwap, k, Some(v), v.vtype, 0, 0, false, false)]
  {
    hide Live, Read, Whole;
    assert KeyOk(s.file, ViewOf(s, k));
    QueueLive(s, SwapOut(s, k), SwapOut(s, k).newjobs[|s.newjobs|], k);
  }

  /** A client that waits for a swapped key gets it loaded by one job, from the key's own page. */
  lemma WaitForLoads(s: State, k: Key)
    requires Inv(s) && k in s.keys && s.keys[k].Swapped?
    ensures var r, st := WaitFor(s, k), s.keys[k];
      && r.keys == s.keys[k := Loading(st.page, st.pages, st.vtype)]
      && Live(r, k) == [Job(Load, k, None, st.vtype, st.page, 0, false, false)]
  {
    hide Live, Read, Whole;
    assert KeyOk(s.file, ViewOf(s, k));
    QueueLive(s, WaitFor(s, k), WaitFor(s, k).newjobs[|s.newjobs|], k);
  }

  /** A deleted key is gone, and so is its job. */
  lemma DeleteRemoves(s: State, k: Key)
    requires Inv(s) && Reachable(s, k)
    ensures Delete(s, k).keys == s.keys - {k} && Live(Delete(s, k), k) == []
  {
    hide Inv, Live, Cancel, CanCancel, Whole;
    DeleteKeeps(s, k);
    StorageTellsJobs(Delete(s, k), k);
    if k in s.keys && (s.keys[k].Loading? || s.keys[k].Swapping?) { CancelStep(s, k); }
  }

  /** A swap job that is done has put its value into the file, where it can be read. */
  lemma PerformWrites(s: State, i: nat)
    requires Inv(s) && i < |s.processing| && !s.processing[i].done
    ensures var r := Perform(s, i); var j := r.processing[i];
      && j.done && j.key == s.processing[i].key
      && (j.kind == DoSwap ==> j.val.Some? && Read(r.file, j.page, j.vtype) == j.val)
      && (j.kind == Load ==> j.key in s.keys && j.val == ValueOf(s.file, s.keys[j.key]) && j.val.Some?)
      && (j.kind == PrepareSwap ==> j.val.Some? && j.pages == PagesOf(j.val.value))
  {
    hide Live, JobsOf, Read, Holds, PagesOf, Whole, WriteValue;
    var j := s.processing[i];
    assert j in s.processing;
    OneLiveJob(s, j);
    assert KeyOk(s.file, ViewOf(s, j.key));
    if j.kind == DoSwap {
      RangeIsUsed(s, j.key);
      WriteThenRead(s.file, j.page, j.val.value);
    }
  }

  /** A completed load brings the value home and gives the pages back. */
  lemma LoadComesHome(s: State)
    requires Inv(s) && s.processed != [] && !s.processed[0].canceled && s.processed[0].kind == Load
    ensures var k := s.processed[0].key; var r := Complete(s, None);
      && k in s.keys && s.keys[k].Loading? && ValueOf(s.file, s.keys[k]).Some?
      && r.keys == s.keys[k := Memory(ValueOf(s.file, s.keys[k]).value)]
      && r.bitmap == SetRange(s.bitmap, s.keys[k].page, s.keys[k].pages, false) && r.file == s.file
  {
    hide Live, Read, SetRange, Whole;
    CompletedJob(s);
  }

  /** A completed write leaves the key on the pages that hold its value. */
  lemma SwapIsDone(s: State)
    requires Inv(s) && s.processed != [] && !s.processed[0].canceled && s.processed[0].kind == DoSwap
    ensures var j := s.processed[0]; var k := j.key; var r := Complete(s, None);
      && k in s.keys && s.keys[k].Swapping? && r.keys == s.keys[k := Swapped(j.page, PagesOf(s.keys[k].val), j.vtype)]
      && Read(r.file, j.page, j.vtype) == Some(s.keys[k].val)
  {
    hide Live, Read, SetRange, PagesOf, Whole;
    CompletedJob(s);
    CompleteSwapStep(s, None);
  }

  /** A prepared swap gets the pages that were found and a job to write to them; without pages, or
      with a child saving, the key is simply in memory again. */
  lemma PreparedGoesOn(s: State, found: Option<nat>)
    requires Inv(s) && s.processed != [] && !s.processed[0].canceled && s.processed[0].kind == PrepareSwap
    requires found.Some? ==> FreeRange(s.bitmap, found.value, s.processed[0].pages)
    ensures var k := s.processed[0].key; var r := Complete(s, found);
      && k in s.keys && s.keys[k].Swapping? && var v := s.keys[k].val;
        if CanSwapOut(s) && found.Some? then
          && r.keys == s.keys && r.bitmap == SetRange(s.bitmap, found.value, PagesOf(v), true)
          && Live(r, k) == [Job(DoSwap, k, Some(v), v.vtype, found.value, PagesOf(v), false, false)]
        else r.keys == s.keys[k := Memory(v)] && r.bitmap == s.bitmap && Live(r, k) == []
  {
    hide Live, Read, SetRange, PagesOf, Holds, FreeRange, Whole;
    CompletedJob(s);
    var j, mid := s.processed[0], s.(processed := s.processed[1..]);
    PopLive(s, mid, j.key);
    var r := Complete(s, found);
    if CanSwapOut(s) && found.Some? {
      QueueLive(mid, r, r.newjobs[|s.newjobs|], j.key);
    } else {
      PopLive(s, r, j.key);
    }
  }
}
