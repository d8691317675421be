/** vmCancelThreadedIOJob compares the names of keys and not their databases. */
module VmDatabases {
  import opened Bytes
  import opened SwapFile
  import opened VmModel
  import opened VmInvariant
  import opened VmSteps
  import opened VmTheorems

  /** Position of the first job that is not canceled and has the name, whatever its database. */
  function FindName(q: seq<Job>, name: string): (i: nat)
    ensures i <= |q|
    ensures i < |q| ==> !q[i].canceled && q[i].key.name == name
  {
    if q == [] || (!q[0].canceled && q[0].key.name == name) then 0 else 1 + FindName(q[1..], name)
  }

  /** The job the search stops at, if any: in the new jobs first, then with a thread, then among the
      processed ones. */
  function Found(s: State, name: string): Option<Job> {
    var i, l, p := FindName(s.newjobs, name), FindName(s.processing, name), FindName(s.processed, name);
    if i < |s.newjobs| then Some(s.newjobs[i])
    else if l < |s.processing| then Some(s.processing[l])
    else if p < |s.processed| then Some(s.processed[p])
    else None
  }

  function FreePages(s: State, j: Job): State { if j.kind == DoSwap then MarkFree(s, j.page, j.pages) else s }

  /** One pass of the source over the queues: nothing when a thread holds the job that was found. */
  function CancelByName(s: State, k: Key): Option<State>
    requires k in s.keys
  {
    var i, l, p := FindName(s.newjobs, k.name), FindName(s.processing, k.name), FindName(s.processed, k.name);
    if i < |s.newjobs| then
      var s1 := FreePages(s, s.newjobs[i]).(newjobs := Remove(s.newjobs, i));
      Some(s1.(keys := s.keys[k := Undo(s.keys[k])]))
    else if l < |s.processing| then None
    else if p < |s.processed| then
      var j := s.processed[p];
      var s1 := FreePages(s, j).(processed := s.processed[p := j.(canceled := true)]);
      Some(s1.(keys := s.keys[k := Undo(s.keys[k])]))
    else None
  }

  /** The first job with the name, if it is one of the key, is the first job of the key. */
  lemma {:induction false} FirstOfKey(q: seq<Job>, k: Key)
    ensures var i := FindName(q, k.name);
      && i <= FindJob(q, k) && (i < |q| && q[i].key == k ==> FindJob(q, k) == i)
    decreases |q|
  {
    if q != [] && !(!q[0].canceled && q[0].key.name == k.name) {
      FirstOfKey(q[1..], k);
      assert FindName(q, k.name) < |q| ==> q[FindName(q, k.name)] == q[1..][FindName(q[1..], k.name)];
    }
  }

  /** If the job is the key's own, the pass is the cancellation. */
  lemma OwnJob(s: State, k: Key)
    requires Inv(s) && k in s.keys && (s.keys[k].Swapping? || s.keys[k].Loading?)
    requires CancelByName(s, k).Some? && Found(s, k.name).value.key == k
    ensures CanCancel(s, k) && CancelByName(s, k).value == Cancel(s, k)
  {
    hide Inv, FindJob, FindName, Undo, SetRange, Whole;
    FirstOfKey(s.newjobs, k);
    FirstOfKey(s.processing, k);
    FirstOfKey(s.processed, k);
    if FindJob(s.newjobs, k) < |s.newjobs| { NotTwice(s, k); }
  }

  /** The job of another key disappears, and that key is left without one. */
  lemma OtherJobLost(s: State, k: Key, j: Job)
    requires Inv(s) && k in s.keys && CancelByName(s, k).Some? && Found(s, k.name) == Some(j) && j.key != k
    ensures var r := CancelByName(s, k).value;
      && Live(r, j.key) == [] && j.key in r.keys && r.keys[j.key] == s.keys[j.key]
      && (r.keys[j.key].Swapping? || r.keys[j.key].Loading?)
  {
    hide JobsOf, FindName, SetRange, Whole;
    var i, p := FindName(s.newjobs, k.name), FindName(s.processed, k.name);
    if i < |s.newjobs| {
      assert j in s.newjobs;
      OneLiveJob(s, j);
      JobsOfSplit(s.newjobs, i, j.key);
    } else {
      assert j in s.processed;
      OneLiveJob(s, j);
      JobsOfSplit(s.processed, p, j.key);
      JobsOfUpdate(s.processed, p, j.(canceled := true), j.key);
    }
  }

  /** Canceling by name keeps the invariant exactly when the job it stops at is the key's own, and
      then it is the cancellation of the key. Otherwise some key of the same name in another database
      is SWAPPING or LOADING without a job, and no use of it is possible any more. */
  lemma CancelByNameIff(s: State, k: Key)
    requires Inv(s) && k in s.keys && (s.keys[k].Swapping? || s.keys[k].Loading?)
    requires CancelByName(s, k).Some?
    ensures var r, j := CancelByName(s, k).value, Found(s, k.name).value;
      && (Inv(r) <==> j.key == k)
      && (j.key == k ==> CanCancel(s, k) && r == Cancel(s, k))
      && (j.key != k ==> j.key.db != k.db && j.key.name == k.name && !Reachable(r, j.key))
  {
    hide Inv, FindJob, FindName, Cancel, Undo, MarkFree, Live, Whole;
    var r, j := CancelByName(s, k).value, Found(s, k.name).value;
    if j.key == k {
      OwnJob(s, k);
      CancelKeeps(s, k);
    } else {
      OtherJobLost(s, k, j);
      NoLiveJob(r, j.key);
      if Inv(r) { StorageTellsJobs(r, j.key); }
    }
  }

  lemma NoLiveJob(s: State, k: Key)
    requires Live(s, k) == [] && k in s.keys && (s.keys[k].Swapping? || s.keys[k].Loading?)
    ensures !Reachable(s, k)
  {
    hide FindJob, JobsOf, Whole;
    FindJobSpec(s.newjobs, k);
    FindJobSpec(s.processed, k);
  }

  /** With one database, or as long as no two keys of one name have jobs at the same time, it is the
      cancellation of the key. */
  lemma OneDatabase(s: State, k: Key)
    requires Inv(s) && k in s.keys && (s.keys[k].Swapping? || s.keys[k].Loading?)
    requires forall j :: (j in s.newjobs || j in s.processed) && !j.canceled && j.key.name == k.name ==> j.key == k
    ensures CancelByName(s, k).Some? ==> CanCancel(s, k) && CancelByName(s, k).value == Cancel(s, k)
  {
    hide Inv, FindName, Cancel, Undo, MarkFree, Whole;
    if CancelByName(s, k).Some? {
      assert Found(s, k.name).value.key == k;
      OwnJob(s, k);
    }
  }
}
