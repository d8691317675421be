/** The virtual-memory subsystem of redis-1.3.6/redis.c as a state machine.

    The main thread, the I/O threads and the forked saving children share the swap file, a
    bitmap of used pages, three job queues and one storage state per key. Each step below is
    one atomic action of one of them: what happens between taking and releasing the I/O lock,
    or one command of the single-threaded main loop. */
module VmModel {
  import opened Bytes
  import opened SwapFile

  /** A key of one of the databases. */
  datatype Key = Key(db: nat, name: string)

  datatype Storage =
    | Memory(val: Value)
    | Swapping(val: Value)
    | Swapped(page: nat, pages: nat, vtype: byte)
    | Loading(page: nat, pages: nat, vtype: byte)

  datatype JobKind = Load | PrepareSwap | DoSwap

  /** `done` is the progress of the thread that took the job: its I/O has happened. */
  datatype Job = Job(kind: JobKind, key: Key, val: Option<Value>, vtype: byte,
                     page: nat, pages: nat, canceled: bool, done: bool)

  /** What a child process saw when it was forked. */
  datatype Child = Child(keys: map<Key, Storage>, content: map<Key, Value>)

  datatype State = State(
    keys: map<Key, Storage>,
    newjobs: seq<Job>, processing: seq<Job>, processed: seq<Job>,
    bitmap: seq<bool>, usedPages: int, swappedObjects: int,
    file: seq<Page>,
    bgsave: Option<Child>, bgrewrite: Option<Child>)

  // ---------------------------------------------------------------- pages

  function SetRange(bits: seq<bool>, page: nat, n: nat, b: bool): (r: seq<bool>)
    ensures |r| == |bits|
    ensures forall i :: 0 <= i < |r| ==> r[i] == if InRange(i, page, n) then b else bits[i]
  {
    seq(|bits|, i requires 0 <= i < |bits| => if InRange(i, page, n) then b else bits[i])
  }

  predicate FreeRange(bits: seq<bool>, page: nat, n: nat) {
    page + n <= |bits| && forall i :: page <= i < page + n ==> !bits[i]
  }

  predicate UsedRange(bits: seq<bool>, page: nat, n: nat) {
    page + n <= |bits| && forall i :: page <= i < page + n ==> bits[i]
  }

  function CountUsed(bits: seq<bool>): nat {
    if bits == [] then 0 else (if bits[0] then 1 else 0) + CountUsed(bits[1..])
  }

  function ValueOf(file: seq<Page>, st: Storage): Option<Value> {
    match st
    case Memory(v) => Some(v)
    case Swapping(v) => Some(v)
    case Swapped(p, _, t) => Read(file, p, t)
    case Loading(p, _, t) => Read(file, p, t)
  }

  // ---------------------------------------------------------------- jobs

  /** The jobs of a queue that are not canceled and name key `k`, in order. */
  function JobsOf(q: seq<Job>, k: Key): seq<Job> {
    if q == [] then []
    else (if !q[0].canceled && q[0].key == k then [q[0]] else []) + JobsOf(q[1..], k)
  }

  function Live(s: State, k: Key): seq<Job> {
    JobsOf(s.newjobs, k) + JobsOf(s.processing, k) + JobsOf(s.processed, k)
  }

  /** Position of the first such job, or the length of the queue. */
  function FindJob(q: seq<Job>, k: Key): (i: nat)
    ensures i <= |q|
    ensures i < |q| ==> !q[i].canceled && q[i].key == k
  {
    if q == [] || (!q[0].canceled && q[0].key == k) then 0 else 1 + FindJob(q[1..], k)
  }

  predicate CanSwapOut(s: State) { s.bgsave.None? && s.bgrewrite.None? }

  // ---------------------------------------------------------------- steps

  function MarkUsed(s: State, page: nat, n: nat): State {
    s.(bitmap := SetRange(s.bitmap, page, n, true), usedPages := s.usedPages + n)
  }

  function MarkFree(s: State, page: nat, n: nat): State {
    s.(bitmap := SetRange(s.bitmap, page, n, false), usedPages := s.usedPages - n)
  }

  function Remove<T>(q: seq<T>, i: nat): seq<T>
    requires i < |q|
  {
    q[..i] + q[i + 1..]
  }

  function Undo(st: Storage): Storage {
    match st
    case Loading(p, n, t) => Swapped(p, n, t)
    case Swapping(v) => Memory(v)
    case _ => st
  }

  /** A job can be canceled unless a thread is working on it: then the main thread waits. */
  predicate CanCancel(s: State, k: Key) {
    && k in s.keys
    && (s.keys[k].Loading? || s.keys[k].Swapping?)
    && FindJob(s.processing, k) == |s.processing|
    && (FindJob(s.newjobs, k) < |s.newjobs| || FindJob(s.processed, k) < |s.processed|)
  }

  /** vmCancelThreadedIOJob. */
  function Cancel(s: State, k: Key): State
    requires CanCancel(s, k)
  {
    var i := FindJob(s.newjobs, k);
    var s1 :=
      if i < |s.newjobs| then
        var j := s.newjobs[i];
        var s0 := if j.kind == DoSwap then MarkFree(s, j.page, j.pages) else s;
        s0.(newjobs := Remove(s.newjobs, i))
      else
        var i := FindJob(s.processed, k);
        var j := s.processed[i];
        var s0 := if j.kind == DoSwap then MarkFree(s, j.page, j.pages) else s;
        s0.(processed := s.processed[i := j.(canceled := true)]);
    s1.(keys := s1.keys[k := Undo(s.keys[k])])
  }

  /** The key can be used at once, or after its job was canceled. */
  predicate Reachable(s: State, k: Key) {
    k in s.keys && (s.keys[k].Loading? || s.keys[k].Swapping?) ==> CanCancel(s, k)
  }

  function Settle(s: State, k: Key): State
    requires Reachable(s, k)
  {
    if k in s.keys && (s.keys[k].Loading? || s.keys[k].Swapping?) then Cancel(s, k) else s
  }

  /** Releases the pages of a key that is on disk. */
  function Release(s: State, k: Key): State
    requires k in s.keys && s.keys[k].Swapped?
  {
    MarkFree(s, s.keys[k].page, s.keys[k].pages).(swappedObjects := s.swappedObjects - 1)
  }

  /** vmGenericLoadObject: reads a swapped value back and gives its pages back. Where the
      image cannot be read the server exits. */
  function BringIn(s: State, k: Key): State
    requires k in s.keys && s.keys[k].Swapped?
  {
    var v := Read(s.file, s.keys[k].page, s.keys[k].vtype);
    if v.Some? then Release(s, k).(keys := s.keys[k := Memory(v.value)]) else s
  }

  /** lookupKey: stops a swap-out in progress and brings a swapped value back. */
  function Lookup(s: State, k: Key): State
    requires Reachable(s, k)
  {
    var s1 := Settle(s, k);
    if k in s1.keys && s1.keys[k].Swapped? then BringIn(s1, k) else s1
  }

  /** Removes a key without a job, with the pages that decrRefCount gives back. */
  function Drop(s: State, k: Key): State {
    (if k in s.keys && s.keys[k].Swapped? then Release(s, k) else s).(keys := s.keys - {k})
  }

  /** deleteKey. */
  function Delete(s: State, k: Key): State
    requires Reachable(s, k)
  {
    Drop(Settle(s, k), k)
  }

  /** SET: a value not in memory is deleted first, then the new one is stored. */
  function Store(s: State, k: Key, v: Value): State
    requires Reachable(s, k)
  {
    var s1 := if k in s.keys && !s.keys[k].Memory? then Delete(s, k) else s;
    s1.(keys := s1.keys[k := Memory(v)])
  }

  /** waitForSwappedKey: a client needs the key; load it in the background. */
  function WaitFor(s: State, k: Key): State
    requires k in s.keys && s.keys[k].Swapping? ==> CanCancel(s, k)
  {
    if k !in s.keys then s
    else match s.keys[k]
      case Memory(_) => s
      case Loading(_, _, _) => s
      case Swapping(_) => Cancel(s, k)
      case Swapped(p, n, t) =>
        s.(keys := s.keys[k := Loading(p, n, t)],
           newjobs := s.newjobs + [Job(Load, k, None, t, p, 0, false, false)])
  }

  /** vmSwapObjectThreaded. */
  function SwapOut(s: State, k: Key): State
    requires k in s.keys && s.keys[k].Memory?
  {
    var v := s.keys[k].val;
    s.(keys := s.keys[k := Swapping(v)],
       newjobs := s.newjobs + [Job(PrepareSwap, k, Some(v), v.vtype, 0, 0, false, false)])
  }

  /** vmSwapObjectBlocking. */
  function SwapOutBlocking(s: State, k: Key, page: nat): State
    requires k in s.keys && s.keys[k].Memory?
  {
    var v := s.keys[k].val;
    MarkUsed(s, page, PagesOf(v)).(
      file := WriteValue(s.file, page, v),
      keys := s.keys[k := Swapped(page, PagesOf(v), v.vtype)],
      swappedObjects := s.swappedObjects + 1)
  }

  /** A thread takes the oldest new job. */
  function Take(s: State): State
    requires s.newjobs != []
  {
    s.(newjobs := s.newjobs[1..], processing := s.processing + [s.newjobs[0]])
  }

  /** A thread hands over a job it has worked on. */
  function Finish(s: State, i: nat): State
    requires i < |s.processing|
  {
    s.(processing := Remove(s.processing, i), processed := s.processed + [s.processing[i]])
  }

  /** The I/O of one job, as IOThreadEntryPoint does it. */
  function Worked(s: State, j: Job): Job {
    match j.kind
    case Load => j.(val := Read(s.file, j.page, j.vtype), done := true)
    case PrepareSwap => j.(pages := if j.val.Some? then PagesOf(j.val.value) else 0, done := true)
    case DoSwap => j.(done := true)
  }

  function Perform(s: State, i: nat): State
    requires i < |s.processing|
  {
    var j := s.processing[i];
    var s1 := s.(processing := s.processing[i := Worked(s, j)]);
    if j.kind == DoSwap && j.val.Some? then s1.(file := WriteValue(s.file, j.page, j.val.value)) else s1
  }

  /** vmThreadedIOCompletedJob for the oldest processed job. `page` is what
      vmFindContiguousPages found, if anything. */
  function Complete(s: State, page: Option<nat>): State
    requires s.processed != []
  {
    var j := s.processed[0];
    var s1 := s.(processed := s.processed[1..]);
    if j.canceled || j.key !in s.keys then s1
    else match j.kind
      case Load =>
        if s.keys[j.key].Loading? && j.val.Some? then
          MarkFree(s1, s.keys[j.key].page, s.keys[j.key].pages).(
            swappedObjects := s.swappedObjects - 1, keys := s.keys[j.key := Memory(j.val.value)])
        else s1
      case PrepareSwap =>
        if !CanSwapOut(s) || page.None? then s1.(keys := s.keys[j.key := Undo(s.keys[j.key])])
        else
          MarkUsed(s1, page.value, j.pages).(
            newjobs := s.newjobs + [j.(kind := DoSwap, page := page.value, done := false)])
      case DoSwap =>
        s1.(keys := s.keys[j.key := Swapped(j.page, j.pages, j.vtype)], swappedObjects := s.swappedObjects + 1)
  }

  datatype Step =
    | StLookup(k: Key) | StDelete(k: Key) | StStore(k: Key, v: Value) | StWaitFor(k: Key)
    | StSwapOut(k: Key) | StSwapOutBlocking(k: Key, page: nat)
    | StTake | StPerform(i: nat) | StFinish(i: nat) | StComplete(found: Option<nat>)
    | StForkSave | StForkRewrite | StSaveExit | StRewriteExit

  predicate Enabled(s: State, st: Step) {
    match st
    case StLookup(k) => Reachable(s, k)
    case StDelete(k) => Reachable(s, k)
    case StStore(k, _) => Reachable(s, k)
    case StWaitFor(k) => k in s.keys && s.keys[k].Swapping? ==> CanCancel(s, k)
    case StSwapOut(k) => CanSwapOut(s) && k in s.keys && s.keys[k].Memory?
    case StSwapOutBlocking(k, page) =>
      CanSwapOut(s) && k in s.keys && s.keys[k].Memory? && FreeRange(s.bitmap, page, PagesOf(s.keys[k].val))
    case StTake => s.newjobs != []
    case StPerform(i) => i < |s.processing| && !s.processing[i].done
    case StFinish(i) => i < |s.processing| && s.processing[i].done
    case StComplete(page) =>
      s.processed != [] && (page.Some? ==> FreeRange(s.bitmap, page.value, s.processed[0].pages))
    case StForkSave => s.bgsave.None? && s.newjobs == [] && s.processing == []
    case StForkRewrite => s.bgrewrite.None? && s.newjobs == [] && s.processing == []
    case StSaveExit => s.bgsave.Some?
    case StRewriteExit => s.bgrewrite.Some?
  }

  /** The database as a plain map from keys to values, wherever the values are. */
  function Content(s: State): map<Key, Value> {
    map k | k in s.keys && ValueOf(s.file, s.keys[k]).Some? :: ValueOf(s.file, s.keys[k]).value
  }

  function Next(s: State, st: Step): State
    requires Enabled(s, st)
  {
    match st
    case StLookup(k) => Lookup(s, k)
    case StDelete(k) => Delete(s, k)
    case StStore(k, v) => Store(s, k, v)
    case StWaitFor(k) => WaitFor(s, k)
    case StSwapOut(k) => SwapOut(s, k)
    case StSwapOutBlocking(k, page) => SwapOutBlocking(s, k, page)
    case StTake => Take(s)
    case StPerform(i) => Perform(s, i)
    case StFinish(i) => Finish(s, i)
    case StComplete(page) => Complete(s, page)
    case StForkSave => s.(bgsave := Some(Child(s.keys, Content(s))))
    case StForkRewrite => s.(bgrewrite := Some(Child(s.keys, Content(s))))
    case StSaveExit => s.(bgsave := None)
    case StRewriteExit => s.(bgrewrite := None)
  }

  function Init(vmPages: nat): State {
    State(map[], [], [], [], seq(vmPages, _ => false), 0, 0, seq(vmPages, _ => ZEROS), None, None)
  }

  /** The step sequence can be run from `s`. */
  predicate CanRun(s: State, steps: seq<Step>)
    decreases |steps|
  {
    steps == [] || (Enabled(s, steps[0]) && CanRun(Next(s, steps[0]), steps[1..]))
  }

  function Run(s: State, steps: seq<Step>): State
    requires CanRun(s, steps)
    decreases |steps|
  {
    if steps == [] then s else Run(Next(s, steps[0]), steps[1..])
  }
}
