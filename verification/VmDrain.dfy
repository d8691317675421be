/** Why waiting for the job queues to empty ends: every thread step and every completion leaves
    less work, although a prepared swap queues a second job. */
module VmDrain {
  import opened Bytes
  import opened SwapFile
  import opened VmModel

  /** Steps a job still causes, from the queue it is in: 3 new, 2 taken, 1 worked on, 0 processed. */
  function Weight(j: Job, stage: nat): nat { stage + if j.kind == PrepareSwap then 5 else 1 }

  function QueueWork(q: seq<Job>, stage: nat): nat {
    if q == [] then 0 else Weight(q[0], stage) + QueueWork(q[1..], stage)
  }

  /** Jobs that threads hold, worked on or not. */
  function HeldWork(q: seq<Job>): nat {
    if q == [] then 0 else Weight(q[0], if q[0].done then 1 else 2) + HeldWork(q[1..])
  }

  function Work(s: State): nat { QueueWork(s.newjobs, 3) + HeldWork(s.processing) + QueueWork(s.processed, 0) }

  lemma {:induction false} QueueMore(q: seq<Job>, j: Job, stage: nat)
    ensures QueueWork(q + [j], stage) == QueueWork(q, stage) + Weight(j, stage)
    decreases |q|
  {
    if q == [] {
      assert q + [j] == [j] && [j][1..] == [];
    } else {
      assert (q + [j])[1..] == q[1..] + [j];
      QueueMore(q[1..], j, stage);
    }
  }

  lemma {:induction false} HeldConcat(a: seq<Job>, b: seq<Job>)
    ensures HeldWork(a + b) == HeldWork(a) + HeldWork(b)
    decreases |a|
  {
    if a == [] {
      assert a + b == b;
    } else {
      assert (a + b)[1..] == a[1..] + b;
      HeldConcat(a[1..], b);
    }
  }

  lemma HeldAt(q: seq<Job>, i: nat)
    requires i < |q|
    ensures HeldWork(q) == HeldWork(q[..i]) + Weight(q[i], if q[i].done then 1 else 2) + HeldWork(q[i + 1..])
  {
    assert q == q[..i] + ([q[i]] + q[i + 1..]);
    HeldConcat(q[..i], [q[i]] + q[i + 1..]);
    assert ([q[i]] + q[i + 1..])[1..] == q[i + 1..];
  }

  lemma TakeLess(s: State)
    requires s.newjobs != []
    ensures Work(Take(s)) <= Work(s) - 1
  {
    var j := s.newjobs[0];
    HeldConcat(s.processing, [j]);
    assert [j][1..] == [];
    assert HeldWork([j]) == Weight(j, if j.done then 1 else 2) + HeldWork([]);
  }

  lemma PerformLess(s: State, i: nat)
    requires i < |s.processing| && !s.processing[i].done
    ensures Work(Perform(s, i)) == Work(s) - 1
  {
    var q, q' := s.processing, Perform(s, i).processing;
    HeldAt(q, i);
    HeldAt(q', i);
    assert q'[..i] == q[..i] && q'[i + 1..] == q[i + 1..];
  }

  lemma FinishLess(s: State, i: nat)
    requires i < |s.processing| && s.processing[i].done
    ensures Work(Finish(s, i)) == Work(s) - 1
  {
    HeldAt(s.processing, i);
    HeldConcat(s.processing[..i], s.processing[i + 1..]);
    QueueMore(s.processed, s.processing[i], 0);
  }

  lemma CompleteLess(s: State, found: Option<nat>)
    requires s.processed != []
    ensures Work(Complete(s, found)) <= Work(s) - 1
  {
    hide SetRange, CanSwapOut, Whole;
    var j := s.processed[0];
    QueueMore(s.newjobs, j.(kind := DoSwap, page := if found.Some? then found.value else 0, done := false), 3);
  }
}
