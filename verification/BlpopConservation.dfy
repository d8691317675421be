/** No element is lost or duplicated by the list commands and the blocked clients: over every run
    the elements that came in are the ones stored, handed to clients, or taken out. */
module BlpopConservation {
  import opened BlpopSpec

  /** The copies of an element in a list. */
  ghost function Copies(l: seq<Str>, x: Str): nat { multiset(l)[x] }

  ghost function One(b: bool): nat { if b then 1 else 0 }

  /** The copies of an element in all lists. */
  ghost function Stored(lists: map<Str, Val>, x: Str): nat
    decreases |lists|
  {
    if |lists| == 0 then 0
    else
      var k :| k in lists;
      assert |lists - {k}| == |lists| - 1 by { OneKeyLess(lists, k); }
      Copies(Items(lists, k), x) + Stored(lists - {k}, x)
  }

  lemma OneKeyLess(lists: map<Str, Val>, k: Str)
    requires k in lists
    ensures |lists - {k}| == |lists| - 1
  {
    assert (lists - {k}).Keys == lists.Keys - {k};
    assert |lists.Keys| == |lists| && |(lists - {k}).Keys| == |lists - {k}|;
  }

  lemma NoCopies(x: Str)
    ensures Copies([], x) == 0
  {
  }

  /** The key that the sum takes first. */
  lemma CountedFirst(lists: map<Str, Val>, x: Str) returns (first: Str)
    requires |lists| != 0
    ensures first in lists && Stored(lists, x) == Copies(Items(lists, first), x) + Stored(lists - {first}, x)
  {
    hide Copies;
    first :| first in lists && Stored(lists, x) == Copies(Items(lists, first), x) + Stored(lists - {first}, x);
  }

  /** Any key can be counted first. */
  lemma {:induction false} StoredSplit(lists: map<Str, Val>, k: Str, x: Str)
    ensures Stored(lists, x) == Copies(Items(lists, k), x) + Stored(lists - {k}, x)
    decreases |lists|
  {
    hide Stored, Copies;
    if k !in lists {
      NoCopies(x);
      assert lists - {k} == lists;
    } else {
      OneKeyLess(lists, k);
      var first := CountedFirst(lists, x);
      if first != k {
        OneKeyLess(lists, first);
        StoredSplit(lists - {first}, k, x);
        StoredSplit(lists - {k}, first, x);
        assert lists - {first} - {k} == lists - {k} - {first};
      }
    }
  }

  /** A new value at a key exchanges the elements there and no others. */
  lemma StoredUpdate(lists: map<Str, Val>, k: Str, v: Val, x: Str)
    ensures Stored(lists[k := v], x) + Copies(Items(lists, k), x)
      == Stored(lists, x) + Copies(if v.List? then v.items else [], x)
  {
    hide Stored;
    StoredSplit(lists, k, x);
    StoredSplit(lists[k := v], k, x);
    assert lists[k := v] - {k} == lists - {k};
  }

  /** The copies of an element handed to clients. */
  ghost function Given(replies: seq<Reply>, x: Str): nat {
    if replies == [] then 0
    else
      var r := replies[|replies| - 1];
      Given(replies[..|replies| - 1], x) + One(r.Popped? && r.ele == x)
  }

  lemma GivenOneMore(replies: seq<Reply>, r: Reply, x: Str)
    ensures Given(replies + [r], x) == Given(replies, x) + One(r.Popped? && r.ele == x)
  {
    assert (replies + [r])[..|replies|] == replies;
  }

  /** What a step brings in: the element of an accepted push, the list moved here from another
      database, the list stored by SORT. */
  ghost function Entered(s: St, e: Step, x: Str): nat {
    match e
    case DoPush(k, ele, head) => One(!(k in s.lists && s.lists[k].Other?) && ele == x)
    case DoMoveIn(k, v) => if k in s.lists then 0 else Copies(if v.List? then v.items else [], x)
    case DoStore(k, items) => Copies(items, x)
    case _ => 0
  }

  /** What a step takes out for good: the reply of a pop, and the elements of a list that is deleted
      or overwritten. Handing an element to a blocked client, moving it between lists or renaming its
      list is not it. */
  ghost function Left(s: St, e: Step, x: Str): nat {
    match e
    case DoPop(k, head) => One(HasItems(s.lists, k) && Front(s.lists[k].items, head) == x)
    case DoSet(k) => Copies(Items(s.lists, k), x)
    case DoDelete(k) => Copies(Items(s.lists, k), x)
    case DoRename(src, dst, nx) =>
      if src == dst || src !in s.lists || (nx && dst in s.lists) then 0 else Copies(Items(s.lists, dst), x)
    case DoStore(k, items) => Copies(Items(s.lists, k), x)
    case _ => 0
  }

  /** The copies of an element that the state accounts for. */
  ghost function Held(s: St, x: Str): nat { Stored(s.lists, x) + Given(s.replies, x) }

  lemma CopiesAtEnds(l: seq<Str>, e: Str, x: Str)
    ensures Copies([e] + l, x) == Copies(l, x) + One(e == x) == Copies(l + [e], x)
  {
  }

  lemma FrontApart(l: seq<Str>, head: bool, x: Str)
    requires l != []
    ensures Copies(l, x) == Copies(if head then l[1..] else l[..|l| - 1], x) + One(Front(l, head) == x)
  {
    assert l == [l[0]] + l[1..] && l == l[..|l| - 1] + [l[|l| - 1]];
  }

  lemma PopTakes(s: St, k: Str, head: bool, x: Str)
    requires HasItems(s.lists, k)
    ensures Stored(s.lists, x) == Stored(Pop(s, k, head).lists, x) + One(Front(s.lists[k].items, head) == x)
  {
    hide Stored, Copies;
    var l := s.lists[k].items;
    FrontApart(l, head, x);
    StoredUpdate(s.lists, k, List(if head then l[1..] else l[..|l| - 1]), x);
  }

  lemma AddedHolds(s: St, k: Str, ele: Str, head: bool, x: Str)
    ensures Stored(Added(s, k, ele, head).lists, x) == Stored(s.lists, x) + One(ele == x)
  {
    hide Stored, Copies;
    var l := Items(s.lists, k);
    CopiesAtEnds(l, ele, x);
    StoredUpdate(s.lists, k, List(if head then [ele] + l else l + [ele]), x);
  }

  lemma GiveHolds(s: St, k: Str, ele: Str, x: Str)
    requires Give(s, k, ele).Some?
    ensures var r := Give(s, k, ele).value;
      r.lists == s.lists && Given(r.replies, x) == Given(s.replies, x) + One(ele == x)
  {
    hide Given;
    GivenOneMore(s.replies, Popped(Oldest(s.order, s.keysOf, k).value, k, ele), x);
  }

  lemma PushConserves(s: St, k: Str, ele: Str, head: bool, x: Str)
    ensures Held(Push(s, k, ele, head), x) == Held(s, x) + Entered(s, DoPush(k, ele, head), x)
  {
    hide Stored, Given;
    if Give(s, k, ele).Some? { GiveHolds(s, k, ele, x); } else { AddedHolds(s, k, ele, head, x); }
  }

  lemma MoveConserves(s: St, src: Str, dst: Str, x: Str)
    ensures Held(RPopLPush(s, src, dst), x) == Held(s, x)
  {
    hide Stored, Given, Copies;
    if HasItems(s.lists, src) && !(dst in s.lists && s.lists[dst].Other?) {
      var l := s.lists[src].items;
      var e := l[|l| - 1];
      if Give(s, dst, e).Some? {
        GiveHolds(s, dst, e, x);
        PopTakes(Give(s, dst, e).value, src, false, x);
      } else if src == dst {
        FrontApart(l, false, x);
        CopiesAtEnds(l[..|l| - 1], e, x);
        StoredUpdate(s.lists, src, List([e] + l[..|l| - 1]), x);
      } else {
        AddedHolds(s, dst, e, true, x);
        PopTakes(Added(s, dst, e, true), src, false, x);
      }
    }
  }

  lemma BlockingPopConserves(s: St, c: Cid, keys: seq<Str>, until: int, head: bool, x: Str)
    ensures Held(BlockingPop(s, c, keys, until, head), x) == Held(s, x)
  {
    hide Stored, Given;
    var i := FirstServed(s.lists, keys);
    if i < |keys| && HasItems(s.lists, keys[i]) {
      PopTakes(s, keys[i], head, x);
      GivenOneMore(s.replies, Popped(c, keys[i], Front(s.lists[keys[i]].items, head)), x);
    }
  }

  /** A rename keeps every element of the source and loses those of the target. */
  lemma RenameConserves(s: St, src: Str, dst: Str, nx: bool, x: Str)
    ensures Held(Renamed(s, src, dst, nx), x) + Left(s, DoRename(src, dst, nx), x) == Held(s, x)
  {
    hide Stored, Given, Copies;
    if !(src == dst || src !in s.lists || (nx && dst in s.lists)) {
      StoredSplit(s.lists, src, x);
      StoredUpdate(s.lists - {src}, dst, s.lists[src], x);
    }
  }

  /** Each step accounts for every element: what was held and came in is held or taken out. */
  lemma StepConserves(s: St, e: Step, x: Str)
    ensures Held(Next(s, e), x) + Left(s, e, x) == Held(s, x) + Entered(s, e, x)
  {
    hide Stored, Given, Push, BlockingPop, RPopLPush, Renamed, Copies;
    NoCopies(x);
    match e
    case DoPush(k, ele, head) => PushConserves(s, k, ele, head, x);
    case DoPop(k, head) => if HasItems(s.lists, k) { PopTakes(s, k, head, x); }
    case DoBlockingPop(c, keys, until, head) => BlockingPopConserves(s, c, keys, until, head, x);
    case DoRPopLPush(src, dst) => MoveConserves(s, src, dst, x);
    case DoExpire(c, now) => GivenOneMore(s.replies, TimedOut(c), x);
    case DoFree(c) =>
    case DoSet(k) => StoredUpdate(s.lists, k, Other, x);
    case DoDelete(k) => StoredSplit(s.lists, k, x);
    case DoRename(src, dst, nx) => RenameConserves(s, src, dst, nx, x);
    case DoMoveIn(k, v) => StoredUpdate(s.lists, k, v, x);
    case DoStore(k, items) => StoredUpdate(s.lists, k, List(items), x);
  }

  ghost function AllEntered(s: St, steps: seq<Step>, x: Str): nat
    decreases |steps|
  {
    if steps == [] then 0 else Entered(s, steps[0], x) + AllEntered(Next(s, steps[0]), steps[1..], x)
  }

  ghost function AllLeft(s: St, steps: seq<Step>, x: Str): nat
    decreases |steps|
  {
    if steps == [] then 0 else Left(s, steps[0], x) + AllLeft(Next(s, steps[0]), steps[1..], x)
  }

  /** Over every run, each element that was there or was pushed is in exactly one place: in a list,
      in a reply to a blocking client, or among the elements taken out. */
  lemma {:induction false} EveryRunConserves(s: St, steps: seq<Step>, x: Str)
    requires CanRun(s, steps)
    ensures Held(Run(s, steps), x) + AllLeft(s, steps, x) == Held(s, x) + AllEntered(s, steps, x)
    decreases |steps|
  {
    hide Held, Next, Enabled, Entered, Left;
    if steps != [] {
      StepConserves(s, steps[0], x);
      EveryRunConserves(Next(s, steps[0]), steps[1..], x);
    }
  }
}
