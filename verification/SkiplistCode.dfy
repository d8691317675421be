/** The skiplist of redis-1.3.6/redis.c: zslInsert, zslDelete and the functions around them. */
module SkiplistCode {
  import opened Bytes
  import opened ZsetOrder
  import opened SkiplistShape

  /** What the search loops compare against; each accepts a prefix of the sorted list. */
  datatype Cut =
    | Below(e: Elem)          // zslInsert, zslDelete
    | UpTo(e: Elem)           // zslGetRank
    | ScoreBelow(min: real)   // zslDeleteRangeByScore, zslFirstWithScore
    | RankBelow(start: int)   // zslDeleteRangeByRank, zslGetElementByRank

  /** Does the search step over the element of rank `p`? */
  predicate Passes(cut: Cut, p: int, e: Elem) {
    match cut
    case Below(x) => Less(e, x)
    case UpTo(x) => Less(e, x) || e == x
    case ScoreBelow(min) => e.score < min
    case RankBelow(start) => p < start
  }

  lemma PassesPrefix(cut: Cut, p: int, a: Elem, q: int, b: Elem)
    requires p < q && Less(a, b) && Passes(cut, q, b)
    ensures Passes(cut, p, a)
  {
    if (cut.Below? || cut.UpTo?) && Less(b, cut.e) { LessTrans(a, b, cut.e); }
  }

  ghost predicate PassAt(ns: seq<Node>, cut: Cut, p: nat) {
    p == 0 || (p < |ns| && ns[p].elem.Some? && Passes(cut, p, ns[p].elem.value))
  }

  /** Exactly the first `c` elements pass. */
  ghost predicate IsCut(ns: seq<Node>, cut: Cut, c: nat) {
    c < |ns| && (forall p :: 0 < p <= c ==> PassAt(ns, cut, p)) && (forall p :: c < p < |ns| ==> !PassAt(ns, cut, p))
  }

  /** The search for `e` stops at position `p` on some level: no node after it, up to `e`, is as tall. */
  ghost predicate StopsAt(ns: seq<Node>, e: Elem, p: nat) {
    && 0 < p < |ns| && PassAt(ns, UpTo(e), p)
    && forall q :: p < q < |ns| && PassAt(ns, UpTo(e), q) ==> ns[q].height < ns[p].height
  }

  /** The member is at none of the positions where the search stops above level `i`. */
  ghost predicate NotStopped(ns: seq<Node>, e: Elem, i: nat) {
    forall p: nat :: StopsAt(ns, e, p) && ns[p].height > i ==> ns[p].elem.value.member != e.member
  }

  ghost predicate ListOk(ns: seq<Node>, sl: seq<Slots>, level: nat, length: nat, tail: Node?) {
    && LevelsOk(ns, sl, level) && Distinct(ns) && BackOk(ns, sl) && Sorted(ns)
    && length == |ns| - 1 && tail == (if |ns| == 1 then null else ns[|ns| - 1])
    && (level > 1 ==> NextAt(ns, level - 1, 0) < |ns|)
  }

  /** The level-`i` slot of a node in the list. */
  lemma SlotIs(ns: seq<Node>, sl: seq<Slots>, level: nat, i: nat, p: nat)
    requires LevelsOk(ns, sl, level) && i < level && p < |ns| && ns[p].height > i
    ensures |sl[p].forward| == ns[p].height && |sl[p].span| == ns[p].height - 1
    ensures var q := NextAt(ns, i, p);
      && sl[p].forward[i] == At(ns, q)
      && (i > 0 ==> sl[p].span[i - 1] == Dist(ns, i, p))
      && (i == 0 ==> q == p + 1)
  {
    assert LevelOk(ns, sl, i);
    if i == 0 { NextUnique(ns, 0, p, p + 1); }
  }

  lemma EarlierPass(ns: seq<Node>, level: nat, cut: Cut, p: nat, q: nat)
    requires HeightsOk(ns, level) && Sorted(ns) && p <= q && q < |ns| && PassAt(ns, cut, q)
    ensures PassAt(ns, cut, p)
  {
    if 0 < p < q { PassesPrefix(cut, p, ns[p].elem.value, q, ns[q].elem.value); }
  }

  /** Where level `i` is left, no taller node follows up to the cut. */
  lemma LeftLevel(ns: seq<Node>, level: nat, cut: Cut, i: nat, r: nat, q: nat)
    requires HeightsOk(ns, level) && Sorted(ns) && r < q < |ns| && PassAt(ns, cut, q)
    requires !PassAt(ns, cut, NextAt(ns, i, r))
    ensures ns[q].height <= i
  {
    if NextAt(ns, i, r) <= q { EarlierPass(ns, level, cut, NextAt(ns, i, r), q); }
  }

  /** What the cursor of a search up to `e` tells where it leaves level `i`. */
  lemma LevelDone(ns: seq<Node>, level: nat, e: Elem, i: nat, r: nat)
    requires HeightsOk(ns, level) && Sorted(ns) && r < |ns| && ns[r].height > i && PassAt(ns, UpTo(e), r)
    requires !PassAt(ns, UpTo(e), NextAt(ns, i, r))
    ensures r > 0 ==> StopsAt(ns, e, r)
    ensures NotStopped(ns, e, i + 1) && (r > 0 ==> ns[r].elem.value.member != e.member) ==> NotStopped(ns, e, i)
  {
    hide PassAt, NextAt, Sorted;
    forall q | r < q < |ns| && PassAt(ns, UpTo(e), q) ensures ns[q].height <= i {
      LeftLevel(ns, level, UpTo(e), i, r, q);
    }
  }

  class SkipList {
    var header: Node
    var tail: Node?
    var length: nat
    var level: nat
    ghost var nodes: seq<Node>

    ghost predicate Valid()
      reads this, nodes
    {
      nodes != [] && nodes[0] == header && ListOk(nodes, Snap(nodes), level, length, tail)
    }

    /** The elements of the list, in order. */
    ghost function Contents(): seq<Elem>
      reads this, nodes
      requires Valid()
    {
      Elems(nodes)
    }

    /** zslCreate. */
    constructor ()
      ensures Valid() && fresh(nodes) && |nodes| == 1
    {
      header := new Node(MAXLEVEL, None);
      tail, length, level := null, 0, 1;
      nodes := [header];
      new;
      EmptyList(header, SlotsOf(header));
      assert Snap(nodes) == [SlotsOf(header)];
    }

    /** The inner loop of every search: moves along level `i` while the next node passes,
        keeping the rank of the current node from the spans. */
    method Advance(cut: Cut, x0: Node, i: nat, rank0: nat) returns (x: Node, rank: nat)
      requires Valid() && i < level
      requires rank0 < |nodes| && nodes[rank0] == x0 && x0.height > i && PassAt(nodes, cut, rank0)
      ensures rank0 <= rank < |nodes| && nodes[rank] == x && x.height > i && PassAt(nodes, cut, rank)
      ensures !PassAt(nodes, cut, NextAt(nodes, i, rank))
    {
      hide LevelsOk, NextAt, BackOk, Sorted, Distinct, Passes;
      x, rank := x0, rank0;
      while true
        invariant rank0 <= rank < |nodes| && nodes[rank] == x && x.height > i && PassAt(nodes, cut, rank)
        decreases |nodes| - rank
      {
        SlotIs(nodes, Snap(nodes), level, i, rank);
        if x.forward[i] == null { break; }
        var next: Node := x.forward[i];
        var crossed := if i > 0 then x.span[i - 1] else 1;
        HasElem(NextAt(nodes, i, rank));
        if !Passes(cut, rank + crossed, next.elem.value) { break; }
        rank := rank + crossed;
        x := next;
      }
    }

    lemma HasElem(p: nat)
      requires Valid()
      ensures 0 < p < |nodes| ==> nodes[p].elem.Some?
    {
      hide NextAt, BackOk, Sorted, Distinct, Passes, LevelOk, ForwardOk;
    }
  
    /** The outer loop: for every level the last node before the cut, and its rank. */
    method Search(cut: Cut) returns (update: seq<Node>, rank: seq<nat>)
      requires Valid()
      ensures |update| == |rank| == level && IsCut(nodes, cut, rank[0])
      ensures forall j :: 0 <= j < level ==> IsUpdate(nodes, update, rank, j, rank[0])
    {
      hide ListOk, NextAt, PassAt;
      var x, r := header, 0;
      update, rank := seq(level, _ => x), seq(level, _ => 0);
      ListBounds(cut);
      var i := level;
      while i > 0
        invariant 0 <= i <= level == |update| == |rank| && r < |nodes| && nodes[r] == x
        invariant PassAt(nodes, cut, r) && (i > 0 ==> x.height > i - 1)
        invariant forall j :: i <= j < level ==> Stopped(nodes, update, rank, cut, j)
        invariant i < level ==> r == rank[i]
      {
        i := i - 1;
        x, r := Advance(cut, x, i, r);
        ghost var update0, rank0 := update, rank;
        update, rank := update[i := x], rank[i := r];
        forall j | i < j < level ensures Stopped(nodes, update, rank, cut, j) {
          assert Stopped(nodes, update0, rank0, cut, j);
        }
      }
      StopsAreUpdates(nodes, Snap(nodes), level, length, tail, update, rank, cut);
    }

    // ------------------------------------------------------------ insertion

    /** zslInsert, lines that raise the level: the header's new pointers are null and their
        spans cover the whole list. */
    method RaiseTo(lvl: nat, update0: seq<Node>, rank0: seq<nat>, ghost r: nat)
      returns (update: seq<Node>, rank: seq<nat>)
      requires nodes != [] && nodes[0] == header && LevelsOk(nodes, Snap(nodes), level) && length == |nodes| - 1
      requires Distinct(nodes) && level <= lvl <= MAXLEVEL && |update0| == |rank0| == level && r < |nodes|
      requires forall j :: 0 <= j < level ==> IsUpdate(nodes, update0, rank0, j, r)
      modifies header`span, this`level
      ensures level == lvl && LevelsOk(nodes, Snap(nodes), level)
      ensures |update| == |rank| == level
      ensures forall j :: 0 <= j < level ==> IsUpdate(nodes, update, rank, j, r)
      ensures forall p :: 0 <= p < |nodes| ==> Snap(nodes)[p].back == old(Snap(nodes))[p].back
    {
      hide LevelOk, ForwardOk, LastAt, NextAt;
      update, rank := update0, rank0;
      while level < lvl
        invariant 1 <= level <= lvl && LevelsOk(nodes, Snap(nodes), level) && |update| == |rank| == level
        invariant forall j :: 0 <= j < level ==> IsUpdate(nodes, update, rank, j, r)
        invariant forall p :: 0 <= p < |nodes| ==> Snap(nodes)[p].back == old(Snap(nodes))[p].back
        decreases lvl - level
      {
        ghost var sl := Snap(nodes);
        RaiseLevel(nodes, sl, level);
        header.span := header.span[level - 1 := length];
        assert Snap(nodes) == Raised(sl, level, length);
        HeaderIsLast(nodes, level, r);
        ghost var update1, rank1 := update, rank;
        update, rank := update + [header], rank + [0];
        level := level + 1;
        forall j | 0 <= j < level ensures IsUpdate(nodes, update, rank, j, r) {
          if j < level - 1 { assert IsUpdate(nodes, update1, rank1, j, r); }
        }
      }
    }

    /** Splices `x` in behind `u` on level `i`. */
    method Splice(ghost ns: seq<Node>, u: Node, x: Node, i: nat, r: nat, ri: nat)
      requires Distinct(ns) && x !in ns && ri < |ns| && ns[ri] == u && ri <= r
      requires i < |u.forward| && |u.span| == |u.forward| - 1 && i < |x.forward| && |x.span| == |x.forward| - 1
      modifies u`forward, u`span, x`forward, x`span
      ensures Snap(ns) == Spliced(old(Snap(ns)), ri, i, x, r)
      ensures SlotsOf(x) == SplicedNew(old(Snap(ns)), ri, i, old(SlotsOf(x)), r)
    {
      x.forward := x.forward[i := u.forward[i]];
      u.forward := u.forward[i := x];
      if i > 0 {
        x.span := x.span[i - 1 := u.span[i - 1] - (r - ri)];
        u.span := u.span[i - 1 := r - ri + 1];
      }
    }

    /** Counts the new node in the span that crosses it on level `i`. */
    method Bump(ghost ns: seq<Node>, u: Node, i: nat, ghost ri: nat)
      requires Distinct(ns) && ri < |ns| && ns[ri] == u && 0 < i <= |u.span|
      modifies u`span
      ensures Snap(ns) == Bumped(old(Snap(ns)), ri, i)
    {
      u.span := u.span[i - 1 := u.span[i - 1] + 1];
    }

    /** Links the new node on all levels. */
    method LinkAll(x: Node, lvl: nat, update: seq<Node>, rank: seq<nat>)
      requires |update| == |rank| == level && 1 <= lvl <= level && x.height == lvl && x.elem.Some?
      requires rank[0] < |nodes| && Distinct(nodes) && x !in nodes
      requires PartlyIn(nodes, Snap(nodes), level, rank[0], x, SlotsOf(x), 0)
      requires forall j :: 0 <= j < level ==> IsUpdate(nodes, update, rank, j, rank[0])
      modifies nodes, x
      ensures PartlyIn(nodes, Snap(nodes), level, rank[0], x, SlotsOf(x), level)
      ensures forall p :: 0 <= p < |nodes| ==> Snap(nodes)[p].back == old(Snap(nodes))[p].back
      ensures x.backward == old(x.backward)
    {
      hide LevelOk, ForwardOk, LastAt, NextAt, Ins, HeightsOk;
      var i := 0;
      while i < level
        invariant 0 <= i <= level
        invariant PartlyIn(nodes, Snap(nodes), level, rank[0], x, SlotsOf(x), i)
        invariant forall p :: 0 <= p < |nodes| ==> Snap(nodes)[p].back == old(Snap(nodes))[p].back
        invariant x.backward == old(x.backward)
      {
        assert IsUpdate(nodes, update, rank, i, rank[0]);
        if i < lvl {
          SpliceStep(nodes, Snap(nodes), level, rank[0], x, SlotsOf(x), i);
          Splice(nodes, update[i], x, i, rank[0], rank[i]);
        } else {
          BumpStep(nodes, Snap(nodes), level, rank[0], x, SlotsOf(x), i);
          Bump(nodes, update[i], i, rank[i]);
        }
        i := i + 1;
      }
    }

    /** Links the new node, now between positions r and r + 1, into the backward chain. */
    method LinkBack(x: Node, prev: Node, ghost r: nat)
      requires nodes != [] && nodes[0] == header && r < |nodes| && nodes[r] == prev && Distinct(nodes) && x !in nodes
      requires BackOk(nodes, Snap(nodes)) && |x.forward| > 0 && x.forward[0] == At(nodes, r + 1)
      requires tail == (if |nodes| == 1 then null else nodes[|nodes| - 1])
      modifies nodes, x, this`tail
      ensures BackOk(Ins(nodes, r, x), Snap(Ins(nodes, r, x)))
      ensures tail == Ins(nodes, r, x)[|nodes|]
      ensures SlotsOf(x).forward == old(x.forward) && SlotsOf(x).span == old(x.span)
      ensures SameButBack(old(Snap(nodes)), Snap(nodes))
    {
      hide LevelsOk;
      ghost var sl := Snap(nodes);
      x.backward := if prev == header then null else prev;
      if x.forward[0] != null {
        x.forward[0].backward := x;
      } else {
        tail := x;
      }
      ghost var ms := Ins(nodes, r, x);
      forall p | 0 <= p < |ms| ensures Snap(ms)[p].back == if p <= 1 then null else ms[p - 1] {
        assert Snap(ms)[p].back == ms[p].backward;
        if p <= r { assert ms[p] == nodes[p] && sl[p].back == nodes[p].backward; }
        if p > r + 1 { assert ms[p] == nodes[p - 1]; }
        if p > r + 2 { assert sl[p - 1].back == nodes[p - 1].backward; }
      }
    }

    /** The list without its order and the minimality of its level. */
    ghost predicate Linked()
      reads this, nodes
    {
      && nodes != [] && nodes[0] == header && LevelsOk(nodes, Snap(nodes), level)
      && Distinct(nodes) && BackOk(nodes, Snap(nodes))
      && length == |nodes| - 1 && tail == (if |nodes| == 1 then null else nodes[|nodes| - 1])
    }

    /** Puts a new node after position rank[0]. */
    method Place(x: Node, lvl: nat, update: seq<Node>, rank: seq<nat>)
      requires Linked() && |update| == |rank| == level && 1 <= lvl <= level && rank[0] < |nodes|
      requires x.height == lvl && x.elem.Some? && x !in nodes && NewSizes(x, SlotsOf(x))
      requires forall j :: 0 <= j < level ==> IsUpdate(nodes, update, rank, j, rank[0])
      modifies this, nodes, x
      ensures Linked() && nodes == Ins(old(nodes), rank[0], x) && level == old(level)
    {
      hide PartlyIn, LevelsOk, IsUpdate, Ins, BackOk, SameButBack, Distinct, NewSizes;
      ghost var ns, r := nodes, rank[0];
      ReadyToPlace(ns, Snap(ns), level, x, SlotsOf(x), update, rank);
      LinkAll(x, lvl, update, rank);
      BacksKept(ns, old(Snap(nodes)), Snap(ns));
      PlacedForward(ns, Snap(ns), level, r, x, SlotsOf(x));
      ghost var sl, X := Snap(ns), SlotsOf(x);
      LinkBack(x, update[0], r);
      PlacedLevels(ns, sl, Snap(ns), level, r, x, X, SlotsOf(x));
      SnapOfIns(ns, r, x);
      DistinctIns(ns, r, x);
      InsLength(ns, r, x);
      InsGet(ns, r, x, 0);
      length := length + 1;
      nodes := Ins(nodes, r, x);
    }

    /** zslInsert, for a level drawn by zslRandomLevel. */
    method Insert(e: Elem, lvl: nat)
      requires Valid() && 1 <= lvl <= MAXLEVEL && e !in Contents()
      modifies this, nodes
      ensures Valid() && Contents() == InsertSorted(old(Contents()), e)
      ensures forall p :: 0 <= p < |nodes| ==> nodes[p] in old(nodes) || fresh(nodes[p])
    {
      hide LevelOk, ForwardOk, LastAt, NextAt, InsertSorted, PassAt, IsUpdate, BackOk, Sorted, SizesOk;
      ListBounds(Below(e));
      var update, rank := Search(Below(e));
      var x := new Node(lvl, Some(e));
      ghost var ns, r := nodes, rank[0];
      SortedIns(ns, level, x, r);
      TopReached(ns, level, r, x);
      if lvl > level {
        update, rank := RaiseTo(lvl, update, rank, r);
        BacksKept(ns, old(Snap(nodes)), Snap(ns));
      }
      UpdateZero(nodes, update, rank, r);
      Place(x, lvl, update, rank);
    }

    // ------------------------------------------------------------ deletion

    /** zslDeleteNode on level `i`: bypasses `x` where it is linked, otherwise shortens the
        span that crosses it. */
    method Unlink(ghost ns: seq<Node>, u: Node, x: Node, i: nat, ghost ui: nat, ghost d: nat)
      requires Distinct(ns) && SizesOk(ns, Snap(ns)) && ui < d < |ns| && ns[ui] == u && ns[d] == x && i < u.height
      requires u.forward[i] == x <==> i < x.height
      requires i == 0 ==> i < x.height
      modifies u`forward, u`span
      ensures Snap(ns) == Unlinked(ns, old(Snap(ns)), ui, d, i)
    {
      assert SlotsOf(u) == Snap(ns)[ui] && SlotsOf(x) == Snap(ns)[d];
      if u.forward[i] == x {
        if i > 0 {
          u.span := u.span[i - 1 := u.span[i - 1] + x.span[i - 1] - 1];
        }
        u.forward := u.forward[i := x.forward[i]];
      } else {
        assert u.forward[i := u.forward[i]] == u.forward;
        u.span := u.span[i - 1 := u.span[i - 1] - 1];
      }
    }

    method UnlinkAll(x: Node, update: seq<Node>, ghost d: nat)
      requires level <= |update| && Distinct(nodes) && 0 < d < |nodes| && nodes[d] == x
      requires PartlyOut(nodes, Snap(nodes), level, d, 0)
      requires forall j :: 0 <= j < level ==> IsLast(nodes, update, j, d)
      modifies nodes
      ensures PartlyOut(nodes, Snap(nodes), level, d, level)
      ensures forall p :: 0 <= p < |nodes| ==> Snap(nodes)[p].back == old(Snap(nodes))[p].back
      ensures x.forward == old(x.forward)
    {
      hide LevelOk, ForwardOk, LastAt, NextAt, Del, HeightsOk, Unlinked;
      var i := 0;
      while i < level
        invariant 0 <= i <= level
        invariant PartlyOut(nodes, Snap(nodes), level, d, i)
        invariant forall p :: 0 <= p < |nodes| ==> Snap(nodes)[p].back == old(Snap(nodes))[p].back
        invariant x.forward == old(x.forward)
      {
        assert IsLast(nodes, update, i, d);
        ghost var u := LastAt(nodes, i, d - 1);
        UnlinkStep(nodes, Snap(nodes), level, d, i);
        ReachesNode(nodes, Snap(nodes), level, d, i);
        UnlinkedBacks(nodes, Snap(nodes), u, d, i);
        assert Snap(nodes)[u] == SlotsOf(update[i]) && Snap(nodes)[d] == SlotsOf(x);
        Unlink(nodes, update[i], x, i, u, d);
        assert Snap(nodes)[d] == SlotsOf(x);
        i := i + 1;
      }
    }

    /** Takes `x` out of the backward chain. */
    method UnlinkBack(x: Node, ghost d: nat)
      requires 0 < d < |nodes| && nodes[d] == x && Distinct(nodes) && BackOk(nodes, Snap(nodes))
      requires |x.forward| > 0 && x.forward[0] == At(nodes, d + 1)
      requires tail == nodes[|nodes| - 1]
      modifies nodes, this`tail
      ensures BackOk(Del(nodes, d), Snap(Del(nodes, d)))
      ensures tail == if |nodes| == 2 then null else Del(nodes, d)[|nodes| - 2]
      ensures SameButBack(old(Snap(nodes)), Snap(nodes))
    {
      ghost var sl := Snap(nodes);
      assert sl[d].back == x.backward;
      if x.forward[0] != null {
        x.forward[0].backward := x.backward;
      } else {
        tail := x.backward;
      }
      ghost var ms := Del(nodes, d);
      forall p | 0 <= p < |ms| ensures Snap(ms)[p].back == if p <= 1 then null else ms[p - 1] {
        assert Snap(ms)[p].back == ms[p].backward;
        if p < d { assert ms[p] == nodes[p] && sl[p].back == nodes[p].backward; }
        if p >= d { assert ms[p] == nodes[p + 1]; }
        if p > d { assert sl[p + 1].back == nodes[p + 1].backward && ms[p - 1] == nodes[p]; }
      }
    }

    /** zslDeleteNode: `update` holds the last node before `x` on every level. */
    method DeleteNode(x: Node, update: seq<Node>, ghost d: nat)
      requires Linked() && level <= |update| && 0 < d < |nodes| && nodes[d] == x
      requires forall j :: 0 <= j < level ==> IsLast(nodes, update, j, d)
      modifies this, nodes
      ensures Linked() && nodes == Del(old(nodes), d) && level <= old(level)
      ensures level > 1 ==> NextAt(nodes, level - 1, 0) < |nodes|
    {
      hide PartlyOut, LevelsOk, IsLast, Del, BackOk, SameButBack, Distinct, NextAt;
      ghost var ns := nodes;
      ReadyToUnlink(ns, Snap(ns), level, d);
      UnlinkAll(x, update, d);
      BacksKept(ns, old(Snap(nodes)), Snap(ns));
      assert SlotsOf(x) == Snap(ns)[d];
      ghost var sl := Snap(ns);
      UnlinkBack(x, d);
      UnlinkedLevels(ns, sl, Snap(ns), level, d);
      SnapOfDel(ns, d);
      DistinctDel(ns, d);
      DelGet(ns, d, 0);
      nodes := Del(nodes, d);
      length := length - 1;
      Shrink();
    }

    /** Drops levels that no node reaches. */
    method Shrink()
      requires nodes != [] && nodes[0] == header && LevelsOk(nodes, Snap(nodes), level)
      modifies this`level
      ensures LevelsOk(nodes, Snap(nodes), level) && level <= old(level)
      ensures level > 1 ==> NextAt(nodes, level - 1, 0) < |nodes|
    {
      hide LevelsOk, NextAt;
      while true
        invariant level <= old(level) && LevelsOk(nodes, Snap(nodes), level)
        decreases level
      {
        if level <= 1 { break; }
        DropIfEmpty(nodes, Snap(nodes), level);
        assert Snap(nodes)[0] == SlotsOf(header);
        if header.forward[level - 1] != null { break; }
        level := level - 1;
      }
    }

    /** One removal of zslDelete or of a range deletion: the node at position `d`, before which
        `update` stops on every level. `update` stays usable for the next removal. */
    method RemoveAt(x: Node, update: seq<Node>, ghost d: nat) returns (next: Node?)
      requires Valid() && 0 < d < |nodes| && nodes[d] == x && UpdateReady(nodes, update, level, d)
      modifies this, nodes
      ensures Valid() && nodes == Del(old(nodes), d) && UpdateReady(nodes, update, level, d)
      ensures Contents() == old(Contents()[..d - 1] + Contents()[d..])
      ensures next == At(nodes, d) && (next != null ==> next.elem.Some?)
    {
      hide LevelOk, ForwardOk, LastAt, NextAt, Del, BackOk, SizesOk, IsLast, Distinct;
      ghost var ns := nodes;
      next := AfterNode(x, d);
      AfterDel(ns, d);
      SortedDel(ns, level, d);
      forall j | 0 <= j < level ensures IsLast(Del(ns, d), update, j, d) {
        LastKept(ns, update, j, d);
      }
      DeleteNode(x, update, d);
    }

    /** The level-0 successor of a node in the list. */
    method AfterNode(x: Node, ghost p: nat) returns (next: Node?)
      requires Valid() && p < |nodes| && nodes[p] == x
      ensures next == At(nodes, p + 1) && (next != null ==> next.elem.Some?)
    {
      hide LevelOk, ForwardOk, LastAt, NextAt, BackOk, Sorted, Distinct;
      SlotIs(nodes, Snap(nodes), level, 0, p);
      assert Snap(nodes)[p] == SlotsOf(x);
      next := x.forward[0];
    }

    /** The level-0 predecessor of a node, null at the first element. */
    method BeforeNode(x: Node, ghost p: nat) returns (prev: Node?)
      requires Valid() && 0 < p < |nodes| && nodes[p] == x
      ensures prev == if p == 1 then null else nodes[p - 1]
    {
      hide LevelsOk, NextAt, Sorted, Distinct;
      assert Snap(nodes)[p].back == x.backward;
      prev := x.backward;
    }

    /** zslDelete. */
    method Delete(e: Elem) returns (found: bool)
      requires Valid()
      modifies this, nodes
      ensures Valid() && found == (e in old(Contents()))
      ensures Contents() == Without(old(Contents()), e)
      ensures forall p :: 0 <= p < |nodes| ==> nodes[p] in old(nodes)
    {
      hide ListOk, LastAt, Del, IsUpdate, UpdateReady, Without, Sorted, HeightsOk;
      ListBounds(Below(e));
      var update, rank := Search(Below(e));
      ghost var r := rank[0];
      UpdatesAreLast(update, rank, r);
      var x := AfterNode(update[0], r);
      FoundAtCut(nodes, level, e, r);
      if x != null && x.elem == Some(e) {
        DelSubset(nodes, r + 1, nodes);
        var _ := RemoveAt(x, update, r + 1);
        return true;
      }
      return false;
    }

    /** What a finished search gives to the deletion of the next node. */
    lemma UpdatesAreLast(update: seq<Node>, rank: seq<nat>, r: nat)
      requires Valid() && |update| == |rank| == level && r < |nodes|
      requires forall j :: 0 <= j < level ==> IsUpdate(nodes, update, rank, j, r)
      ensures UpdateReady(nodes, update, level, r + 1) && |update| > 0 && update[0] == nodes[r]
    {
      hide LastAt, LevelOk, ForwardOk, NextAt, BackOk, Sorted, Distinct;
      assert IsUpdate(nodes, update, rank, 0, r);
      UpdateZero(nodes, update, rank, r);
      var d := r + 1;
      forall j | 0 <= j < level ensures IsLast(nodes, update, j, d) {
        assert IsUpdate(nodes, update, rank, j, r);
      }
    }

    /** The removal loop of both range deletions: from position `d` on, every node in range is
        removed from the list and its member from the hash table. One search serves all the
        removals. */
    method DeleteRun(update: seq<Node>, stop: Stop, d: nat, dict: map<Member, real>)
      returns (removed: nat, dict': map<Member, real>)
      requires Valid() && 0 < d <= |nodes| && |update| > 0 && update[0] == nodes[d - 1]
      requires UpdateReady(nodes, update, level, d)
      modifies this, nodes
      ensures Valid() && d - 1 + removed <= |old(Contents())| && RunEnds(old(Contents()), stop, d - 1, removed)
      ensures Contents() == old(Contents())[..d - 1] + old(Contents())[d - 1 + removed..]
      ensures dict' == dict - MembersOf(old(Contents())[d - 1..d - 1 + removed])
      ensures forall p :: 0 <= p < |nodes| ==> nodes[p] in old(nodes)
    {
      hide ListOk, Del, UpdateReady, HeightsOk, MembersOf, Elems, InRange, Valid, RunState;
      removed, dict' := 0, dict;
      ghost var s := Contents();
      ElemAt(d);
      var x := AfterNode(update[0], d - 1);
      RunStart(s, stop, d - 1, dict);
      while x != null && InRange(stop, d + removed, x.elem.value)
        invariant Valid() && 0 < d <= |nodes| && UpdateReady(nodes, update, level, d)
        invariant x == At(nodes, d) && (x != null ==> x.elem.Some?)
        invariant RunState(s, Contents(), stop, d - 1, removed, dict, dict')
        invariant forall p :: 0 <= p < |nodes| ==> nodes[p] in old(nodes)
        decreases |nodes|
      {
        ElemAt(d);
        RunStep(s, Contents(), stop, d - 1, removed, dict, dict');
        DelSubset(nodes, d, old(nodes));
        AfterDel(nodes, d);
        var member := x.elem.value.member;
        x := RemoveAt(x, update, d);
        dict' := dict' - {member};
        removed := removed + 1;
      }
      ElemAt(d);
      RunStop(s, Contents(), stop, d - 1, removed, dict, dict');
    }

    /** zslDeleteRangeByScore. */
    method DeleteRangeByScore(min: real, max: real, dict: map<Member, real>)
      returns (removed: nat, dict': map<Member, real>)
      requires Valid()
      modifies this, nodes
      ensures Valid() && Contents() == OutsideScores(old(Contents()), min, max)
      ensures removed == |old(Contents())| - |Contents()|
      ensures dict' == dict - MembersInScores(old(Contents()), min, max)
      ensures forall p :: 0 <= p < |nodes| ==> nodes[p] in old(nodes)
    {
      hide ListOk, IsUpdate, UpdateReady, Sorted, HeightsOk, OutsideScores, RunEnds, MembersOf;
      ListBounds(ScoreBelow(min));
      var update, rank := Search(ScoreBelow(min));
      UpdatesAreLast(update, rank, rank[0]);
      ghost var s, ns, lv := Contents(), nodes, level;
      removed, dict' := DeleteRun(update, ScoreUpTo(max), rank[0] + 1, dict);
      ScoreRun(ns, lv, s, min, max, rank[0], removed);
    }

    /** zslDeleteRangeByRank, for 1-based ranks. */
    method DeleteRangeByRank(start: nat, end: nat, dict: map<Member, real>)
      returns (removed: nat, dict': map<Member, real>)
      requires Valid()
      modifies this, nodes
      ensures Valid() && removed == |old(Contents())| - |Contents()|
      ensures var s := old(Contents());
        var lo := Clamp(start - 1, |s|); var hi := if end > lo then Clamp(end, |s|) else lo;
        removed == hi - lo && Contents() == s[..lo] + s[hi..] && dict' == dict - MembersOf(s[lo..hi])
      ensures forall p :: 0 <= p < |nodes| ==> nodes[p] in old(nodes)
    {
      hide ListOk, IsUpdate, UpdateReady, Sorted, HeightsOk, MembersOf, Elems, RunEnds;
      ListBounds(RankBelow(start));
      ElemAt(0);
      var update, rank := Search(RankBelow(start));
      UpdatesAreLast(update, rank, rank[0]);
      CutOfRank(nodes, level, start, rank[0]);
      removed, dict' := DeleteRun(update, RankUpTo(end), rank[0] + 1, dict);
      RankRun(old(Contents()), end, rank[0], removed);
    }

    /** zslGetRank: 0 when the member is not found. The pair is found if it is there. A member whose
        score is another one is found, with its own rank, only if the search happens to stop at it. */
    method GetRank(e: Elem) returns (result: nat)
      requires Valid() && MembersDistinct(Contents())
      ensures e in Contents() ==> 0 < result <= |Contents()| && Contents()[result - 1] == e
      ensures result > 0 ==> result <= |Contents()| && Contents()[result - 1].member == e.member
      ensures result > 0 ==> StopsAt(nodes, e, result)
      ensures result == 0 ==> NotStopped(nodes, e, 0)
    {
      hide ListOk, NextAt, Elems, MembersDistinct, StopsAt, NotStopped, Sorted;
      var cut := UpTo(e);
      ListBounds(cut);
      NothingStopped(e);
      var x, rank, i := header, 0, level;
      while i > 0
        invariant 0 <= i <= level && rank < |nodes| && nodes[rank] == x && PassAt(nodes, cut, rank)
        invariant i > 0 ==> x.height > i - 1
        invariant i < level ==> !PassAt(nodes, cut, NextAt(nodes, i, rank))
        invariant i < level ==> (x.elem.Some? ==> x.elem.value.member != e.member)
        invariant NotStopped(nodes, e, i)
      {
        i := i - 1;
        x, rank := Advance(cut, x, i, rank);
        ElemAt(rank);
        LevelDone(nodes, level, e, i, rank);
        if x.elem.Some? && x.elem.value.member == e.member {
          SameMember(e, rank);
          return rank;
        }
      }
      RankMissing(e, rank);
      return 0;
    }

    lemma NothingStopped(e: Elem)
      requires Valid()
      ensures NotStopped(nodes, e, level)
    {
      hide LevelOk, ForwardOk, NextAt, BackOk, Sorted, Distinct;
    }

    lemma SameMember(e: Elem, rank: nat)
      requires Valid() && MembersDistinct(Contents()) && 0 < rank < |nodes|
      requires nodes[rank].elem.Some? && nodes[rank].elem.value.member == e.member
      ensures e in Contents() ==> 0 < rank <= |Contents()| && Contents()[rank - 1] == e
      ensures rank <= |Contents()| && Contents()[rank - 1].member == e.member
    {
      hide ListOk;
      ElemAt(rank);
      assert Contents()[rank - 1] in Contents();
    }

    /** At the end of the search the cursor is on the last element up to `e`; if that is not
        `e`, then `e` is not in the list. */
    lemma RankMissing(e: Elem, rank: nat)
      requires Valid() && rank < |nodes| && PassAt(nodes, UpTo(e), rank) && level > 0
      requires !PassAt(nodes, UpTo(e), NextAt(nodes, 0, rank))
      requires nodes[rank].elem.Some? ==> nodes[rank].elem.value.member != e.member
      ensures e !in Contents()
    {
      hide LevelOk, ForwardOk, BackOk, Distinct, NextAt, Sorted, PassAt, Elems;
      SlotIs(nodes, Snap(nodes), level, 0, rank);
      NotAtCut(nodes, level, e, rank);
    }

    /** zslGetElementByRank, for a 1-based rank; rank 0 is the header. */
    method GetElementByRank(n: nat) returns (result: Node?)
      requires Valid()
      ensures result == At(nodes, n)
    {
      hide ListOk, NextAt, Sorted, HeightsOk;
      var cut := RankBelow(n + 1);
      ListBounds(cut);
      var x, rank, i := header, 0, level;
      while i > 0
        invariant 0 <= i <= level && rank < |nodes| && nodes[rank] == x && PassAt(nodes, cut, rank)
        invariant i > 0 ==> x.height > i - 1
        invariant i < level ==> !PassAt(nodes, cut, NextAt(nodes, i, rank)) && rank != n
      {
        i := i - 1;
        x, rank := Advance(cut, x, i, rank);
        if rank == n { return x; }
      }
      LastRank(n, rank);
      return null;
    }

    lemma LastRank(n: nat, rank: nat)
      requires Valid() && rank < |nodes| && rank != n && level > 0
      requires PassAt(nodes, RankBelow(n + 1), rank) && !PassAt(nodes, RankBelow(n + 1), NextAt(nodes, 0, rank))
      ensures n >= |nodes|
    {
      hide LevelOk, ForwardOk, BackOk, Distinct, Sorted;
      SlotIs(nodes, Snap(nodes), level, 0, rank);
      ElemAt(rank + 1);
    }

    lemma ElemAt(p: nat)
      requires Valid()
      ensures |Contents()| == |nodes| - 1
      ensures 0 < p < |nodes| ==> nodes[p].elem.Some? && Contents()[p - 1] == nodes[p].elem.value
    {
      hide LevelOk, ForwardOk, NextAt, BackOk, Sorted, Distinct;
    }

    /** Bounds every method needs. */
    lemma ListBounds(cut: Cut)
      requires Valid()
      ensures 1 <= level <= MAXLEVEL && header.height == MAXLEVEL && length == |nodes| - 1
      ensures PassAt(nodes, cut, 0) && HeightsOk(nodes, level) && Sorted(nodes)
    {
      hide NextAt, BackOk, Sorted, Distinct, LevelOk, ForwardOk;
    }
  }

  /** The elements in order. */
  ghost function Elems(ns: seq<Node>): seq<Elem>
    requires forall p :: 0 < p < |ns| ==> ns[p].elem.Some?
    requires ns != []
  {
    seq(|ns| - 1, p requires 0 <= p < |ns| - 1 => ns[p + 1].elem.value)
  }

  /** A sorted sequence with one more element. */
  function InsertSorted(s: seq<Elem>, e: Elem): seq<Elem> {
    if s == [] || !Less(s[0], e) then [e] + s else [s[0]] + InsertSorted(s[1..], e)
  }

  lemma {:induction false} InsertAtCut(s: seq<Elem>, e: Elem, c: nat)
    requires c <= |s| && (forall p :: 0 <= p < c ==> Less(s[p], e)) && (c < |s| ==> !Less(s[c], e))
    ensures InsertSorted(s, e) == s[..c] + [e] + s[c..]
    decreases c
  {
    if c > 0 {
      assert Less(s[0], e);
      InsertAtCut(s[1..], e, c - 1);
      assert s[..c] == [s[0]] + s[1..][..c - 1] && s[c..] == s[1..][c - 1..];
    }
  }

  /** What is before the cut is smaller than the element, and what is after it is larger. */
  lemma AroundCut(ns: seq<Node>, level: nat, e: Elem, r: nat)
    requires HeightsOk(ns, level) && e !in Elems(ns) && IsCut(ns, Below(e), r)
    ensures forall p :: 0 <= p < r ==> Less(Elems(ns)[p], e)
    ensures forall p :: r <= p < |Elems(ns)| ==> !Less(Elems(ns)[p], e) && Less(e, Elems(ns)[p])
  {
    hide Less;
    var s := Elems(ns);
    forall p | 0 <= p < r ensures Less(s[p], e) { assert PassAt(ns, Below(e), p + 1); }
    forall p | r <= p < |s| ensures !Less(s[p], e) && Less(e, s[p]) {
      assert !PassAt(ns, Below(e), p + 1);
      LessTotal(s[p], e);
    }
  }

  lemma ElemsIns(ns: seq<Node>, level: nat, x: Node, r: nat)
    requires HeightsOk(ns, level) && x.elem.Some? && r < |ns|
    ensures forall p :: 0 < p < |Ins(ns, r, x)| ==> Ins(ns, r, x)[p].elem.Some?
    ensures var s := Elems(ns); Elems(Ins(ns, r, x)) == s[..r] + [x.elem.value] + s[r..]
  {
  }

  /** Inserting at the cut keeps the list sorted and inserts into the sorted contents. */
  lemma SortedIns(ns: seq<Node>, level: nat, x: Node, r: nat)
    requires HeightsOk(ns, level) && Sorted(ns) && x.elem.Some? && x.elem.value !in Elems(ns)
    requires IsCut(ns, Below(x.elem.value), r)
    ensures forall p :: 0 < p < |Ins(ns, r, x)| ==> Ins(ns, r, x)[p].elem.Some?
    ensures Sorted(Ins(ns, r, x)) && Elems(Ins(ns, r, x)) == InsertSorted(Elems(ns), x.elem.value)
  {
    hide InsertSorted, Less, PassAt;
    var e, s, ms := x.elem.value, Elems(ns), Ins(ns, r, x);
    AroundCut(ns, level, e, r);
    InsertAtCut(s, e, r);
    ElemsIns(ns, level, x, r);
    forall p, q | 0 < p < q < |ms| ensures Less(ms[p].elem.value, ms[q].elem.value) {
      if p == r + 1 {
        assert ms[q].elem.value == s[q - 2];
      } else if q == r + 1 {
        assert ms[p].elem.value == s[p - 1];
      } else {
        assert ms[p] == ns[Unshift(r, p)] && ms[q] == ns[Unshift(r, q)];
      }
    }
  }

  /** The list's level is the height of its highest node. */
  lemma TopReached(ns: seq<Node>, level: nat, r: nat, x: Node)
    requires HeightsOk(ns, level) && r < |ns| && 0 < x.height <= MAXLEVEL
    requires level > 1 ==> NextAt(ns, level - 1, 0) < |ns|
    ensures var top := if x.height > level then x.height else level;
      |Ins(ns, r, x)| > 0 && (top > 1 ==> NextAt(Ins(ns, r, x), top - 1, 0) < |Ins(ns, r, x)|)
  {
    hide NextAt, Ins;
    InsLength(ns, r, x);
    var top := if x.height > level then x.height else level;
    if top == x.height {
      assert IsNext(Ins(ns, r, x), top - 1, 0, NextAt(Ins(ns, r, x), top - 1, 0));
    } else if top > 1 {
      NextAfterIns(ns, r, x, top - 1, 0);
    }
  }

  /** On level 0 the search stops at the cut itself. */
  lemma UpdateZero(ns: seq<Node>, update: seq<Node>, rank: seq<nat>, r: nat)
    requires |update| == |rank| > 0 && r < |ns| && ns[r].height > 0 && IsUpdate(ns, update, rank, 0, r)
    ensures rank[0] == r && update[0] == ns[r]
  {
  }

  lemma BacksKept(ns: seq<Node>, sl: seq<Slots>, sl': seq<Slots>)
    requires BackOk(ns, sl) && |sl'| == |ns| && forall p :: 0 <= p < |ns| ==> sl'[p].back == sl[p].back
    ensures BackOk(ns, sl')
  {
  }

  /** On level 0 the new node is followed by the old successor. */
  lemma FirstForward(ns: seq<Node>, sl: seq<Slots>, r: nat, x: Node, X: Slots, level: nat)
    requires r < |ns| && |sl| == |ns| && LevelsOk(Ins(ns, r, x), Ins(sl, r, X), level) && x.height > 0
    ensures |X.forward| > 0 && X.forward[0] == At(ns, r + 1)
  {
    hide Ins, NextAt;
    InsLength(ns, r, x);
    InsLength(sl, r, X);
    SlotIs(Ins(ns, r, x), Ins(sl, r, X), level, 0, r + 1);
    InsAt(ns, r, x, r + 1);
  }

  lemma LevelsIgnoreBack(ns: seq<Node>, sl: seq<Slots>, sl': seq<Slots>, level: nat)
    requires LevelsOk(ns, sl, level) && SameButBack(sl, sl')
    ensures LevelsOk(ns, sl', level)
  {
    hide LevelOk, ForwardOk, NextAt;
    forall j ensures j >= 0 && LevelOk(ns, sl, j) ==> LevelOk(ns, sl', j)
      ensures j >= 0 && ForwardOk(ns, sl, j) ==> ForwardOk(ns, sl', j)
    {
      if j >= 0 { SameLevel(ns, sl, sl', j); }
    }
  }

  lemma SnapOfIns(ns: seq<Node>, r: nat, x: Node)
    requires r < |ns|
    ensures Snap(Ins(ns, r, x)) == Ins(Snap(ns), r, SlotsOf(x))
  {
  }

  /** Forward pointers and spans are the same. */
  ghost predicate SameButBack(sl: seq<Slots>, sl': seq<Slots>) {
    |sl'| == |sl| && forall p :: 0 <= p < |sl| ==> sl'[p].forward == sl[p].forward && sl'[p].span == sl[p].span
  }

  lemma SameButBackIns(sl: seq<Slots>, sl': seq<Slots>, r: nat, X: Slots, X': Slots)
    requires r < |sl| && SameButBack(sl, sl') && X'.forward == X.forward && X'.span == X.span
    ensures SameButBack(Ins(sl, r, X), Ins(sl', r, X'))
  {
    forall p | 0 <= p < |sl| + 1
      ensures var a := Ins(sl, r, X)[p]; var b := Ins(sl', r, X')[p]; b.forward == a.forward && b.span == a.span
    {
      if p != r + 1 {
        InsGet(sl, r, X, Unshift(r, p));
        InsGet(sl', r, X', Unshift(r, p));
      }
    }
  }

  lemma ReadyToPlace(ns: seq<Node>, sl: seq<Slots>, level: nat, x: Node, X: Slots, update: seq<Node>, rank: seq<nat>)
    requires LevelsOk(ns, sl, level) && |update| == |rank| == level && rank[0] < |ns|
    requires NewSizes(x, X) && x.height <= level && IsUpdate(ns, update, rank, 0, rank[0])
    ensures PartlyIn(ns, sl, level, rank[0], x, X, 0) && update[0] == ns[rank[0]]
  {
    hide LevelOk, ForwardOk;
  }

  lemma PlacedForward(ns: seq<Node>, sl: seq<Slots>, level: nat, r: nat, x: Node, X: Slots)
    requires PartlyIn(ns, sl, level, r, x, X, level) && x.elem.Some?
    ensures |X.forward| > 0 && X.forward[0] == At(ns, r + 1)
  {
    hide LevelsOk, LevelOk, ForwardOk;
    AllIn(ns, sl, level, r, x, X);
    FirstForward(ns, sl, r, x, X, level);
  }

  lemma PlacedLevels(ns: seq<Node>, sl: seq<Slots>, sl': seq<Slots>, level: nat, r: nat, x: Node, X: Slots, X': Slots)
    requires PartlyIn(ns, sl, level, r, x, X, level) && x.elem.Some?
    requires SameButBack(sl, sl') && X'.forward == X.forward && X'.span == X.span
    ensures r < |sl'| && LevelsOk(Ins(ns, r, x), Ins(sl', r, X'), level)
  {
    hide LevelsOk, LevelOk, ForwardOk, Ins;
    AllIn(ns, sl, level, r, x, X);
    SameButBackIns(sl, sl', r, X, X');
    LevelsIgnoreBack(Ins(ns, r, x), Ins(sl, r, X), Ins(sl', r, X'), level);
  }

  /** `update[j]` is the last node before position `d` on level `j`. */
  ghost predicate IsLast(ns: seq<Node>, update: seq<Node>, j: nat, d: nat) {
    j < |update| && 0 < d <= |ns| && ns[0].height > j && update[j] == ns[LastAt(ns, j, d - 1)]
  }

  ghost predicate UpdateReady(ns: seq<Node>, update: seq<Node>, level: nat, d: nat) {
    level <= |update| && forall j :: 0 <= j < level ==> IsLast(ns, update, j, d)
  }

  /** The pointer that crosses the gap before `d` leads to `d` exactly on d's own levels. */
  lemma ReachesNode(ns: seq<Node>, sl: seq<Slots>, level: nat, d: nat, i: nat)
    requires PartlyOut(ns, sl, level, d, i) && i < level && Distinct(ns)
    ensures ns[0].height > i && (sl[LastAt(ns, i, d - 1)].forward[i] == ns[d] <==> i < ns[d].height)
  {
    hide NextAt, LastAt;
    var u := LastAt(ns, i, d - 1);
    assert LevelOk(ns, sl, i);
    assert IsNext(ns, i, u, NextAt(ns, i, u));
  }

  lemma UnlinkedBacks(ns: seq<Node>, sl: seq<Slots>, u: nat, d: nat, i: nat)
    requires SizesOk(ns, sl) && u < d < |ns| && i < ns[u].height
    ensures var sl' := Unlinked(ns, sl, u, d, i);
      |sl'| == |sl| && sl'[d] == sl[d] && forall p :: 0 <= p < |sl| ==> sl'[p].back == sl[p].back
  {
  }

  lemma ReadyToUnlink(ns: seq<Node>, sl: seq<Slots>, level: nat, d: nat)
    requires LevelsOk(ns, sl, level) && 0 < d < |ns|
    ensures PartlyOut(ns, sl, level, d, 0) && |sl| == |ns| && 1 <= level
    ensures |sl[d].forward| > 0 && sl[d].forward[0] == At(ns, d + 1)
  {
    hide LevelOk, ForwardOk, NextAt;
    SlotIs(ns, sl, level, 0, d);
  }

  lemma UnlinkedLevels(ns: seq<Node>, sl: seq<Slots>, sl': seq<Slots>, level: nat, d: nat)
    requires PartlyOut(ns, sl, level, d, level) && SameButBack(sl, sl')
    ensures d < |sl'| && LevelsOk(Del(ns, d), Del(sl', d), level) && 1 <= level <= MAXLEVEL
  {
    hide LevelsOk, LevelOk, ForwardOk, Del;
    AllOut(ns, sl, level, d);
    DelGet(sl, d, 0);
    DelGet(sl', d, 0);
    forall p | 0 <= p < |sl| - 1
      ensures var a := Del(sl, d)[p]; var b := Del(sl', d)[p]; b.forward == a.forward && b.span == a.span
    {
      DelGet(sl, d, Up(d, p));
      DelGet(sl', d, Up(d, p));
    }
    LevelsIgnoreBack(Del(ns, d), Del(sl, d), Del(sl', d), level);
  }

  lemma SnapOfDel(ns: seq<Node>, d: nat)
    requires d < |ns|
    ensures Snap(Del(ns, d)) == Del(Snap(ns), d)
  {
  }

  lemma DistinctDel(ns: seq<Node>, d: nat)
    requires Distinct(ns) && d < |ns|
    ensures Distinct(Del(ns, d))
  {
    var ms := Del(ns, d);
    forall p, q | 0 <= p < q < |ms| ensures ms[p] != ms[q] {
      assert ms[p] == ns[Up(d, p)] && ms[q] == ns[Up(d, q)];
    }
  }

  /** The header's top pointer is null exactly when no node reaches the top level. */
  lemma DropIfEmpty(ns: seq<Node>, sl: seq<Slots>, level: nat)
    requires LevelsOk(ns, sl, level) && level > 1
    ensures |sl| == |ns| > 0 && |sl[0].forward| == MAXLEVEL && level <= MAXLEVEL
    ensures sl[0].forward[level - 1] == null ==> LevelsOk(ns, sl, level - 1)
    ensures sl[0].forward[level - 1] != null ==> NextAt(ns, level - 1, 0) < |ns|
  {
    hide LevelOk, ForwardOk, NextAt;
    SlotIs(ns, sl, level, level - 1, 0);
    if sl[0].forward[level - 1] == null { DropLevel(ns, sl, level); }
  }

  /** A sequence without the first occurrence of an element. */
  function Without(s: seq<Elem>, e: Elem): seq<Elem> {
    if s == [] then [] else if s[0] == e then s[1..] else [s[0]] + Without(s[1..], e)
  }

  lemma {:induction false} WithoutAt(s: seq<Elem>, e: Elem, c: nat)
    requires c <= |s| && (forall p :: 0 <= p < c ==> s[p] != e)
    ensures c < |s| && s[c] == e ==> Without(s, e) == s[..c] + s[c + 1..]
    ensures c == |s| ==> Without(s, e) == s
    decreases c
  {
    if c > 0 {
      WithoutAt(s[1..], e, c - 1);
      assert s[..c] == [s[0]] + s[1..][..c - 1];
      if c < |s| { assert s[c + 1..] == s[1..][c..]; }
    }
  }

  /** If the element is in the list, it is the one right after the cut. */
  lemma FoundAtCut(ns: seq<Node>, level: nat, e: Elem, r: nat)
    requires HeightsOk(ns, level) && Sorted(ns) && IsCut(ns, Below(e), r)
    ensures var s := Elems(ns);
      (e in s <==> r < |s| && s[r] == e)
      && Without(s, e) == if r < |s| && s[r] == e then s[..r] + s[r + 1..] else s
  {
    hide Without;
    var s := Elems(ns);
    LessTotal(e, e);
    forall p | 0 <= p < r ensures s[p] != e { assert PassAt(ns, Below(e), p + 1); }
    forall p | r < p < |s| ensures s[p] != e {
      assert Less(s[r], s[p]);
      assert !PassAt(ns, Below(e), r + 1);
    }
    if r < |s| && s[r] == e { WithoutAt(s, e, r); } else { WithoutAt(s, e, |s|); }
  }

  lemma SortedDel(ns: seq<Node>, level: nat, d: nat)
    requires HeightsOk(ns, level) && Sorted(ns) && 0 < d < |ns|
    ensures Del(ns, d) != [] && forall p :: 0 < p < |Del(ns, d)| ==> Del(ns, d)[p].elem.Some?
    ensures Sorted(Del(ns, d)) && Elems(Del(ns, d)) == Elems(ns)[..d - 1] + Elems(ns)[d..]
  {
    var ms := Del(ns, d);
    forall p, q | 0 < p < q < |ms| ensures Less(ms[p].elem.value, ms[q].elem.value) {
      assert ms[p] == ns[Up(d, p)] && ms[q] == ns[Up(d, q)];
    }
  }

  /** The nodes before a removed one keep being the last before its position. */
  lemma LastKept(ns: seq<Node>, update: seq<Node>, j: nat, d: nat)
    requires 0 < d < |ns| && IsLast(ns, update, j, d)
    ensures IsLast(Del(ns, d), update, j, d)
  {
    LastPrefix(ns, Del(ns, d), j, d - 1);
  }

  lemma {:induction false} LastPrefix(ns: seq<Node>, ms: seq<Node>, j: nat, r: nat)
    requires r < |ns| && r < |ms| && ns[..r + 1] == ms[..r + 1] && ns[0].height > j
    ensures ms[0] == ns[0] && LastAt(ms, j, r) == LastAt(ns, j, r)
    ensures ms[LastAt(ms, j, r)] == ns[LastAt(ns, j, r)]
    decreases r
  {
    assert ns[r] == ns[..r + 1][r] == ms[r] && ns[0] == ns[..r + 1][0] == ms[0];
    if ns[r].height <= j {
      assert ns[..r] == ns[..r + 1][..r] == ms[..r];
      LastPrefix(ns, ms, j, r - 1);
    }
  }

  lemma DelSubset(ns: seq<Node>, d: nat, all: seq<Node>)
    requires d < |ns| && forall p :: 0 <= p < |ns| ==> ns[p] in all
    ensures forall p :: 0 <= p < |Del(ns, d)| ==> Del(ns, d)[p] in all
  {
  }

  /** How far the range deletions go. */
  datatype Stop = ScoreUpTo(max: real) | RankUpTo(end: int)

  predicate InRange(stop: Stop, p: int, e: Elem) {
    match stop
    case ScoreUpTo(max) => e.score <= max
    case RankUpTo(end) => p <= end
  }

  /** The `k` elements from position `r` on are in range and the next one is not. */
  ghost predicate RunEnds(s: seq<Elem>, stop: Stop, r: nat, k: nat) {
    && r + k <= |s|
    && (forall p :: r <= p < r + k ==> InRange(stop, p + 1, s[p]))
    && (r + k < |s| ==> !InRange(stop, r + k + 1, s[r + k]))
  }

  function MembersOf(s: seq<Elem>): set<Member> { set e | e in s :: e.member }

  lemma MembersNext(s: seq<Elem>, r: nat, q: nat)
    requires r <= q < |s|
    ensures MembersOf(s[r..q + 1]) == MembersOf(s[r..q]) + {s[q].member}
  {
    assert s[r..q + 1] == s[r..q] + [s[q]];
  }

  /** After removing `k` elements from position `r` of `s` on, all of them in range. */
  ghost predicate RunState(s: seq<Elem>, c: seq<Elem>, stop: Stop, r: nat, k: nat,
                           dict: map<Member, real>, dict': map<Member, real>) {
    && r + k <= |s| && c == s[..r] + s[r + k..]
    && (forall p :: r <= p < r + k ==> InRange(stop, p + 1, s[p]))
    && dict' == dict - MembersOf(s[r..r + k])
  }

  lemma RunStart(s: seq<Elem>, stop: Stop, r: nat, dict: map<Member, real>)
    requires r <= |s|
    ensures RunState(s, s, stop, r, 0, dict, dict)
  {
    assert MembersOf(s[r..r]) == {};
  }

  lemma RunStep(s: seq<Elem>, c: seq<Elem>, stop: Stop, r: nat, k: nat,
                dict: map<Member, real>, dict': map<Member, real>)
    requires RunState(s, c, stop, r, k, dict, dict') && r < |c| && InRange(stop, r + k + 1, c[r])
    ensures RunState(s, c[..r] + c[r + 1..], stop, r, k + 1, dict, dict' - {c[r].member})
  {
    hide MembersOf, InRange;
    MembersNext(s, r, r + k);
    assert dict - MembersOf(s[r..r + k]) - {s[r + k].member} == dict - MembersOf(s[r..r + k + 1]);
  }

  lemma RunStop(s: seq<Elem>, c: seq<Elem>, stop: Stop, r: nat, k: nat,
                dict: map<Member, real>, dict': map<Member, real>)
    requires RunState(s, c, stop, r, k, dict, dict') && (r < |c| ==> !InRange(stop, r + k + 1, c[r]))
    ensures RunEnds(s, stop, r, k) && c == s[..r] + s[r + k..] && dict' == dict - MembersOf(s[r..r + k])
  {
    hide MembersOf, InRange;
  }

  function Clamp(x: int, n: nat): nat { if x < 0 then 0 else if x > n then n else x }

  predicate MembersDistinct(s: seq<Elem>) {
    forall i, j :: 0 <= i < |s| && 0 <= j < |s| && s[i].member == s[j].member ==> i == j
  }

  /** The elements whose score is outside [min, max], in order. */
  function OutsideScores(s: seq<Elem>, min: real, max: real): seq<Elem> {
    if s == [] then []
    else (if min <= s[0].score <= max then [] else [s[0]]) + OutsideScores(s[1..], min, max)
  }

  function MembersInScores(s: seq<Elem>, min: real, max: real): set<Member> {
    set e | e in s && min <= e.score <= max :: e.member
  }

  /** The parts before `r` and from `q` on, with the first element apart. */
  lemma SplitFirst(s: seq<Elem>, r: nat, q: nat)
    requires s != [] && r <= q <= |s|
    ensures var t := s[1..];
      && (r > 0 ==> s[..r] + s[q..] == [s[0]] + (t[..r - 1] + t[q - 1..]))
      && (r == 0 < q ==> s[..r] + s[q..] == [] + (t[..0] + t[q - 1..]))
      && (q == 0 ==> s[..r] + s[q..] == [s[0]] + (t[..0] + t[0..]))
  {
    var t := s[1..];
    if r > 0 {
      assert s[..r] == [s[0]] + t[..r - 1] && s[q..] == t[q - 1..];
    } else if q > 0 {
      assert s[q..] == t[q - 1..];
    } else {
      assert s == [s[0]] + t;
    }
  }

  lemma {:induction false} OutsideSplit(s: seq<Elem>, min: real, max: real, r: nat, q: nat)
    requires r <= q <= |s|
    requires forall p :: 0 <= p < |s| ==> (min <= s[p].score <= max <==> r <= p < q)
    ensures OutsideScores(s, min, max) == s[..r] + s[q..]
    decreases |s|
  {
    if s != [] {
      var r', q' := if r > 0 then r - 1 else 0, if q > 0 then q - 1 else 0;
      var t := s[1..];
      assert forall p :: 0 <= p < |t| ==> t[p] == s[p + 1];
      OutsideSplit(t, min, max, r', q');
      SplitFirst(s, r, q);
    }
  }

  /** The removed run is exactly the elements with a score in [min, max]. */
  lemma ScoreRun(ns: seq<Node>, level: nat, s: seq<Elem>, min: real, max: real, r: nat, k: nat)
    requires HeightsOk(ns, level) && Sorted(ns) && s == Elems(ns) && IsCut(ns, ScoreBelow(min), r)
    requires RunEnds(s, ScoreUpTo(max), r, k)
    ensures OutsideScores(s, min, max) == s[..r] + s[r + k..]
    ensures MembersInScores(s, min, max) == MembersOf(s[r..r + k])
  {
    hide OutsideScores;
    forall p | 0 <= p < |s| ensures min <= s[p].score <= max <==> r <= p < r + k {
      if p < r {
        assert PassAt(ns, ScoreBelow(min), p + 1);
      } else {
        assert !PassAt(ns, ScoreBelow(min), p + 1);
        if p < r + k {
          assert InRange(ScoreUpTo(max), p + 1, s[p]);
        } else if p > r + k {
          assert Less(s[r + k], s[p]);
        }
      }
    }
    OutsideSplit(s, min, max, r, r + k);
    assert forall e :: e in s[r..r + k] <==> e in s && min <= e.score <= max;
  }

  lemma RankRun(s: seq<Elem>, end: nat, r: nat, k: nat)
    requires RunEnds(s, RankUpTo(end), r, k)
    ensures r + k == if end > r then Clamp(end, |s|) else r
  {
    if k > 0 { assert InRange(RankUpTo(end), r + k, s[r + k - 1]); }
  }

  lemma NotAtCut(ns: seq<Node>, level: nat, e: Elem, rank: nat)
    requires HeightsOk(ns, level) && Sorted(ns) && rank < |ns|
    requires PassAt(ns, UpTo(e), rank) && !PassAt(ns, UpTo(e), rank + 1)
    requires ns[rank].elem.Some? ==> ns[rank].elem.value.member != e.member
    ensures e !in Elems(ns)
  {
    if e in Elems(ns) {
      var k :| 0 <= k < |Elems(ns)| && Elems(ns)[k] == e;
      assert ns[k + 1].elem.value == e && PassAt(ns, UpTo(e), k + 1);
      if k + 1 <= rank {
        assert k + 1 < rank ==> Less(e, ns[rank].elem.value);
        LessTotal(e, ns[rank].elem.value);
      }
    }
  }

  lemma CutOfRank(ns: seq<Node>, level: nat, start: nat, r: nat)
    requires HeightsOk(ns, level) && IsCut(ns, RankBelow(start), r)
    ensures r == Clamp(start - 1, |ns| - 1)
  {
    if r > 0 { assert PassAt(ns, RankBelow(start), r); }
    if r + 1 < |ns| { assert !PassAt(ns, RankBelow(start), r + 1); }
  }

  lemma AfterDel(ns: seq<Node>, d: nat)
    requires 0 < d < |ns|
    ensures |Del(ns, d)| == |ns| - 1 && At(Del(ns, d), d) == At(ns, d + 1)
  {
  }

  lemma DistinctIns(ns: seq<Node>, r: nat, x: Node)
    requires Distinct(ns) && r < |ns| && x !in ns
    ensures Distinct(Ins(ns, r, x))
  {
    var ms := Ins(ns, r, x);
    forall p, q | 0 <= p < q < |ms| ensures ms[p] != ms[q] {
      if p != r + 1 { assert ms[p] == ns[Unshift(r, p)]; }
      if q != r + 1 { assert ms[q] == ns[Unshift(r, q)]; }
    }
  }

  lemma HeaderIsLast(ns: seq<Node>, level: nat, r: nat)
    requires HeightsOk(ns, level) && level < MAXLEVEL && r < |ns|
    ensures LastAt(ns, level, r) == 0
  {
  }

  lemma EmptyList(h: Node, s: Slots)
    requires h.height == MAXLEVEL && h.elem.None?
    requires s == Slots(seq(MAXLEVEL, _ => null), seq(MAXLEVEL - 1, _ => 0), null)
    ensures ListOk([h], [s], 1, 0, null)
  {
  }

  /** Where the search stopped on level `j`. */
  ghost predicate Stopped(ns: seq<Node>, update: seq<Node>, rank: seq<nat>, cut: Cut, j: nat) {
    && j < |update| && j < |rank| && rank[j] < |ns| && ns[rank[j]] == update[j] && update[j].height > j
    && PassAt(ns, cut, rank[j]) && !PassAt(ns, cut, NextAt(ns, j, rank[j]))
  }

  /** `update[j]` is the last node up to position `r` on level `j`. */
  ghost predicate IsUpdate(ns: seq<Node>, update: seq<Node>, rank: seq<nat>, j: nat, r: nat) {
    && j < |update| && j < |rank| && r < |ns| && ns[0].height > j
    && rank[j] == LastAt(ns, j, r) && update[j] == ns[rank[j]]
  }

  lemma StopsAreUpdates(ns: seq<Node>, sl: seq<Slots>, level: nat, length: nat, tail: Node?,
                        update: seq<Node>, rank: seq<nat>, cut: Cut)
    requires ListOk(ns, sl, level, length, tail) && |update| == |rank| == level
    requires forall j :: 0 <= j < level ==> Stopped(ns, update, rank, cut, j)
    ensures IsCut(ns, cut, rank[0])
    ensures forall j :: 0 <= j < level ==> IsUpdate(ns, update, rank, j, rank[0])
  {
    hide NextAt, LastAt, LevelOk, ForwardOk, BackOk, Distinct, PassAt, Sorted;
    var c := rank[0];
    assert Stopped(ns, update, rank, cut, 0);
    SlotIs(ns, sl, level, 0, c);
    forall p | 0 < p <= c ensures PassAt(ns, cut, p) { EarlierPass(ns, level, cut, p, c); }
    forall p | c < p < |ns| ensures !PassAt(ns, cut, p) {
      if PassAt(ns, cut, p) { EarlierPass(ns, level, cut, c + 1, p); }
    }
    forall j | 0 <= j < level ensures IsUpdate(ns, update, rank, j, c) {
      assert Stopped(ns, update, rank, cut, j);
      Crossing(ns, j, c, rank[j]);
    }
  }
}
