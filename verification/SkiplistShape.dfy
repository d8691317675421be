/** The shape of a skiplist, as a sequence of nodes and the contents of their slots.
    Position 0 is the header; a node of height h has forward pointers 0..h-1 and, because the
    span of level 0 is always 1, spans for levels 1..h-1. */
module SkiplistShape {
  import opened Bytes
  import opened ZsetOrder

  const MAXLEVEL: nat := 32

  class Node {
    ghost const height: nat
    const elem: Option<Elem>
    var forward: seq<Node?>
    var span: seq<int>
    var backward: Node?

    constructor (level: nat, elem: Option<Elem>)
      requires level > 0
      ensures height == level && this.elem == elem
      ensures forward == seq(level, _ => null) && span == seq(level - 1, _ => 0) && backward == null
    {
      height := level;
      this.elem := elem;
      forward := seq(level, _ => null);
      span := seq(level - 1, _ => 0);
      backward := null;
    }
  }

  /** The next position after `p` whose node reaches level `i`, or the end. */
  ghost function NextAt(ns: seq<Node>, i: nat, p: nat): (q: nat)
    requires p < |ns|
    ensures IsNext(ns, i, p, q)
    decreases |ns| - p
  {
    if p + 1 == |ns| || ns[p + 1].height > i then p + 1 else NextAt(ns, i, p + 1)
  }

  ghost predicate IsNext(ns: seq<Node>, i: nat, p: nat, q: nat) {
    p < q <= |ns| && (q < |ns| ==> ns[q].height > i) && forall k :: p < k < q ==> ns[k].height <= i
  }

  lemma NextUnique(ns: seq<Node>, i: nat, p: nat, q: nat)
    requires p < |ns| && IsNext(ns, i, p, q)
    ensures q == NextAt(ns, i, p)
  {
  }

  /** The last position up to `r` whose node reaches level `i`. */
  ghost function LastAt(ns: seq<Node>, i: nat, r: nat): (u: nat)
    requires r < |ns| && ns[0].height > i
    ensures u <= r && ns[u].height > i && NextAt(ns, i, u) > r
    decreases r
  {
    if ns[r].height > i then r
    else
      var u := LastAt(ns, i, r - 1);
      assert NextAt(ns, i, u) != r;
      u
  }

  ghost function At(ns: seq<Node>, q: nat): Node? { if q < |ns| then ns[q] else null }

  /** Number of nodes crossed by the level-`i` pointer of position `p`; for a null pointer the
      number of nodes after `p`. */
  ghost function Dist(ns: seq<Node>, i: nat, p: nat): int
    requires p < |ns|
  {
    var q := NextAt(ns, i, p);
    if q < |ns| then q - p else q - p - 1
  }

  /** The mutable fields of a node. */
  datatype Slots = Slots(forward: seq<Node?>, span: seq<int>, back: Node?)

  ghost function SlotsOf(n: Node): Slots
    reads n
  {
    Slots(n.forward, n.span, n.backward)
  }

  ghost function Snap(ns: seq<Node>): seq<Slots>
    reads ns
  {
    seq(|ns|, p requires 0 <= p < |ns| reads ns => SlotsOf(ns[p]))
  }

  ghost predicate Distinct(ns: seq<Node>) {
    forall p, q :: 0 <= p < q < |ns| ==> ns[p] != ns[q]
  }

  ghost predicate SizesOk(ns: seq<Node>, sl: seq<Slots>) {
    |sl| == |ns| && forall p :: 0 <= p < |ns| ==>
      ns[p].height > 0 && |sl[p].forward| == ns[p].height && |sl[p].span| == ns[p].height - 1
  }

  ghost predicate ForwardOk(ns: seq<Node>, sl: seq<Slots>, i: nat)
    requires SizesOk(ns, sl)
  {
    forall p :: 0 <= p < |ns| && ns[p].height > i ==> sl[p].forward[i] == At(ns, NextAt(ns, i, p))
  }

  ghost predicate SpanOk(ns: seq<Node>, sl: seq<Slots>, i: nat)
    requires SizesOk(ns, sl) && i > 0
  {
    forall p :: 0 <= p < |ns| && ns[p].height > i ==> sl[p].span[i - 1] == Dist(ns, i, p)
  }

  // ---------------------------------------------------------------- insertion

  function Ins<T>(s: seq<T>, r: nat, x: T): seq<T>
    requires r < |s|
  {
    s[..r + 1] + [x] + s[r + 1..]
  }

  function Shift(r: nat, p: nat): nat { if p <= r then p else p + 1 }

  lemma InsLength<T>(s: seq<T>, r: nat, x: T)
    requires r < |s|
    ensures |Ins(s, r, x)| == |s| + 1 && Ins(s, r, x)[r + 1] == x
  {
  }

  lemma InsGet<T>(s: seq<T>, r: nat, x: T, p: nat)
    requires r < |s| && p < |s|
    ensures Shift(r, p) < |Ins(s, r, x)| && Ins(s, r, x)[Shift(r, p)] == s[p]
  {
  }

  lemma InsAt(ns: seq<Node>, r: nat, x: Node, q: nat)
    requires r < |ns|
    ensures At(Ins(ns, r, x), Shift(r, q)) == At(ns, q) && At(Ins(ns, r, x), r + 1) == x
  {
  }

  /** The old position of a position other than the new one. */
  function Unshift(r: nat, p: nat): (q: nat)
    requires p != r + 1
    ensures Shift(r, q) == p
  {
    if p <= r then p else p - 1
  }

  /** Where the pointers of the old nodes lead after a node of height h was put after
      position `r`. */
  lemma NextAfterIns(ns: seq<Node>, r: nat, x: Node, i: nat, p: nat)
    requires r < |ns| && p < |ns|
    ensures NextAt(Ins(ns, r, x), i, Shift(r, p)) ==
      if i < x.height && p <= r < NextAt(ns, i, p) then r + 1 else Shift(r, NextAt(ns, i, p))
  {
    var ms := Ins(ns, r, x);
    var q := NextAt(ns, i, p);
    var q' := if i < x.height && p <= r < q then r + 1 else Shift(r, q);
    forall k | Shift(r, p) < k < q' ensures ms[k].height <= i {
      if k <= r { assert ms[k] == ns[k]; } else if k > r + 1 { assert ms[k] == ns[k - 1]; }
    }
    NextUnique(ms, i, Shift(r, p), q');
  }

  /** Where the pointers of the new node lead: where its predecessor's led. */
  lemma NextOfNew(ns: seq<Node>, r: nat, x: Node, i: nat, u: nat)
    requires r < |ns| && u <= r < NextAt(ns, i, u)
    ensures NextAt(Ins(ns, r, x), i, r + 1) == NextAt(ns, i, u) + 1
  {
    var ms := Ins(ns, r, x);
    var q := NextAt(ns, i, u);
    forall k | r + 1 < k < q + 1 ensures ms[k].height <= i {
      assert ms[k] == ns[k - 1];
    }
    NextUnique(ms, i, r + 1, q + 1);
  }

  function SetSlot(s: Slots, i: nat, f: Node?, d: int): Slots
    requires i < |s.forward| && (i > 0 ==> i - 1 < |s.span|)
  {
    Slots(s.forward[i := f], if i > 0 then s.span[i - 1 := d] else s.span, s.back)
  }

  ghost predicate LevelOk(ns: seq<Node>, sl: seq<Slots>, i: nat) {
    SizesOk(ns, sl) && ForwardOk(ns, sl, i) && (i > 0 ==> SpanOk(ns, sl, i))
  }

  /** The slots of level `j` are the same. */
  ghost predicate SameSlots(ns: seq<Node>, sl: seq<Slots>, sl': seq<Slots>, j: nat)
    requires SizesOk(ns, sl) && SizesOk(ns, sl')
  {
    forall p :: 0 <= p < |ns| && ns[p].height > j ==>
      sl'[p].forward[j] == sl[p].forward[j] && (j > 0 ==> sl'[p].span[j - 1] == sl[p].span[j - 1])
  }

  lemma SameLevel(ns: seq<Node>, sl: seq<Slots>, sl': seq<Slots>, j: nat)
    requires SizesOk(ns, sl) && SizesOk(ns, sl') && SameSlots(ns, sl, sl', j)
    ensures LevelOk(ns, sl, j) ==> LevelOk(ns, sl', j)
    ensures ForwardOk(ns, sl, j) ==> ForwardOk(ns, sl', j)
  {
  }

  ghost predicate NewSizes(x: Node, X: Slots) {
    x.height > 0 && |X.forward| == x.height && |X.span| == x.height - 1
  }

  lemma InsSizes(ns: seq<Node>, sl: seq<Slots>, r: nat, x: Node, X: Slots)
    requires r < |ns| && SizesOk(ns, sl) && NewSizes(x, X)
    ensures SizesOk(Ins(ns, r, x), Ins(sl, r, X))
  {
    var ms, ml := Ins(ns, r, x), Ins(sl, r, X);
    forall p | 0 <= p < |ms|
      ensures ms[p].height > 0 && |ml[p].forward| == ms[p].height && |ml[p].span| == ms[p].height - 1
    {
      if p <= r { assert ms[p] == ns[p]; } else if p > r + 1 { assert ms[p] == ns[p - 1]; }
    }
  }

  /** Level `i` of the old nodes after `x` was spliced in behind position `u`. */
  ghost function Spliced(sl: seq<Slots>, u: nat, i: nat, x: Node, r: nat): seq<Slots>
    requires u < |sl| && u <= r && i < |sl[u].forward| && |sl[u].span| == |sl[u].forward| - 1
  {
    sl[u := SetSlot(sl[u], i, x, r - u + 1)]
  }

  ghost function SplicedNew(sl: seq<Slots>, u: nat, i: nat, X: Slots, r: nat): Slots
    requires u < |sl| && u <= r && i < |sl[u].forward| && |sl[u].span| == |sl[u].forward| - 1
    requires i < |X.forward| && |X.span| == |X.forward| - 1
  {
    SetSlot(X, i, sl[u].forward[i], if i > 0 then sl[u].span[i - 1] - (r - u) else 0)
  }

  lemma SplicedSizes(ns: seq<Node>, sl: seq<Slots>, u: nat, i: nat, x: Node, X: Slots, r: nat)
    requires SizesOk(ns, sl) && NewSizes(x, X) && u < |ns| && u <= r && i < ns[u].height && i < x.height
    ensures SizesOk(ns, Spliced(sl, u, i, x, r)) && NewSizes(x, SplicedNew(sl, u, i, X, r))
  {
  }

  /** The position whose level-`i` pointer crosses the gap after `r` is unique. */
  lemma Crossing(ns: seq<Node>, i: nat, r: nat, p: nat)
    requires r < |ns| && ns[0].height > i && p <= r < NextAt(ns, i, p) && ns[p].height > i
    ensures p == LastAt(ns, i, r)
  {
    hide NextAt, LastAt;
    var u := LastAt(ns, i, r);
    assert IsNext(ns, i, p, NextAt(ns, i, p)) && IsNext(ns, i, u, NextAt(ns, i, u));
  }

  /** Distances of the old nodes' pointers after the insertion. */
  lemma DistAfterIns(ns: seq<Node>, r: nat, x: Node, i: nat, p: nat)
    requires r < |ns| && p < |ns|
    ensures Shift(r, p) < |Ins(ns, r, x)|
    ensures Dist(Ins(ns, r, x), i, Shift(r, p)) ==
      if p <= r < NextAt(ns, i, p) then (if i < x.height then r + 1 - p else Dist(ns, i, p) + 1)
      else Dist(ns, i, p)
  {
    hide NextAt, Ins;
    InsLength(ns, r, x);
    NextAfterIns(ns, r, x, i, p);
  }

  /** The slots of one old position at level `i` after the splice. */
  lemma SpliceOld(ns: seq<Node>, sl: seq<Slots>, r: nat, x: Node, i: nat, p: nat)
    requires LevelOk(ns, sl, i) && r < |ns| && ns[0].height > i && i < x.height
    requires p < |ns| && ns[p].height > i
    ensures Shift(r, p) < |Ins(ns, r, x)|
    ensures var u := LastAt(ns, i, r); var s := Spliced(sl, u, i, x, r)[p]; var ms := Ins(ns, r, x);
      && s.forward[i] == At(ms, NextAt(ms, i, Shift(r, p)))
      && (i > 0 ==> s.span[i - 1] == Dist(ms, i, Shift(r, p)))
  {
    hide NextAt, LastAt, Ins, Dist, At;
    NextAfterIns(ns, r, x, i, p);
    DistAfterIns(ns, r, x, i, p);
    InsAt(ns, r, x, NextAt(ns, i, p));
    if p <= r < NextAt(ns, i, p) { Crossing(ns, i, r, p); }
  }

  lemma SpliceNewSlot(ns: seq<Node>, sl: seq<Slots>, r: nat, x: Node, X: Slots, i: nat)
    requires LevelOk(ns, sl, i) && r < |ns| && ns[0].height > i && i < x.height && NewSizes(x, X)
    ensures r + 1 < |Ins(ns, r, x)|
    ensures var u := LastAt(ns, i, r); var ms := Ins(ns, r, x); var X' := SplicedNew(sl, u, i, X, r);
      X'.forward[i] == At(ms, NextAt(ms, i, r + 1)) && (i > 0 ==> X'.span[i - 1] == Dist(ms, i, r + 1))
  {
    hide NextAt, LastAt, Ins, At;
    var u := LastAt(ns, i, r);
    InsLength(ns, r, x);
    NextOfNew(ns, r, x, i, u);
    InsAt(ns, r, x, NextAt(ns, i, u));
  }

  /** Splicing makes level `i` right for the list with the new node. */
  lemma SpliceLevel(ns: seq<Node>, sl: seq<Slots>, r: nat, x: Node, X: Slots, i: nat)
    requires LevelOk(ns, sl, i) && r < |ns| && ns[0].height > i && i < x.height && NewSizes(x, X)
    ensures var u := LastAt(ns, i, r);
      LevelOk(Ins(ns, r, x), Ins(Spliced(sl, u, i, x, r), r, SplicedNew(sl, u, i, X, r)), i)
  {
    hide NextAt, LastAt, Dist, Ins, At, Spliced, SplicedNew;
    var u := LastAt(ns, i, r);
    var sl', X' := Spliced(sl, u, i, x, r), SplicedNew(sl, u, i, X, r);
    SplicedSizes(ns, sl, u, i, x, X, r);
    InsSizes(ns, sl', r, x, X');
    InsLength(ns, r, x);
    InsLength(sl', r, X');
    SpliceNewSlot(ns, sl, r, x, X, i);
    var ms, ml := Ins(ns, r, x), Ins(sl', r, X');
    forall p | 0 <= p < |ms| && ms[p].height > i
      ensures ml[p].forward[i] == At(ms, NextAt(ms, i, p)) && (i > 0 ==> ml[p].span[i - 1] == Dist(ms, i, p))
    {
      if p != r + 1 {
        InsGet(ns, r, x, Unshift(r, p));
        InsGet(sl', r, X', Unshift(r, p));
        SpliceOld(ns, sl, r, x, i, Unshift(r, p));
      }
    }
  }

  /** Above the new node's height only the span that crosses it grows. */
  ghost function Bumped(sl: seq<Slots>, u: nat, i: nat): seq<Slots>
    requires u < |sl| && 0 < i <= |sl[u].span|
  {
    sl[u := sl[u].(span := sl[u].span[i - 1 := sl[u].span[i - 1] + 1])]
  }

  lemma BumpOld(ns: seq<Node>, sl: seq<Slots>, r: nat, x: Node, i: nat, p: nat)
    requires LevelOk(ns, sl, i) && r < |ns| && ns[0].height > i && x.height <= i && 0 < i
    requires p < |ns| && ns[p].height > i
    ensures Shift(r, p) < |Ins(ns, r, x)|
    ensures var s := Bumped(sl, LastAt(ns, i, r), i)[p]; var ms := Ins(ns, r, x);
      s.forward[i] == At(ms, NextAt(ms, i, Shift(r, p))) && s.span[i - 1] == Dist(ms, i, Shift(r, p))
  {
    hide NextAt, LastAt, Ins, Dist, At;
    NextAfterIns(ns, r, x, i, p);
    DistAfterIns(ns, r, x, i, p);
    InsAt(ns, r, x, NextAt(ns, i, p));
    if p <= r < NextAt(ns, i, p) { Crossing(ns, i, r, p); }
  }

  lemma BumpLevel(ns: seq<Node>, sl: seq<Slots>, r: nat, x: Node, X: Slots, i: nat)
    requires LevelOk(ns, sl, i) && r < |ns| && ns[0].height > i && x.height <= i && NewSizes(x, X)
    ensures LevelOk(Ins(ns, r, x), Ins(Bumped(sl, LastAt(ns, i, r), i), r, X), i)
  {
    hide NextAt, LastAt, Dist, Ins, At;
    var sl' := Bumped(sl, LastAt(ns, i, r), i);
    InsSizes(ns, sl', r, x, X);
    InsLength(ns, r, x);
    var ms, ml := Ins(ns, r, x), Ins(sl', r, X);
    forall p | 0 <= p < |ms| && ms[p].height > i
      ensures ml[p].forward[i] == At(ms, NextAt(ms, i, p)) && ml[p].span[i - 1] == Dist(ms, i, p)
    {
      InsGet(ns, r, x, Unshift(r, p));
      InsGet(sl', r, X, Unshift(r, p));
      BumpOld(ns, sl, r, x, i, Unshift(r, p));
    }
  }

  /** Pointers above the new node's height are unaffected. */
  lemma ForwardAbove(ns: seq<Node>, sl: seq<Slots>, r: nat, x: Node, X: Slots, i: nat)
    requires SizesOk(ns, sl) && ForwardOk(ns, sl, i) && r < |ns| && x.height <= i && NewSizes(x, X)
    ensures SizesOk(Ins(ns, r, x), Ins(sl, r, X)) && ForwardOk(Ins(ns, r, x), Ins(sl, r, X), i)
  {
    hide NextAt, Ins, At;
    InsSizes(ns, sl, r, x, X);
    InsLength(ns, r, x);
    var ms, ml := Ins(ns, r, x), Ins(sl, r, X);
    forall p | 0 <= p < |ms| && ms[p].height > i
      ensures ml[p].forward[i] == At(ms, NextAt(ms, i, p))
    {
      var p' := Unshift(r, p);
      InsGet(ns, r, x, p');
      InsGet(sl, r, X, p');
      NextAfterIns(ns, r, x, i, p');
      InsAt(ns, r, x, NextAt(ns, i, p'));
    }
  }

  // ---------------------------------------------------------------- deletion

  function Del<T>(s: seq<T>, d: nat): seq<T>
    requires d < |s|
  {
    s[..d] + s[d + 1..]
  }

  /** New position of an old position other than the deleted one. */
  function Down(d: nat, p: nat): nat
    requires p != d
  {
    if p < d then p else p - 1
  }

  /** Old position of a position after the deletion. */
  function Up(d: nat, p: nat): (q: nat)
    ensures q != d && Down(d, q) == p
  {
    if p < d then p else p + 1
  }

  lemma DelGet<T>(s: seq<T>, d: nat, p: nat)
    requires d < |s| && p < |s| && p != d
    ensures |Del(s, d)| == |s| - 1 && Down(d, p) < |Del(s, d)| && Del(s, d)[Down(d, p)] == s[p]
  {
  }

  lemma DelAt(ns: seq<Node>, d: nat, q: nat)
    requires d < |ns| && q != d
    ensures At(Del(ns, d), Down(d, q)) == At(ns, q)
  {
  }

  lemma DelSizes(ns: seq<Node>, sl: seq<Slots>, d: nat)
    requires d < |ns| && SizesOk(ns, sl)
    ensures SizesOk(Del(ns, d), Del(sl, d))
  {
    hide Del;
    if |ns| > 1 { DelGet(ns, d, Up(d, 0)); DelGet(sl, d, Up(d, 0)); } else { DelOnly(ns, d); DelOnly(sl, d); }
    forall p | 0 <= p < |Del(ns, d)|
      ensures var n := Del(ns, d)[p]; var s := Del(sl, d)[p];
        n.height > 0 && |s.forward| == n.height && |s.span| == n.height - 1
    {
      DelGet(ns, d, Up(d, p));
      DelGet(sl, d, Up(d, p));
    }
  }

  lemma DelOnly<T>(s: seq<T>, d: nat)
    requires d < |s| && |s| == 1
    ensures Del(s, d) == []
  {
  }

  /** Where pointers lead after the node at `d` was removed. */
  lemma NextAfterDel(ns: seq<Node>, d: nat, i: nat, p: nat)
    requires 0 < d < |ns| && p < |ns| && p != d
    ensures Down(d, p) < |Del(ns, d)|
    ensures NextAt(Del(ns, d), i, Down(d, p)) ==
      if NextAt(ns, i, p) == d then NextAt(ns, i, d) - 1 else Down(d, NextAt(ns, i, p))
  {
    var ms := Del(ns, d);
    var q := NextAt(ns, i, p);
    var q' := if q == d then NextAt(ns, i, d) - 1 else Down(d, q);
    forall k | Down(d, p) < k < q' ensures ms[k].height <= i {
      if k < d { assert ms[k] == ns[k]; } else { assert ms[k] == ns[k + 1]; }
    }
    NextUnique(ms, i, Down(d, p), q');
  }

  lemma DistAfterDel(ns: seq<Node>, d: nat, i: nat, p: nat)
    requires 0 < d < |ns| && p < |ns| && p != d
    ensures Down(d, p) < |Del(ns, d)|
    ensures Dist(Del(ns, d), i, Down(d, p)) ==
      if p < d && NextAt(ns, i, p) == d then Dist(ns, i, p) + Dist(ns, i, d) - 1
      else if p < d < NextAt(ns, i, p) then Dist(ns, i, p) - 1
      else Dist(ns, i, p)
  {
    hide NextAt, Del;
    DelGet(ns, d, p);
    NextAfterDel(ns, d, i, p);
  }

  /** What zslDeleteNode does to the slot of level `i` that crosses or reaches the node. */
  ghost function Unlinked(ns: seq<Node>, sl: seq<Slots>, u: nat, d: nat, i: nat): seq<Slots>
    requires SizesOk(ns, sl) && u < d < |ns| && i < ns[u].height
  {
    var s := sl[u];
    if i < ns[d].height then
      sl[u := SetSlot(s, i, sl[d].forward[i], if i > 0 then s.span[i - 1] + sl[d].span[i - 1] - 1 else 0)]
    else
      sl[u := SetSlot(s, i, s.forward[i], if i > 0 then s.span[i - 1] - 1 else 0)]
  }

  lemma UnlinkedSizes(ns: seq<Node>, sl: seq<Slots>, u: nat, d: nat, i: nat)
    requires SizesOk(ns, sl) && u < d < |ns| && i < ns[u].height
    ensures SizesOk(ns, Unlinked(ns, sl, u, d, i))
  {
  }

  lemma UnlinkOld(ns: seq<Node>, sl: seq<Slots>, d: nat, i: nat, p: nat)
    requires LevelOk(ns, sl, i) && 0 < d < |ns| && ns[0].height > i
    requires p < |ns| && p != d && ns[p].height > i
    ensures Down(d, p) < |Del(ns, d)|
    ensures var s := Unlinked(ns, sl, LastAt(ns, i, d - 1), d, i)[p]; var ms := Del(ns, d);
      && s.forward[i] == At(ms, NextAt(ms, i, Down(d, p)))
      && (i > 0 ==> s.span[i - 1] == Dist(ms, i, Down(d, p)))
  {
    hide NextAt, LastAt, Del, Dist, At, Unlinked;
    var q := NextAt(ns, i, p);
    assert IsNext(ns, i, p, q);
    if p < d <= q {
      Crossing(ns, i, d - 1, p);
      if q == d { UnlinkReached(ns, sl, d, i, p); } else { UnlinkCrossed(ns, sl, d, i, p); }
    } else {
      UnlinkApart(ns, sl, d, i, p);
    }
  }

  /** The pointer that reached the node takes over the node's own. */
  lemma UnlinkReached(ns: seq<Node>, sl: seq<Slots>, d: nat, i: nat, p: nat)
    requires LevelOk(ns, sl, i) && 0 < d < |ns| && p < d && ns[p].height > i && NextAt(ns, i, p) == d
    ensures var s := Unlinked(ns, sl, p, d, i)[p]; var ms := Del(ns, d);
      && p < |ms| && s.forward[i] == At(ms, NextAt(ms, i, p)) && (i > 0 ==> s.span[i - 1] == Dist(ms, i, p))
  {
    hide NextAt, Del, Dist, At;
    NextAfterDel(ns, d, i, p);
    DistAfterDel(ns, d, i, p);
    assert IsNext(ns, i, p, d) && IsNext(ns, i, d, NextAt(ns, i, d));
    DelAt(ns, d, NextAt(ns, i, d));
  }

  /** The pointer that passed over it is one shorter. */
  lemma UnlinkCrossed(ns: seq<Node>, sl: seq<Slots>, d: nat, i: nat, p: nat)
    requires LevelOk(ns, sl, i) && 0 < d < |ns| && p < d && ns[p].height > i && d < NextAt(ns, i, p)
    ensures var s := Unlinked(ns, sl, p, d, i)[p]; var ms := Del(ns, d);
      && p < |ms| && s.forward[i] == At(ms, NextAt(ms, i, p)) && (i > 0 ==> s.span[i - 1] == Dist(ms, i, p))
  {
    hide NextAt, Del, Dist, At;
    NextAfterDel(ns, d, i, p);
    DistAfterDel(ns, d, i, p);
    assert IsNext(ns, i, p, NextAt(ns, i, p));
    DelAt(ns, d, NextAt(ns, i, p));
  }

  /** The others stay. */
  lemma UnlinkApart(ns: seq<Node>, sl: seq<Slots>, d: nat, i: nat, p: nat)
    requires LevelOk(ns, sl, i) && 0 < d < |ns| && ns[0].height > i && p < |ns| && p != d && ns[p].height > i
    requires !(p < d <= NextAt(ns, i, p))
    ensures Down(d, p) < |Del(ns, d)|
    ensures var s := Unlinked(ns, sl, LastAt(ns, i, d - 1), d, i)[p]; var ms := Del(ns, d);
      && s.forward[i] == At(ms, NextAt(ms, i, Down(d, p)))
      && (i > 0 ==> s.span[i - 1] == Dist(ms, i, Down(d, p)))
  {
    hide NextAt, LastAt, Del, Dist, At;
    NextAfterDel(ns, d, i, p);
    DistAfterDel(ns, d, i, p);
    var u := LastAt(ns, i, d - 1);
    assert IsNext(ns, i, p, NextAt(ns, i, p)) && IsNext(ns, i, u, NextAt(ns, i, u));
    assert p != u && NextAt(ns, i, p) != d;
    DelAt(ns, d, NextAt(ns, i, p));
  }

  /** Unlinking makes level `i` right for the list without the node. */
  lemma UnlinkLevel(ns: seq<Node>, sl: seq<Slots>, d: nat, i: nat)
    requires LevelOk(ns, sl, i) && 0 < d < |ns| && ns[0].height > i
    ensures LevelOk(Del(ns, d), Del(Unlinked(ns, sl, LastAt(ns, i, d - 1), d, i), d), i)
  {
    hide NextAt, LastAt, Dist, Del, At, Unlinked;
    var sl' := Unlinked(ns, sl, LastAt(ns, i, d - 1), d, i);
    UnlinkedSizes(ns, sl, LastAt(ns, i, d - 1), d, i);
    DelSizes(ns, sl', d);
    var ms, ml := Del(ns, d), Del(sl', d);
    forall p | 0 <= p < |ms| && ms[p].height > i
      ensures ml[p].forward[i] == At(ms, NextAt(ms, i, p)) && (i > 0 ==> ml[p].span[i - 1] == Dist(ms, i, p))
    {
      DelGet(ns, d, 0);
      DelGet(ns, d, Up(d, p));
      DelGet(sl', d, Up(d, p));
      UnlinkOld(ns, sl, d, i, Up(d, p));
    }
  }

  /** Pointers of levels the node does not reach are unaffected. */
  lemma ForwardAboveDel(ns: seq<Node>, sl: seq<Slots>, d: nat, i: nat)
    requires SizesOk(ns, sl) && ForwardOk(ns, sl, i) && 0 < d < |ns| && ns[d].height <= i
    ensures SizesOk(Del(ns, d), Del(sl, d)) && ForwardOk(Del(ns, d), Del(sl, d), i)
  {
    hide NextAt, Del, At;
    DelSizes(ns, sl, d);
    var ms, ml := Del(ns, d), Del(sl, d);
    forall p | 0 <= p < |ms| && ms[p].height > i
      ensures ml[p].forward[i] == At(ms, NextAt(ms, i, p))
    {
      var p' := Up(d, p);
      DelGet(ns, d, 0);
      DelGet(ns, d, p');
      DelGet(sl, d, p');
      NextAfterDel(ns, d, i, p');
      assert IsNext(ns, i, p', NextAt(ns, i, p'));
      DelAt(ns, d, NextAt(ns, i, p'));
    }
  }

  // ---------------------------------------------------------------- whole structure

  ghost predicate HeightsOk(ns: seq<Node>, level: nat) {
    && ns != [] && 1 <= level <= MAXLEVEL && ns[0].height == MAXLEVEL && ns[0].elem.None?
    && forall p :: 0 < p < |ns| ==> 0 < ns[p].height <= level && ns[p].elem.Some?
  }

  /** Levels below `level` are right; the header's pointers above it are null. */
  ghost predicate LevelsOk(ns: seq<Node>, sl: seq<Slots>, level: nat) {
    && HeightsOk(ns, level) && SizesOk(ns, sl)
    && (forall i :: 0 <= i < level ==> LevelOk(ns, sl, i))
    && (forall i :: level <= i < MAXLEVEL ==> ForwardOk(ns, sl, i))
  }

  ghost predicate BackOk(ns: seq<Node>, sl: seq<Slots>) {
    |sl| == |ns| && forall p :: 0 <= p < |ns| ==> sl[p].back == if p <= 1 then null else ns[p - 1]
  }

  ghost predicate Sorted(ns: seq<Node>)
    requires forall p :: 0 < p < |ns| ==> ns[p].elem.Some?
  {
    forall p, q :: 0 < p < q < |ns| ==> Less(ns[p].elem.value, ns[q].elem.value)
  }

  /** During an insertion: levels below `i` already hold for the list with the new node. */
  ghost predicate PartlyIn(ns: seq<Node>, sl: seq<Slots>, level: nat, r: nat, x: Node, X: Slots, i: nat) {
    && HeightsOk(ns, level) && r < |ns| && SizesOk(ns, sl) && NewSizes(x, X) && x.height <= level && i <= level
    && (forall j :: 0 <= j < i ==> LevelOk(Ins(ns, r, x), Ins(sl, r, X), j))
    && (forall j :: i <= j < level ==> LevelOk(ns, sl, j))
    && (forall j :: level <= j < MAXLEVEL ==> ForwardOk(ns, sl, j))
  }

  lemma SpliceStep(ns: seq<Node>, sl: seq<Slots>, level: nat, r: nat, x: Node, X: Slots, i: nat)
    requires PartlyIn(ns, sl, level, r, x, X, i) && i < x.height
    ensures var u := LastAt(ns, i, r);
      PartlyIn(ns, Spliced(sl, u, i, x, r), level, r, x, SplicedNew(sl, u, i, X, r), i + 1)
  {
    hide LastAt, LevelOk, ForwardOk, Ins;
    var u := LastAt(ns, i, r);
    var sl', X' := Spliced(sl, u, i, x, r), SplicedNew(sl, u, i, X, r);
    assert LevelOk(ns, sl, i);
    SpliceLevel(ns, sl, r, x, X, i);
    forall j | 0 <= j < MAXLEVEL && j != i
      ensures LevelOk(ns, sl, j) ==> LevelOk(ns, sl', j)
      ensures ForwardOk(ns, sl, j) ==> ForwardOk(ns, sl', j)
    {
      SameLevel(ns, sl, sl', j);
    }
    forall j | 0 <= j < i
      ensures LevelOk(Ins(ns, r, x), Ins(sl', r, X'), j)
    {
      assert LevelOk(Ins(ns, r, x), Ins(sl, r, X), j);
      InsSameLevel(ns, sl, sl', r, x, X, X', j);
    }
  }

  /** A change outside level `j` does not affect level `j` of the list with the new node. */
  lemma InsSameLevel(ns: seq<Node>, sl: seq<Slots>, sl': seq<Slots>, r: nat, x: Node, X: Slots, X': Slots, j: nat)
    requires r < |ns| && SizesOk(ns, sl) && SizesOk(ns, sl') && NewSizes(x, X) && NewSizes(x, X')
    requires SameSlots(ns, sl, sl', j)
    requires j < x.height ==>
      X'.forward[j] == X.forward[j] && (j > 0 ==> X'.span[j - 1] == X.span[j - 1])
    requires LevelOk(Ins(ns, r, x), Ins(sl, r, X), j)
    ensures LevelOk(Ins(ns, r, x), Ins(sl', r, X'), j)
  {
    hide LevelOk, Ins, ForwardOk;
    InsSizes(ns, sl, r, x, X);
    InsSizes(ns, sl', r, x, X');
    var ms := Ins(ns, r, x);
    forall p | 0 <= p < |ms| && ms[p].height > j
      ensures var a := Ins(sl, r, X)[p]; var b := Ins(sl', r, X')[p];
        b.forward[j] == a.forward[j] && (j > 0 ==> b.span[j - 1] == a.span[j - 1])
    {
      InsLength(ns, r, x);
      InsLength(sl, r, X);
      InsLength(sl', r, X');
      if p != r + 1 {
        InsGet(ns, r, x, Unshift(r, p));
        InsGet(sl, r, X, Unshift(r, p));
        InsGet(sl', r, X', Unshift(r, p));
      }
    }
    SameLevel(ms, Ins(sl, r, X), Ins(sl', r, X'), j);
  }

  lemma BumpStep(ns: seq<Node>, sl: seq<Slots>, level: nat, r: nat, x: Node, X: Slots, i: nat)
    requires PartlyIn(ns, sl, level, r, x, X, i) && x.height <= i < level
    ensures var u := LastAt(ns, i, r); i <= |sl[u].span| && PartlyIn(ns, Bumped(sl, u, i), level, r, x, X, i + 1)
  {
    hide LastAt, LevelOk, ForwardOk, Ins;
    var u := LastAt(ns, i, r);
    var sl' := Bumped(sl, u, i);
    assert LevelOk(ns, sl, i);
    BumpLevel(ns, sl, r, x, X, i);
    forall j | 0 <= j < MAXLEVEL && j != i
      ensures LevelOk(ns, sl, j) ==> LevelOk(ns, sl', j)
      ensures ForwardOk(ns, sl, j) ==> ForwardOk(ns, sl', j)
    {
      SameLevel(ns, sl, sl', j);
    }
    forall j | 0 <= j < i
      ensures LevelOk(Ins(ns, r, x), Ins(sl', r, X), j)
    {
      assert LevelOk(Ins(ns, r, x), Ins(sl, r, X), j);
      InsSameLevel(ns, sl, sl', r, x, X, X, j);
    }
  }

  /** When all levels are done the list with the new node is right. */
  lemma AllIn(ns: seq<Node>, sl: seq<Slots>, level: nat, r: nat, x: Node, X: Slots)
    requires PartlyIn(ns, sl, level, r, x, X, level) && x.elem.Some?
    ensures LevelsOk(Ins(ns, r, x), Ins(sl, r, X), level)
  {
    hide LevelOk, ForwardOk, Ins;
    InsSizes(ns, sl, r, x, X);
    InsLength(ns, r, x);
    InsGet(ns, r, x, 0);
    forall p | 0 < p < |Ins(ns, r, x)|
      ensures 0 < Ins(ns, r, x)[p].height <= level && Ins(ns, r, x)[p].elem.Some?
    {
      if p != r + 1 { InsGet(ns, r, x, Unshift(r, p)); }
    }
    forall i | level <= i < MAXLEVEL ensures ForwardOk(Ins(ns, r, x), Ins(sl, r, X), i) {
      ForwardAbove(ns, sl, r, x, X, i);
    }
  }

  /** During a removal: levels below `i` already hold for the list without the node. */
  ghost predicate PartlyOut(ns: seq<Node>, sl: seq<Slots>, level: nat, d: nat, i: nat) {
    && HeightsOk(ns, level) && 0 < d < |ns| && SizesOk(ns, sl) && i <= level
    && (forall j :: 0 <= j < i ==> LevelOk(Del(ns, d), Del(sl, d), j))
    && (forall j :: i <= j < level ==> LevelOk(ns, sl, j))
    && (forall j :: level <= j < MAXLEVEL ==> ForwardOk(ns, sl, j))
  }

  lemma UnlinkStep(ns: seq<Node>, sl: seq<Slots>, level: nat, d: nat, i: nat)
    requires PartlyOut(ns, sl, level, d, i) && i < level
    ensures PartlyOut(ns, Unlinked(ns, sl, LastAt(ns, i, d - 1), d, i), level, d, i + 1)
  {
    hide LastAt, LevelOk, ForwardOk, Del;
    var u := LastAt(ns, i, d - 1);
    var sl' := Unlinked(ns, sl, u, d, i);
    assert LevelOk(ns, sl, i);
    UnlinkedSizes(ns, sl, u, d, i);
    UnlinkLevel(ns, sl, d, i);
    forall j | 0 <= j < MAXLEVEL && j != i
      ensures LevelOk(ns, sl, j) ==> LevelOk(ns, sl', j)
      ensures ForwardOk(ns, sl, j) ==> ForwardOk(ns, sl', j)
    {
      SameLevel(ns, sl, sl', j);
    }
    forall j | 0 <= j < i
      ensures LevelOk(Del(ns, d), Del(sl', d), j)
    {
      assert LevelOk(Del(ns, d), Del(sl, d), j);
      DelSameLevel(ns, sl, sl', d, j);
    }
  }

  lemma DelSameLevel(ns: seq<Node>, sl: seq<Slots>, sl': seq<Slots>, d: nat, j: nat)
    requires 0 < d < |ns| && SizesOk(ns, sl) && SizesOk(ns, sl') && SameSlots(ns, sl, sl', j)
    requires LevelOk(Del(ns, d), Del(sl, d), j)
    ensures LevelOk(Del(ns, d), Del(sl', d), j)
  {
    hide LevelOk, Del, ForwardOk;
    DelSizes(ns, sl, d);
    DelSizes(ns, sl', d);
    var ms := Del(ns, d);
    forall p | 0 <= p < |ms| && ms[p].height > j
      ensures var a := Del(sl, d)[p]; var b := Del(sl', d)[p];
        b.forward[j] == a.forward[j] && (j > 0 ==> b.span[j - 1] == a.span[j - 1])
    {
      DelGet(ns, d, 0);
      DelGet(ns, d, Up(d, p));
      DelGet(sl, d, Up(d, p));
      DelGet(sl', d, Up(d, p));
    }
    SameLevel(ms, Del(sl, d), Del(sl', d), j);
  }

  lemma AllOut(ns: seq<Node>, sl: seq<Slots>, level: nat, d: nat)
    requires PartlyOut(ns, sl, level, d, level)
    ensures LevelsOk(Del(ns, d), Del(sl, d), level)
  {
    hide LevelOk, ForwardOk, Del;
    DelSizes(ns, sl, d);
    DelGet(ns, d, 0);
    forall p | 0 < p < |Del(ns, d)|
      ensures 0 < Del(ns, d)[p].height <= level && Del(ns, d)[p].elem.Some?
    {
      DelGet(ns, d, Up(d, p));
    }
    forall i | level <= i < MAXLEVEL ensures ForwardOk(Del(ns, d), Del(sl, d), i) {
      ForwardAboveDel(ns, sl, d, i);
    }
  }

  /** An empty top level can be dropped. */
  lemma DropLevel(ns: seq<Node>, sl: seq<Slots>, level: nat)
    requires LevelsOk(ns, sl, level) && level > 1 && NextAt(ns, level - 1, 0) == |ns|
    ensures LevelsOk(ns, sl, level - 1)
  {
    hide NextAt;
    assert IsNext(ns, level - 1, 0, |ns|);
    assert LevelOk(ns, sl, level - 1);
  }

  /** Raising the level: the header's new spans cover the whole list. */
  ghost function Raised(sl: seq<Slots>, i: nat, length: int): seq<Slots>
    requires sl != [] && 0 < i <= |sl[0].span|
  {
    sl[0 := sl[0].(span := sl[0].span[i - 1 := length])]
  }

  lemma RaiseLevel(ns: seq<Node>, sl: seq<Slots>, level: nat)
    requires LevelsOk(ns, sl, level) && level < MAXLEVEL
    ensures LevelsOk(ns, Raised(sl, level, |ns| - 1), level + 1)
  {
    hide NextAt;
    var sl' := Raised(sl, level, |ns| - 1);
    NextUnique(ns, level, 0, |ns|);
    forall j | 0 <= j < MAXLEVEL && j != level
      ensures LevelOk(ns, sl, j) ==> LevelOk(ns, sl', j)
      ensures ForwardOk(ns, sl, j) ==> ForwardOk(ns, sl', j)
    {
      SameLevel(ns, sl, sl', j);
    }
    assert ForwardOk(ns, sl, level);
    assert LevelOk(ns, sl', level);
  }
}
