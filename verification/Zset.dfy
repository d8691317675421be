/** Sorted sets: a hash table from members to scores beside a skiplist of the same pairs, and
    the Z-commands that must keep the two in step. */
module Zset {
  import opened Bytes
  import opened ZsetOrder
  import opened SkiplistShape
  import opened SkiplistCode

  /** The hash table and the sorted contents hold the same member/score pairs. */
  ghost predicate Agree(dict: map<Member, real>, s: seq<Elem>) {
    && (forall e :: e in s ==> e.member in dict && dict[e.member] == e.score)
    && (forall m :: m in dict ==> Elem(dict[m], m) in s)
    && MembersDistinct(s)
  }

  predicate StrictlySorted(s: seq<Elem>) {
    forall i, j :: 0 <= i < j < |s| ==> Less(s[i], s[j])
  }

  /** The hash table determines the order: there is one sorted sequence of its pairs. */
  lemma {:induction false} SortedUnique(s: seq<Elem>, t: seq<Elem>)
    requires StrictlySorted(s) && StrictlySorted(t) && forall e :: e in s <==> e in t
    ensures s == t
    decreases |s|
  {
    if t != [] { assert t[0] in s; }
    if s != [] {
      assert s[0] in t && t != [];
      assert t[0] in s;
      LessTotal(s[0], t[0]);
      assert s[0] == t[0];
      LessTotal(s[0], s[0]);
      forall e ensures e in s[1..] <==> e in t[1..] {
        assert e in s <==> e == s[0] || e in s[1..];
        assert e in t <==> e == t[0] || e in t[1..];
        if e in s[1..] { var i :| 1 <= i < |s| && s[i] == e; assert Less(s[0], s[i]); }
        if e in t[1..] { var i :| 1 <= i < |t| && t[i] == e; assert Less(t[0], t[i]); }
      }
      SortedUnique(s[1..], t[1..]);
    }
  }

  // ---------------------------------------------------------------- keeping the two in step

  lemma {:induction false} InsertSplit(s: seq<Elem>, e: Elem) returns (c: nat)
    ensures c <= |s| && InsertSorted(s, e) == s[..c] + [e] + s[c..]
    decreases |s|
  {
    if s == [] || !Less(s[0], e) {
      c := 0;
    } else {
      c := InsertSplit(s[1..], e);
      c := c + 1;
      assert s[..c] == [s[0]] + s[1..][..c - 1] && s[c..] == s[1..][c - 1..];
    }
  }

  lemma AgreeInsert(dict: map<Member, real>, s: seq<Elem>, e: Elem)
    requires Agree(dict, s) && e.member !in dict
    ensures Agree(dict[e.member := e.score], InsertSorted(s, e)) && e !in s
  {
    hide InsertSorted;
    var c := InsertSplit(s, e);
    var t := s[..c] + [e] + s[c..];
    forall x ensures x in t <==> x == e || x in s { assert s == s[..c] + s[c..]; }
    DistinctInsert(s, e, c);
  }

  lemma DistinctInsert(s: seq<Elem>, e: Elem, c: nat)
    requires c <= |s| && MembersDistinct(s) && forall x :: x in s ==> x.member != e.member
    ensures MembersDistinct(s[..c] + [e] + s[c..])
  {
    var t := s[..c] + [e] + s[c..];
    forall i | 0 <= i < |t| && i != c ensures t[i] == s[if i < c then i else i - 1] && t[i].member != e.member {
      assert s[if i < c then i else i - 1] in s;
    }
  }

  /** Old position of an element after positions lo..hi were cut out. */
  function CutFrom(lo: nat, hi: nat, i: nat): int { if i < lo then i else i + (hi - lo) }

  lemma CutMember(s: seq<Elem>, lo: nat, hi: nat, k: nat)
    requires lo <= hi <= |s| && k < |s| && MembersDistinct(s)
    ensures s[k].member in MembersOf(s[lo..hi]) <==> lo <= k < hi
  {
    if lo <= k < hi { assert s[lo..hi][k - lo] == s[k]; }
  }

  lemma CutDistinct(s: seq<Elem>, lo: nat, hi: nat)
    requires lo <= hi <= |s| && MembersDistinct(s)
    ensures MembersDistinct(s[..lo] + s[hi..])
  {
    var t := s[..lo] + s[hi..];
    forall i | 0 <= i < |t| ensures t[i] == s[CutFrom(lo, hi, i)] {}
  }

  lemma AgreeCut(dict: map<Member, real>, s: seq<Elem>, lo: nat, hi: nat)
    requires Agree(dict, s) && lo <= hi <= |s|
    ensures Agree(dict - MembersOf(s[lo..hi]), s[..lo] + s[hi..])
  {
    hide MembersOf, MembersDistinct;
    var t, d := s[..lo] + s[hi..], dict - MembersOf(s[lo..hi]);
    CutDistinct(s, lo, hi);
    forall i | 0 <= i < |t| ensures t[i].member in d && d[t[i].member] == t[i].score {
      var k := CutFrom(lo, hi, i);
      assert t[i] == s[k] && s[k] in s;
      CutMember(s, lo, hi, k);
    }
    forall m | m in d ensures Elem(d[m], m) in t {
      var k :| 0 <= k < |s| && s[k] == Elem(dict[m], m);
      CutMember(s, lo, hi, k);
      assert t[if k < lo then k else k - (hi - lo)] == s[k];
    }
  }

  lemma {:induction false} WithoutSplit(s: seq<Elem>, e: Elem) returns (c: nat)
    requires e in s
    ensures c < |s| && s[c] == e && Without(s, e) == s[..c] + s[c + 1..]
    decreases |s|
  {
    if s[0] == e {
      c := 0;
    } else {
      c := WithoutSplit(s[1..], e);
      c := c + 1;
      assert s[..c] == [s[0]] + s[1..][..c - 1] && s[c + 1..] == s[1..][c..];
    }
  }

  lemma AgreeRemove(dict: map<Member, real>, s: seq<Elem>, e: Elem)
    requires Agree(dict, s) && e in s
    ensures Agree(dict - {e.member}, Without(s, e))
  {
    hide Without, Agree;
    var c := WithoutSplit(s, e);
    AgreeCut(dict, s, c, c + 1);
    assert s[c..c + 1] == [e];
    assert MembersOf([e]) == {e.member};
  }

  lemma {:induction false} OutsideIs(s: seq<Elem>, min: real, max: real)
    ensures forall e :: e in OutsideScores(s, min, max) <==> e in s && !(min <= e.score <= max)
    decreases |s|
  {
    if s != [] {
      OutsideIs(s[1..], min, max);
      assert s == [s[0]] + s[1..];
    }
  }

  lemma {:induction false} OutsideDistinct(s: seq<Elem>, min: real, max: real)
    requires MembersDistinct(s)
    ensures MembersDistinct(OutsideScores(s, min, max))
    decreases |s|
  {
    hide MembersDistinct;
    if s != [] {
      DistinctTail(s);
      OutsideDistinct(s[1..], min, max);
      OutsideIs(s[1..], min, max);
      var t := OutsideScores(s[1..], min, max);
      if !(min <= s[0].score <= max) {
        assert [s[0]] + t == t[..0] + [s[0]] + t[0..];
        DistinctInsert(t, s[0], 0);
      } else {
        assert [] + t == t;
      }
    } else {
      DistinctNone();
    }
  }

  lemma DistinctNone()
    ensures MembersDistinct([])
  {
  }

  lemma DistinctTail(s: seq<Elem>)
    requires s != [] && MembersDistinct(s)
    ensures MembersDistinct(s[1..]) && forall x :: x in s[1..] ==> x.member != s[0].member
  {
    forall i | 0 <= i < |s| - 1 ensures s[1..][i] == s[i + 1] {}
  }

  lemma AgreeScores(dict: map<Member, real>, s: seq<Elem>, min: real, max: real)
    requires Agree(dict, s)
    ensures Agree(dict - MembersInScores(s, min, max), OutsideScores(s, min, max))
    ensures forall m :: m in MembersInScores(s, min, max) <==> m in dict && min <= dict[m] <= max
  {
    hide OutsideScores, MembersDistinct;
    OutsideIs(s, min, max);
    OutsideDistinct(s, min, max);
  }

  // ---------------------------------------------------------------- ranges

  /** A rank argument, counted from the end when negative. */
  function FromEnd(i: int, n: nat): int { if i < 0 then n + i else i }

  /** The bounds the commands compute: the first index and the number of elements. */
  function Bounds(start: int, end: int, n: nat): (r: (nat, nat))
    ensures r.0 + r.1 <= n
  {
    var s := if FromEnd(start, n) < 0 then 0 else FromEnd(start, n);
    var e := if FromEnd(end, n) < 0 then 0 else FromEnd(end, n);
    if s > e || s >= n then (0, 0)
    else (s, (if e >= n then n - 1 else e) - s + 1)
  }

  /** Is position `i` asked for? */
  predicate Asked(start: int, end: int, n: nat, i: int) {
    0 <= i < n && FromEnd(start, n) <= i <= FromEnd(end, n)
  }

  /** The bounds select exactly the positions between the two arguments, except that an end
      before the first element is taken as the first element: then, unless the start lies
      after it, the first element is selected although it was not asked for. */
  lemma BoundsExact(start: int, end: int, n: nat)
    ensures var b := Bounds(start, end, n);
      (forall i :: b.0 <= i < b.0 + b.1 <==> Asked(start, end, n, i))
      <==> !(n > 0 && FromEnd(start, n) <= 0 && FromEnd(end, n) < 0)
  {
    var b := Bounds(start, end, n);
    if n > 0 && FromEnd(start, n) <= 0 && FromEnd(end, n) < 0 {
      assert b.0 <= 0 < b.0 + b.1 && !Asked(start, end, n, 0);
    } else {
      forall i ensures b.0 <= i < b.0 + b.1 <==> Asked(start, end, n, i) {}
    }
  }

  /** ZRANGE key -5 -4 on three elements returns the first one. */
  lemma RangeBeforeStart()
    ensures Bounds(-5, -4, 3) == (0, 1) && forall i :: !Asked(-5, -4, 3, i)
  {
  }

  function Reverse<T>(s: seq<T>): (r: seq<T>)
    ensures |r| == |s| && forall i :: 0 <= i < |s| ==> r[i] == s[|s| - 1 - i]
  {
    seq(|s|, i requires 0 <= i < |s| => s[|s| - 1 - i])
  }

  class SortedSet {
    var dict: map<Member, real>
    const zsl: SkipList

    ghost predicate Valid()
      reads this, zsl, zsl.nodes
    {
      zsl.Valid() && Agree(dict, zsl.Contents())
    }

    constructor ()
      ensures Valid() && dict == map[] && fresh(zsl) && fresh(zsl.nodes)
    {
      dict := map[];
      zsl := new SkipList();
    }

    /** zaddGenericCommand: ZADD, or ZINCRBY when `increment`. `lvl` is the random level. */
    method Zadd(member: Member, scoreval: real, increment: bool, lvl: nat) returns (score: real, added: bool)
      requires Valid() && 1 <= lvl <= MAXLEVEL
      modifies this, zsl, zsl.nodes
      ensures Valid() && added == (member !in old(dict)) && dict == old(dict)[member := score]
      ensures score == if increment && member in old(dict) then old(dict)[member] + scoreval else scoreval
      ensures forall p :: 0 <= p < |zsl.nodes| ==> zsl.nodes[p] in old(zsl.nodes) || fresh(zsl.nodes[p])
    {
      hide InsertSorted, Without, Agree, SkipList.Valid;
      score := if increment && member in dict then dict[member] + scoreval else scoreval;
      added := member !in dict;
      if added {
        AgreeInsert(dict, zsl.Contents(), Elem(score, member));
        dict := dict[member := score];
        zsl.Insert(Elem(score, member), lvl);
      } else if score != dict[member] {
        var was := Elem(dict[member], member);
        InTable(dict, zsl.Contents(), member);
        AgreeRemove(dict, zsl.Contents(), was);
        var deleted := zsl.Delete(was);
        assert deleted;
        AgreeInsert(dict - {member}, zsl.Contents(), Elem(score, member));
        zsl.Insert(Elem(score, member), lvl);
        assert (dict - {member})[member := score] == dict[member := score];
        dict := dict[member := score];
      }
    }

    /** zremCommand. */
    method Zrem(member: Member) returns (removed: bool)
      requires Valid()
      modifies this, zsl, zsl.nodes
      ensures Valid() && removed == (member in old(dict)) && dict == old(dict) - {member}
      ensures forall p :: 0 <= p < |zsl.nodes| ==> zsl.nodes[p] in old(zsl.nodes)
    {
      hide Without, Agree, SkipList.Valid;
      removed := member in dict;
      if removed {
        var was := Elem(dict[member], member);
        InTable(dict, zsl.Contents(), member);
        AgreeRemove(dict, zsl.Contents(), was);
        var deleted := zsl.Delete(was);
        assert deleted;
        dict := dict - {member};
      }
    }

    /** zremrangebyscoreCommand. */
    method ZremRangeByScore(min: real, max: real) returns (removed: nat)
      requires Valid()
      modifies this, zsl, zsl.nodes
      ensures Valid()
      ensures dict == map m | m in old(dict) && !(min <= old(dict)[m] <= max) :: old(dict)[m]
      ensures removed == |old(dict)| - |dict|
      ensures forall p :: 0 <= p < |zsl.nodes| ==> zsl.nodes[p] in old(zsl.nodes)
    {
      hide OutsideScores, Agree, SkipList.Valid, MembersInScores;
      ghost var d, s := dict, zsl.Contents();
      AgreeScores(d, s, min, max);
      CountAgrees(d, s);
      removed, dict := zsl.DeleteRangeByScore(min, max, dict);
      CountAgrees(dict, zsl.Contents());
    }

    /** zremrangebyrankCommand. */
    method ZremRangeByRank(start: int, end: int) returns (removed: nat)
      requires Valid()
      modifies this, zsl, zsl.nodes
      ensures Valid()
      ensures var b := Bounds(start, end, |old(zsl.Contents())|); var s := old(zsl.Contents());
        && removed == b.1 && zsl.Contents() == s[..b.0] + s[b.0 + b.1..]
        && dict == old(dict) - MembersOf(s[b.0..b.0 + b.1])
      ensures forall p :: 0 <= p < |zsl.nodes| ==> zsl.nodes[p] in old(zsl.nodes)
    {
      hide Agree, SkipList.Valid, MembersOf;
      ghost var s := zsl.Contents();
      LengthIs();
      var b := Bounds(start, end, zsl.length);
      if b.1 == 0 {
        assert s == s[..b.0] + s[b.0..];
        NoMembers();
        return 0;
      }
      AgreeCut(dict, s, b.0, b.0 + b.1);
      removed, dict := zsl.DeleteRangeByRank(b.0 + 1, b.0 + b.1, dict);
    }

    lemma NoMembers()
      ensures MembersOf([]) == {}
    {
    }

    lemma LengthIs()
      requires zsl.Valid()
      ensures zsl.length == |zsl.Contents()| == |zsl.nodes| - 1
    {
      hide LevelsOk, NextAt, BackOk, Sorted, Distinct;
      zsl.ElemAt(0);
    }

    /** The node where a range starts: an end of the list, or found by rank. */
    method RangeStart(first: nat, reverse: bool) returns (ln: Node?)
      requires zsl.Valid() && first < zsl.length
      ensures ln == At(zsl.nodes, if reverse then zsl.length - first else first + 1)
    {
      hide LevelsOk, NextAt, BackOk, Sorted, Distinct;
      LengthIs();
      if reverse {
        if first == 0 { ln := zsl.tail; } else { ln := zsl.GetElementByRank(zsl.length - first); }
      } else {
        if first == 0 { ln := zsl.AfterNode(zsl.header, 0); } else { ln := zsl.GetElementByRank(first + 1); }
      }
    }

    /** Position of the j-th node of a range. */
    ghost function RangePos(first: nat, j: nat, reverse: bool): int
      reads zsl
    {
      if reverse then zsl.length - first - j else first + j + 1
    }

    /** zrangeGenericCommand: ZRANGE, or ZREVRANGE when `reverse`. */
    method Zrange(start: int, end: int, reverse: bool) returns (reply: seq<Elem>)
      requires Valid()
      ensures var s := if reverse then Reverse(zsl.Contents()) else zsl.Contents();
        var b := Bounds(start, end, |s|); reply == s[b.0..b.0 + b.1]
    {
      hide Agree, SkipList.Valid, Bounds, Elems, Reverse;
      LengthIs();
      var b := Bounds(start, end, zsl.length);
      reply := [];
      if b.1 == 0 { return; }
      var ln := RangeStart(b.0, reverse);
      ghost var t := if reverse then Reverse(zsl.Contents()) else zsl.Contents();
      for j := 0 to b.1
        invariant reply == t[b.0..b.0 + j]
        invariant j < b.1 ==> ln == zsl.nodes[RangePos(b.0, j, reverse)]
      {
        ghost var p := RangePos(b.0, j, reverse);
        zsl.ElemAt(p);
        reply := reply + [ln.elem.value];
        if reverse { ln := zsl.BeforeNode(ln, p); } else { ln := zsl.AfterNode(ln, p); }
      }
    }

    /** zrankGenericCommand: ZRANK, or ZREVRANK when `reverse`. The reply is the position of the
        member in what ZRANGE, or ZREVRANGE, lists; no reply for a member that is not there. */
    method Zrank(member: Member, reverse: bool) returns (reply: Option<nat>)
      requires Valid()
      ensures reply.Some? == (member in dict)
      ensures reply.Some? ==> var s := if reverse then Reverse(zsl.Contents()) else zsl.Contents();
        reply.value < |s| && s[reply.value] == Elem(dict[member], member)
    {
      hide SkipList.Valid;
      if member !in dict { return None; }
      InTable(dict, zsl.Contents(), member);
      LengthIs();
      var rank := zsl.GetRank(Elem(dict[member], member));
      if rank == 0 { return None; }
      return Some(if reverse then zsl.length - rank else rank - 1);
    }
  }

  lemma InTable(dict: map<Member, real>, s: seq<Elem>, m: Member)
    requires Agree(dict, s) && m in dict
    ensures Elem(dict[m], m) in s
  {
  }

  /** The skiplist's length is the hash table's size. */
  lemma {:induction false} CountAgrees(dict: map<Member, real>, s: seq<Elem>)
    requires Agree(dict, s)
    ensures |dict| == |s|
    decreases |s|
  {
    hide Agree;
    if s == [] {
      EmptyTable(dict);
    } else {
      FirstInTable(dict, s);
      AgreeCut(dict, s, 0, 1);
      assert s[0..1] == [s[0]] && s[..0] + s[1..] == s[1..];
      assert MembersOf([s[0]]) == {s[0].member};
      CountAgrees(dict - {s[0].member}, s[1..]);
      assert (dict - {s[0].member}).Keys == dict.Keys - {s[0].member};
    }
  }

  lemma EmptyTable(dict: map<Member, real>)
    requires Agree(dict, [])
    ensures dict == map[]
  {
  }

  lemma FirstInTable(dict: map<Member, real>, s: seq<Elem>)
    requires Agree(dict, s) && s != []
    ensures s[0].member in dict
  {
    assert s[0] in s;
  }
}
