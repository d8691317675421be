/** Whole runs of a sorted set: any commands, one after another. */
module ZsetRuns {
  import opened ZsetOrder
  import opened SkiplistShape
  import opened SkiplistCode
  import opened Zset

  datatype Command =
    | ZADD(member: Member, score: real, increment: bool, lvl: nat)
    | ZREM(member: Member)
    | ZREMRANGEBYSCORE(min: real, max: real)
    | ZREMRANGEBYRANK(start: int, end: int)

  // ---------------------------------------------------------------- the list of a table

  lemma SortedFront(x: Elem, t: seq<Elem>)
    requires StrictlySorted(t) && forall y :: y in t ==> Less(x, y)
    ensures StrictlySorted([x] + t)
  {
    var u := [x] + t;
    assert forall i :: 1 <= i < |u| ==> u[i] == t[i - 1] && t[i - 1] in t;
  }

  lemma {:induction false} InsertKeepsSorted(s: seq<Elem>, e: Elem)
    requires StrictlySorted(s) && e !in s
    ensures StrictlySorted(InsertSorted(s, e))
    decreases |s|
  {
    if s == [] || !Less(s[0], e) {
      forall y | y in s ensures Less(e, y) {
        var i :| 0 <= i < |s| && s[i] == y;
        LessTotal(s[0], e);
        if i > 0 { LessTrans(e, s[0], y); }
      }
      SortedFront(e, s);
    } else {
      InsertKeepsSorted(s[1..], e);
      var c := InsertSplit(s[1..], e);
      SortedFront(s[0], InsertSorted(s[1..], e));
    }
  }

  /** Every table has a sorted list of its pairs. */
  lemma {:induction false} SomeList(dict: map<Member, real>) returns (s: seq<Elem>)
    ensures Agree(dict, s) && StrictlySorted(s)
    decreases |dict|
  {
    if m :| m in dict {
      assert (dict - {m}).Keys == dict.Keys - {m};
      s := SomeList(dict - {m});
      var e := Elem(dict[m], m);
      AgreeInsert(dict - {m}, s, e);
      InsertKeepsSorted(s, e);
      s := InsertSorted(s, e);
      assert (dict - {m})[m := dict[m]] == dict;
    } else {
      s := [];
    }
  }

  /** The list of a table: its pairs by score and member. */
  ghost function Listed(dict: map<Member, real>): (s: seq<Elem>)
    ensures Agree(dict, s) && StrictlySorted(s)
  {
    assert exists s :: Agree(dict, s) && StrictlySorted(s) by { var s := SomeList(dict); }
    var s :| Agree(dict, s) && StrictlySorted(s);
    s
  }

  lemma ListedIs(dict: map<Member, real>, s: seq<Elem>)
    requires Agree(dict, s) && StrictlySorted(s)
    ensures s == Listed(dict)
  {
    SortedUnique(s, Listed(dict));
  }

  /** In the list of a table the scores grow, and members of one score are in the order of their
      bytes. */
  lemma ListedInOrder(dict: map<Member, real>, i: nat, j: nat)
    requires i < j < |Listed(dict)|
    ensures var a, b := Listed(dict)[i], Listed(dict)[j];
      a.score < b.score || (a.score == b.score && exists n :: SmallerAt(a.member, b.member, n))
  {
    LessIff(Listed(dict)[i], Listed(dict)[j]);
  }

  lemma ValidIsListed(z: SortedSet)
    requires z.Valid()
    ensures z.zsl.Contents() == Listed(z.dict)
  {
    hide LevelsOk, NextAt, BackOk, Distinct;
    ListedIs(z.dict, z.zsl.Contents());
  }

  // ---------------------------------------------------------------- runs

  /** What a command does to the table. */
  ghost function After(d: map<Member, real>, c: Command): map<Member, real> {
    match c
    case ZADD(m, score, increment, lvl) => d[m := if increment && m in d then d[m] + score else score]
    case ZREM(m) => d - {m}
    case ZREMRANGEBYSCORE(min, max) => map m | m in d && !(min <= d[m] <= max) :: d[m]
    case ZREMRANGEBYRANK(start, end) =>
      var s := Listed(d);
      var b := Bounds(start, end, |s|);
      d - MembersOf(s[b.0..b.0 + b.1])
  }

  ghost function AfterAll(d: map<Member, real>, cs: seq<Command>): map<Member, real>
    decreases |cs|
  {
    if cs == [] then d else After(AfterAll(d, cs[..|cs| - 1]), cs[|cs| - 1])
  }

  predicate LevelOfNode(c: Command) { c.ZADD? ==> 1 <= c.lvl <= MAXLEVEL }

  lemma AfterIs(d: map<Member, real>, c: Command)
    ensures match c
      case ZADD(m, score, increment, lvl) =>
        && After(d, c) == d[m := if increment && m in d then d[m] + score else score]
        && (LevelOfNode(c) <==> 1 <= lvl <= MAXLEVEL)
      case ZREM(m) => After(d, c) == d - {m}
      case ZREMRANGEBYSCORE(min, max) => After(d, c) == map m | m in d && !(min <= d[m] <= max) :: d[m]
      case ZREMRANGEBYRANK(start, end) =>
        var s := Listed(d); var b := Bounds(start, end, |s|); After(d, c) == d - MembersOf(s[b.0..b.0 + b.1])
  {
  }

  method Perform(z: SortedSet, c: Command)
    requires z.Valid() && LevelOfNode(c)
    modifies z, z.zsl, z.zsl.nodes
    ensures z.Valid() && z.dict == After(old(z.dict), c)
    ensures forall p :: 0 <= p < |z.zsl.nodes| ==> z.zsl.nodes[p] in old(z.zsl.nodes) || fresh(z.zsl.nodes[p])
  {
    hide *;
    AfterIs(z.dict, c);
    match c
    case ZADD(m, score, increment, lvl) =>
      var now, added := z.Zadd(m, score, increment, lvl);
    case ZREM(m) => var removed := z.Zrem(m);
    case ZREMRANGEBYSCORE(min, max) => var removed := z.ZremRangeByScore(min, max);
    case ZREMRANGEBYRANK(start, end) =>
      ValidIsListed(z);
      var removed := z.ZremRangeByRank(start, end);
  }

  /** Any commands in any order, with any levels for the nodes: table and skiplist stay in step, the
      table is the one the commands describe and the skiplist lists it. */
  method Execute(z: SortedSet, cs: seq<Command>)
    requires z.Valid() && forall c :: c in cs ==> LevelOfNode(c)
    modifies z, z.zsl, z.zsl.nodes
    ensures z.Valid() && z.dict == AfterAll(old(z.dict), cs) && z.zsl.Contents() == Listed(z.dict)
    ensures forall p :: 0 <= p < |z.zsl.nodes| ==> z.zsl.nodes[p] in old(z.zsl.nodes) || fresh(z.zsl.nodes[p])
    decreases |cs|
  {
    hide SortedSet.Valid, SkipList.Contents, Listed, After, LevelOfNode;
    if cs != [] {
      Execute(z, cs[..|cs| - 1]);
      Perform(z, cs[|cs| - 1]);
    }
    ValidIsListed(z);
  }
}
