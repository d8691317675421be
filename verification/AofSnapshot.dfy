/** rewriteAppendOnlyFile of redis-2.8.0/src/aof.c: the dataset written as the commands that
    rebuild it. */
module AofSnapshot {
  import opened Bytes
  import opened Resp
  import opened AofData
  import opened AofText
  import opened AofRewrite

  const ITEMS_PER_CMD: nat := 64

  /** The log commands of a collection, at most `limit` items each. */
  function CmdChunks(kind: Kind, k: Str, items: seq<Argv>, limit: nat): seq<LogCmd>
    requires limit > 0
    decreases |items|
  {
    if items == [] then []
    else
      var n := if |items| > limit then limit else |items|;
      [Add(kind, k, Flatten(items[..n]))] + CmdChunks(kind, k, items[n..], limit)
  }

  lemma {:induction false} ChunksArgv(kind: Kind, k: Str, items: seq<Argv>, limit: nat)
    requires limit > 0
    ensures Argvs(CmdChunks(kind, k, items, limit)) == Chunks(NameOf(kind), k, items, limit)
    decreases |items|
  {
    hide Flatten, NameOf;
    if items != [] {
      var n := if |items| > limit then limit else |items|;
      ChunksArgv(kind, k, items[n..], limit);
      var log := CmdChunks(kind, k, items, limit);
      assert log[1..] == CmdChunks(kind, k, items[n..], limit);
    }
  }

  // ---------------------------------------------------------------- rebuilding a collection

  /** Adding whole items and then more is adding all of them. */
  lemma {:induction false} AddAllItems(v: Val, kind: Kind, items: seq<Argv>, more: Argv)
    requires Fits(v, kind) && Uniform(items, Width(kind))
    ensures AddAll(v, kind, Flatten(items) + more) == AddAll(AddAll(v, kind, Flatten(items)), kind, more)
    decreases |items|
  {
    if items == [] {
      assert Flatten(items) + more == more;
    } else {
      var x, t, w := items[0], Flatten(items[1..]), Width(kind);
      assert (x + t) + more == x + (t + more);
      FirstItem(v, kind, x, t);
      FirstItem(v, kind, x, t + more);
      AddAllItems(AddOne(v, kind, x), kind, items[1..], more);
    }
  }

  lemma FirstItem(v: Val, kind: Kind, x: Argv, t: Argv)
    requires Fits(v, kind) && |x| == Width(kind)
    ensures AddAll(v, kind, x + t) == AddAll(AddOne(v, kind, x), kind, t)
  {
    assert (x + t)[Width(kind)..] == t;
    assert (x + t)[0] == x[0];
    if Width(kind) == 2 { assert (x + t)[1] == x[1]; }
  }

  /** The entry a collection command adds to. */
  function Base(d: Data, s: Slot, kind: Kind): Entry {
    if s in d then d[s] else Entry(Empty(kind), None)
  }

  function Extended(d: Data, s: Slot, kind: Kind, items: seq<Argv>): Data
    requires Fits(Base(d, s, kind).val, kind)
  {
    d[s := Base(d, s, kind).(val := AddAll(Base(d, s, kind).val, kind, Flatten(items)))]
  }

  lemma ChunkReplay(st: Loader, kind: Kind, k: Str, items: seq<Argv>)
    requires Fits(Base(st.data, Slot(st.sel, k), kind).val, kind)
    ensures ReplayOne(st, Add(kind, k, Flatten(items))) == st.(data := Extended(st.data, Slot(st.sel, k), kind, items))
  {
    hide AddAll, Flatten;
  }

  lemma ExtendTwice(d: Data, s: Slot, kind: Kind, a: seq<Argv>, b: seq<Argv>)
    requires Fits(Base(d, s, kind).val, kind) && Uniform(a, Width(kind))
    ensures Extended(Extended(d, s, kind, a), s, kind, b) == Extended(d, s, kind, a + b)
  {
    hide AddAll, Flatten;
    FlattenConcat(a, b);
    AddAllItems(Base(d, s, kind).val, kind, a, Flatten(b));
  }

  /** Replaying the bounded commands is adding all items at once. */
  lemma {:induction false} ChunksReplay(st: Loader, kind: Kind, k: Str, items: seq<Argv>, limit: nat)
    requires limit > 0 && items != [] && Uniform(items, Width(kind))
    requires Fits(Base(st.data, Slot(st.sel, k), kind).val, kind)
    ensures Replay(st, CmdChunks(kind, k, items, limit)) ==
      st.(data := Extended(st.data, Slot(st.sel, k), kind, items))
    decreases |items|
  {
    hide AddAll, Flatten, ReplayOne, Extended;
    var n := if |items| > limit then limit else |items|;
    var log := CmdChunks(kind, k, items, limit);
    assert log[1..] == CmdChunks(kind, k, items[n..], limit);
    ChunkReplay(st, kind, k, items[..n]);
    var s, st1 := Slot(st.sel, k), ReplayOne(st, log[0]);
    if n < |items| {
      ExtendedFits(st.data, s, kind, items[..n]);
      ChunksReplay(st1, kind, k, items[n..], limit);
      ExtendTwice(st.data, s, kind, items[..n], items[n..]);
      assert items[..n] + items[n..] == items;
    } else {
      assert items[..n] == items && items[n..] == [];
    }
  }

  lemma ExtendedFits(d: Data, s: Slot, kind: Kind, items: seq<Argv>)
    requires Fits(Base(d, s, kind).val, kind)
    ensures Fits(Base(Extended(d, s, kind, items), s, kind).val, kind)
  {
    hide AddAll;
  }

  // ---------------------------------------------------------------- the items of a value

  /** Items that rebuild the value. */
  ghost predicate Rebuilds(kind: Kind, items: seq<Argv>, v: Val) {
    Uniform(items, Width(kind)) && AddAll(Empty(kind), kind, Flatten(items)) == v
  }

  lemma OneMore(kind: Kind, items: seq<Argv>, v: Val, x: Argv)
    requires Rebuilds(kind, items, v) && |x| == Width(kind)
    ensures Fits(v, kind) && Rebuilds(kind, items + [x], AddOne(v, kind, x))
  {
    hide AddAll;
    FlattenConcat(items, [x]);
    FlattenOne(x);
    AddAllItems(Empty(kind), kind, items, x);
    FirstItem(v, kind, x, []);
    assert x + [] == x;
    AddNone(AddOne(v, kind, x), kind);
  }

  lemma FlattenOne(x: Argv)
    ensures Flatten([x]) == x
  {
    var one := [x];
    assert one[1..] == [];
    FlattenEmpty();
    assert Flatten(one) == x + [];
  }

  lemma AddNone(v: Val, kind: Kind)
    requires Fits(v, kind)
    ensures AddAll(v, kind, []) == v
  {
  }

  lemma NoItems(kind: Kind)
    ensures Rebuilds(kind, [], Empty(kind))
  {
    FlattenEmpty();
    AddNone(Empty(kind), kind);
  }

  method ListItems(l: seq<Str>) returns (items: seq<Argv>)
    ensures Rebuilds(RPush, items, List(l)) && |items| == |l|
  {
    hide Rebuilds;
    items := [];
    NoItems(RPush);
    for i := 0 to |l|
      invariant Rebuilds(RPush, items, List(l[..i])) && |items| == i
    {
      OneMore(RPush, items, List(l[..i]), [l[i]]);
      assert l[..i + 1] == l[..i] + [l[i]];
      items := items + [[l[i]]];
    }
    assert l[..|l|] == l;
  }

  lemma OneMember(items: seq<Argv>, m: set<Str>, rest: set<Str>, x: Str)
    requires x in rest && rest <= m && Rebuilds(SAdd, items, Set(m - rest))
    ensures Rebuilds(SAdd, items + [[x]], Set(m - (rest - {x})))
  {
    hide Rebuilds;
    OneMore(SAdd, items, Set(m - rest), [x]);
    assert m - (rest - {x}) == (m - rest) + {x};
  }

  method SetItems(m: set<Str>) returns (items: seq<Argv>)
    ensures Rebuilds(SAdd, items, Set(m)) && (m != {} ==> items != [])
  {
    hide Rebuilds;
    items := [];
    NoItems(SAdd);
    var rest := m;
    assert m - rest == {};
    while rest != {}
      invariant rest <= m
      invariant Rebuilds(SAdd, items, Set(m - rest)) && (rest != m ==> items != [])
      decreases |rest|
    {
      var x :| x in rest;
      OneMember(items, m, rest, x);
      items := items + [[x]];
      rest := rest - {x};
    }
    assert m - {} == m;
  }

  /** The members of a sorted set behind their scores, or the fields of a hash before their values. */
  method PairItems(kind: Kind, p: map<Str, Str>) returns (items: seq<Argv>)
    requires kind.ZAdd? || kind.HMSet?
    ensures Rebuilds(kind, items, PairVal(kind, p)) && (p != map[] ==> items != [])
  {
    hide Rebuilds;
    items := [];
    NoItems(kind);
    var rest := p.Keys;
    assert p - rest == map[];
    while rest != {}
      invariant rest <= p.Keys
      invariant Rebuilds(kind, items, PairVal(kind, p - rest)) && (rest != p.Keys ==> items != [])
      decreases |rest|
    {
      var x :| x in rest;
      var item := if kind.ZAdd? then [p[x], x] else [x, p[x]];
      OneMore(kind, items, PairVal(kind, p - rest), item);
      OnePair(p, rest, x);
      items := items + [item];
      rest := rest - {x};
    }
    assert p - {} == p;
  }

  function PairVal(kind: Kind, p: map<Str, Str>): Val { if kind.ZAdd? then Zset(p) else Hash(p) }

  lemma OnePair(p: map<Str, Str>, rest: set<Str>, x: Str)
    requires x in rest && x in p
    ensures p - (rest - {x}) == (p - rest)[x := p[x]]
  {
  }

  // ---------------------------------------------------------------- one key

  /** `log` rebuilds the entry `e` of key `k` in any database that does not have it. */
  ghost predicate Restores(log: seq<LogCmd>, k: Str, e: Entry, st: Loader) {
    Replay(st, log) == st.(data := st.data[Slot(st.sel, k) := e])
  }

  lemma ValueRestored(st: Loader, kind: Kind, k: Str, items: seq<Argv>, v: Val, limit: nat)
    requires limit > 0 && items != [] && Rebuilds(kind, items, v) && Slot(st.sel, k) !in st.data
    ensures Restores(CmdChunks(kind, k, items, limit), k, Entry(v, None), st)
    ensures Timeless(CmdChunks(kind, k, items, limit))
  {
    hide AddAll, Flatten, CmdChunks, Replay;
    ChunksReplay(st, kind, k, items, limit);
    ChunksTimeless(kind, k, items, limit);
  }

  lemma {:induction false} ChunksTimeless(kind: Kind, k: Str, items: seq<Argv>, limit: nat)
    requires limit > 0
    ensures Timeless(CmdChunks(kind, k, items, limit))
    decreases |items|
  {
    hide Flatten;
    if items != [] { ChunksTimeless(kind, k, items[if |items| > limit then limit else |items|..], limit); }
  }

  method RewriteValue(k: Str, v: Val, ghost st: Loader) returns (out: seq<byte>, ghost log: seq<LogCmd>)
    requires NonEmpty(v) && Slot(st.sel, k) !in st.data
    ensures out == LogText(log) && Restores(log, k, Entry(v, None), st) && Timeless(log)
  {
    hide Rebuilds, LogText, PrintCmd, Restores, CmdChunks, Chunks, ToArgv, Argvs, PrintAll;
    if v.Text? {
      log := [SetStr(k, v.s)];
      assert ToArgv(SetStr(k, v.s)) == [SET, k, v.s] by { SetArgv(k, v.s); }
      out := PrintCmd([SET, k, v.s]);
      TextOne(SetStr(k, v.s));
      SetRestores(k, v.s, st);
    } else {
      var kind, items := RPush, [];
      match v {
        case List(l) => items := ListItems(l);
        case Set(m) => kind := SAdd; items := SetItems(m);
        case Zset(z) => kind := ZAdd; items := PairItems(kind, z);
        case Hash(h) => kind := HMSet; items := PairItems(kind, h);
      }
      log := CmdChunks(kind, k, items, ITEMS_PER_CMD);
      RebuildsUniform(kind, items, v);
      out := RewriteItems(NameOf(kind), k, items, Width(kind), ITEMS_PER_CMD);
      ChunksText(kind, k, items);
      ValueRestored(st, kind, k, items, v, ITEMS_PER_CMD);
    }
  }

  lemma RebuildsUniform(kind: Kind, items: seq<Argv>, v: Val)
    requires Rebuilds(kind, items, v)
    ensures Uniform(items, Width(kind))
  {
  }

  lemma ChunksText(kind: Kind, k: Str, items: seq<Argv>)
    ensures LogText(CmdChunks(kind, k, items, ITEMS_PER_CMD)) == PrintAll(Chunks(NameOf(kind), k, items, ITEMS_PER_CMD))
  {
    hide CmdChunks, Chunks, NameOf, Argvs, PrintAll;
    ChunksArgv(kind, k, items, ITEMS_PER_CMD);
  }

  lemma SetArgv(k: Str, v: Str)
    ensures ToArgv(SetStr(k, v)) == [SET, k, v]
  {
  }

  lemma SetRestores(k: Str, v: Str, st: Loader)
    ensures Restores([SetStr(k, v)], k, Entry(Text(v), None), st)
  {
    var one: seq<LogCmd> := [SetStr(k, v)];
    assert one[1..] == [];
    assert Replay(st, one) == ReplayOne(st, one[0]);
  }

  /** A key with its value and its expiry. */
  method RewriteKey(k: Str, e: Entry, ghost st: Loader) returns (out: seq<byte>, ghost log: seq<LogCmd>)
    requires NonEmpty(e.val) && Slot(st.sel, k) !in st.data
    ensures out == LogText(log) && Restores(log, k, e, st) && Timeless(log)
  {
    hide LogText, PrintCmd, Restores, ToArgv;
    out, log := RewriteValue(k, e.val, st);
    if e.expire.Some? {
      var c := PexpireAt(k, e.expire.value);
      ExpireRestores(log, k, e, st);
      TextConcat(log, [c]);
      TextOne(c);
      out := out + PrintCmd([PEXPIREAT, k, Decimal(e.expire.value)]);
      assert ToArgv(c) == [PEXPIREAT, k, Decimal(e.expire.value)] by { ExpireArgv(k, e.expire.value); }
      log := log + [c];
    } else {
      assert e == Entry(e.val, None);
    }
  }

  lemma ExpireArgv(k: Str, when: int)
    ensures ToArgv(PexpireAt(k, when)) == [PEXPIREAT, k, Decimal(when)]
  {
  }

  lemma ExpireRestores(log: seq<LogCmd>, k: Str, e: Entry, st: Loader)
    requires Restores(log, k, Entry(e.val, None), st) && e.expire.Some?
    ensures Restores(log + [PexpireAt(k, e.expire.value)], k, e, st)
  {
    var one: seq<LogCmd> := [PexpireAt(k, e.expire.value)];
    assert one[1..] == [];
    ReplayConcat(st, log, one);
    var st1 := Replay(st, log);
    assert Replay(st1, one) == ReplayOne(st1, one[0]);
  }

  // ---------------------------------------------------------------- the whole dataset

  /** The keys written when databases below `j` are done and `rest` of database `j` remains. */
  ghost function Part(d: Data, now: int, j: int, rest: set<Str>): Data {
    map s | s in d && !Expired(d, s, now) && (s.db < j || (s.db == j && s.key !in rest)) :: d[s]
  }

  lemma PartStep(d: Data, now: int, j: int, rest: set<Str>, k: Str)
    requires k in rest
    ensures var s, r := Slot(j, k), rest - {k};
      && s !in Part(d, now, j, rest)
      && (s in d && !Expired(d, s, now) ==> Part(d, now, j, r) == Part(d, now, j, rest)[s := d[s]])
      && (!(s in d && !Expired(d, s, now)) ==> Part(d, now, j, r) == Part(d, now, j, rest))
  {
    var s, r := Slot(j, k), rest - {k};
    if s in d && !Expired(d, s, now) {
      assert Part(d, now, j, r) == Part(d, now, j, rest)[s := d[s]];
    } else {
      assert Part(d, now, j, r) == Part(d, now, j, rest);
    }
  }

  function KeysOf(d: Data, j: int): set<Str> { set s | s in d && s.db == j :: s.key }

  lemma PartStart(d: Data, now: int, j: int)
    ensures Part(d, now, j, KeysOf(d, j)) == Part(d, now, j - 1, {})
    ensures KeysOf(d, j) == {} ==> Part(d, now, j, {}) == Part(d, now, j - 1, {})
  {
    forall s | s in d && s.db == j ensures s.key in KeysOf(d, j) { }
  }

  lemma PartAll(d: Data, now: int)
    requires WellFormed(d)
    ensures Part(d, now, -1, {}) == map[] && Part(d, now, DBNUM - 1, {}) == Alive(d, now)
  {
  }

  /** Writing database `j`; `st` is the loader after what was written before. */
  method RewriteDb(d: Data, now: int, j: int, ghost st: Loader) returns (out: seq<byte>, ghost log: seq<LogCmd>)
    requires WellFormed(d) && 0 <= j < DBNUM && st.data == Part(d, now, j - 1, {})
    ensures out == LogText(log) && Replay(st, log).data == Part(d, now, j, {}) && Timeless(log)
  {
    hide Part, LogText, Replay, Restores, WellFormed, ToArgv, PrintCmd, KeysOf;
    out, log := [], [];
    PartStart(d, now, j);
    NothingReplayed(st);
    var rest := KeysOf(d, j);
    if rest == {} { return; }
    log := [Select(j)];
    TextOne(Select(j));
    SelectArgv(j);
    out := PrintCmd([SELECT, Decimal(j)]);
    SelectReplays(st, j);
    while rest != {}
      invariant rest <= KeysOf(d, j)
      invariant out == LogText(log) && Timeless(log)
      invariant Replay(st, log) == Loader(j, Part(d, now, j, rest), st.at)
      decreases |rest|
    {
      var k :| k in rest;
      KeyOf(d, j, k);
      PartStep(d, now, j, rest, k);
      var e := d[Slot(j, k)];
      if !(e.expire.Some? && e.expire.value < now) {
        ghost var st1 := Replay(st, log);
        var text;
        ghost var more;
        text, more := RewriteKey(k, e, st1);
        TextConcat(log, more);
        ReplayConcat(st, log, more);
        RestoredAt(more, k, e, st1);
        out := out + text;
        log := log + more;
      }
      rest := rest - {k};
    }
  }

  lemma RestoredAt(log: seq<LogCmd>, k: Str, e: Entry, st: Loader)
    requires Restores(log, k, e, st)
    ensures Replay(st, log) == Loader(st.sel, st.data[Slot(st.sel, k) := e], st.at)
  {
    hide Replay;
  }

  lemma NothingReplayed(st: Loader)
    ensures Replay(st, []) == st && LogText([]) == []
  {
  }

  lemma SelectArgv(j: int)
    ensures ToArgv(Select(j)) == [SELECT, Decimal(j)]
  {
  }

  lemma KeyOf(d: Data, j: int, k: Str)
    requires WellFormed(d) && k in KeysOf(d, j)
    ensures Slot(j, k) in d && NonEmpty(d[Slot(j, k)].val)
    ensures d[Slot(j, k)].expire.Some? ==> d[Slot(j, k)].expire.value > 0
  {
  }

  /** The file the child writes replays to exactly the keys alive by its clock. */
  method RewriteAppendOnlyFile(d: Data, now: int) returns (out: seq<byte>, ghost log: seq<LogCmd>)
    requires WellFormed(d)
    ensures out == LogText(log) && forall at :: Replay(Start(at), log).data == Alive(d, now)
  {
    hide Part, LogText, Replay, WellFormed, Alive;
    out, log := [], [];
    PartAll(d, now);
    NothingReplayed(Start(0));
    for j := 0 to DBNUM
      invariant out == LogText(log) && Replay(Start(0), log).data == Part(d, now, j - 1, {}) && Timeless(log)
    {
      ghost var st := Replay(Start(0), log);
      var text;
      ghost var more;
      text, more := RewriteDb(d, now, j, st);
      TextConcat(log, more);
      ReplayConcat(Start(0), log, more);
      out := out + text;
      log := log + more;
    }
    forall at ensures Replay(Start(at), log).data == Alive(d, now) { TimelessReplay(Start(0), at, log); }
  }
}
