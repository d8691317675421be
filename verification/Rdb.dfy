/** rdbSave of redis-1.3.6/redis.c: everything it writes is read back by the loader, whatever
    encodings were chosen and whatever follows in the file. */
module Rdb {
  import opened Bytes
  import opened Resp
  import opened RdbFormat
  import Lzf

  // ---------------------------------------------------------------- strings

  /** `b` is read as the string `v`, leaving what follows. */
  ghost predicate SpellsString(b: Str, v: Str) {
    forall t :: LoadString(b + t) == Read(v, t)
  }

  /** rdbTryIntegerEncoding: the integer a string spells, if it is its own decimal form and fits. */
  function IntegerOf(s: Str): (v: Option<int>)
    ensures v.Some? ==> -TWO31 <= v.value < TWO31 && Decimal(v.value) == s
  {
    var n := LeadingInt(s);
    if Decimal(n) == s && -TWO31 <= n < TWO31 then Some(n) else None
  }

  /** Every integer of 32 bits is recognised in its decimal form. */
  lemma IntegerOfDecimal(v: int)
    requires -TWO31 <= v < TWO31
    ensures IntegerOf(Decimal(v)) == Some(v)
  {
    hide Decimal, LeadingInt;
    DecimalReadBack(v, []);
    assert Decimal(v) + [] == Decimal(v);
  }

  lemma LenSize(n: nat)
    ensures |SaveLen(n)| <= 5
  {
  }

  /** rdbSaveLzfStringObject: nothing when compression does not save four bytes. */
  method SaveLzf(s: Str, htab: array<Lzf.Address>, base: int) returns (out: Str)
    requires |s| < LENERR && htab.Length == Lzf.HSIZE && Lzf.MAX_OFF <= base && base + |s| < Lzf.TWO64
    modifies htab
    ensures out == [] || SpellsString(out, s)
    ensures Lzf.Repeats(s) && |s| > 20 ==> 0 < |out| <= |s| / 88 + 23
  {
    hide LoadString, SaveLen, LzfFormat.Decode, Lzf.Repeats;
    LenSize(|s|);
    if |s| <= 4 { return []; }
    var outlen := |s| - 4;
    var buf := new byte[outlen + 1];
    var n := Lzf.Compress(s, buf, outlen, htab, base);
    if n == 0 { return []; }
    var c := buf[..n];
    LenSize(n);
    out := [195] + SaveLen(n) + SaveLen(|s|) + c;
    forall t ensures LoadString(out + t) == Read(s, t) { LzfBack(s, c, t); }
  }

  /** rdbSaveRawString, with or without compression. */
  method SaveString(s: Str, compress: bool, htab: array<Lzf.Address>, base: int) returns (out: Str)
    requires |s| < LENERR && htab.Length == Lzf.HSIZE && Lzf.MAX_OFF <= base && base + |s| < Lzf.TWO64
    modifies htab
    ensures SpellsString(out, s)
    ensures |s| <= 11 && IntegerOf(s).Some? ==> out == EncodeInteger(IntegerOf(s).value)
    ensures compress && |s| > 20 && Lzf.Repeats(s) ==> |out| <= |s| / 88 + 23
  {
    hide LoadString, SaveLen, Decimal, LeadingInt, EncodeInteger, Lzf.Repeats;
    if |s| <= 11 {
      var v := IntegerOf(s);
      if v.Some? {
        out := EncodeInteger(v.value);
        forall t ensures LoadString(out + t) == Read(s, t) { IntegerBack(v.value, t); }
        return;
      }
    }
    if compress && |s| > 20 {
      out := SaveLzf(s, htab, base);
      if out != [] { return; }
    }
    out := SaveLen(|s|) + s;
    forall t ensures LoadString(out + t) == Read(s, t) { VerbatimBack(s, t); }
  }

  // ---------------------------------------------------------------- sequences of strings

  ghost predicate SpellsStrings(b: Str, v: seq<Str>) {
    forall t :: LoadStrings(b + t, |v|) == Read(v, t)
  }

  ghost predicate SpellsScored(b: Str, v: seq<(Str, Score)>) {
    forall t :: LoadScored(b + t, |v|) == Read(v, t)
  }

  ghost predicate SpellsFields(b: Str, v: seq<(Str, Str)>) {
    forall t :: LoadFields(b + t, |v|) == Read(v, t)
  }

  lemma NoStrings()
    ensures SpellsStrings([], []) && SpellsScored([], []) && SpellsFields([], [])
  {
    forall t: Str ensures [] + t == t { }
  }

  lemma {:induction false} OneMoreString(v: seq<Str>, c: Str, x: Str, s: Str, t: Str)
    requires LoadStrings(s, |v|) == Read(v, c + t) && SpellsString(c, x)
    ensures LoadStrings(s, |v| + 1) == Read(v + [x], t)
    decreases |v|
  {
    hide LoadString;
    if v == [] {
      assert LoadString(c + t) == Read(x, t);
      assert LoadStrings(t, 0) == Read([], t);
      assert [x] + [] == [x] && v + [x] == [x];
    } else {
      var a := LoadString(s);
      assert LoadStrings(a.rest, |v| - 1) == Read(v[1..], c + t);
      OneMoreString(v[1..], c, x, a.rest, t);
      assert [v[0]] + (v[1..] + [x]) == v + [x];
    }
  }

  lemma StringsMore(b: Str, v: seq<Str>, c: Str, x: Str)
    requires SpellsStrings(b, v) && SpellsString(c, x)
    ensures SpellsStrings(b + c, v + [x])
  {
    hide LoadStrings, LoadString;
    forall t ensures LoadStrings(b + c + t, |v + [x]|) == Read(v + [x], t) {
      assert b + c + t == b + (c + t);
      assert LoadStrings(b + (c + t), |v|) == Read(v, c + t);
      OneMoreString(v, c, x, b + (c + t), t);
    }
  }

  lemma {:induction false} OneMoreScored(v: seq<(Str, Score)>, c: Str, k: Str, x: Score, s: Str, t: Str)
    requires x.Finite? ==> 1 <= |x.text| <= 252
    requires LoadScored(s, |v|) == Read(v, c + SaveScore(x) + t) && SpellsString(c, k)
    ensures LoadScored(s, |v| + 1) == Read(v + [(k, x)], t)
    decreases |v|
  {
    hide LoadString, LoadScore, SaveScore;
    if v == [] {
      assert c + SaveScore(x) + t == c + (SaveScore(x) + t);
      assert LoadString(c + (SaveScore(x) + t)) == Read(k, SaveScore(x) + t);
      ScoreBack(x, t);
      assert LoadScored(t, 0) == Read([], t);
      assert [(k, x)] + [] == [(k, x)] && v + [(k, x)] == [(k, x)];
    } else {
      var a := LoadString(s);
      var y := LoadScore(a.rest);
      assert LoadScored(y.rest, |v| - 1) == Read(v[1..], c + SaveScore(x) + t);
      OneMoreScored(v[1..], c, k, x, y.rest, t);
      assert [v[0]] + (v[1..] + [(k, x)]) == v + [(k, x)];
    }
  }

  lemma ScoredMore(b: Str, v: seq<(Str, Score)>, c: Str, k: Str, x: Score)
    requires SpellsScored(b, v) && SpellsString(c, k) && (x.Finite? ==> 1 <= |x.text| <= 252)
    ensures SpellsScored(b + c + SaveScore(x), v + [(k, x)])
  {
    hide LoadScored, LoadString, SaveScore;
    forall t ensures LoadScored(b + c + SaveScore(x) + t, |v + [(k, x)]|) == Read(v + [(k, x)], t) {
      var tail := c + SaveScore(x) + t;
      assert b + c + SaveScore(x) + t == b + tail;
      assert LoadScored(b + tail, |v|) == Read(v, tail);
      OneMoreScored(v, c, k, x, b + tail, t);
    }
  }

  lemma {:induction false} OneMoreField(v: seq<(Str, Str)>, c: Str, k: Str, d: Str, x: Str, s: Str, t: Str)
    requires LoadFields(s, |v|) == Read(v, c + d + t) && SpellsString(c, k) && SpellsString(d, x)
    ensures LoadFields(s, |v| + 1) == Read(v + [(k, x)], t)
    decreases |v|
  {
    hide LoadString;
    if v == [] {
      assert c + d + t == c + (d + t);
      assert LoadString(c + (d + t)) == Read(k, d + t);
      assert LoadString(d + t) == Read(x, t);
      assert LoadFields(t, 0) == Read([], t);
      assert [(k, x)] + [] == [(k, x)] && v + [(k, x)] == [(k, x)];
    } else {
      var a := LoadString(s);
      var y := LoadString(a.rest);
      assert LoadFields(y.rest, |v| - 1) == Read(v[1..], c + d + t);
      OneMoreField(v[1..], c, k, d, x, y.rest, t);
      assert [v[0]] + (v[1..] + [(k, x)]) == v + [(k, x)];
    }
  }

  lemma FieldsMore(b: Str, v: seq<(Str, Str)>, c: Str, k: Str, d: Str, x: Str)
    requires SpellsFields(b, v) && SpellsString(c, k) && SpellsString(d, x)
    ensures SpellsFields(b + c + d, v + [(k, x)])
  {
    hide LoadFields, LoadString;
    forall t ensures LoadFields(b + c + d + t, |v + [(k, x)]|) == Read(v + [(k, x)], t) {
      var tail := c + d + t;
      assert b + c + d + t == b + tail;
      assert LoadFields(b + tail, |v|) == Read(v, tail);
      OneMoreField(v, c, k, d, x, b + tail, t);
    }
  }

  // ---------------------------------------------------------------- objects

  predicate StrOk(s: Str, base: int) { |s| < LENERR && base + |s| < Lzf.TWO64 }

  /** What fits the format: lengths below the error mark, and finite scores with a decimal text. */
  ghost predicate ValOk(v: Val, base: int) {
    match v
    case Text(s) => StrOk(s, base)
    case List(l) => |l| < LENERR && forall x :: x in l ==> StrOk(x, base)
    case Set(m) => |m| < LENERR && forall x :: x in m ==> StrOk(x, base)
    case Zset(z) => |z| < LENERR && forall x :: x in z ==> StrOk(x, base) && (z[x].Finite? ==> 1 <= |z[x].text| <= 252)
    case Hash(h) => |h| < LENERR && forall x :: x in h ==> StrOk(x, base) && StrOk(h[x], base)
  }

  ghost predicate SpellsObject(b: Str, v: Val) {
    forall t :: LoadObject(TypeOf(v), b + t) == Read(v, t)
  }

  method SaveList(l: seq<Str>, compress: bool, htab: array<Lzf.Address>, base: int) returns (out: Str)
    requires htab.Length == Lzf.HSIZE && Lzf.MAX_OFF <= base && forall x :: x in l ==> StrOk(x, base)
    modifies htab
    ensures SpellsStrings(out, l)
  {
    hide SpellsStrings, SpellsString;
    out := [];
    NoStrings();
    for i := 0 to |l|
      invariant SpellsStrings(out, l[..i])
    {
      assert l[i] in l;
      var text := SaveString(l[i], compress, htab, base);
      StringsMore(out, l[..i], text, l[i]);
      assert l[..i + 1] == l[..i] + [l[i]];
      out := out + text;
    }
    assert l[..|l|] == l;
  }

  /** The members in any order. */
  method SaveSet(m: set<Str>, compress: bool, htab: array<Lzf.Address>, base: int)
    returns (out: Str, ghost order: seq<Str>)
    requires htab.Length == Lzf.HSIZE && Lzf.MAX_OFF <= base && forall x :: x in m ==> StrOk(x, base)
    modifies htab
    ensures SpellsStrings(out, order) && Elements(order) == m && |order| == |m|
  {
    hide SpellsStrings, SpellsString;
    out, order := [], [];
    NoStrings();
    var rest := m;
    while rest != {}
      invariant rest <= m && SpellsStrings(out, order) && |order| + |rest| == |m|
      invariant forall x :: x in order <==> x in m && x !in rest
      decreases |rest|
    {
      var x :| x in rest;
      var text := SaveString(x, compress, htab, base);
      StringsMore(out, order, text, x);
      out := out + text;
      order := order + [x];
      rest := rest - {x};
    }
  }

  lemma {:induction false} TableMore<T>(pairs: seq<(Str, T)>, k: Str, x: T)
    requires k !in Table(pairs)
    ensures Table(pairs + [(k, x)]) == Table(pairs)[k := x]
    decreases |pairs|
  {
    var one := [(k, x)];
    if pairs == [] {
      assert one[1..] == [];
      assert pairs + one == one;
    } else {
      assert (pairs + one)[1..] == pairs[1..] + one;
      TableMore(pairs[1..], k, x);
    }
  }

  method SaveScores(z: map<Str, Score>, compress: bool, htab: array<Lzf.Address>, base: int)
    returns (out: Str, ghost order: seq<(Str, Score)>)
    requires htab.Length == Lzf.HSIZE && Lzf.MAX_OFF <= base
    requires forall x :: x in z ==> StrOk(x, base) && (z[x].Finite? ==> 1 <= |z[x].text| <= 252)
    modifies htab
    ensures SpellsScored(out, order) && Table(order) == z && |order| == |z|
  {
    hide SpellsScored, SpellsString, Table, SaveScore;
    out, order := [], [];
    NoStrings();
    NoPairs<Score>();
    var rest := z.Keys;
    while rest != {}
      invariant rest <= z.Keys && SpellsScored(out, order) && |order| + |rest| == |z|
      invariant Table(order) == z - rest
      decreases |rest|
    {
      var k :| k in rest;
      var text := SaveString(k, compress, htab, base);
      ScoredMore(out, order, text, k, z[k]);
      TableMore(order, k, z[k]);
      assert z - (rest - {k}) == (z - rest)[k := z[k]];
      out := out + text + SaveScore(z[k]);
      order := order + [(k, z[k])];
      rest := rest - {k};
    }
  }

  lemma NoPairs<T>()
    ensures Table<T>([]) == map[]
  {
  }

  method SaveFields(h: map<Str, Str>, compress: bool, htab: array<Lzf.Address>, base: int)
    returns (out: Str, ghost order: seq<(Str, Str)>)
    requires htab.Length == Lzf.HSIZE && Lzf.MAX_OFF <= base
    requires forall x :: x in h ==> StrOk(x, base) && StrOk(h[x], base)
    modifies htab
    ensures SpellsFields(out, order) && Table(order) == h && |order| == |h|
  {
    hide SpellsFields, SpellsString, Table;
    out, order := [], [];
    NoStrings();
    NoPairs<Str>();
    var rest := h.Keys;
    while rest != {}
      invariant rest <= h.Keys && SpellsFields(out, order) && |order| + |rest| == |h|
      invariant Table(order) == h - rest
      decreases |rest|
    {
      var k :| k in rest;
      var key := SaveString(k, compress, htab, base);
      var val := SaveString(h[k], compress, htab, base);
      FieldsMore(out, order, key, k, val, h[k]);
      TableMore(order, k, h[k]);
      assert h - (rest - {k}) == (h - rest)[k := h[k]];
      out := out + key + val;
      order := order + [(k, h[k])];
      rest := rest - {k};
    }
  }

  lemma CountedStrings(b: Str, items: seq<Str>, kind: byte)
    requires SpellsStrings(b, items) && |items| < LENERR && (kind == 1 || kind == 2)
    ensures SpellsObject(SaveLen(|items|) + b, if kind == 1 then List(items) else Set(Elements(items)))
  {
    hide LoadStrings, SaveLen, LoadLen, LoadScored, LoadFields, LoadString, Table;
    forall t
      ensures LoadObject(kind, SaveLen(|items|) + b + t)
        == Read(if kind == 1 then List(items) else Set(Elements(items)), t)
    {
      Assoc(SaveLen(|items|), b, t);
      LenBack(|items|, b + t);
      assert LoadStrings(b + t, |items|) == Read(items, t);
    }
  }

  lemma CountedScored(b: Str, items: seq<(Str, Score)>)
    requires SpellsScored(b, items) && |items| < LENERR
    ensures SpellsObject(SaveLen(|items|) + b, Zset(Table(items)))
  {
    hide LoadScored, SaveLen, LoadLen, Table, LoadStrings, LoadFields, LoadString, Elements;
    assert TypeOf(Zset(Table(items))) == 3;
    forall t ensures LoadObject(3, SaveLen(|items|) + b + t) == Read(Zset(Table(items)), t) {
      Assoc(SaveLen(|items|), b, t);
      LenBack(|items|, b + t);
      assert LoadScored(b + t, |items|) == Read(items, t);
    }
  }

  lemma CountedFields(b: Str, items: seq<(Str, Str)>)
    requires SpellsFields(b, items) && |items| < LENERR
    ensures SpellsObject(SaveLen(|items|) + b, Hash(Table(items)))
  {
    hide LoadFields, SaveLen, LoadLen, Table, LoadStrings, LoadScored, LoadString, Elements;
    assert TypeOf(Hash(Table(items))) == 4;
    forall t ensures LoadObject(4, SaveLen(|items|) + b + t) == Read(Hash(Table(items)), t) {
      Assoc(SaveLen(|items|), b, t);
      LenBack(|items|, b + t);
      assert LoadFields(b + t, |items|) == Read(items, t);
    }
  }

  /** rdbSaveObject. */
  method SaveObject(v: Val, compress: bool, htab: array<Lzf.Address>, base: int) returns (out: Str)
    requires htab.Length == Lzf.HSIZE && Lzf.MAX_OFF <= base && ValOk(v, base)
    modifies htab
    ensures SpellsObject(out, v)
  {
    hide SpellsFields, SpellsScored, SpellsStrings, SpellsObject, Table, SaveLen;
    match v {
      case Text(s) =>
        out := SaveString(s, compress, htab, base);
        TextObject(out, s);
      case List(l) =>
        out := SaveList(l, compress, htab, base);
        CountedStrings(out, l, 1);
        out := SaveLen(|l|) + out;
      case Set(m) =>
        ghost var order;
        out, order := SaveSet(m, compress, htab, base);
        CountedStrings(out, order, 2);
        out := SaveLen(|m|) + out;
      case Zset(z) =>
        ghost var order;
        out, order := SaveScores(z, compress, htab, base);
        CountedScored(out, order);
        out := SaveLen(|z|) + out;
      case Hash(h) =>
        ghost var order;
        out, order := SaveFields(h, compress, htab, base);
        CountedFields(out, order);
        out := SaveLen(|h|) + out;
    }
  }

  lemma TextObject(b: Str, s: Str)
    requires SpellsString(b, s)
    ensures SpellsObject(b, Text(s))
  {
    hide LoadString;
    forall t ensures LoadObject(0, b + t) == Read(Text(s), t) { assert LoadString(b + t) == Read(s, t); }
  }

  // ---------------------------------------------------------------- records

  /** Reading `b` takes the loader from `st` to `to`. */
  ghost predicate Leads(b: Str, st: Loader, to: Loader, now: int) {
    forall t :: LoadRecords(b + t, st, now) == LoadRecords(t, to, now)
  }

  lemma LeadsNowhere(st: Loader, now: int)
    ensures Leads([], st, st, now)
  {
    hide LoadRecords;
    forall t ensures LoadRecords([] + t, st, now) == LoadRecords(t, st, now) { assert [] + t == t; }
  }

  lemma LeadsOn(a: Str, b: Str, s0: Loader, s1: Loader, s2: Loader, now: int)
    requires Leads(a, s0, s1, now) && Leads(b, s1, s2, now)
    ensures Leads(a + b, s0, s2, now)
  {
    hide LoadRecords;
    forall t ensures LoadRecords(a + b + t, s0, now) == LoadRecords(t, s2, now) {
      assert a + b + t == a + (b + t);
      assert LoadRecords(a + (b + t), s0, now) == LoadRecords(b + t, s1, now);
      assert LoadRecords(b + t, s1, now) == LoadRecords(t, s2, now);
    }
  }

  lemma SelectLeads(j: nat, st: Loader, now: int)
    requires j < DBNUM
    ensures Leads([SELECTDB] + SaveLen(j), st, st.(db := j), now)
  {
    hide SaveLen, LoadLen;
    forall t ensures LoadRecords([SELECTDB] + SaveLen(j) + t, st, now) == LoadRecords(t, st.(db := j), now) {
      var s := [SELECTDB] + SaveLen(j) + t;
      assert s == [SELECTDB] + (SaveLen(j) + t);
      assert s[1..] == SaveLen(j) + t;
      LenBack(j, t);
    }
  }

  lemma RecordRead(kind: byte, k: Str, kb: Str, v: Val, vb: Str, st: Loader, now: int, t: Str)
    requires kind == TypeOf(v) && SpellsString(kb, k) && SpellsObject(vb, v) && Slot(st.db, k) !in st.data
    ensures LoadRecord([kind] + kb + vb + t, st, now) == LoadRecords(t, AddKey(st, k, v, now).value, now)
  {
    hide LoadString, LoadObject;
    var s := [kind] + kb + vb + t;
    assert s == [kind] + (kb + (vb + t));
    assert s[1..] == kb + (vb + t);
    assert LoadString(kb + (vb + t)) == Read(k, vb + t);
    assert LoadObject(kind, vb + t) == Read(v, t);
  }

  predicate EntryOk(e: Entry) {
    e.expire.Some? ==> -TWO31 <= e.expire.value < TWO31 && e.expire.value != -1
  }

  function Added(st: Loader, k: Str, e: Entry, now: int): Loader {
    if Gone(e, now) then st else st.(data := st.data[Slot(st.db, k) := e])
  }

  function ExpireBytes(e: Entry): Str {
    if e.expire.Some? then [EXPIRETIME] + SaveTime(e.expire.value) else []
  }

  lemma EntryLeads(k: Str, kb: Str, e: Entry, vb: Str, st: Loader, now: int)
    requires SpellsString(kb, k) && SpellsObject(vb, e.val)
    requires Slot(st.db, k) !in st.data && EntryOk(e) && st.expire == -1
    ensures Leads(ExpireBytes(e) + [TypeOf(e.val)] + kb + vb, st, Added(st, k, e, now), now)
  {
    hide LoadRecord, SpellsString, SpellsObject;
    var kind := TypeOf(e.val);
    forall t
      ensures LoadRecords(ExpireBytes(e) + [kind] + kb + vb + t, st, now) == LoadRecords(t, Added(st, k, e, now), now)
    {
      var u := [kind] + kb + vb + t;
      assert ExpireBytes(e) + [kind] + kb + vb + t == ExpireBytes(e) + u;
      if e.expire.Some? {
        ExpireRead(e.expire.value, u, st, now);
        RecordRead(kind, k, kb, e.val, vb, st.(expire := e.expire.value), now, t);
      } else {
        assert [] + u == u;
        RecordRead(kind, k, kb, e.val, vb, st, now, t);
      }
    }
  }

  lemma ExpireRead(when: int, u: Str, st: Loader, now: int)
    requires -TWO31 <= when < TWO31 && when != -1 && u != []
    ensures LoadRecords([EXPIRETIME] + SaveTime(when) + u, st, now) == LoadRecord(u, st.(expire := when), now)
  {
    hide LoadRecord, LoadTime, SaveTime;
    var s := [EXPIRETIME] + SaveTime(when) + u;
    assert s == [EXPIRETIME] + (SaveTime(when) + u);
    assert s[1..] == SaveTime(when) + u;
    TimeBack(when, u);
  }

  // ---------------------------------------------------------------- the file

  /** What the format can hold. */
  ghost predicate DataOk(d: Data, base: int) {
    forall s :: s in d ==> 0 <= s.db < DBNUM && StrOk(s.key, base) && ValOk(d[s].val, base) && EntryOk(d[s])
  }

  /** The keys without expiry, and those whose expiry neither the save nor the load had passed. */
  ghost function Kept(d: Data, saved: int, now: int): Data {
    map s | s in d && (d[s].expire.Some? ==> saved <= d[s].expire.value && now <= d[s].expire.value) :: d[s]
  }

  ghost function Part(d: Data, saved: int, now: int, j: int, rest: set<Str>): Data {
    map s | s in d && !Gone(d[s], saved) && !Gone(d[s], now) && (s.db < j || (s.db == j && s.key !in rest)) :: d[s]
  }

  function KeysOf(d: Data, j: int): set<Str> { set s | s in d && s.db == j :: s.key }

  lemma PartStart(d: Data, saved: int, now: int, j: int)
    ensures Part(d, saved, now, j, KeysOf(d, j)) == Part(d, saved, now, j - 1, {})
    ensures KeysOf(d, j) == {} ==> Part(d, saved, now, j, {}) == Part(d, saved, now, j - 1, {})
  {
    forall s | s in d && s.db == j ensures s.key in KeysOf(d, j) { }
  }

  lemma PartStep(d: Data, saved: int, now: int, j: int, rest: set<Str>, k: Str)
    requires k in rest && Slot(j, k) in d
    ensures var s := Slot(j, k); var p := Part(d, saved, now, j, rest);
      s !in p && Part(d, saved, now, j, rest - {k}) == if Gone(d[s], saved) || Gone(d[s], now) then p else p[s := d[s]]
  {
    var s, p := Slot(j, k), Part(d, saved, now, j, rest);
    if Gone(d[s], saved) || Gone(d[s], now) {
      assert Part(d, saved, now, j, rest - {k}) == p;
    } else {
      assert Part(d, saved, now, j, rest - {k}) == p[s := d[s]];
    }
  }

  lemma PartAll(d: Data, saved: int, now: int, base: int)
    requires DataOk(d, base)
    ensures Part(d, saved, now, -1, {}) == map[] && Part(d, saved, now, DBNUM - 1, {}) == Kept(d, saved, now)
  {
  }

  lemma KeyOf(d: Data, j: int, k: Str, base: int)
    requires DataOk(d, base) && k in KeysOf(d, j)
    ensures Slot(j, k) in d && StrOk(k, base) && ValOk(d[Slot(j, k)].val, base) && EntryOk(d[Slot(j, k)])
  {
  }

  /** The loader that has read every key of `Part`. */
  ghost function At(d: Data, saved: int, now: int, j: int, rest: set<Str>, db: int): Loader {
    Loader(db, -1, Part(d, saved, now, j, rest))
  }

  /** How far a file has come: all databases below `j`, the keys of `j` outside `rest`, and the
      database selected last. */
  datatype Place = Place(j: int, rest: set<Str>, db: int)

  /** Whenever the file is loaded, `b` takes the loader from one place to the next. */
  ghost predicate Covers(b: Str, d: Data, saved: int, p: Place, q: Place) {
    forall now :: Leads(b, At(d, saved, now, p.j, p.rest, p.db), At(d, saved, now, q.j, q.rest, q.db), now)
  }

  /** Read at time `now`, `b` adds the key, unless it had expired when it was saved. */
  ghost predicate AddsAt(b: Str, k: Str, e: Entry, saved: int, st: Loader, now: int) {
    Slot(st.db, k) !in st.data && st.expire == -1 ==>
      Leads(b, st, if e.expire.Some? && (e.expire.value < saved || e.expire.value < now) then st
                   else st.(data := st.data[Slot(st.db, k) := e]), now)
  }

  ghost predicate AddsKey(b: Str, k: Str, e: Entry, saved: int) {
    forall st, now :: AddsAt(b, k, e, saved, st, now)
  }

  lemma CoversNothing(d: Data, saved: int, j: int, db: int)
    ensures Covers([], d, saved, Place(j - 1, {}, db), Place(j - 1, {}, db))
    ensures KeysOf(d, j) == {} ==> Covers([], d, saved, Place(j - 1, {}, db), Place(j, {}, db))
  {
    hide Leads, Part, KeysOf;
    var i := j - 1;
    forall now ensures Leads([], At(d, saved, now, i, {}, db), At(d, saved, now, i, {}, db), now) {
      LeadsNowhere(At(d, saved, now, i, {}, db), now);
    }
    forall now | KeysOf(d, j) == {} ensures At(d, saved, now, j, {}, db) == At(d, saved, now, i, {}, db) {
      PartStart(d, saved, now, j);
    }
  }

  lemma CoversOn(a: Str, b: Str, d: Data, saved: int, p: Place, q: Place, r: Place)
    requires Covers(a, d, saved, p, q) && Covers(b, d, saved, q, r)
    ensures Covers(a + b, d, saved, p, r)
  {
    hide Leads, At;
    var ab := a + b;
    forall now ensures Leads(ab, At(d, saved, now, p.j, p.rest, p.db), At(d, saved, now, r.j, r.rest, r.db), now) {
      LeadsOn(a, b, At(d, saved, now, p.j, p.rest, p.db), At(d, saved, now, q.j, q.rest, q.db),
              At(d, saved, now, r.j, r.rest, r.db), now);
    }
  }

  lemma CoversSelect(d: Data, saved: int, j: nat, db: int)
    requires j < DBNUM
    ensures Covers([SELECTDB] + SaveLen(j), d, saved, Place(j - 1, {}, db), Place(j, KeysOf(d, j), j))
  {
    hide Leads, Part, KeysOf, SaveLen;
    var i, b, rest := j - 1, [SELECTDB] + SaveLen(j), KeysOf(d, j);
    forall now ensures Leads(b, At(d, saved, now, i, {}, db), At(d, saved, now, j, rest, j), now) {
      PartStart(d, saved, now, j);
      SelectLeads(j, At(d, saved, now, i, {}, db), now);
    }
  }

  lemma CoversKey(b: Str, d: Data, saved: int, j: int, rest: set<Str>, k: Str)
    requires k in rest && Slot(j, k) in d && AddsKey(b, k, d[Slot(j, k)], saved)
    ensures Covers(b, d, saved, Place(j, rest, j), Place(j, rest - {k}, j))
  {
    hide Leads, Part;
    var fewer, e := rest - {k}, d[Slot(j, k)];
    forall now ensures Leads(b, At(d, saved, now, j, rest, j), At(d, saved, now, j, fewer, j), now) {
      PartStep(d, saved, now, j, rest, k);
      var st := At(d, saved, now, j, rest, j);
      assert AddsAt(b, k, e, saved, st, now);
    }
  }

  lemma EntryAddsKey(k: Str, kb: Str, e: Entry, vb: Str, saved: int)
    requires SpellsString(kb, k) && SpellsObject(vb, e.val) && EntryOk(e) && !Gone(e, saved)
    ensures AddsKey(ExpireBytes(e) + [TypeOf(e.val)] + kb + vb, k, e, saved)
  {
    hide Leads, SpellsString, SpellsObject, EntryOk, ExpireBytes, TypeOf;
    var b := ExpireBytes(e) + [TypeOf(e.val)] + kb + vb;
    forall st: Loader, now ensures AddsAt(b, k, e, saved, st, now) {
      if Slot(st.db, k) !in st.data && st.expire == -1 { EntryLeads(k, kb, e, vb, st, now); }
    }
  }

  lemma NothingAdded(k: Str, e: Entry, saved: int)
    requires Gone(e, saved)
    ensures AddsKey([], k, e, saved)
  {
    hide Leads;
    forall st, now ensures AddsAt([], k, e, saved, st, now) { LeadsNowhere(st, now); }
  }

  /** The record of one key in rdbSave. */
  method SaveKey(k: Str, e: Entry, saved: int, compress: bool, htab: array<Lzf.Address>, base: int) returns (out: Str)
    requires htab.Length == Lzf.HSIZE && Lzf.MAX_OFF <= base && StrOk(k, base) && ValOk(e.val, base) && EntryOk(e)
    modifies htab
    ensures AddsKey(out, k, e, saved)
  {
    hide AddsKey, ValOk, StrOk, SpellsObject, SpellsString;
    if e.expire.Some? && e.expire.value < saved {
      NothingAdded(k, e, saved);
      return [];
    }
    var kb := SaveString(k, compress, htab, base) by { StrBound(k, base); }
    var vb := SaveObject(e.val, compress, htab, base);
    EntryAddsKey(k, kb, e, vb, saved);
    out := ExpireBytes(e) + [TypeOf(e.val)] + kb + vb;
  }

  lemma StrBound(k: Str, base: int)
    requires StrOk(k, base)
    ensures |k| < LENERR && base + |k| < Lzf.TWO64
  {
  }

  method SaveDb(d: Data, saved: int, j: nat, compress: bool, htab: array<Lzf.Address>, base: int, ghost db: int)
    returns (out: Str, ghost db': int)
    requires htab.Length == Lzf.HSIZE && Lzf.MAX_OFF <= base && DataOk(d, base) && j < DBNUM
    modifies htab
    ensures Covers(out, d, saved, Place(j - 1, {}, db), Place(j, {}, db'))
  {
    hide Covers, AddsKey, DataOk, KeysOf, SaveLen, ValOk, StrOk, EntryOk;
    out, db' := [], db;
    ghost var start := Place(j - 1, {}, db);
    CoversNothing(d, saved, j, db);
    var rest := KeysOf(d, j);
    if rest == {} { return; }
    out, db' := [SELECTDB] + SaveLen(j), j;
    CoversSelect(d, saved, j, db);
    while rest != {}
      invariant rest <= KeysOf(d, j) && db' == j
      invariant Covers(out, d, saved, start, Place(j, rest, j))
      decreases |rest|
    {
      var k :| k in rest;
      KeyOf(d, j, k, base);
      var text := SaveKey(k, d[Slot(j, k)], saved, compress, htab, base);
      CoversKey(text, d, saved, j, rest, k);
      CoversOn(out, text, d, saved, start, Place(j, rest, j), Place(j, rest - {k}, j));
      out := out + text;
      rest := rest - {k};
    }
  }

  /** rdbSave: loading the file, at whatever time `now`, gives exactly the keys that had not expired
      when it was saved and have not expired when it is loaded, with their values and expiry times. */
  method Save(d: Data, saved: int, compress: bool, htab: array<Lzf.Address>, base: int) returns (out: Str)
    requires htab.Length == Lzf.HSIZE && Lzf.MAX_OFF <= base && DataOk(d, base)
    modifies htab
    ensures forall now :: LoadFile(out, now) == Some(Kept(d, saved, now))
  {
    hide Covers, DataOk, LoadFile, Kept;
    out := [];
    ghost var db := 0;
    CoversNothing(d, saved, 0, 0);
    for j := 0 to DBNUM
      invariant Covers(out, d, saved, Place(-1, {}, 0), Place(j - 1, {}, db))
    {
      ghost var before := db;
      var text;
      text, db := SaveDb(d, saved, j, compress, htab, base, db);
      CoversOn(out, text, d, saved, Place(-1, {}, 0), Place(j - 1, {}, before), Place(j, {}, db));
      out := out + text;
    }
    ghost var b := out;
    out := HEADER + (out + [EOF]);
    forall now ensures LoadFile(out, now) == Some(Kept(d, saved, now)) { WholeFile(b, d, saved, db, base, now); }
  }

  lemma WholeFile(b: Str, d: Data, saved: int, db: int, base: int, now: int)
    requires DataOk(d, base) && Covers(b, d, saved, Place(-1, {}, 0), Place(DBNUM - 1, {}, db))
    ensures LoadFile(HEADER + (b + [EOF]), now) == Some(Kept(d, saved, now))
  {
    hide Leads, Part, DataOk, LoadRecords, LoadFile, Kept;
    PartAll(d, saved, now, base);
    ReadToEnd(b, At(d, saved, now, -1, {}, 0), At(d, saved, now, DBNUM - 1, {}, db), now);
    HeaderRead(b + [EOF], now);
  }

  lemma ReadToEnd(b: Str, st: Loader, to: Loader, now: int)
    requires Leads(b, st, to, now)
    ensures LoadRecords(b + [EOF], st, now) == Some(to.data)
  {
    hide Leads;
    var e: Str := [EOF];
    assert LoadRecords(b + e, st, now) == LoadRecords(e, to, now) by { LeadsTo(b, st, to, now, e); }
    assert LoadRecords(e, to, now) == LoadRecord(e, to, now);
  }

  lemma LeadsTo(b: Str, st: Loader, to: Loader, now: int, t: Str)
    requires Leads(b, st, to, now)
    ensures LoadRecords(b + t, st, now) == LoadRecords(t, to, now)
  {
    hide LoadRecords;
  }

  lemma HeaderRead(b: Str, now: int)
    ensures LoadFile(HEADER + b, now) == LoadRecords(b, Loader(0, -1, map[]), now)
  {
    hide LoadRecords, LeadingInt;
    var s := HEADER + b;
    assert s[..5] == HEADER[..5];
    assert s[5..9] == HEADER[5..9] == [48, 48, 48, 49];
    assert s[9..] == b;
    VersionOne();
  }

  lemma VersionOne()
    ensures LeadingInt([48, 48, 48, 49]) == 1
  {
    var s: Str := [48, 48, 48, 49];
    assert s[1..] == [48, 48, 49] && s[1..][1..] == [48, 49] && s[1..][1..][1..] == [49] && s[1..][1..][1..][1..] == [];
    assert LeadingNat([49], 0) == LeadingNat([], 1);
    assert LeadingNat([48, 49], 0) == LeadingNat([49], 0);
    assert LeadingNat([48, 48, 49], 0) == LeadingNat([48, 49], 0);
    assert LeadingNat(s, 0) == LeadingNat([48, 48, 49], 0);
  }

  /** Saved and loaded later: exactly the keys whose expiry is not past then. */
  lemma KeptLater(d: Data, saved: int, now: int)
    requires saved <= now
    ensures Kept(d, saved, now) == map s | s in d && (d[s].expire.Some? ==> now <= d[s].expire.value) :: d[s]
  {
  }
}
