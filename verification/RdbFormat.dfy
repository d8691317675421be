/** The RDB file of redis-1.3.6/redis.c as its loader reads it. */
module RdbFormat {
  import opened Bytes
  import opened Resp
  import LzfFormat

  type Str = seq<byte>

  const DBNUM: nat := 16
  const LENERR: nat := 0xFFFF_FFFF
  const EXPIRETIME: byte := 253
  const SELECTDB: byte := 254
  const EOF: byte := 255
  const TWO31: int := 0x8000_0000
  const TWO32: int := 0x1_0000_0000

  /** What a read returns and what is left of the file, or a short read. */
  datatype Read<+T> = Read(value: T, rest: Str) | Eof

  /** A score: not a number, an infinity, or the decimal text that stands for the double. */
  datatype Score = Nan | PosInf | NegInf | Finite(text: Str)

  datatype Val =
    | Text(s: Str) | List(items: seq<Str>) | Set(m: set<Str>) | Zset(z: map<Str, Score>) | Hash(h: map<Str, Str>)

  // ---------------------------------------------------------------- lengths and times

  datatype Len = Len(n: nat, encoded: bool)

  function Be32(n: nat): Str {
    [n / 16777216 % 256, n / 65536 % 256, n / 256 % 256, n % 256]
  }

  /** Four bytes, most significant first. */
  function Word(a: byte, b: byte, c: byte, d: byte): nat {
    var w: nat, x: nat, y: nat, z: nat := a, b, c, d;
    16777216 * w + 65536 * x + 256 * y + z
  }

  function Signed(n: nat, half: nat): int { if n >= half then n - 2 * half else n }

  function SaveLen(n: nat): (s: Str)
    ensures s != []
  {
    if n < 64 then [n]
    else if n < 16384 then [64 + n / 256, n % 256]
    else [128] + Be32(n)
  }

  function LoadLen(s: Str): (r: Read<Len>)
    ensures r.Read? ==> |r.rest| < |s|
  {
    if s == [] then Eof
    else
      var b: nat := s[0];
      if b < 64 then Read(Len(b, false), s[1..])
      else if b >= 192 then Read(Len(b - 192, true), s[1..])
      else if b < 128 then (if |s| < 2 then Eof else var lo: nat := s[1]; Read(Len(256 * (b - 64) + lo, false), s[2..]))
      else if |s| < 5 then Eof
      else Read(Len(Word(s[1], s[2], s[3], s[4]), false), s[5..])
  }

  lemma WordBack(n: nat)
    requires n < TWO32
    ensures Word(n / 16777216 % 256, n / 65536 % 256, n / 256 % 256, n % 256) == n
  {
    var a, b, c := n / 256, n / 65536, n / 16777216;
    assert b == a / 256 && c == b / 256;
    assert c % 256 == c;
  }

  /** Whichever of the three forms was chosen, the length is read back and nothing more. */
  lemma LenBack(n: nat, t: Str)
    requires n < TWO32
    ensures LoadLen(SaveLen(n) + t) == Read(Len(n, false), t)
  {
    var s := SaveLen(n) + t;
    if n < 64 {
      assert s[1..] == t;
    } else if n < 16384 {
      assert s[2..] == t;
    } else {
      WordBack(n);
      assert s[5..] == t;
    }
  }

  function SaveTime(t: int): Str { Le32(t) }

  function LoadTime(s: Str): (r: Read<int>)
    ensures r.Read? ==> |r.rest| < |s|
  {
    if |s| < 4 then Eof else Read(Signed(Word(s[3], s[2], s[1], s[0]), TWO31), s[4..])
  }

  lemma WordMod(t: int)
    ensures Word(t / 16777216 % 256, t / 65536 % 256, t / 256 % 256, t % 256) == t % TWO32
  {
    var n := t % TWO32;
    var k := t / TWO32;
    assert t == n + TWO32 * k;
    LowByte(t, n, k, 1, 16777216);
    LowByte(t, n, k, 256, 65536);
    LowByte(t, n, k, 65536, 256);
    LowByte(t, n, k, 16777216, 1);
    WordBack(n);
  }

  lemma LowByte(t: int, n: int, k: int, d: int, m: int)
    requires t == n + TWO32 * k && (d, m) in {(1, 16777216), (256, 65536), (65536, 256), (16777216, 1)}
    ensures t / d % 256 == n / d % 256
  {
    var q := 256 * (m * k);
    if d == 1 {
      assert t == n + 1 * q;
    } else if d == 256 {
      assert t == n + 256 * q;
    } else if d == 65536 {
      assert t == n + 65536 * q;
    }
    else { assert t == n + 16777216 * q; }
    if d == 1 { assert t / d == n / d + q; } else if d == 256 { assert t / d == n / d + q; }
    else if d == 65536 { assert t / d == n / d + q; } else { assert t / d == n / d + q; }
    AddsMultiple(n / d, m * k);
  }

  lemma AddsMultiple(a: int, b: int)
    ensures (a + 256 * b) % 256 == a % 256
  {
  }

  lemma SignedMod(t: int)
    ensures Signed(t % TWO32, TWO31) == t <==> -TWO31 <= t < TWO31
  {
    var k := t / TWO32;
    assert t == t % TWO32 + TWO32 * k;
  }

  /** An expiry time survives exactly when it fits 32 bits. */
  lemma TimeBack(t: int, rest: Str)
    ensures LoadTime(SaveTime(t) + rest).Read? && LoadTime(SaveTime(t) + rest).rest == rest
    ensures LoadTime(SaveTime(t) + rest).value == t <==> -TWO31 <= t < TWO31
  {
    var s := SaveTime(t) + rest;
    assert s[4..] == rest;
    WordMod(t);
    SignedMod(t);
  }

  // ---------------------------------------------------------------- strings

  function LoadInteger(s: Str, kind: nat): (r: Read<int>)
    requires kind <= 2
    ensures r.Read? ==> |r.rest| < |s|
  {
    if kind == 0 then
      if |s| < 1 then Eof else Read(Signed(s[0], 128), s[1..])
    else if kind == 1 then
      if |s| < 2 then Eof else var lo: nat, hi: nat := s[0], s[1]; Read(Signed(256 * hi + lo, 32768), s[2..])
    else LoadTime(s)
  }

  function LoadLzf(s: Str): (r: Read<Str>)
    ensures r.Read? ==> |r.rest| < |s|
  {
    var c := LoadLen(s);
    if c.Eof? || c.value.n == LENERR then Eof
    else
      var l := LoadLen(c.rest);
      if l.Eof? || l.value.n == LENERR || c.value.n == 0 || |l.rest| < c.value.n then Eof
      else
        var d := LzfFormat.Decode(l.rest[..c.value.n], [], l.value.n);
        if d.None? || |d.value| != l.value.n then Eof else Read(d.value, l.rest[c.value.n..])
  }

  function LoadString(s: Str): (r: Read<Str>)
    ensures r.Read? ==> |r.rest| < |s|
  {
    var l := LoadLen(s);
    if l.Eof? then Eof
    else if l.value.encoded then
      if l.value.n <= 2 then
        var v := LoadInteger(l.rest, l.value.n);
        if v.Eof? then Eof else Read(Decimal(v.value), v.rest)
      else if l.value.n == 3 then LoadLzf(l.rest)
      else Eof
    else if l.value.n == LENERR || |l.rest| < l.value.n then Eof
    else Read(l.rest[..l.value.n], l.rest[l.value.n..])
  }

  /** The integer form, for values of at most 32 bits. */
  function EncodeInteger(v: int): Str
    requires -TWO31 <= v < TWO31
  {
    if -128 <= v < 128 then [192, v % 256]
    else if -32768 <= v < 32768 then [193, v % 256, v / 256 % 256]
    else [194] + Le32(v)
  }

  lemma IntegerBack(v: int, t: Str)
    requires -TWO31 <= v < TWO31
    ensures LoadString(EncodeInteger(v) + t) == Read(Decimal(v), t)
  {
    hide Decimal;
    var s := EncodeInteger(v) + t;
    if -128 <= v < 128 {
      assert s[1..] == [v % 256] + t && s[1..][1..] == t;
    } else if -32768 <= v < 32768 {
      Signed16(v);
      assert s[1..] == [v % 256, v / 256 % 256] + t && s[1..][2..] == t;
    } else {
      assert s[1..] == SaveTime(v) + t;
      TimeBack(v, t);
    }
  }

  lemma Signed16(v: int)
    requires -32768 <= v < 32768
    ensures Signed(256 * (v / 256 % 256) + v % 256, 32768) == v
  {
  }

  lemma VerbatimBack(b: Str, t: Str)
    requires |b| < LENERR
    ensures LoadString(SaveLen(|b|) + b + t) == Read(b, t)
  {
    hide SaveLen, LoadLen;
    assert SaveLen(|b|) + b + t == SaveLen(|b|) + (b + t);
    LenBack(|b|, b + t);
    assert (b + t)[..|b|] == b && (b + t)[|b|..] == t;
  }

  lemma LzfBack(b: Str, c: Str, t: Str)
    requires |b| < LENERR && 0 < |c| < LENERR && LzfFormat.Decode(c, [], |b|) == Some(b)
    ensures LoadString([195] + SaveLen(|c|) + SaveLen(|b|) + c + t) == Read(b, t)
  {
    hide SaveLen, LoadLen, LoadLzf, LoadInteger, LzfFormat.Decode;
    var x, y := SaveLen(|c|), SaveLen(|b|);
    var tail := y + (c + t);
    var s := [195] + (x + tail);
    LzfText(x, y, c, t);
    LenBack(|c|, tail);
    LenBack(|b|, c + t);
    assert (c + t)[..|c|] == c && (c + t)[|c|..] == t;
    LzfRead(x + tail, tail, b, c, t);
    EncodedRead(x + tail);
  }

  lemma LzfText(x: Str, y: Str, c: Str, t: Str)
    ensures [195] + x + y + c + t == [195] + (x + (y + (c + t)))
  {
    Assoc([195], x, y);
    Assoc([195], x + y, c);
    Assoc([195], x + y + c, t);
    Assoc(x, y, c);
    Assoc(x, y + c, t);
    Assoc(y, c, t);
  }

  lemma EncodedRead(u: Str)
    ensures LoadLen([195] + u) == Read(Len(3, true), u)
  {
    assert ([195] + u)[1..] == u;
  }

  lemma LzfRead(s: Str, tail: Str, b: Str, c: Str, t: Str)
    requires |b| < LENERR && 0 < |c| < LENERR && LzfFormat.Decode(c, [], |b|) == Some(b)
    requires LoadLen(s) == Read(Len(|c|, false), tail) && LoadLen(tail) == Read(Len(|b|, false), c + t)
    requires (c + t)[..|c|] == c && (c + t)[|c|..] == t
    ensures LoadLzf(s) == Read(b, t)
  {
    hide LoadLen, LzfFormat.Decode;
  }

  // ---------------------------------------------------------------- scores

  function SaveScore(x: Score): (s: Str)
    requires x.Finite? ==> 1 <= |x.text| <= 252
  {
    match x
    case Nan => [253]
    case PosInf => [254]
    case NegInf => [255]
    case Finite(text) => [|text|] + text
  }

  function LoadScore(s: Str): (r: Read<Score>)
    ensures r.Read? ==> |r.rest| < |s|
  {
    if s == [] then Eof
    else
      var n: nat := s[0];
      if n == 255 then Read(NegInf, s[1..])
      else if n == 254 then Read(PosInf, s[1..])
      else if n == 253 then Read(Nan, s[1..])
      else if n == 0 || |s| < 1 + n then Eof
      else Read(Finite(s[1..1 + n]), s[1 + n..])
  }

  lemma ScoreBack(x: Score, t: Str)
    requires x.Finite? ==> 1 <= |x.text| <= 252
    ensures LoadScore(SaveScore(x) + t) == Read(x, t)
  {
    var s := SaveScore(x) + t;
    if x.Finite? {
      var n := |x.text|;
      assert s[1..1 + n] == x.text && s[1 + n..] == t;
    } else {
      assert s[1..] == t;
    }
  }

  // ---------------------------------------------------------------- objects

  function LoadStrings(s: Str, n: nat): (r: Read<seq<Str>>)
    ensures r.Read? ==> |r.rest| <= |s| && |r.value| == n
    decreases n
  {
    if n == 0 then Read([], s)
    else
      var a := LoadString(s);
      if a.Eof? then Eof
      else
        var t := LoadStrings(a.rest, n - 1);
        if t.Eof? then Eof else Read([a.value] + t.value, t.rest)
  }

  function LoadScored(s: Str, n: nat): (r: Read<seq<(Str, Score)>>)
    ensures r.Read? ==> |r.rest| <= |s| && |r.value| == n
    decreases n
  {
    if n == 0 then Read([], s)
    else
      var a := LoadString(s);
      if a.Eof? then Eof
      else
        var x := LoadScore(a.rest);
        if x.Eof? then Eof
        else
          var t := LoadScored(x.rest, n - 1);
          if t.Eof? then Eof else Read([(a.value, x.value)] + t.value, t.rest)
  }

  function LoadFields(s: Str, n: nat): (r: Read<seq<(Str, Str)>>)
    ensures r.Read? ==> |r.rest| <= |s| && |r.value| == n
    decreases n
  {
    if n == 0 then Read([], s)
    else
      var a := LoadString(s);
      if a.Eof? then Eof
      else
        var v := LoadString(a.rest);
        if v.Eof? then Eof
        else
          var t := LoadFields(v.rest, n - 1);
          if t.Eof? then Eof else Read([(a.value, v.value)] + t.value, t.rest)
  }

  function Elements(items: seq<Str>): set<Str> { set x | x in items }

  /** Adding pair after pair to a table that keeps the first value of a key. */
  function Table<T>(pairs: seq<(Str, T)>): map<Str, T> {
    if pairs == [] then map[] else Table(pairs[1..])[pairs[0].0 := pairs[0].1]
  }

  function TypeOf(v: Val): byte {
    match v
    case Text(_) => 0
    case List(_) => 1
    case Set(_) => 2
    case Zset(_) => 3
    case Hash(_) => 4
  }

  function LoadObject(kind: byte, s: Str): (r: Read<Val>)
    ensures r.Read? ==> |r.rest| < |s|
  {
    if kind == 0 then
      var a := LoadString(s);
      if a.Eof? then Eof else Read(Text(a.value), a.rest)
    else if kind > 4 then Eof
    else
      var l := LoadLen(s);
      if l.Eof? || l.value.n == LENERR then Eof
      else if kind == 1 || kind == 2 then
        var a := LoadStrings(l.rest, l.value.n);
        if a.Eof? then Eof
        else Read(if kind == 1 then List(a.value) else Set(Elements(a.value)), a.rest)
      else if kind == 3 then
        var a := LoadScored(l.rest, l.value.n);
        if a.Eof? then Eof else Read(Zset(Table(a.value)), a.rest)
      else
        var a := LoadFields(l.rest, l.value.n);
        if a.Eof? then Eof else Read(Hash(Table(a.value)), a.rest)
  }

  // ---------------------------------------------------------------- the file

  datatype Slot = Slot(db: int, key: Str)

  datatype Entry = Entry(val: Val, expire: Option<int>)

  type Data = map<Slot, Entry>

  /** The loader between two records: the database, a pending expiry, and the keys so far. */
  datatype Loader = Loader(db: int, expire: int, data: Data)

  predicate Gone(e: Entry, now: int) { e.expire.Some? && e.expire.value < now }

  /** Adds a key; None when it is already there. A key past its expiry is dropped again. */
  function AddKey(st: Loader, k: Str, v: Val, now: int): Option<Loader> {
    var s := Slot(st.db, k);
    if s in st.data then None
    else
      var e := Entry(v, if st.expire == -1 then None else Some(st.expire));
      Some(Loader(st.db, -1, if Gone(e, now) then st.data else st.data[s := e]))
  }

  /** The loop of rdbLoad; None where it gives up. */
  function LoadRecords(s: Str, st: Loader, now: int): Option<Data>
    decreases |s|
  {
    if s == [] then None
    else if s[0] == EXPIRETIME then
      var t := LoadTime(s[1..]);
      if t.Eof? || t.value == -1 || t.rest == [] then None
      else LoadRecord(t.rest, st.(expire := t.value), now)
    else LoadRecord(s, st, now)
  }

  function LoadRecord(s: Str, st: Loader, now: int): Option<Data>
    requires s != []
    decreases |s|, 0
  {
    if s[0] == EOF then Some(st.data)
    else if s[0] == SELECTDB then
      var l := LoadLen(s[1..]);
      if l.Eof? || l.value.n == LENERR || l.value.n >= DBNUM then None
      else LoadRecords(l.rest, st.(db := l.value.n), now)
    else
      var k := LoadString(s[1..]);
      if k.Eof? then None
      else
        var v := LoadObject(s[0], k.rest);
        if v.Eof? then None
        else
          var st' := AddKey(st, k.value, v.value, now);
          if st'.None? then None else LoadRecords(v.rest, st'.value, now)
  }

  /** "REDIS0001" */
  const HEADER: Str := [82, 69, 68, 73, 83, 48, 48, 48, 49]

  /** rdbLoad at time `now`. */
  function LoadFile(s: Str, now: int): Option<Data> {
    if |s| < 9 || s[..5] != HEADER[..5] || LeadingInt(s[5..9]) != 1 then None
    else LoadRecords(s[9..], Loader(0, -1, map[]), now)
  }
}
