/** The byte layout of redis-1.3.6/zipmap.c: a status byte, entries and empty blocks, and 255. */
module ZipmapFormat {
  import opened Bytes

  type Str = seq<byte>

  const BIGLEN: nat := 253
  const EMPTY: byte := 254
  const END: byte := 255
  const MAX_FREE: nat := 5
  const LIMIT: nat := 0x1_0000_0000

  // ---------------------------------------------------------------- lengths

  function FromLe32(s: Str): nat
    requires |s| >= 4
  {
    var a: nat, b: nat, c: nat, d: nat := s[0], s[1], s[2], s[3];
    a + 256 * b + 65536 * c + 16777216 * d
  }

  lemma Le32Back(n: nat)
    requires n < LIMIT
    ensures FromLe32(Le32(n)) == n
  {
    var a, b, c := n / 256, n / 65536, n / 16777216;
    assert b == a / 256 && c == b / 256;
    assert c % 256 == c;
  }

  /** zipmapEncodeLength with a null pointer. */
  function LenBytes(n: nat): nat { if n < BIGLEN then 1 else 5 }

  function EncodeLength(n: nat): (s: Str)
    requires n < LIMIT
    ensures |s| == LenBytes(n)
  {
    if n < BIGLEN then [n] else [BIGLEN] + Le32(n)
  }

  predicate CanDecode(zm: Str, p: nat) {
    p < |zm| && (zm[p] >= BIGLEN ==> p + 5 <= |zm|)
  }

  function DecodeLength(zm: Str, p: nat): nat
    requires CanDecode(zm, p)
  {
    if zm[p] < BIGLEN then zm[p] else FromLe32(zm[p + 1..])
  }

  /** A length read where it was written. */
  lemma DecodeBack(zm: Str, p: nat, n: nat, rest: Str)
    requires n < LIMIT && p <= |zm| && zm[p..] == EncodeLength(n) + rest
    ensures CanDecode(zm, p) && DecodeLength(zm, p) == n
  {
    var t := zm[p..];
    assert t[0] == zm[p] && |t| == |zm| - p;
    if n >= BIGLEN {
      assert zm[p + 1..] == t[1..];
      assert t[1..][..4] == Le32(n);
      SamePrefix(t[1..], Le32(n));
      Le32Back(n);
    }
  }

  lemma SamePrefix(t: Str, s: Str)
    requires |s| == 4 && |t| >= 4 && t[..4] == s
    ensures FromLe32(t) == FromLe32(s)
  {
    assert forall i :: 0 <= i < 4 ==> t[i] == t[..4][i];
  }

  // ---------------------------------------------------------------- items

  /** `trail` are the unused bytes counted by the free byte; `len` counts the whole block. */
  datatype Item = Entry(key: Str, val: Str, trail: Str) | Hole(len: nat, junk: Str)

  predicate ItemOk(x: Item) {
    match x
    case Entry(k, v, t) => |k| < LIMIT && |v| < LIMIT && |t| <= MAX_FREE
    case Hole(n, junk) => n < LIMIT && 1 + LenBytes(n) + |junk| == n
  }

  function Required(klen: nat, vlen: nat): nat { klen + vlen + 1 + LenBytes(klen) + LenBytes(vlen) }

  /** Key, value and free byte, before the unused bytes. */
  function EntryHead(k: Str, v: Str, free: byte): (s: Str)
    requires |k| < LIMIT && |v| < LIMIT
    ensures |s| == Required(|k|, |v|)
  {
    EncodeLength(|k|) + k + EncodeLength(|v|) + [free] + v
  }

  function ItemBytes(x: Item): (s: Str)
    requires ItemOk(x)
    ensures x.Hole? ==> |s| == x.len && s[0] == EMPTY
    ensures x.Entry? ==> |s| == Required(|x.key|, |x.val|) + |x.trail| && s[0] < EMPTY
  {
    match x
    case Entry(k, v, t) => EntryHead(k, v, |t|) + t
    case Hole(n, junk) => [EMPTY] + EncodeLength(n) + junk
  }

  predicate ItemsOk(items: seq<Item>) { forall x :: x in items ==> ItemOk(x) }

  function Flat(items: seq<Item>): Str
    requires ItemsOk(items)
  {
    if items == [] then [] else ItemBytes(items[0]) + Flat(items[1..])
  }

  lemma {:induction false} FlatConcat(a: seq<Item>, b: seq<Item>)
    requires ItemsOk(a) && ItemsOk(b)
    ensures ItemsOk(a + b) && Flat(a + b) == Flat(a) + Flat(b)
    decreases |a|
  {
    hide ItemBytes;
    if a == [] {
      assert a + b == b;
    } else {
      assert (a + b)[1..] == a[1..] + b;
      FlatConcat(a[1..], b);
    }
  }

  lemma FlatOne(x: Item)
    requires ItemOk(x)
    ensures Flat([x]) == ItemBytes(x)
  {
    hide ItemBytes;
    var one := [x];
    assert one[1..] == [];
    assert Flat(one) == ItemBytes(x) + [];
  }

  /** The whole buffer. */
  function Buffer(status: byte, items: seq<Item>): Str
    requires ItemsOk(items)
  {
    [status] + Flat(items) + [END]
  }

  /** Where item `i` starts. */
  function Offset(items: seq<Item>, i: nat): nat
    requires ItemsOk(items) && i <= |items|
  {
    1 + |Flat(items[..i])|
  }

  /** From the offset of item `i` on, the buffer holds the items from `i` on. */
  lemma AtOffset(status: byte, items: seq<Item>, i: nat)
    requires ItemsOk(items) && i <= |items|
    ensures var zm := Buffer(status, items); var p := Offset(items, i);
      p < |zm| && zm[p..] == Flat(items[i..]) + [END] && zm[..p] == [status] + Flat(items[..i])
  {
    hide Flat;
    assert items[..i] + items[i..] == items;
    FlatConcat(items[..i], items[i..]);
    var a, b := [status] + Flat(items[..i]), Flat(items[i..]) + [END];
    assert Buffer(status, items) == a + b;
  }

  lemma FirstOf(items: seq<Item>, i: nat)
    requires ItemsOk(items) && i < |items|
    ensures Flat(items[i..]) == ItemBytes(items[i]) + Flat(items[i + 1..])
    ensures Offset(items, i + 1) == Offset(items, i) + |ItemBytes(items[i])|
  {
    hide ItemBytes;
    assert items[i..][1..] == items[i + 1..];
    assert items[..i + 1] == items[..i] + [items[i]];
    FlatConcat(items[..i], [items[i]]);
    FlatOne(items[i]);
  }

  /** Item `i` and what follows it. */
  lemma ItemAt(status: byte, items: seq<Item>, i: nat)
    requires ItemsOk(items) && i < |items|
    ensures var zm := Buffer(status, items); var p := Offset(items, i);
      && p < |zm| && Offset(items, i + 1) == p + |ItemBytes(items[i])| < |zm|
      && zm[p..] == ItemBytes(items[i]) + (Flat(items[i + 1..]) + [END])
  {
    hide ItemBytes, Flat;
    AtOffset(status, items, i);
    FirstOf(items, i);
    var x, t := ItemBytes(items[i]), Flat(items[i + 1..]);
    assert (x + t) + [END] == x + (t + [END]);
  }

  // ---------------------------------------------------------------- reading an entry

  function RawKeyLength(zm: Str, p: nat): nat
    requires CanDecode(zm, p)
  {
    var l := DecodeLength(zm, p);
    LenBytes(l) + l
  }

  predicate CanRead(zm: Str, p: nat) {
    && CanDecode(zm, p) && CanDecode(zm, p + RawKeyLength(zm, p))
    && p + RawKeyLength(zm, p) + LenBytes(DecodeLength(zm, p + RawKeyLength(zm, p))) < |zm|
  }

  function RawValueLength(zm: Str, p: nat): nat
    requires CanDecode(zm, p) && p + LenBytes(DecodeLength(zm, p)) < |zm|
  {
    var l := DecodeLength(zm, p);
    var used := LenBytes(l);
    used + zm[p + used] + 1 + l
  }

  function RawEntryLength(zm: Str, p: nat): nat
    requires CanRead(zm, p)
  {
    var l := RawKeyLength(zm, p);
    l + RawValueLength(zm, p + l)
  }

  /** The parts of an entry are found by following its lengths. */
  lemma EntryRead(zm: Str, p: nat, k: Str, v: Str, t: Str, rest: Str)
    requires ItemOk(Entry(k, v, t)) && p <= |zm| && zm[p..] == ItemBytes(Entry(k, v, t)) + rest
    ensures CanRead(zm, p) && DecodeLength(zm, p) == |k|
    ensures var q := p + RawKeyLength(zm, p);
      DecodeLength(zm, q) == |v| && RawValueLength(zm, q) == LenBytes(|v|) + 1 + |v| + |t|
    ensures RawEntryLength(zm, p) == |ItemBytes(Entry(k, v, t))|
  {
    hide EncodeLength, DecodeLength, CanDecode;
    var e, f, m := EncodeLength(|k|), EncodeLength(|v|), [|t|] + (v + t + rest);
    assert [|t|] + v + t + rest == m;
    EntrySplit(k, v, t, rest);
    DecodeBack(zm, p, |k|, k + (f + m));
    Suffix(zm, p, e, k + (f + m));
    Suffix(zm, p + |e|, k, f + m);
    ValueRead(zm, p + |e| + |k|, |v|, |t|, v + t + rest);
  }

  lemma Suffix(zm: Str, p: nat, a: Str, b: Str)
    requires p <= |zm| && zm[p..] == a + b
    ensures p + |a| <= |zm| && zm[p + |a|..] == b
  {
    assert |zm[p..]| == |zm| - p;
    assert zm[p..][|a|..] == zm[p + |a|..];
    assert (a + b)[|a|..] == b;
  }

  lemma ValueRead(zm: Str, q: nat, n: nat, free: byte, tail: Str)
    requires n < LIMIT && q <= |zm| && zm[q..] == EncodeLength(n) + ([free] + tail)
    ensures CanDecode(zm, q) && DecodeLength(zm, q) == n
    ensures q + LenBytes(n) < |zm| && RawValueLength(zm, q) == LenBytes(n) + 1 + n + free
  {
    hide EncodeLength, DecodeLength, CanDecode;
    DecodeBack(zm, q, n, [free] + tail);
    Suffix(zm, q, EncodeLength(n), [free] + tail);
    var r := q + LenBytes(n);
    assert |zm[r..]| == |zm| - r;
    assert zm[r..][0] == zm[r];
  }

  lemma EntrySplit(k: Str, v: Str, t: Str, rest: Str)
    requires ItemOk(Entry(k, v, t))
    ensures ItemBytes(Entry(k, v, t)) + rest ==
      EncodeLength(|k|) + (k + (EncodeLength(|v|) + ([|t|] + v + t + rest)))
  {
    hide EncodeLength;
    var e, f, g := EncodeLength(|k|), EncodeLength(|v|), [|t|];
    Assoc(e, k, f);
    Assoc(e, k + f, g);
    Assoc(e, k + f + g, v);
    Assoc(e, k + f + g + v, t);
    Assoc(e, k + f + g + v + t, rest);
    Assoc(k, f, g);
    Assoc(k, f + g, v);
    Assoc(k, f + g + v, t);
    Assoc(k, f + g + v + t, rest);
    Assoc(f, g, v);
    Assoc(f, g + v, t);
    Assoc(f, g + v + t, rest);
  }

  /** The key and the value themselves. */
  lemma EntryParts(zm: Str, p: nat, k: Str, v: Str, t: Str, rest: Str)
    requires ItemOk(Entry(k, v, t)) && p <= |zm| && zm[p..] == ItemBytes(Entry(k, v, t)) + rest
    ensures var a := p + LenBytes(|k|); var b := a + |k| + LenBytes(|v|) + 1;
      && b + |v| <= |zm| && zm[a..a + |k|] == k && zm[b..b + |v|] == v
      && zm[p + 1..p + 1 + |k|] == (EncodeLength(|k|) + k)[1..1 + |k|]
  {
    hide EncodeLength;
    var e, f, tail := EncodeLength(|k|), EncodeLength(|v|), t + rest;
    EntrySplit(k, v, t, rest);
    assert [|t|] + v + t + rest == [|t|] + v + tail;
    var a := LenBytes(|k|);
    var b := a + |k| + LenBytes(|v|) + 1;
    PartsIn(e, k, f, |t|, v, tail);
    Shift(zm, p, a, a + |k|);
    Shift(zm, p, b, b + |v|);
    Shift(zm, p, 1, 1 + |k|);
  }

  lemma PartsIn(e: Str, k: Str, f: Str, free: byte, v: Str, tail: Str)
    requires e != []
    ensures var u := e + (k + (f + ([free] + v + tail))); var b := |e| + |k| + |f| + 1;
      b + |v| <= |u| && u[|e|..|e| + |k|] == k && u[b..b + |v|] == v && u[1..1 + |k|] == (e + k)[1..1 + |k|]
  {
  }

  lemma Shift(zm: Str, p: nat, a: nat, b: nat)
    requires p <= |zm| && a <= b <= |zm| - p
    ensures zm[p..][a..b] == zm[p + a..p + b]
  {
  }

  /** An empty block tells its own size. */
  lemma HoleRead(zm: Str, p: nat, n: nat, junk: Str, rest: Str)
    requires ItemOk(Hole(n, junk)) && p <= |zm| && zm[p..] == ItemBytes(Hole(n, junk)) + rest
    ensures p < |zm| && zm[p] == EMPTY && CanDecode(zm, p + 1) && DecodeLength(zm, p + 1) == n
  {
    hide EncodeLength, DecodeLength, CanDecode;
    var u := ItemBytes(Hole(n, junk)) + rest;
    assert u[1..] == EncodeLength(n) + (junk + rest);
    assert u[0] == EMPTY && zm[p..][0] == zm[p];
    assert zm[p..][1..] == zm[p + 1..];
    DecodeBack(zm, p + 1, n, junk + rest);
  }

  // ---------------------------------------------------------------- writing

  function Write(zm: Str, p: nat, s: Str): (r: Str)
    requires p + |s| <= |zm|
    ensures |r| == |zm|
  {
    zm[..p] + s + zm[p + |s|..]
  }

  /** The bytes of a block, overwritten from its start. */
  lemma WriteIn(zm: Str, p: nat, a: Str, block: Str, c: Str, s: Str)
    requires zm == a + block + c && p == |a| && |s| <= |block|
    ensures Write(zm, p, s) == a + (s + block[|s|..]) + c
  {
    assert zm[..p] == a;
    assert zm[p + |s|..] == block[|s|..] + c;
  }

  lemma WriteTwice(a: Str, block: Str, c: Str, q: nat, s: Str)
    requires q + |s| <= |block|
    ensures Write(a + block + c, |a| + q, s) == a + (block[..q] + s + block[q + |s|..]) + c
  {
    var zm := a + block + c;
    assert zm[..|a| + q] == a + block[..q];
    assert zm[|a| + q + |s|..] == block[q + |s|..] + c;
  }

  // ---------------------------------------------------------------- blocks

  /** A block marked empty: the rest of its bytes stay. */
  function Freed(block: Str): (x: Item)
    requires 3 <= |block| < LIMIT
    ensures ItemOk(x)
  {
    Hole(|block|, block[1 + LenBytes(|block|)..])
  }

  lemma FreedBytes(block: Str)
    requires 3 <= |block| < LIMIT
    ensures var h := [EMPTY] + EncodeLength(|block|);
      |h| <= |block| && ItemBytes(Freed(block)) == h + block[|h|..]
  {
  }

  /** A block reused for an entry: what is left over becomes unused bytes or an empty block. */
  function Reused(block: Str, k: Str, v: Str): (xs: seq<Item>)
    requires |k| < LIMIT && |v| < LIMIT && Required(|k|, |v|) <= |block| < LIMIT
    ensures ItemsOk(xs)
  {
    var req := Required(|k|, |v|);
    if |block| - req > MAX_FREE then [Entry(k, v, []), Freed(block[req..])] else [Entry(k, v, block[req..])]
  }

  lemma ReusedBytes(block: Str, k: Str, v: Str)
    requires |k| < LIMIT && |v| < LIMIT && Required(|k|, |v|) <= |block| < LIMIT
    ensures var req := Required(|k|, |v|); var rest := block[req..];
      Flat(Reused(block, k, v)) ==
        if |rest| > MAX_FREE then EntryHead(k, v, 0) + ItemBytes(Freed(rest)) else EntryHead(k, v, |rest|) + rest
  {
    hide EntryHead, Freed, Flat;
    var rest := block[Required(|k|, |v|)..];
    if |rest| > MAX_FREE {
      FlatConcat([Entry(k, v, [])], [Freed(rest)]);
      FlatOne(Entry(k, v, []));
      FlatOne(Freed(rest));
      assert [Entry(k, v, []), Freed(rest)] == [Entry(k, v, [])] + [Freed(rest)];
      assert EntryHead(k, v, 0) + [] == EntryHead(k, v, 0);
    } else {
      FlatOne(Entry(k, v, rest));
    }
  }
}
