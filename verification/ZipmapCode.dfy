/** The functions of redis-1.3.6/zipmap.c on the buffer itself. */
module ZipmapCode {
  import opened Bytes
  import opened ZipmapFormat
  import opened ZipmapMeaning

  const FRAGMENTED: nat := 1

  function Fragmented(status: byte): byte { if status % 2 == 0 then status + FRAGMENTED else status }

  /** Empty blocks are announced by the status byte. */
  ghost predicate Announced(status: byte, items: seq<Item>) {
    forall x :: x in items && x.Hole? ==> status % 2 == 1
  }

  ghost predicate Holds(zm: Str, items: seq<Item>) {
    && ItemsOk(items) && 2 <= |zm| < LIMIT
    && zm == Buffer(zm[0], items) && Announced(zm[0], items)
  }

  lemma {:induction false} FlatSizes(items: seq<Item>)
    requires ItemsOk(items) && |Flat(items)| < LIMIT
    ensures Sized(items)
    decreases |items|
  {
    hide ItemBytes;
    if items != [] {
      FlatSizes(items[1..]);
      forall x | x in items ensures |ItemBytes(x)| < LIMIT { assert x == items[0] || x in items[1..]; }
    }
  }

  /** What is at the offset of item `i`. */
  lemma ReadItem(zm: Str, items: seq<Item>, i: nat)
    requires Holds(zm, items) && i < |items|
    ensures var p := Offset(items, i);
      p < |zm| && zm[p] != END && Offset(items, i + 1) == p + |ItemBytes(items[i])| < |zm|
    ensures items[i].Hole? ==> ReadsHole(zm, Offset(items, i), items[i].len)
    ensures items[i].Entry? ==> ReadsEntry(zm, Offset(items, i), items[i])
  {
    hide ItemBytes, Flat, CanDecode, DecodeLength, Buffer, Offset;
    assert items[i] in items;
    ItemAt(zm[0], items, i);
    var p, rest := Offset(items, i), Flat(items[i + 1..]) + [END];
    FirstByte(zm, p, items[i], rest);
    match items[i]
    case Hole(n, junk) => HoleRead(zm, p, n, junk, rest);
    case Entry(k, v, t) =>
      EntryRead(zm, p, k, v, t, rest);
      EntryParts(zm, p, k, v, t, rest);
  }

  lemma FirstByte(zm: Str, p: nat, x: Item, rest: Str)
    requires ItemOk(x) && p < |zm| && zm[p..] == ItemBytes(x) + rest
    ensures zm[p] == ItemBytes(x)[0]
    ensures x.Hole? ==> zm[p] == EMPTY
    ensures x.Entry? ==> zm[p] < EMPTY
  {
    var b := ItemBytes(x);
    assert |b| > 0 && (b + rest)[0] == b[0];
    assert zm[p..][0] == zm[p];
  }

  ghost predicate ReadsHole(zm: Str, p: nat, n: nat) {
    p < |zm| && zm[p] == EMPTY && CanDecode(zm, p + 1) && DecodeLength(zm, p + 1) == n
  }

  ghost predicate ReadsEntry(zm: Str, p: nat, x: Item)
    requires x.Entry? && ItemOk(x)
  {
    && CanRead(zm, p) && zm[p] < EMPTY && DecodeLength(zm, p) == |x.key|
    && RawEntryLength(zm, p) == |ItemBytes(x)|
    && var a := p + LenBytes(|x.key|);
      var q := a + |x.key|;
      var b := q + LenBytes(|x.val|) + 1;
      && RawKeyLength(zm, p) == q - p && DecodeLength(zm, q) == |x.val|
      && RawValueLength(zm, q) == LenBytes(|x.val|) + 1 + |x.val| + |x.trail|
      && b + |x.val| <= |zm| && zm[a..q] == x.key && zm[b..b + |x.val|] == x.val
      && zm[p + 1..p + 1 + |x.key|] == (EncodeLength(|x.key|) + x.key)[1..1 + |x.key|]
  }

  lemma ReadEnd(zm: Str, items: seq<Item>)
    requires Holds(zm, items)
    ensures Offset(items, |items|) == |zm| - 1 && zm[|zm| - 1] == END
  {
    hide Flat;
    assert items[..|items|] == items;
  }

  lemma Start(items: seq<Item>)
    requires ItemsOk(items)
    ensures Offset(items, 0) == 1
  {
    assert items[..0] == [];
  }

  // ---------------------------------------------------------------- pieces of the buffer

  /** The buffer around the block of item `i`. */
  lemma Around(status: byte, items: seq<Item>, i: nat)
    requires ItemsOk(items) && i < |items|
    ensures var a := [status] + Flat(items[..i]); var c := Flat(items[i + 1..]) + [END];
      Buffer(status, items) == a + ItemBytes(items[i]) + c && |a| == Offset(items, i)
  {
    hide ItemBytes, Flat;
    var x, y, z := items[..i], [items[i]], items[i + 1..];
    assert items == x + (y + z);
    FlatConcat(x, y + z);
    FlatConcat(y, z);
    FlatOne(items[i]);
    var s, f, b, g, e := [status], Flat(x), ItemBytes(items[i]), Flat(z), [END];
    assert s + (f + (b + g)) + e == (s + f) + b + (g + e);
  }

  lemma Rebuilt(status: byte, x: seq<Item>, y: seq<Item>, z: seq<Item>)
    requires ItemsOk(x) && ItemsOk(y) && ItemsOk(z)
    ensures Buffer(status, x + y + z) == ([status] + Flat(x)) + Flat(y) + (Flat(z) + [END])
  {
    hide ItemBytes, Flat;
    FlatConcat(x + y, z);
    FlatConcat(x, y);
    var s, f, b, g, e := [status], Flat(x), Flat(y), Flat(z), [END];
    assert s + ((f + b) + g) + e == (s + f) + b + (g + e);
  }

  /** Writing the announcing status. */
  lemma StatusWrite(status: byte, f: Str, m: Str, c: Str, to: byte)
    ensures ([status] + f + m + c)[0] == status
    ensures [to] + ([status] + f + m + c)[1..] == ([to] + f) + m + c
  {
    var zm := [status] + f + m + c;
    assert zm == [status] + (f + m + c);
    assert zm[1..] == f + m + c;
    assert [to] + (f + m + c) == ([to] + f) + m + c;
  }

  // ---------------------------------------------------------------- the structure

  /** The key's own entry has room for so many bytes, or an empty block has. */
  ghost predicate HasRoom(items: seq<Item>, k: Str, req: nat)
    requires ItemsOk(items)
  {
    var i := FindFrom(items, 0, k);
    (i < |items| && |ItemBytes(items[i])| >= req) || FitFrom(items, 0, req) < |items|
  }

  class Zipmap {
    var zm: Str
    ghost var items: seq<Item>

    ghost predicate Valid()
      reads this
    {
      Holds(zm, items)
    }

    /** zipmapNew. */
    constructor ()
      ensures Valid() && items == []
    {
      zm, items := [0, END], [];
      new;
      assert Buffer(0, []) == [0, END];
    }

    /** zipmapLookupRaw: the entry of the key; if there is none, the size of the buffer and the
        first empty block that has room for the bytes asked for. */
    method LookupRaw(key: Str, want: nat) returns (p: Option<nat>, total: nat, freeoff: nat, freelen: nat)
      requires Valid()
      modifies this`zm
      ensures zm == old(zm)
      ensures var f := FindFrom(items, 0, key);
        p == if f < |items| then Some(Offset(items, f)) else None
      ensures p.None? ==> total == |zm|
      ensures p.None? && want > 0 ==>
        var f := FitFrom(items, 0, want);
        if f < |items| then freelen == items[f].len >= want && freeoff == Offset(items, f) else freelen == 0
    {
      hide Holds, Offset, FindFrom, FitFrom, ReadsEntry, Hit, DecodeLength, CanDecode,
           ItemBytes, Fit, ItemOk, Fragmented;
      total, freeoff, freelen := 0, 0, 0;
      var q := 1;
      ghost var i := 0;
      OkItems(zm, items);
      Start(items);
      FitStart(items, want);
      while true
        invariant i <= |items| && ItemsOk(items) && Holds(zm, items) && zm == old(zm)
        invariant q == Offset(items, i)
        invariant FindFrom(items, i, key) == FindFrom(items, 0, key)
        invariant want > 0 ==> Fit(items, i, want, freelen, freeoff)
        decreases |items| - i
      {
        if i < |items| {
          ReadItem(zm, items, i);
          EntryNotEmpty(zm, items, i);
          HoleAt(items, i);
          FindStep(items, i, key);
        } else {
          ReadEnd(zm, items);
          FindEnd(items, key);
        }
        if zm[q] == END { break; }
        assert i < |items|;
        if zm[q] == EMPTY {
          var l := DecodeLength(zm, q + 1);
          ghost var before, freeoff0 := freelen, freeoff;
          if want > 0 && l >= want && freelen == 0 {
            freelen := l;
            freeoff := q;
          }
          q := q + l;
          if want > 0 { FitHole(items, i, want, before, freeoff0, q - l); }
          Announces(zm, items, i);
          zm := [Fragmented(zm[0])] + zm[1..];
        } else {
          EntrySteps(zm, q, items[i], key);
          var l := DecodeLength(zm, q);
          if l == |key| && zm[q + 1..q + 1 + l] == key {
            p := Some(q);
            return;
          }
          q := q + LenBytes(l) + l;
          l := DecodeLength(zm, q);
          q := q + LenBytes(l);
          var free := zm[q];
          q := q + l + 1 + free;
          if want > 0 { FitEntry(items, i, want, freelen, freeoff); }
        }
        i := i + 1;
      }
      p := None;
      total := q + 1;
      if want > 0 { FitDone(items, want, freelen, freeoff); }
    }

    method RawSizes(q: nat, ghost i: nat) returns (l: nat)
      requires Valid() && i < |items| && items[i].Entry? && q == Offset(items, i)
      ensures l == |ItemBytes(items[i])|
    {
      hide Holds, Offset;
      OkItems(zm, items);
      ReadItem(zm, items, i);
      l := RawEntryLength(zm, q);
    }

    /** Marks the entry at `p`, of `len` bytes, as an empty block. */
    method MarkFree(p: nat, len: nat, ghost i: nat)
      requires Valid() && i < |items| && items[i].Entry? && p == Offset(items, i)
      requires len == |ItemBytes(items[i])| < LIMIT
      modifies this
      ensures Valid() && items == Release(old(items), i) && |zm| == old(|zm|)
    {
      hide Flat, ItemBytes, EncodeLength, Entries, Write;
      ghost var block := ItemBytes(items[i]);
      ghost var a, c := [zm[0]] + Flat(items[..i]), Flat(items[i + 1..]) + [END];
      Around(zm[0], items, i);
      FreedBytes(block);
      WriteIn(zm, p, a, block, c, [EMPTY] + EncodeLength(len));
      ghost var m := ItemBytes(Freed(block));
      StatusWrite(zm[0], Flat(items[..i]), m, c, Fragmented(zm[0]));
      FlatOne(Freed(block));
      Rebuilt(Fragmented(zm[0]), items[..i], [Freed(block)], items[i + 1..]);
      zm := Write(zm, p, [EMPTY] + EncodeLength(len));
      zm := [Fragmented(zm[0])] + zm[1..];
      items := Release(items, i);
    }

    /** Writes the entry into a block of `freelen` bytes at `p`; `f` precedes the block and `c`
        follows it. Unused room of more than five bytes becomes an empty block. */
    method Fill(p: nat, freelen: nat, k: Str, v: Str, ghost f: Str, ghost block: Str, ghost c: Str)
      requires |zm| > 0 && zm == [zm[0]] + f + block + c && p == 1 + |f| && freelen == |block| < LIMIT
      requires |k| < LIMIT && |v| < LIMIT && Required(|k|, |v|) <= freelen
      modifies this`zm
      ensures |zm| == old(|zm|)
      ensures var st := if freelen - Required(|k|, |v|) > MAX_FREE then Fragmented(old(zm[0])) else old(zm[0]);
        zm[0] == st && zm == [st] + f + Flat(Reused(block, k, v)) + c
    {
      hide Flat, ItemBytes, EncodeLength, Write, Reused, EntryHead, Freed;
      var req := Required(|k|, |v|);
      var empty := freelen - req;
      ghost var st, rest := zm[0], block[req..];
      assert zm == ([st] + f) + block + c;
      ReusedBytes(block, k, v);
      if empty > MAX_FREE {
        ghost var h := [EMPTY] + EncodeLength(empty);
        FreedBytes(rest);
        WriteTwice([st] + f, block, c, req, h);
        SplitBlock(block, req, h);
        zm := Write(zm, p + req, [EMPTY] + EncodeLength(empty));
        StatusWrite(st, f, block[..req] + ItemBytes(Freed(rest)), c, Fragmented(st));
        zm := [Fragmented(zm[0])] + zm[1..];
        OverHead([Fragmented(st)] + f, block[..req], ItemBytes(Freed(rest)), c, EntryHead(k, v, 0));
        zm := Write(zm, p, EntryHead(k, v, 0));
      } else {
        WriteIn(zm, p, [st] + f, block, c, EntryHead(k, v, empty));
        zm := Write(zm, p, EntryHead(k, v, empty));
      }
    }

    /** zipmapSet; returns whether the key was there. */
    method Set(k: Str, v: Str) returns (update: bool)
      requires Valid() && |zm| + Required(|k|, |v|) < LIMIT
      modifies this
      decreases Entries(items)
      ensures old(ItemsOk(items) && Sized(items))
      ensures Valid() && items == SetItems(old(items), k, v) && |zm| <= old(|zm|) + Required(|k|, |v|)
      ensures update == old(FindFrom(items, 0, k) < |items|)
      ensures old(HasRoom(items, k, Required(|k|, |v|))) ==> |zm| == old(|zm|)
    {
      hide Flat, ItemBytes, Entries, Reused, Holds, Buffer, Replace, Release, FindFrom, FitFrom, Offset, Sized;
      AllSized(zm, items);
      var req := Required(|k|, |v|);
      var p, oldlen, freeoff, freelen := LookupRaw(k, req);
      ghost var i, f := FindFrom(items, 0, k), FitFrom(items, 0, req);
      update := p.Some?;
      if p.None? && freelen == 0 {
        Append(oldlen, req, k, v);
      } else if p.None? {
        ItemSized(items, f);
        HoleSize(items[f]);
        FillItem(freeoff, freelen, k, v, f);
      } else {
        freelen := RawSizes(p.value, i);
        ItemSized(items, i);
        if freelen < req {
          if f < |items| { StillFits(items, i, req); }
          MarkFree(p.value, freelen, i);
          var again := Set(k, v);
          return;
        }
        FillItem(p.value, freelen, k, v, i);
      }
    }

    /** The buffer grown by the room of one entry, and the entry written over its old end. */
    method Append(oldlen: nat, req: nat, k: Str, v: Str)
      requires Valid() && oldlen == |zm| && req == Required(|k|, |v|) && oldlen + req < LIMIT
      modifies this
      ensures Valid() && items == old(items) + [Entry(k, v, [])] && |zm| == old(|zm|) + req
    {
      hide Flat, ItemBytes, Reused, EntryHead;
      var room := seq(req, _ => 0);
      zm := zm + room;
      zm := Write(zm, oldlen + req - 1, [END]);
      ghost var st, f, block := zm[0], Flat(items), zm[oldlen - 1..oldlen + req - 1];
      Grown(st, f, room, zm);
      Fill(oldlen - 1, req, k, v, f, block, [END]);
      ReusedExactly(block, k, v);
      assert items + [Entry(k, v, [])] == items + [Entry(k, v, [])] + [];
      assert Flat([]) + [END] == [END] by { FlatNone(); }
      Rebuilt(st, items, [Entry(k, v, [])], []);
      items := items + [Entry(k, v, [])];
    }

    /** Writes the entry into the block of item `i`. */
    method FillItem(p: nat, freelen: nat, k: Str, v: Str, ghost i: nat)
      requires Valid() && i < |items| && |k| < LIMIT && |v| < LIMIT
      requires ItemsOk(items) && p == Offset(items, i) && freelen == |ItemBytes(items[i])| < LIMIT
      requires Required(|k|, |v|) <= freelen
      modifies this
      ensures Valid() && items == Replace(old(items), i, k, v) && |zm| == old(|zm|)
    {
      hide Flat, ItemBytes, Reused, Required;
      ghost var block := ItemBytes(items[i]);
      ghost var f, c := Flat(items[..i]), Flat(items[i + 1..]) + [END];
      ghost var st := zm[0];
      Around(st, items, i);
      Fill(p, freelen, k, v, f, block, c);
      Rebuilt(zm[0], items[..i], Reused(block, k, v), items[i + 1..]);
      FillAnnounced(st, items, i, block, k, v);
      items := Replace(items, i, k, v);
    }

    /** zipmapDel; returns whether the key was there. */
    method Del(k: Str) returns (deleted: bool)
      requires Valid()
      modifies this
      ensures Valid() && old(ItemsOk(items) && Sized(items)) && |zm| == old(|zm|)
      ensures deleted == old(FindFrom(items, 0, k) < |items|)
      ensures items == old(DelItems(items, k))
    {
      hide Flat, ItemBytes, Entries, Holds, Buffer, Release, FindFrom, Offset, Sized;
      AllSized(zm, items);
      var p, _, _, _ := LookupRaw(k, 0);
      deleted := p.Some?;
      if deleted {
        ghost var i := FindFrom(items, 0, k);
        var freelen := RawSizes(p.value, i);
        ItemSized(items, i);
        MarkFree(p.value, freelen, i);
      }
    }

    /** zipmapGet. */
    method Get(k: Str) returns (v: Option<Str>)
      requires Valid()
      modifies this`zm
      ensures zm == old(zm)
      ensures var f := FindFrom(items, 0, k); v == if f < |items| then Some(items[f].val) else None
    {
      hide Flat, ItemBytes, Holds, Buffer, FindFrom, Offset;
      OkItems(zm, items);
      var p, _, _, _ := LookupRaw(k, 0);
      if p.None? { return None; }
      ReadItem(zm, items, FindFrom(items, 0, k));
      var q := p.value + RawKeyLength(zm, p.value);
      var l := DecodeLength(zm, q);
      var b := q + LenBytes(l) + 1;
      v := Some(zm[b..b + l]);
    }

    method SkipEmpty(p: nat, ghost i: nat) returns (q: nat, ghost j: nat)
      requires Valid() && i <= |items| && p == Offset(items, i)
      ensures j == NextEntry(items, i) && q == Offset(items, j) < |zm|
      ensures zm[q] == END <==> j == |items|
    {
      hide ItemBytes, Holds, NextEntry, Offset, ReadsEntry, CanDecode, DecodeLength, ItemOk;
      q, j := p, i;
      OkItems(zm, items);
      while true
        invariant i <= j <= |items| && q == Offset(items, j) && NextEntry(items, j) == NextEntry(items, i)
        decreases |items| - j
      {
        if j < |items| { ReadItem(zm, items, j); EntryNotEmpty(zm, items, j); } else { ReadEnd(zm, items); }
        NextStep(items, j);
        if zm[q] != EMPTY { break; }
        q := q + DecodeLength(zm, q + 1);
        HoleAt(items, j);
        j := j + 1;
      }
    }

    /** zipmapNext from the offset of item `i`: the next entry, and where to go on. */
    method Next(p: nat, ghost i: nat) returns (r: Option<(Str, Str)>, q: nat, ghost j: nat)
      requires Valid() && i <= |items| && p == Offset(items, i)
      ensures j == NextEntry(items, i)
      ensures r == if j < |items| then Some((items[j].key, items[j].val)) else None
      ensures j < |items| ==> q == Offset(items, j + 1)
    {
      hide ItemBytes, Holds, NextEntry, Offset, CanDecode, DecodeLength, ItemOk, EncodeLength;
      q, j := SkipEmpty(p, i);
      if zm[q] == END { return None, q, j; }
      OkItems(zm, items);
      ReadItem(zm, items, j);
      var l := DecodeLength(zm, q);
      var a := q + LenBytes(l);
      var m := q + RawKeyLength(zm, q);
      var n := DecodeLength(zm, m);
      var b := m + 1 + LenBytes(n);
      r := Some((zm[a..a + l], zm[b..b + n]));
      q := m + RawValueLength(zm, m);
    }

    /** zipmapLen. */
    method Len() returns (n: nat)
      requires Valid()
      ensures n == Entries(items)
    {
      hide Flat, ItemBytes, Holds, Buffer, NextEntry, Offset, Entries;
      OkItems(zm, items);
      Start(items);
      assert items[0..] == items;
      var p := 1;
      ghost var i := 0;
      n := 0;
      while true
        invariant i <= |items| && p == Offset(items, i) && n + Entries(items[i..]) == Entries(items)
        decreases |items| - i
      {
        ghost var j;
        var r;
        r, p, j := Next(p, i);
        CountNext(items, i);
        if r.None? { break; }
        n := n + 1;
        i := j + 1;
      }
    }
  }

  /** The first entry from `i` on. */
  ghost function NextEntry(items: seq<Item>, i: nat): (j: nat)
    requires i <= |items|
    ensures i <= j <= |items| && (j < |items| ==> items[j].Entry?)
    decreases |items| - i
  {
    if i == |items| || items[i].Entry? then i else NextEntry(items, i + 1)
  }

  lemma EntryNotEmpty(zm: Str, items: seq<Item>, j: nat)
    requires ItemsOk(items) && j < |items| && (items[j].Entry? ==> ReadsEntry(zm, Offset(items, j), items[j]))
    ensures items[j].Entry? ==> Offset(items, j) < |zm| && zm[Offset(items, j)] < EMPTY
  {
    hide ItemBytes, Offset, DecodeLength;
  }

  lemma HoleAt(items: seq<Item>, j: nat)
    requires ItemsOk(items) && j < |items|
    ensures items[j].Hole? ==> |ItemBytes(items[j])| == items[j].len
  {
    assert items[j] in items;
  }

  lemma NextStep(items: seq<Item>, i: nat)
    requires i <= |items|
    ensures NextEntry(items, i) == if i < |items| && items[i].Hole? then NextEntry(items, i + 1) else i
  {
  }

  /** Skipping to the next entry skips no entry. */
  lemma {:induction false} CountNext(items: seq<Item>, i: nat)
    requires i <= |items|
    ensures var j := NextEntry(items, i);
      Entries(items[i..]) == if j < |items| then 1 + Entries(items[j + 1..]) else 0
    decreases |items| - i
  {
    if i < |items| {
      assert items[i..][1..] == items[i + 1..];
      if items[i].Hole? { CountNext(items, i + 1); }
    }
  }

  function DelItems(items: seq<Item>, k: Str): (r: seq<Item>)
    requires ItemsOk(items) && Sized(items)
    ensures ItemsOk(r)
  {
    var i := FindFrom(items, 0, k);
    if i < |items| then assert items[i] in items; Release(items, i) else items
  }

  lemma AllSized(zm: Str, items: seq<Item>)
    requires Holds(zm, items)
    ensures ItemsOk(items) && Sized(items)
  {
    hide ItemBytes, Flat;
    FlatSizes(items);
  }

  lemma ItemSized(items: seq<Item>, i: nat)
    requires ItemsOk(items) && Sized(items) && i < |items|
    ensures |ItemBytes(items[i])| < LIMIT
  {
    assert items[i] in items;
  }

  lemma FlatNone()
    ensures Flat([]) == []
  {
  }

  lemma SplitBlock(block: Str, req: nat, h: Str)
    requires req + |h| <= |block|
    ensures block[..req] + h + block[req + |h|..] == block[..req] + (h + block[req..][|h|..])
  {
  }

  lemma OverHead(a: Str, was: Str, tail: Str, c: Str, head: Str)
    requires |was| == |head|
    ensures Write(a + (was + tail) + c, |a|, head) == a + (head + tail) + c
  {
    WriteIn(a + (was + tail) + c, |a|, a, was + tail, c, head);
    assert (was + tail)[|head|..] == tail;
  }

  lemma Grown(st: byte, f: Str, room: Str, zm: Str)
    requires |room| > 0
    requires zm == Write([st] + f + [END] + room, |f| + 1 + |room|, [END])
    ensures zm[0] == st && |zm| == |f| + 2 + |room|
    ensures zm == [st] + f + zm[1 + |f|..1 + |f| + |room|] + [END]
  {
    assert zm[..1 + |f|] == [st] + f;
    assert zm[1 + |f| + |room|..] == [END];
  }

  lemma ReusedExactly(block: Str, k: Str, v: Str)
    requires |k| < LIMIT && |v| < LIMIT && Required(|k|, |v|) == |block| < LIMIT
    ensures Reused(block, k, v) == [Entry(k, v, [])] && ItemOk(Entry(k, v, []))
  {
    assert block[|block|..] == [];
  }

  lemma FillAnnounced(status: byte, items: seq<Item>, i: nat, block: Str, k: Str, v: Str)
    requires ItemsOk(items) && i < |items| && Announced(status, items)
    requires |k| < LIMIT && |v| < LIMIT && Required(|k|, |v|) <= |block| < LIMIT
    ensures var st := if |block| - Required(|k|, |v|) > MAX_FREE then Fragmented(status) else status;
      Announced(st, items[..i] + Reused(block, k, v) + items[i + 1..])
  {
  }

  lemma OkItems(zm: Str, items: seq<Item>)
    requires Holds(zm, items)
    ensures ItemsOk(items) && |zm| >= 2
  {
  }

  /** The best empty block seen before item `i`. */
  ghost predicate Fit(items: seq<Item>, i: nat, want: nat, freelen: nat, freeoff: nat)
    requires ItemsOk(items) && i <= |items|
  {
    var f := FitFrom(items, 0, want);
    if freelen == 0 then FitFrom(items, i, want) == f
    else f < i && freelen == items[f].len >= want && freeoff == Offset(items, f)
  }

  lemma FindStep(items: seq<Item>, i: nat, key: Str)
    requires ItemsOk(items) && i < |items|
    ensures items[i].Hole? ==> !Hit(items[i], key)
    ensures Hit(items[i], key) ==> FindFrom(items, i, key) == i
    ensures !Hit(items[i], key) ==> FindFrom(items, i, key) == FindFrom(items, i + 1, key)
  {
  }

  lemma FindEnd(items: seq<Item>, key: Str)
    requires ItemsOk(items)
    ensures FindFrom(items, |items|, key) == |items|
  {
  }

  lemma FitHole(items: seq<Item>, i: nat, want: nat, freelen: nat, freeoff: nat, q: nat)
    requires ItemsOk(items) && i < |items| && items[i].Hole? && want > 0 && q == Offset(items, i)
    requires Fit(items, i, want, freelen, freeoff)
    ensures if items[i].len >= want && freelen == 0 then Fit(items, i + 1, want, items[i].len, q)
      else Fit(items, i + 1, want, freelen, freeoff)
  {
    hide Offset;
  }

  lemma FitEntry(items: seq<Item>, i: nat, want: nat, freelen: nat, freeoff: nat)
    requires ItemsOk(items) && i < |items| && items[i].Entry? && Fit(items, i, want, freelen, freeoff)
    ensures Fit(items, i + 1, want, freelen, freeoff)
  {
    hide Offset;
  }

  lemma FitDone(items: seq<Item>, want: nat, freelen: nat, freeoff: nat)
    requires ItemsOk(items) && Fit(items, |items|, want, freelen, freeoff)
    ensures var f := FitFrom(items, 0, want);
      if f < |items| then freelen == items[f].len >= want && freeoff == Offset(items, f) else freelen == 0
  {
    hide Offset;
  }

  lemma FitStart(items: seq<Item>, want: nat)
    requires ItemsOk(items)
    ensures Fit(items, 0, want, 0, 0)
  {
  }

  lemma Announces(zm: Str, items: seq<Item>, i: nat)
    requires Holds(zm, items) && i < |items| && items[i].Hole?
    ensures [Fragmented(zm[0])] + zm[1..] == zm
  {
    hide Buffer;
    assert items[i] in items;
    assert zm == [zm[0]] + zm[1..];
  }

  lemma EntrySteps(zm: Str, q: nat, x: Item, key: Str)
    requires x.Entry? && ItemOk(x) && ReadsEntry(zm, q, x)
    ensures CanDecode(zm, q) && CanDecode(zm, q + LenBytes(|x.key|) + |x.key|)
    ensures var r := q + LenBytes(|x.key|) + |x.key|;
      DecodeLength(zm, q) == |x.key| && DecodeLength(zm, r) == |x.val| && r + LenBytes(|x.val|) < |zm|
      && r + LenBytes(|x.val|) + |x.val| + 1 + zm[r + LenBytes(|x.val|)] == q + |ItemBytes(x)|
    ensures q + 1 + |x.key| <= |zm| && (Hit(x, key) <==> |x.key| == |key| && zm[q + 1..q + 1 + |x.key|] == key)
  {
    hide ItemBytes, DecodeLength, CanDecode, EncodeLength;
  }

  // ---------------------------------------------------------------- against a map

  /** On short keys, deleting a key removes it from the map. */
  lemma DelRefines(items: seq<Item>, k: Str)
    requires ItemsOk(items) && Sized(items) && Distinct(items) && Short(items) && |k| < BIGLEN
    ensures var r := DelItems(items, k);
      Distinct(r) && Short(r) && Contents(r) == Contents(items) - {k}
  {
    hide Contents, ItemBytes, Distinct, Short, Release;
    FindRefines(items, k);
    var i := FindFrom(items, 0, k);
    if i < |items| {
      ItemSized(items, i);
      ReleaseRefines(items, i, k);
    }
  }

  /** The number of entries is the size of the map. */
  lemma {:induction false} EntriesAreContents(items: seq<Item>)
    requires Distinct(items)
    ensures |Contents(items)| == Entries(items)
    decreases |items|
  {
    if items != [] {
      var t := items[1..];
      EntriesAreContents(t);
      if items[0].Entry? {
        var k := items[0].key;
        InContents(t, k);
        assert forall i :: 0 <= i < |t| ==> t[i] == items[i + 1];
        assert k !in Contents(t);
        assert Contents(items).Keys == Contents(t).Keys + {k};
      }
    }
  }

  datatype Op = Put(k: Str, v: Str) | Remove(k: Str)

  ghost predicate OpOk(op: Op) { |op.k| < BIGLEN && (op.Put? ==> |op.v| < LIMIT) }

  function Do(items: seq<Item>, op: Op): (r: seq<Item>)
    requires ItemsOk(items) && Sized(items) && |op.k| < LIMIT && (op.Put? ==> |op.v| < LIMIT)
    ensures ItemsOk(r)
  {
    match op
    case Put(k, v) => SetItems(items, k, v)
    case Remove(k) => DelItems(items, k)
  }

  function Apply(m: map<Str, Str>, op: Op): map<Str, Str> {
    match op
    case Put(k, v) => m[k := v]
    case Remove(k) => m - {k}
  }

  /** The buffer stays below four gigabytes all along. */
  ghost predicate Fits(items: seq<Item>, ops: seq<Op>)
    decreases |ops|
  {
    && ItemsOk(items) && Sized(items)
    && (ops == [] || (OpOk(ops[0]) && Fits(Do(items, ops[0]), ops[1..])))
  }

  ghost function DoAll(items: seq<Item>, ops: seq<Op>): (r: seq<Item>)
    requires Fits(items, ops)
    ensures ItemsOk(r)
    decreases |ops|
  {
    if ops == [] then items else DoAll(Do(items, ops[0]), ops[1..])
  }

  function ApplyAll(m: map<Str, Str>, ops: seq<Op>): map<Str, Str>
    decreases |ops|
  {
    if ops == [] then m else ApplyAll(Apply(m, ops[0]), ops[1..])
  }

  /** Any sequence of operations on short keys: the entries are the map, no key is there twice,
      and every lookup answers from the map. */
  lemma {:induction false} RunRefines(items: seq<Item>, ops: seq<Op>, key: Str)
    requires Distinct(items) && Short(items) && Fits(items, ops) && |key| < BIGLEN
    ensures var r := DoAll(items, ops); var m := ApplyAll(Contents(items), ops); var f := FindFrom(r, 0, key);
      && Distinct(r) && Contents(r) == m && Entries(r) == |m|
      && (f < |r| <==> key in m) && (f < |r| ==> r[f].val == m[key])
    decreases |ops|
  {
    hide Contents, Distinct, Short, SetItems, DelItems, Entries, FindFrom, Sized, ItemOk;
    if ops == [] {
      FindRefines(items, key);
      EntriesAreContents(items);
    } else {
      match ops[0] {
        case Put(k, v) => SetRefines(items, k, v);
        case Remove(k) => DelRefines(items, k);
      }
      RunRefines(Do(items, ops[0]), ops[1..], key);
    }
  }

  /** A key of 253 bytes is set and not found. */
  lemma LongKeyLost(items: seq<Item>, v: Str)
    requires ItemsOk(items) && Sized(items) && Distinct(items) && Short(items) && |v| < LIMIT
    ensures var k := seq(253, _ => 97);
      var r := SetItems(items, k, v); FindFrom(r, 0, k) == |r|
  {
    hide Contents, Distinct, Short, SetItems, FindFrom, Sized, ItemOk;
    var k: Str := seq(253, _ => 97);
    SetThenGet(items, k, v);
    assert (Le32(253) + k[..249])[0] == 253 != k[0];
  }
}
