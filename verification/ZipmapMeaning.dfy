/** redis-1.3.6/zipmap.c: a string map kept in one byte buffer. */
module ZipmapMeaning {
  import opened Bytes
  import opened ZipmapFormat

  // ---------------------------------------------------------------- what a lookup finds

  /** zipmapLookupRaw compares the bytes right after the first length byte. */
  predicate RawMatch(stored: Str, key: Str)
    requires |stored| < LIMIT
  {
    |stored| == |key| && (EncodeLength(|stored|) + stored)[1..1 + |stored|] == key
  }

  /** That is the stored key when its length takes one byte; else the comparison starts inside
      the length and misses the last four bytes of the key. */
  lemma RawMatchIff(stored: Str, key: Str)
    requires |stored| < LIMIT
    ensures RawMatch(stored, key) <==>
      if |stored| < BIGLEN then stored == key
      else |stored| == |key| && Le32(|stored|) + stored[..|stored| - 4] == key
  {
    var n := |stored|;
    if n < BIGLEN {
      assert ([n] + stored)[1..1 + n] == stored;
    } else {
      LongPrefix(Le32(n), stored);
    }
  }

  lemma LongPrefix(le: Str, stored: Str)
    requires |le| == 4 <= |stored|
    ensures ([BIGLEN] + le + stored)[1..1 + |stored|] == le + stored[..|stored| - 4]
  {
    var n := |stored|;
    assert [BIGLEN] + le + stored == [BIGLEN] + (le + stored);
    assert ([BIGLEN] + (le + stored))[1..1 + n] == (le + stored)[..n];
  }

  predicate Hit(x: Item, key: Str)
    requires ItemOk(x)
  {
    x.Entry? && RawMatch(x.key, key)
  }

  /** The first item from `i` on that a lookup takes for the key; the number of items if none. */
  function FindFrom(items: seq<Item>, i: nat, key: Str): (f: nat)
    requires ItemsOk(items) && i <= |items|
    ensures i <= f <= |items| && (f < |items| ==> Hit(items[f], key))
    ensures forall j :: i <= j < f ==> !Hit(items[j], key)
    decreases |items| - i
  {
    if i == |items| || Hit(items[i], key) then i else FindFrom(items, i + 1, key)
  }

  /** The first empty block from `i` on with room for `req` bytes. */
  function FitFrom(items: seq<Item>, i: nat, req: nat): (f: nat)
    requires i <= |items|
    ensures i <= f <= |items| && (f < |items| ==> items[f].Hole? && items[f].len >= req)
    ensures forall j :: i <= j < f ==> !(items[j].Hole? && items[j].len >= req)
    decreases |items| - i
  {
    if i == |items| || (items[i].Hole? && items[i].len >= req) then i else FitFrom(items, i + 1, req)
  }

  // ---------------------------------------------------------------- setting and deleting

  function Entries(items: seq<Item>): nat {
    if items == [] then 0 else (if items[0].Entry? then 1 else 0) + Entries(items[1..])
  }

  lemma {:induction false} EntriesConcat(a: seq<Item>, b: seq<Item>)
    ensures Entries(a + b) == Entries(a) + Entries(b)
    decreases |a|
  {
    if a == [] {
      assert a + b == b;
    } else {
      assert (a + b)[1..] == a[1..] + b;
      EntriesConcat(a[1..], b);
    }
  }

  /** The entry at `i` marked as empty. */
  function Release(items: seq<Item>, i: nat): (r: seq<Item>)
    requires ItemsOk(items) && i < |items| && items[i].Entry? && |ItemBytes(items[i])| < LIMIT
    ensures ItemsOk(r) && |r| == |items| && Entries(r) < Entries(items)
  {
    ReleaseCounts(items, i, Freed(ItemBytes(items[i])));
    items[..i] + [Freed(ItemBytes(items[i]))] + items[i + 1..]
  }

  /** Releasing an entry takes no empty block away. */
  lemma StillFits(items: seq<Item>, i: nat, req: nat)
    requires ItemsOk(items) && i < |items| && items[i].Entry? && |ItemBytes(items[i])| < LIMIT
    requires FitFrom(items, 0, req) < |items|
    ensures FitFrom(Release(items, i), 0, req) < |items|
  {
    hide FitFrom, ItemBytes;
    var f, r := FitFrom(items, 0, req), Release(items, i);
    assert r[f] == items[f];
  }

  lemma ReleaseCounts(items: seq<Item>, i: nat, hole: Item)
    requires i < |items| && items[i].Entry? && hole.Hole?
    ensures Entries(items[..i] + [hole] + items[i + 1..]) < Entries(items)
  {
    var a, b := items[..i], items[i + 1..];
    assert items == a + [items[i]] + b;
    EntriesConcat(a + [items[i]], b);
    EntriesConcat(a, [items[i]]);
    EntriesConcat(a + [hole], b);
    EntriesConcat(a, [hole]);
  }

  function Replace(items: seq<Item>, i: nat, k: Str, v: Str): (r: seq<Item>)
    requires ItemsOk(items) && i < |items| && |k| < LIMIT && |v| < LIMIT
    requires Required(|k|, |v|) <= |ItemBytes(items[i])| < LIMIT
    ensures ItemsOk(r)
  {
    items[..i] + Reused(ItemBytes(items[i]), k, v) + items[i + 1..]
  }

  /** Every block is addressable with 32 bits. */
  predicate Sized(items: seq<Item>)
    requires ItemsOk(items)
  {
    forall x :: x in items ==> |ItemBytes(x)| < LIMIT
  }

  /** zipmapSet: in place, in a large enough empty block, or at the end; a key that has outgrown
      its entry is released and set again. */
  function SetItems(items: seq<Item>, k: Str, v: Str): (r: seq<Item>)
    requires ItemsOk(items) && Sized(items) && |k| < LIMIT && |v| < LIMIT
    ensures ItemsOk(r)
    decreases Entries(items)
  {
    var i, req := FindFrom(items, 0, k), Required(|k|, |v|);
    if i < |items| then
      if |ItemBytes(items[i])| >= req then Replace(items, i, k, v)
      else SetItems(Release(items, i), k, v)
    else
      var f := FitFrom(items, 0, req);
      if f < |items| then Replace(items, f, k, v) else items + [Entry(k, v, [])]
  }

  // ---------------------------------------------------------------- the map it stands for

  function Contents(items: seq<Item>): map<Str, Str> {
    if items == [] then map[]
    else
      var m := Contents(items[1..]);
      if items[0].Entry? then m[items[0].key := items[0].val] else m
  }

  lemma {:induction false} ContentsConcat(a: seq<Item>, b: seq<Item>)
    ensures Contents(a + b) == Contents(b) + Contents(a)
    decreases |a|
  {
    if a == [] {
      assert a + b == b;
    } else {
      assert (a + b)[1..] == a[1..] + b;
      ContentsConcat(a[1..], b);
    }
  }

  /** No key twice. */
  ghost predicate Distinct(items: seq<Item>) {
    forall i, j :: 0 <= i < j < |items| && items[i].Entry? && items[j].Entry? ==> items[i].key != items[j].key
  }

  /** Every key's length takes one byte. */
  ghost predicate Short(items: seq<Item>) {
    forall x :: x in items && x.Entry? ==> |x.key| < BIGLEN
  }

  lemma {:induction false} InContents(items: seq<Item>, k: Str)
    ensures k in Contents(items) <==> exists i :: 0 <= i < |items| && items[i].Entry? && items[i].key == k
    decreases |items|
  {
    if items != [] {
      InContents(items[1..], k);
      if k in Contents(items[1..]) {
        var i :| 0 <= i < |items| - 1 && items[1..][i].Entry? && items[1..][i].key == k;
        assert items[i + 1].key == k;
      }
      if i :| 1 <= i < |items| && items[i].Entry? && items[i].key == k {
        assert items[1..][i - 1].key == k;
      }
    }
  }

  lemma {:induction false} ContentsAt(items: seq<Item>, i: nat)
    requires Distinct(items) && i < |items| && items[i].Entry?
    ensures items[i].key in Contents(items) && Contents(items)[items[i].key] == items[i].val
    decreases |items|
  {
    if i > 0 {
      assert items[1..][i - 1] == items[i];
      ContentsAt(items[1..], i - 1);
    }
  }

  /** A lookup finds a short key exactly when the map has it, and finds its entry. */
  lemma FindRefines(items: seq<Item>, key: Str)
    requires ItemsOk(items) && Distinct(items) && Short(items) && |key| < BIGLEN
    ensures var f := FindFrom(items, 0, key);
      && (f < |items| <==> key in Contents(items))
      && (f < |items| ==> items[f].key == key && items[f].val == Contents(items)[key])
  {
    hide Contents, RawMatch;
    var f := FindFrom(items, 0, key);
    InContents(items, key);
    if f < |items| {
      RawMatchIff(items[f].key, key);
      ContentsAt(items, f);
    }
    forall i | 0 <= i < f && items[i].Entry? ensures items[i].key != key { RawMatchIff(items[i].key, key); }
  }

  /** Replacing a piece of the items that holds at most `k` by one that holds `k` alone. */
  lemma PieceSets(a: seq<Item>, was: seq<Item>, new_: seq<Item>, b: seq<Item>, k: Str, v: Str)
    requires k !in Contents(a) && k !in Contents(b)
    requires Contents(was).Keys <= {k} && Contents(new_) == map[k := v]
    ensures Contents(a + new_ + b) == Contents(a + was + b)[k := v]
  {
    ContentsConcat(a + new_, b);
    ContentsConcat(a, new_);
    ContentsConcat(a + was, b);
    ContentsConcat(a, was);
  }

  lemma PieceDrops(a: seq<Item>, was: seq<Item>, new_: seq<Item>, b: seq<Item>, k: Str)
    requires k !in Contents(a) && k !in Contents(b)
    requires Contents(was).Keys == {k} && Contents(new_) == map[]
    ensures Contents(a + new_ + b) == Contents(a + was + b) - {k}
  {
    ContentsConcat(a + new_, b);
    ContentsConcat(a, new_);
    ContentsConcat(a + was, b);
    ContentsConcat(a, was);
  }

  lemma ContentsOne(x: Item)
    ensures Contents([x]) == if x.Entry? then map[x.key := x.val] else map[]
  {
    var one := [x];
    assert one[1..] == [];
  }

  lemma ReusedContents(block: Str, k: Str, v: Str)
    requires |k| < LIMIT && |v| < LIMIT && Required(|k|, |v|) <= |block| < LIMIT
    ensures Contents(Reused(block, k, v)) == map[k := v]
    ensures forall x :: x in Reused(block, k, v) && x.Entry? ==> x.key == k
    ensures Distinct(Reused(block, k, v))
  {
    var xs := Reused(block, k, v);
    if |xs| == 2 {
      ContentsConcat([xs[0]], [xs[1]]);
      assert xs == [xs[0]] + [xs[1]];
      ContentsOne(xs[0]);
      ContentsOne(xs[1]);
    } else {
      ContentsOne(xs[0]);
    }
  }

  /** The keys of all other items differ from `k`. */
  ghost predicate Others(items: seq<Item>, i: nat, k: Str) {
    forall j :: 0 <= j < |items| && j != i && items[j].Entry? ==> items[j].key != k
  }

  lemma OthersContents(items: seq<Item>, i: nat, k: Str)
    requires i < |items| && Others(items, i, k)
    ensures k !in Contents(items[..i]) && k !in Contents(items[i + 1..])
  {
    hide Contents;
    InContents(items[..i], k);
    InContents(items[i + 1..], k);
    var t := items[i + 1..];
    assert forall j :: 0 <= j < |t| ==> t[j] == items[i + 1 + j];
  }

  lemma SpliceDistinct(items: seq<Item>, i: nat, xs: seq<Item>, k: Str)
    requires i < |items| && Distinct(items) && Others(items, i, k) && Distinct(xs)
    requires forall x :: x in xs && x.Entry? ==> x.key == k
    ensures Distinct(items[..i] + xs + items[i + 1..])
  {
    var r, n := items[..i] + xs + items[i + 1..], |xs|;
    forall p, q | 0 <= p < q < |r| && r[p].Entry? && r[q].Entry? ensures r[p].key != r[q].key {
      SpliceAt(items, i, xs, p);
      SpliceAt(items, i, xs, q);
      if i <= p < i + n && i <= q < i + n {
        assert xs[p - i].key != xs[q - i].key;
      }
    }
  }

  lemma SpliceAt(items: seq<Item>, i: nat, xs: seq<Item>, p: nat)
    requires i < |items| && p < |items| - 1 + |xs|
    ensures var r := items[..i] + xs + items[i + 1..];
      r[p] == if p < i then items[p] else if p < i + |xs| then xs[p - i] else items[p - |xs| + 1]
  {
  }

  lemma ReplaceRefines(items: seq<Item>, i: nat, k: Str, v: Str)
    requires ItemsOk(items) && Distinct(items) && Short(items) && |k| < BIGLEN && |v| < LIMIT && i < |items|
    requires Required(|k|, |v|) <= |ItemBytes(items[i])| < LIMIT
    requires Others(items, i, k) && (items[i].Entry? ==> items[i].key == k)
    ensures var r := Replace(items, i, k, v);
      Distinct(r) && Short(r) && Contents(r) == Contents(items)[k := v]
  {
    hide Contents, Reused, ItemBytes;
    var xs := Reused(ItemBytes(items[i]), k, v);
    ReusedContents(ItemBytes(items[i]), k, v);
    OthersContents(items, i, k);
    ContentsOne(items[i]);
    PieceSets(items[..i], [items[i]], xs, items[i + 1..], k, v);
    assert items[..i] + [items[i]] + items[i + 1..] == items;
    SpliceDistinct(items, i, xs, k);
  }

  lemma AppendRefines(items: seq<Item>, k: Str, v: Str)
    requires Distinct(items) && Short(items) && |k| < BIGLEN && k !in Contents(items)
    ensures var r := items + [Entry(k, v, [])];
      Distinct(r) && Short(r) && Contents(r) == Contents(items)[k := v]
  {
    InContents(items, k);
    ContentsConcat(items, [Entry(k, v, [])]);
    ContentsOne(Entry(k, v, []));
    assert forall j :: 0 <= j < |items| && items[j].Entry? ==> items[j].key != k;
  }

  lemma ReleaseRefines(items: seq<Item>, i: nat, k: Str)
    requires ItemsOk(items) && Distinct(items) && Short(items) && i < |items|
    requires items[i].Entry? && items[i].key == k && |ItemBytes(items[i])| < LIMIT
    ensures var r := Release(items, i);
      Distinct(r) && Short(r) && Contents(r) == Contents(items) - {k}
  {
    hide Contents, ItemBytes, Freed;
    var hole := Freed(ItemBytes(items[i]));
    assert hole.Hole? by { FreedIsHole(ItemBytes(items[i])); }
    assert Others(items, i, k);
    OthersContents(items, i, k);
    ContentsOne(items[i]);
    ContentsOne(hole);
    PieceDrops(items[..i], [items[i]], [hole], items[i + 1..], k);
    assert items[..i] + [items[i]] + items[i + 1..] == items;
    SpliceDistinct(items, i, [hole], k);
  }

  lemma FreedIsHole(block: Str)
    requires 3 <= |block| < LIMIT
    ensures Freed(block).Hole?
  {
  }

  lemma FoundOthers(items: seq<Item>, k: Str)
    requires ItemsOk(items) && Distinct(items) && Short(items) && |k| < BIGLEN
    ensures var f := FindFrom(items, 0, k);
      && (f < |items| ==> items[f].key == k && Others(items, f, k))
      && (f == |items| ==> forall i: nat :: i < |items| ==> Others(items, i, k))
  {
    hide Contents, RawMatch;
    FindRefines(items, k);
    InContents(items, k);
  }

  lemma ReleaseSized(items: seq<Item>, i: nat)
    requires ItemsOk(items) && Sized(items) && i < |items| && items[i].Entry?
    ensures Sized(Release(items, i))
  {
    FreedBytes(ItemBytes(items[i]));
  }

  /** On short keys, setting a key sets it in the map, wherever the entry ends up. */
  lemma {:induction false} SetRefines(items: seq<Item>, k: Str, v: Str)
    requires ItemsOk(items) && Sized(items) && Distinct(items) && Short(items) && |k| < BIGLEN && |v| < LIMIT
    ensures var r := SetItems(items, k, v);
      Distinct(r) && Short(r) && Contents(r) == Contents(items)[k := v]
    decreases Entries(items)
  {
    hide Contents, ItemBytes, Distinct, Short, Replace, Release, Others;
    var i, req := FindFrom(items, 0, k), Required(|k|, |v|);
    FindRefines(items, k);
    FoundOthers(items, k);
    if i < |items| {
      assert items[i] in items;
      if |ItemBytes(items[i])| >= req {
        ReplaceRefines(items, i, k, v);
      } else {
        ReleaseRefines(items, i, k);
        ReleaseSized(items, i);
        SetRefines(Release(items, i), k, v);
      }
    } else {
      var f := FitFrom(items, 0, req);
      if f < |items| {
        assert items[f] in items;
        HoleSize(items[f]);
        ReplaceRefines(items, f, k, v);
      } else {
        AppendRefines(items, k, v);
      }
    }
  }

  lemma HoleSize(x: Item)
    requires ItemOk(x) && x.Hole?
    ensures |ItemBytes(x)| == x.len
  {
  }

  /** A map kept in short keys still finds what it was given under a key exactly when the key is
      short, or looks like its own length followed by itself. */
  lemma SetThenGet(items: seq<Item>, k: Str, v: Str)
    requires ItemsOk(items) && Sized(items) && Distinct(items) && Short(items) && |k| < LIMIT && |v| < LIMIT
    ensures var r := SetItems(items, k, v);
      FindFrom(r, 0, k) < |r| <==> |k| < BIGLEN || Le32(|k|) + k[..|k| - 4] == k
  {
    hide Contents, ItemBytes, Replace, RawMatch;
    var r := SetItems(items, k, v);
    RawMatchIff(k, k);
    if |k| < BIGLEN {
      SetRefines(items, k, v);
      FindRefines(r, k);
    } else {
      var i := FindFrom(items, 0, k);
      if i < |items| { assert items[i] in items; RawMatchIff(items[i].key, k); }
      var req := Required(|k|, |v|);
      var f := FitFrom(items, 0, req);
      if f < |items| {
        assert items[f] in items;
        HoleSize(items[f]);
        var xs := Reused(ItemBytes(items[f]), k, v);
        LongHit(items[..f], xs, items[f + 1..], k, v);
        ReusedFirst(ItemBytes(items[f]), k, v);
        assert r == items[..f] + xs + items[f + 1..] by { ReplaceIs(items, f, k, v); }
      } else {
        LongHit(items, [Entry(k, v, [])], [], k, v);
        assert items + [Entry(k, v, [])] + [] == r;
      }
    }
  }

  lemma ReplaceIs(items: seq<Item>, i: nat, k: Str, v: Str)
    requires ItemsOk(items) && i < |items| && |k| < LIMIT && |v| < LIMIT
    requires Required(|k|, |v|) <= |ItemBytes(items[i])| < LIMIT
    ensures Replace(items, i, k, v) == items[..i] + Reused(ItemBytes(items[i]), k, v) + items[i + 1..]
  {
  }

  lemma ReusedFirst(block: Str, k: Str, v: Str)
    requires |k| < LIMIT && |v| < LIMIT && Required(|k|, |v|) <= |block| < LIMIT
    ensures var xs := Reused(block, k, v);
      xs != [] && xs[0].Entry? && xs[0].key == k && forall j :: 1 <= j < |xs| ==> xs[j].Hole?
  {
  }

  lemma LongHit(a: seq<Item>, xs: seq<Item>, b: seq<Item>, k: Str, v: Str)
    requires ItemsOk(a) && ItemsOk(xs) && ItemsOk(b) && Short(a) && Short(b) && BIGLEN <= |k| < LIMIT
    requires xs != [] && xs[0].Entry? && xs[0].key == k && forall j :: 1 <= j < |xs| ==> xs[j].Hole?
    ensures var r := a + xs + b; FindFrom(r, 0, k) < |r| <==> RawMatch(k, k)
  {
    hide RawMatch;
    var r := a + xs + b;
    assert r[|a|] == xs[0];
    forall j | 0 <= j < |r| && j != |a| ensures !Hit(r[j], k) {
      assert j < |a| ==> r[j] in a;
      assert j >= |a| + |xs| ==> r[j] in b;
      if r[j].Entry? { RawMatchIff(r[j].key, k); }
    }
  }
}
