/** The formats, byte for byte, on small inputs: what the round trips leave open is which bytes stand
    for what. */
module Layouts {
  import opened Bytes
  import Resp
  import AofData
  import AofText
  import Rdb
  import RdbFormat
  import ZipmapFormat
  import ZipmapMeaning

  type Str = seq<byte>

  // ---------------------------------------------------------------- commands

  /** A bulk of less than ten bytes: a dollar sign, the size as a digit, and the bytes, on two lines. */
  function ShortBulk(s: Str): Str
    requires |s| < 10
  {
    [36, 48 + |s|, 13, 10] + s + [13, 10]
  }

  lemma BulkIs(s: Str)
    requires |s| < 10
    ensures Resp.Bulk(s) == ShortBulk(s)
  {
    assert Resp.Digits(|s|) == [48 + |s|];
  }

  lemma ThreeBulks(a: Str, b: Str, c: Str)
    ensures Resp.Bulks([a, b, c]) == Resp.Bulk(a) + (Resp.Bulk(b) + Resp.Bulk(c))
  {
    hide Resp.Bulk;
    var three: Resp.Argv := [a, b, c];
    assert three[1..] == [b, c] && three[1..][1..] == [c] && three[1..][1..][1..] == [];
    assert Resp.Bulks([c]) == Resp.Bulk(c) + [];
    assert Resp.Bulks([b, c]) == Resp.Bulk(b) + Resp.Bulks([c]);
  }

  /** SET with a short key and value, in the append-only file and on the wire. */
  lemma SetCommand(k: Str, v: Str)
    requires |k| < 10 && |v| < 10
    ensures AofText.LogText([AofData.SetStr(k, v)]) ==
      [42, 51, 13, 10] + (ShortBulk([83, 69, 84]) + (ShortBulk(k) + ShortBulk(v)))
  {
    hide Resp.Bulk, ShortBulk, Resp.Bulks;
    var name: Str := [83, 69, 84];
    var argv: Resp.Argv := [name, k, v];
    var log := [AofData.SetStr(k, v)];
    assert log[1..] == [] && AofText.Argvs(log) == [argv];
    var one: seq<Resp.Argv> := [argv];
    assert one[1..] == [] && Resp.PrintAll(one) == Resp.PrintCmd(argv) + [];
    assert Resp.Digits(3) == [51];
    assert Resp.Count(42, 3) == [42, 51, 13, 10];
    ThreeBulks(name, k, v);
    BulkIs(name);
    BulkIs(k);
    BulkIs(v);
  }

  // ---------------------------------------------------------------- zipmap

  /** An entry of short strings: length and key, length, unused bytes, value. */
  function ShortEntry(k: Str, v: Str): Str
    requires |k| < 253 && |v| < 253
  {
    [|k|] + k + [|v|, 0] + v
  }

  lemma EntryIs(k: Str, v: Str)
    requires |k| < 253 && |v| < 253
    ensures ZipmapFormat.ItemOk(ZipmapFormat.Entry(k, v, []))
    ensures ZipmapFormat.ItemBytes(ZipmapFormat.Entry(k, v, [])) == ShortEntry(k, v)
  {
  }

  /** Two keys set in an empty zipmap, laid out as the head of zipmap.c shows it. */
  lemma ZipmapOfTwo(k: Str, v: Str, k': Str, v': Str)
    requires |k| < 253 && |v| < 253 && |k'| < 253 && |v'| < 253 && k != k'
    ensures var one := ZipmapMeaning.SetItems([], k, v);
      ZipmapMeaning.Sized(one) && var two := ZipmapMeaning.SetItems(one, k', v');
      ZipmapFormat.Buffer(0, two) == [0] + (ShortEntry(k, v) + ShortEntry(k', v')) + [255]
  {
    hide ShortEntry, ZipmapFormat.ItemBytes;
    var a, b := ZipmapFormat.Entry(k, v, []), ZipmapFormat.Entry(k', v', []);
    EntryIs(k, v);
    EntryIs(k', v');
    assert ZipmapMeaning.SetItems([], k, v) == [a] by { assert [] + [a] == [a]; }
    SecondEntry(a, b, k, v, k', v');
    var two := [a, b];
    assert two[1..] == [b] && two[1..][1..] == [];
    assert ZipmapFormat.Flat([b]) == ZipmapFormat.ItemBytes(b) + [];
    assert ZipmapFormat.Flat(two) == ZipmapFormat.ItemBytes(a) + ZipmapFormat.Flat([b]);
  }

  lemma SecondEntry(a: ZipmapFormat.Item, b: ZipmapFormat.Item, k: Str, v: Str, k': Str, v': Str)
    requires |k| < 253 && |v| < 253 && |k'| < 253 && |v'| < 253 && k != k'
    requires a == ZipmapFormat.Entry(k, v, []) && b == ZipmapFormat.Entry(k', v', [])
    ensures ZipmapFormat.ItemsOk([a]) && ZipmapMeaning.Sized([a])
    ensures ZipmapMeaning.SetItems([a], k', v') == [a, b]
  {
    var one := [a];
    assert !ZipmapMeaning.RawMatch(k, k');
    assert [a] + [b] == [a, b];
  }

  // ---------------------------------------------------------------- RDB

  lemma ShortString(s: Str, t: Str)
    requires |s| < 64
    ensures RdbFormat.LoadString([|s|] + s + t) == RdbFormat.Read(s, t)
  {
    var b := [|s|] + s + t;
    assert b[1..] == s + t && (s + t)[..|s|] == s && (s + t)[|s|..] == t;
  }

  /** Two strings in a row. */
  lemma TwoStrings(a: Str, b: Str, t: Str)
    requires |a| < 64 && |b| < 64
    ensures RdbFormat.LoadStrings([|a|] + a + [|b|] + b + t, 2) == RdbFormat.Read([a, b], t)
  {
    hide RdbFormat.LoadString;
    var u := [|b|] + b + t;
    assert [|a|] + a + [|b|] + b + t == [|a|] + a + u;
    ShortString(a, u);
    ShortString(b, t);
    assert RdbFormat.LoadStrings(t, 0) == RdbFormat.Read([], t);
    assert [b] + [] == [b] && [a] + [b] == [a, b];
    assert RdbFormat.LoadStrings(u, 1) == RdbFormat.Read([b] + [], t);
  }

  /** The types: 0 a string, 1 a list, 2 a set, 4 a hash, of which the last three say how many
      strings or pairs follow. */
  lemma ObjectKinds(a: Str, b: Str, t: Str)
    requires |a| < 64 && |b| < 64
    ensures RdbFormat.LoadObject(0, [|a|] + a + t) == RdbFormat.Read(RdbFormat.Text(a), t)
    ensures RdbFormat.LoadObject(1, [2] + ([|a|] + a + [|b|] + b + t)) == RdbFormat.Read(RdbFormat.List([a, b]), t)
    ensures RdbFormat.LoadObject(2, [2] + ([|a|] + a + [|b|] + b + t)) == RdbFormat.Read(RdbFormat.Set({a, b}), t)
    ensures RdbFormat.LoadObject(4, [1] + ([|a|] + a + [|b|] + b + t)) == RdbFormat.Read(RdbFormat.Hash(map[a := b]), t)
  {
    hide RdbFormat.LoadString;
    ShortString(a, t);
    TwoStrings(a, b, t);
    var u := [|a|] + a + [|b|] + b + t;
    assert ([2] + u)[1..] == u && ([1] + u)[1..] == u;
    assert RdbFormat.Elements([a, b]) == {a, b};
    var v := [|b|] + b + t;
    assert u == [|a|] + a + v;
    ShortString(a, v);
    ShortString(b, t);
    assert RdbFormat.LoadFields(t, 0) == RdbFormat.Read([], t);
    OnePair(a, b);
  }

  lemma OnePair(a: Str, b: Str)
    ensures RdbFormat.Table([(a, b)]) == map[a := b]
  {
    var one := [(a, b)];
    assert one[1..] == [];
  }

  /** A file with one key that expires: REDIS0001, database 3, time 1234, k => v, end. */
  lemma RdbOfOne(now: int)
    requires now <= 1234
    ensures RdbFormat.LoadFile(
        [82, 69, 68, 73, 83, 48, 48, 48, 49, 254, 3, 253, 210, 4, 0, 0, 0, 1, 107, 1, 118, 255], now)
      == Some(map[RdbFormat.Slot(3, [107]) := RdbFormat.Entry(RdbFormat.Text([118]), Some(1234))])
  {
    hide RdbFormat.LoadFile, RdbFormat.LoadRecords;
    var rest: Str := [254, 3, 253, 210, 4, 0, 0, 0, 1, 107, 1, 118, 255];
    var st := RdbFormat.Loader(0, -1, map[]);
    Rdb.HeaderRead(rest, now);
    assert RdbFormat.HEADER + rest ==
      [82, 69, 68, 73, 83, 48, 48, 48, 49, 254, 3, 253, 210, 4, 0, 0, 0, 1, 107, 1, 118, 255];
    var timed: Str := [253, 210, 4, 0, 0, 0, 1, 107, 1, 118, 255];
    SelectRead(rest, timed, st, now);
    ExpiringRead(timed, st.(db := 3), now);
  }

  lemma SelectRead(s: Str, rest: Str, st: RdbFormat.Loader, now: int)
    requires s == [254, 3] + rest
    ensures RdbFormat.LoadRecords(s, st, now) == RdbFormat.LoadRecords(rest, st.(db := 3), now)
  {
    assert s[1..] == [3] + rest && s[1..][1..] == rest;
    assert RdbFormat.LoadLen(s[1..]) == RdbFormat.Read(RdbFormat.Len(3, false), rest);
    assert RdbFormat.LoadRecords(s, st, now) == RdbFormat.LoadRecord(s, st, now);
  }

  lemma ExpiringRead(s: Str, st: RdbFormat.Loader, now: int)
    requires s == [253, 210, 4, 0, 0, 0, 1, 107, 1, 118, 255] && now <= 1234
    requires st == RdbFormat.Loader(3, -1, map[])
    ensures RdbFormat.LoadRecords(s, st, now)
      == Some(map[RdbFormat.Slot(3, [107]) := RdbFormat.Entry(RdbFormat.Text([118]), Some(1234))])
  {
    hide RdbFormat.LoadString, RdbFormat.LoadObject;
    var r: Str := [0, 1, 107, 1, 118, 255];
    assert s[1..][4..] == r;
    assert RdbFormat.LoadTime(s[1..]) == RdbFormat.Read(1234, r);
    var k: Str, v: Str, e: Str := [107], [118], [255];
    assert r[1..] == [1] + k + [1, 118, 255] && [1, 118, 255] == [1] + v + e;
    ShortString(k, [1, 118, 255]);
    ObjectKinds(v, v, e);
    var st' := RdbFormat.AddKey(st.(expire := 1234), k, RdbFormat.Text(v), now).value;
    assert RdbFormat.LoadRecords(e, st', now) == RdbFormat.LoadRecord(e, st', now) == Some(st'.data);
  }
}
