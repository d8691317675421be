/** What the swap file holds is what rdbSaveObject writes for an object. */
module SwapObject {
  import Lzf
  import RdbFormat
  import Rdb
  import opened SwapFile

  /** The object that the bytes of a value stand for. */
  function Meaning(v: Value): RdbFormat.Val { RdbFormat.LoadObject(v.vtype, v.image).value }

  lemma SpelledIsWhole(b: Str, v: RdbFormat.Val)
    requires Rdb.SpellsObject(b, v)
    ensures var o := Object(RdbFormat.TypeOf(v), b); Whole(o) && Meaning(o) == v
  {
    hide RdbFormat.LoadObject;
    assert RdbFormat.LoadObject(RdbFormat.TypeOf(v), b + []) == RdbFormat.Read(v, []);
    assert b + [] == b;
  }

  /** Any object, with any of the encodings: its bytes are a value of the swap file and mean it. */
  method ToValue(v: RdbFormat.Val, compress: bool, htab: array<Lzf.Address>, base: int) returns (o: Value)
    requires htab.Length == Lzf.HSIZE && Lzf.MAX_OFF <= base && Rdb.ValOk(v, base)
    modifies htab
    ensures o.vtype == RdbFormat.TypeOf(v) && Meaning(o) == v
  {
    hide Rdb.ValOk, Rdb.SpellsObject, Meaning, Whole;
    var b := Rdb.SaveObject(v, compress, htab, base);
    SpelledIsWhole(b, v);
    o := Object(RdbFormat.TypeOf(v), b);
  }

  /** Written to any pages with room and read again, whatever is in the file besides, it is the same
      object. */
  lemma SameObject(file: seq<Page>, page: nat, o: Value)
    requires page + PagesOf(o) <= |file|
    ensures var r := Read(WriteValue(file, page, o), page, o.vtype); r.Some? && Meaning(r.value) == Meaning(o)
  {
    hide Read, WriteValue, Whole;
    WriteThenRead(file, page, o);
  }
}
