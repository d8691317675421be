/** Whole runs on one byte buffer: any sets and deletes, one after another. */
module ZipmapRuns {
  import opened Bytes
  import opened ZipmapFormat
  import opened ZipmapMeaning
  import opened ZipmapCode

  /** The bytes that the operations can add to the buffer. */
  function Growth(ops: seq<Op>): nat
    decreases |ops|
  {
    if ops == [] then 0
    else (if ops[0].Put? then Required(|ops[0].k|, |ops[0].v|) else 0) + Growth(ops[1..])
  }

  /** A buffer of short keys, no key twice. */
  ghost predicate Proper(z: Zipmap)
    reads z
  {
    z.Valid() && Distinct(z.items) && Short(z.items)
  }

  method Perform(z: Zipmap, op: Op)
    requires Proper(z) && |op.k| < BIGLEN && |z.zm| + Growth([op]) < LIMIT
    modifies z
    ensures Proper(z) && Contents(z.items) == Apply(old(Contents(z.items)), op) && |z.zm| <= old(|z.zm|) + Growth([op])
  {
    hide Contents, Distinct, Short, SetItems, DelItems, Sized, ItemOk, Holds, FindFrom;
    AllSized(z.zm, z.items);
    assert [op][1..] == [] && Growth([]) == 0;
    match op {
      case Put(k, v) =>
        SetRefines(z.items, k, v);
        var update := z.Set(k, v);
      case Remove(k) =>
        DelRefines(z.items, k);
        var deleted := z.Del(k);
    }
  }

  /** After any sets and deletes of short keys, as long as the buffer stays below four gigabytes, its
      bytes are well formed and hold exactly the map, each key once. */
  method Execute(z: Zipmap, ops: seq<Op>)
    requires Proper(z) && (forall op :: op in ops ==> |op.k| < BIGLEN) && |z.zm| + Growth(ops) < LIMIT
    modifies z
    ensures Proper(z) && Contents(z.items) == ApplyAll(old(Contents(z.items)), ops)
    ensures |z.zm| <= old(|z.zm|) + Growth(ops)
    decreases |ops|
  {
    hide Proper, Contents, Apply;
    if ops != [] {
      assert [ops[0]][1..] == [] && Growth([]) == 0;
      assert Growth(ops) == Growth([ops[0]]) + Growth(ops[1..]);
      Perform(z, ops[0]);
      Execute(z, ops[1..]);
    }
  }

  /** After them every lookup answers from the map. */
  method ExecuteThenGet(z: Zipmap, ops: seq<Op>, key: Str) returns (v: Option<Str>)
    requires Proper(z) && (forall op :: op in ops ==> |op.k| < BIGLEN) && |z.zm| + Growth(ops) < LIMIT
    requires |key| < BIGLEN
    modifies z
    ensures var m := ApplyAll(old(Contents(z.items)), ops); v == if key in m then Some(m[key]) else None
  {
    hide Contents, Distinct, Short, FindFrom, Holds;
    Execute(z, ops);
    AllSized(z.zm, z.items);
    FindRefines(z.items, key);
    v := z.Get(key);
  }
}
