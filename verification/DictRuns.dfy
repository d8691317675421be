/** Whole runs of a hash table: any operations, one after another. */
module DictRuns {
  import opened DictChains
  import opened DictCode

  datatype Op = Adding(key: Key, val: Value) | Replacing(key: Key, val: Value) | Deleting(key: Key)

  /** What an operation does to the map. */
  function After(m: map<Key, Value>, op: Op): map<Key, Value> {
    match op
    case Adding(key, val) => if key in m then m else m[key := val]
    case Replacing(key, val) => m[key := val]
    case Deleting(key) => m - {key}
  }

  function AfterAll(m: map<Key, Value>, ops: seq<Op>): map<Key, Value>
    decreases |ops|
  {
    if ops == [] then m else After(AfterAll(m, ops[..|ops| - 1]), ops[|ops| - 1])
  }

  /** A table of this size is enough for `n` entries and no larger than it became. */
  function Room(size: nat, n: nat): nat {
    if size >= INITIAL_SIZE && size >= 2 * n then size else if 2 * n >= INITIAL_SIZE then 2 * n else INITIAL_SIZE
  }

  method Perform(d: Dict, op: Op)
    requires d.Valid() && 2 * d.size < LONG_MAX
    modifies d, d.table, Nodes(d.chains)
    ensures d.Valid() && d.m == After(old(d.m), op) && d.used <= old(d.used) + 1
    ensures forall n :: n in Nodes(d.chains) ==> n in Nodes(old(d.chains)) || fresh(n)
    ensures d.table == old(d.table) || fresh(d.table)
    ensures d.size <= GrownSize(old(d.size), old(d.used))
  {
    hide Linked, Placed, Unique, Total, PowerOfTwo, Holds, Nodes;
    match op
    case Adding(key, val) => var ok := d.Add(key, val);
    case Replacing(key, val) => var ok := d.Replace(key, val);
    case Deleting(key) =>
      var ok;
      ghost var b, j;
      ok, b, j := d.Delete(key);
  }

  /** Any operations in any order: the table stays valid, through every growth, and is the map. */
  method Execute(d: Dict, ops: seq<Op>)
    requires d.Valid() && 2 * Room(d.size, d.used + |ops|) < LONG_MAX
    modifies d, d.table, Nodes(d.chains)
    ensures d.Valid() && d.m == AfterAll(old(d.m), ops)
    ensures d.used <= old(d.used) + |ops| && d.size <= Room(old(d.size), old(d.used) + |ops|)
    ensures forall n :: n in Nodes(d.chains) ==> n in Nodes(old(d.chains)) || fresh(n)
    ensures d.table == old(d.table) || fresh(d.table)
    decreases |ops|
  {
    hide Dict.Valid, Nodes, After;
    if ops != [] {
      Execute(d, ops[..|ops| - 1]);
      Perform(d, ops[|ops| - 1]);
    }
  }
}
