/** rewriteListObject, rewriteSetObject, rewriteSortedSetObject and rewriteHashObject of
    redis-2.8.0/src/aof.c: a collection is written as variadic commands of bounded size, each
    behind a header that announces its arguments before they are written. */
module AofRewrite {
  import opened Bytes
  import opened Resp

  /** The arguments of several items, one after another. */
  function Flatten(items: seq<Argv>): Argv {
    if items == [] then [] else items[0] + Flatten(items[1..])
  }

  /** The commands that rebuild a collection: at most `limit` items each. */
  function Chunks(name: seq<byte>, key: seq<byte>, items: seq<Argv>, limit: nat): seq<Argv>
    requires limit > 0
    decreases |items|
  {
    if items == [] then []
    else
      var n := if |items| > limit then limit else |items|;
      [[name, key] + Flatten(items[..n])] + Chunks(name, key, items[n..], limit)
  }

  /** Every item has the same number of arguments: one for lists and sets, two for sorted sets
      (score, member) and hashes (field, value). */
  predicate Uniform(items: seq<Argv>, width: nat) {
    forall i :: 0 <= i < |items| ==> |items[i]| == width
  }

  lemma {:induction false} FlattenLength(items: seq<Argv>, width: nat)
    requires Uniform(items, width)
    ensures |Flatten(items)| == |items| * width
    decreases |items|
  {
    if items != [] {
      FlattenLength(items[1..], width);
      assert |items| * width == width + (|items| - 1) * width;
    }
  }

  /** What is left to write after `i` items, `count` of them in the command being written. */
  ghost function Remaining(name: seq<byte>, key: seq<byte>, items: seq<Argv>, limit: nat, i: nat, count: nat): seq<byte>
    requires limit > 0 && count <= i <= |items| && count < limit
  {
    if count == 0 then PrintAll(Chunks(name, key, items[i..], limit))
    else
      var b := i - count;
      var e := if |items| - b > limit then b + limit else |items|;
      Bulks(Flatten(items[i..e])) + PrintAll(Chunks(name, key, items[e..], limit))
  }

  /** The header of the next command announces exactly the arguments that will follow. */
  lemma HeaderStep(name: seq<byte>, key: seq<byte>, items: seq<Argv>, width: nat, limit: nat, i: nat)
    requires limit > 0 && i < |items| && Uniform(items, width)
    ensures var left := |items| - i; var n := if left > limit then limit else left;
      Remaining(name, key, items, limit, i, 0) ==
        Count(STAR, 2 + n * width) + Bulk(name) + Bulk(key)
        + (Bulks(Flatten(items[i..i + n])) + PrintAll(Chunks(name, key, items[i + n..], limit)))
  {
    hide Count, Bulk, Flatten, Bulks, PrintAll, Chunks, PrintCmd;
    var left := |items| - i;
    var n := if left > limit then limit else left;
    assert items[i..][..n] == items[i..i + n] && items[i..][n..] == items[i + n..];
    FlattenLength(items[i..i + n], width);
    CmdText(name, key, Flatten(items[i..i + n]));
    FirstChunk(name, key, items[i..], limit);
  }

  lemma CmdText(name: seq<byte>, key: seq<byte>, args: Argv)
    ensures PrintCmd([name, key] + args) == Count(STAR, 2 + |args|) + Bulk(name) + Bulk(key) + Bulks(args)
  {
    hide Count, Bulk, Bulks;
    BulksConcat([name, key], args);
    BulksTwo(name, key);
  }

  lemma BulksTwo(a: seq<byte>, b: seq<byte>)
    ensures Bulks([a, b]) == Bulk(a) + Bulk(b)
  {
    hide Bulk;
    var two: Argv := [a, b];
    assert two[1..] == [b];
    BulksOne(b);
  }

  lemma FirstChunk(name: seq<byte>, key: seq<byte>, items: seq<Argv>, limit: nat)
    requires limit > 0 && items != []
    ensures var n := if |items| > limit then limit else |items|;
      PrintAll(Chunks(name, key, items, limit)) ==
        PrintCmd([name, key] + Flatten(items[..n])) + PrintAll(Chunks(name, key, items[n..], limit))
  {
    hide PrintCmd, Flatten;
    var n := if |items| > limit then limit else |items|;
    PrintConcat([[name, key] + Flatten(items[..n])], Chunks(name, key, items[n..], limit));
    PrintOne([name, key] + Flatten(items[..n]));
  }

  /** Writing an item's arguments. */
  lemma ItemStep(items: seq<Argv>, i: nat, e: nat)
    requires i < e <= |items|
    ensures Bulks(Flatten(items[i..e])) == Bulks(items[i]) + Bulks(Flatten(items[i + 1..e]))
  {
    hide Bulks;
    assert items[i..e][1..] == items[i + 1..e];
    BulksConcat(items[i], Flatten(items[i + 1..e]));
  }

  lemma FlattenNone(items: seq<Argv>, e: nat)
    requires e <= |items|
    ensures Bulks(Flatten(items[e..e])) == []
  {
    assert items[e..e] == [];
  }

  /** What the loop writes for item `i`. */
  function Written(name: seq<byte>, key: seq<byte>, items: seq<Argv>, width: nat,
                   limit: nat, i: nat, count: nat): seq<byte>
    requires i < |items|
  {
    if count == 0 then
      var left := |items| - i;
      (Count(STAR, 2 + (if left > limit then limit else left) * width) + Bulk(name) + Bulk(key)) + Bulks(items[i])
    else Bulks(items[i])
  }

  lemma WriteStep(name: seq<byte>, key: seq<byte>, items: seq<Argv>, width: nat, limit: nat, i: nat, count: nat)
    requires limit > 0 && Uniform(items, width) && count <= i < |items| && count < limit
    ensures Remaining(name, key, items, limit, i, count) ==
      Written(name, key, items, width, limit, i, count)
      + Remaining(name, key, items, limit, i + 1, if count + 1 == limit then 0 else count + 1)
  {
    hide Flatten, Bulks, Bulk, Count, Chunks, PrintAll, Remaining;
    InsideStep(name, key, items, limit, i, count);
    var b := i - count;
    var e := if |items| - b > limit then b + limit else |items|;
    if count == 0 {
      HeaderStep(name, key, items, width, limit, i);
      var h := Count(STAR, 2 + (if |items| - i > limit then limit else |items| - i) * width) + Bulk(name) + Bulk(key);
      Assoc(h, Bulks(items[i]), Remaining(name, key, items, limit, i + 1, if count + 1 == limit then 0 else count + 1));
    } else {
      MidCommand(name, key, items, limit, i, count);
    }
  }

  lemma MidCommand(name: seq<byte>, key: seq<byte>, items: seq<Argv>, limit: nat, i: nat, count: nat)
    requires limit > 0 && 0 < count <= i <= |items| && count < limit
    ensures var b := i - count; var e := if |items| - b > limit then b + limit else |items|;
      Remaining(name, key, items, limit, i, count) ==
        Bulks(Flatten(items[i..e])) + PrintAll(Chunks(name, key, items[e..], limit))
  {
  }

  /** The rest of a command is its next item and what is left after it. */
  lemma InsideStep(name: seq<byte>, key: seq<byte>, items: seq<Argv>, limit: nat, i: nat, count: nat)
    requires limit > 0 && count <= i < |items| && count < limit
    ensures var b := i - count; var e := if |items| - b > limit then b + limit else |items|;
      Bulks(Flatten(items[i..e])) + PrintAll(Chunks(name, key, items[e..], limit)) ==
        Bulks(items[i]) + Remaining(name, key, items, limit, i + 1, if count + 1 == limit then 0 else count + 1)
  {
    hide Flatten, Bulks, Chunks, PrintAll;
    var b := i - count;
    var e := if |items| - b > limit then b + limit else |items|;
    ItemStep(items, i, e);
    if count + 1 == limit { FlattenNone(items, e); }
  }

  /** The writing loop shared by the four functions. */
  method RewriteItems(name: seq<byte>, key: seq<byte>, items: seq<Argv>, width: nat, limit: nat)
    returns (out: seq<byte>)
    requires limit > 0 && Uniform(items, width)
    ensures out == PrintAll(Chunks(name, key, items, limit))
  {
    hide Bulks, Bulk, Count, Chunks, PrintAll, Remaining;
    out := [];
    var count, left := 0, |items|;
    Unwritten(name, key, items, limit);
    for i := 0 to |items|
      invariant 0 <= count <= i && count < limit && left == |items| - i
      invariant out + Remaining(name, key, items, limit, i, count) == PrintAll(Chunks(name, key, items, limit))
    {
      WriteStep(name, key, items, width, limit, i, count);
      var text := [];
      if count == 0 {
        var cmdItems := if left > limit then limit else left;
        text := Count(STAR, 2 + cmdItems * width) + Bulk(name) + Bulk(key);
      }
      text := text + Bulks(items[i]);
      assert text == Written(name, key, items, width, limit, i, count);
      out := out + text;
      count := count + 1;
      if count == limit { count := 0; }
      left := left - 1;
    }
    Finished(name, key, items, limit, count);
  }

  lemma Unwritten(name: seq<byte>, key: seq<byte>, items: seq<Argv>, limit: nat)
    requires limit > 0
    ensures [] + Remaining(name, key, items, limit, 0, 0) == PrintAll(Chunks(name, key, items, limit))
  {
    hide Chunks, PrintAll;
    assert items[0..] == items;
  }

  lemma Finished(name: seq<byte>, key: seq<byte>, items: seq<Argv>, limit: nat, count: nat)
    requires limit > 0 && count <= |items| && count < limit
    ensures Remaining(name, key, items, limit, |items|, count) == []
  {
    assert items[|items|..] == [];
  }

  predicate ChunkOk(c: Argv, name: seq<byte>, key: seq<byte>, most: nat) {
    2 <= |c| <= 2 + most && c[0] == name && c[1] == key
  }

  /** All commands but the last are full. */
  lemma {:induction false} ChunksAreFull(name: seq<byte>, key: seq<byte>, items: seq<Argv>, width: nat, limit: nat,
                                         i: nat)
    requires limit > 0 && Uniform(items, width) && i + 1 < |Chunks(name, key, items, limit)|
    ensures |Chunks(name, key, items, limit)[i]| == 2 + limit * width
    decreases |items|
  {
    hide Flatten;
    var n := if |items| > limit then limit else |items|;
    var t := Chunks(name, key, items[n..], limit);
    if i == 0 {
      assert n == limit;
      FlattenLength(items[..n], width);
    } else {
      ChunksAreFull(name, key, items[n..], width, limit, i - 1);
    }
  }

  /** No command exceeds the limit, and the commands carry the items in order. */
  lemma {:induction false} ChunksCarryItems(name: seq<byte>, key: seq<byte>, items: seq<Argv>, width: nat, limit: nat)
    requires limit > 0 && Uniform(items, width)
    ensures forall c :: c in Chunks(name, key, items, limit) ==> ChunkOk(c, name, key, limit * width)
    ensures CarriedBy(Chunks(name, key, items, limit)) == Flatten(items)
    decreases |items|
  {
    hide Flatten;
    if items == [] {
      FlattenEmpty();
    } else {
      var n := if |items| > limit then limit else |items|;
      var c, t := [name, key] + Flatten(items[..n]), Chunks(name, key, items[n..], limit);
      assert ChunkOk(c, name, key, limit * width) by {
        FlattenLength(items[..n], width);
        MulMono(n, limit, width);
      }
      ChunksCarryItems(name, key, items[n..], width, limit);
      CarriedFirst(c, t);
      FlattenConcat(items[..n], items[n..]);
      assert items[..n] + items[n..] == items;
    }
  }

  lemma MulMono(a: nat, b: nat, w: nat)
    requires a <= b
    ensures a * w <= b * w
  {
  }

  lemma CarriedFirst(c: Argv, t: seq<Argv>)
    requires |c| >= 2
    ensures CarriedBy([c] + t) == c[2..] + CarriedBy(t)
  {
    assert ([c] + t)[1..] == t;
  }

  /** The arguments after command name and key, of all commands. */
  function CarriedBy(cmds: seq<Argv>): Argv {
    if cmds == [] then [] else (if |cmds[0]| >= 2 then cmds[0][2..] else []) + CarriedBy(cmds[1..])
  }

  lemma FlattenEmpty()
    ensures Flatten([]) == []
  {
  }

  lemma {:induction false} FlattenConcat(a: seq<Argv>, b: seq<Argv>)
    ensures Flatten(a + b) == Flatten(a) + Flatten(b)
    decreases |a|
  {
    if a == [] {
      assert a + b == b;
    } else {
      assert (a + b)[1..] == a[1..] + b;
      FlattenConcat(a[1..], b);
    }
  }
}
