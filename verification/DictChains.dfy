/** Chained hash tables: what rehashing does to the chains, apart from their pointers. */
module DictChains {
  type Key = seq<nat>
  type Value = int

  /** An entry: the key never changes, the value and the link do. */
  class Node {
    const key: Key
    var val: Value
    var next: Node?

    constructor (k: Key, v: Value)
      ensures key == k && val == v && next == null
    {
      key, val, next := k, v, null;
    }
  }

  type Chains = seq<seq<Node>>

  const INITIAL_SIZE: nat := 4
  const LONG_MAX: nat := 0x7FFF_FFFF_FFFF_FFFF

  /** The bucket of a key: the hash masked with the size less one. */
  function Index(hash: Key -> nat, key: Key, size: nat): (i: nat)
    requires size > 0
    ensures i < size
  {
    hash(key) % size
  }

  ghost function Nodes(cs: Chains): set<Node> { set b, n | 0 <= b < |cs| && n in cs[b] :: n }

  ghost function Members(c: seq<Node>): set<Node> { set n | n in c }

  lemma WhichBucket(cs: Chains, n: Node) returns (b: int)
    requires n in Nodes(cs)
    ensures 0 <= b < |cs| && n in cs[b]
  {
    b :| 0 <= b < |cs| && n in cs[b];
  }

  ghost predicate Placed(hash: Key -> nat, cs: Chains) {
    forall b, n :: 0 <= b < |cs| && n in cs[b] ==> Index(hash, n.key, |cs|) == b
  }

  ghost predicate UniqueIn(c: seq<Node>) {
    forall i, j :: 0 <= i < j < |c| ==> c[i].key != c[j].key
  }

  ghost predicate Unique(cs: Chains) { forall b :: 0 <= b < |cs| ==> UniqueIn(cs[b]) }

  function Total(cs: Chains): nat { if cs == [] then 0 else |cs[0]| + Total(cs[1..]) }

  /** Two nodes with one key are one node. */
  lemma SameNode(hash: Key -> nat, cs: Chains, a: int, b: int, x: Node, y: Node)
    requires Placed(hash, cs) && Unique(cs) && 0 <= a < |cs| && 0 <= b < |cs|
    requires x in cs[a] && y in cs[b] && x.key == y.key
    ensures a == b && x == y
  {
    assert UniqueIn(cs[a]);
    var i :| 0 <= i < |cs[a]| && cs[a][i] == x;
    assert a == b;
    var j :| 0 <= j < |cs[a]| && cs[a][j] == y;
  }

  // ---------------------------------------------------------------- putting a node in front

  ghost function Push(hash: Key -> nat, cs: Chains, n: Node): (r: Chains)
    requires cs != []
    ensures |r| == |cs|
  {
    var h := Index(hash, n.key, |cs|);
    cs[h := [n] + cs[h]]
  }

  lemma {:induction false} TotalConcat(a: Chains, b: Chains)
    ensures Total(a + b) == Total(a) + Total(b)
    decreases |a|
  {
    if a == [] {
      assert a + b == b;
    } else {
      assert (a + b)[1..] == a[1..] + b;
      TotalConcat(a[1..], b);
    }
  }

  lemma TotalUpdate(cs: Chains, h: nat, c: seq<Node>)
    requires h < |cs|
    ensures Total(cs[h := c]) == Total(cs) - |cs[h]| + |c|
  {
    var a, b := cs[..h], cs[h + 1..];
    assert cs == a + ([cs[h]] + b) && cs[h := c] == a + ([c] + b);
    TotalConcat(a, [cs[h]] + b);
    TotalConcat(a, [c] + b);
    assert ([cs[h]] + b)[1..] == b && ([c] + b)[1..] == b;
  }

  lemma PushKeeps(hash: Key -> nat, cs: Chains, n: Node)
    requires cs != [] && Placed(hash, cs) && Unique(cs)
    requires forall b, x :: 0 <= b < |cs| && x in cs[b] ==> x.key != n.key
    ensures var r := Push(hash, cs, n);
      && |r| == |cs| && Placed(hash, r) && Unique(r) && Total(r) == Total(cs) + 1
      && Nodes(r) == Nodes(cs) + {n}
  {
    var h := Index(hash, n.key, |cs|);
    var r := Push(hash, cs, n);
    TotalUpdate(cs, h, [n] + cs[h]);
    FrontUnique(n, cs[h]);
    forall x ensures x in Nodes(r) <==> x in Nodes(cs) || x == n { PushNode(hash, cs, n, x); }
  }

  lemma FrontUnique(n: Node, c: seq<Node>)
    requires UniqueIn(c) && forall x :: x in c ==> x.key != n.key
    ensures UniqueIn([n] + c)
  {
    var u := [n] + c;
    assert forall i :: 1 <= i < |u| ==> u[i] == c[i - 1] && u[i] in c;
  }

  lemma PushNode(hash: Key -> nat, cs: Chains, n: Node, x: Node)
    requires cs != []
    ensures x in Nodes(Push(hash, cs, n)) <==> x in Nodes(cs) || x == n
  {
    var h := Index(hash, n.key, |cs|);
    var r := Push(hash, cs, n);
    assert n in r[h];
    if x in Nodes(cs) {
      var b := WhichBucket(cs, x);
      assert x in r[b];
    }
    if x in Nodes(r) && x != n {
      var b := WhichBucket(r, x);
      assert x in cs[b];
    }
  }

  // ---------------------------------------------------------------- moving a chain

  ghost function PushAll(hash: Key -> nat, cs: Chains, c: seq<Node>): (r: Chains)
    requires cs != []
    ensures |r| == |cs|
    decreases |c|
  {
    if c == [] then cs else PushAll(hash, Push(hash, cs, c[0]), c[1..])
  }

  lemma {:induction false} PushAllMore(hash: Key -> nat, cs: Chains, c: seq<Node>, n: Node)
    requires cs != []
    ensures PushAll(hash, cs, c + [n]) == Push(hash, PushAll(hash, cs, c), n)
    decreases |c|
  {
    hide Push;
    if c == [] {
      assert c + [n] == [n];
      assert [n][1..] == [];
    } else {
      assert (c + [n])[1..] == c[1..] + [n];
      PushAllMore(hash, Push(hash, cs, c[0]), c[1..], n);
    }
  }

  /** Keys of one chain, none of them in the table yet. */
  ghost predicate NewTo(cs: Chains, c: seq<Node>) {
    UniqueIn(c) && forall b, x, y :: 0 <= b < |cs| && x in cs[b] && y in c ==> x.key != y.key
  }

  lemma {:induction false} PushAllKeeps(hash: Key -> nat, cs: Chains, c: seq<Node>)
    requires cs != [] && Placed(hash, cs) && Unique(cs) && NewTo(cs, c)
    ensures var r := PushAll(hash, cs, c);
      && Placed(hash, r) && Unique(r) && Total(r) == Total(cs) + |c|
      && Nodes(r) == Nodes(cs) + Members(c)
    decreases |c|
  {
    if c != [] {
      var r := Push(hash, cs, c[0]);
      PushKeeps(hash, cs, c[0]);
      assert c == [c[0]] + c[1..];
      NewToRest(hash, cs, c);
      PushAllKeeps(hash, r, c[1..]);
    }
  }

  lemma NewToRest(hash: Key -> nat, cs: Chains, c: seq<Node>)
    requires cs != [] && NewTo(cs, c) && c != []
    ensures NewTo(Push(hash, cs, c[0]), c[1..])
  {
    var t := c[1..];
    var r := Push(hash, cs, c[0]);
    assert forall i :: 0 <= i < |t| ==> t[i] == c[i + 1];
    forall b, x: Node, y: Node | 0 <= b < |r| && x in r[b] && y in t ensures x.key != y.key {
      assert y in c;
      if x == c[0] {
        var i :| 0 <= i < |t| && t[i] == y;
        assert c[0].key != c[i + 1].key;
      } else {
        assert x in cs[b];
      }
    }
  }

  /** The next bucket has keys the new table does not have yet. */
  lemma NextBucketNew(hash: Key -> nat, cs: Chains, nc: Chains, i: nat)
    requires Placed(hash, cs) && Unique(cs) && i < |cs| && Nodes(nc) == Nodes(cs[..i])
    ensures NewTo(nc, cs[i])
  {
    assert UniqueIn(cs[i]);
    forall b, x: Node, y: Node | 0 <= b < |nc| && x in nc[b] && y in cs[i] ensures x.key != y.key {
      assert x in Nodes(nc);
      var a := WhichBucket(cs[..i], x);
      assert x in cs[a];
      if x.key == y.key { SameNode(hash, cs, a, i, x, y); }
    }
  }

  lemma OneBucketMore(cs: Chains, i: nat)
    requires i < |cs|
    ensures Nodes(cs[..i + 1]) == Nodes(cs[..i]) + Members(cs[i])
  {
    forall x ensures x in Nodes(cs[..i + 1]) <==> x in Nodes(cs[..i]) || x in cs[i] {
      if x in Nodes(cs[..i + 1]) && x !in cs[i] {
        var b := WhichBucket(cs[..i + 1], x);
        assert x in cs[..i][b];
      }
      if x in Nodes(cs[..i]) {
        var b := WhichBucket(cs[..i], x);
        assert x in cs[..i + 1][b];
      }
      if x in cs[i] { assert x in cs[..i + 1][i]; }
    }
  }

  // ---------------------------------------------------------------- taking a node out

  ghost function Cut(cs: Chains, b: nat, j: nat): Chains
    requires b < |cs| && j < |cs[b]|
  {
    cs[b := cs[b][..j] + cs[b][j + 1..]]
  }

  lemma CutKeeps(hash: Key -> nat, cs: Chains, b: nat, j: nat)
    requires Placed(hash, cs) && Unique(cs) && b < |cs| && j < |cs[b]|
    ensures var r := Cut(cs, b, j);
      && Placed(hash, r) && Unique(r) && Total(r) == Total(cs) - 1
      && Nodes(r) == Nodes(cs) - {cs[b][j]}
  {
    var c, n := cs[b], cs[b][j];
    var d := c[..j] + c[j + 1..];
    var r := Cut(cs, b, j);
    TotalUpdate(cs, b, d);
    assert UniqueIn(c);
    CutUnique(c, j);
    assert forall x :: x in d ==> x in c;
    forall x ensures x in Nodes(r) <==> x in Nodes(cs) && x != n {
      if x in Nodes(r) {
        var a := WhichBucket(r, x);
        assert x in cs[a];
        if x == n { SameNode(hash, cs, a, b, x, n); }
      }
      if x in Nodes(cs) && x != n {
        var a := WhichBucket(cs, x);
        if a == b { InCut(c, j, x); }
        assert x in r[a];
      }
    }
  }

  lemma CutUnique(c: seq<Node>, j: nat)
    requires UniqueIn(c) && j < |c|
    ensures UniqueIn(c[..j] + c[j + 1..]) && c[j] !in c[..j] + c[j + 1..]
  {
    var d := c[..j] + c[j + 1..];
    assert forall i :: 0 <= i < |d| ==> d[i] == if i < j then c[i] else c[i + 1];
  }

  lemma InCut(c: seq<Node>, j: nat, x: Node)
    requires j < |c| && x in c && x != c[j]
    ensures x in c[..j] + c[j + 1..]
  {
    var i :| 0 <= i < |c| && c[i] == x;
    var d := c[..j] + c[j + 1..];
    if i < j { assert d[i] == x; } else { assert d[i - 1] == x; }
  }
}
