/** redis-1.3.6/dict.c on its bucket array and linked entries. */
module DictCode {
  import opened DictChains

  /** `head` and the links that follow it spell `c`. */
  ghost predicate Chain(head: Node?, c: seq<Node>)
    reads c
  {
    if c == [] then head == null
    else head == c[0] && c[|c| - 1].next == null && forall j :: 0 <= j < |c| - 1 ==> c[j].next == c[j + 1]
  }

  lemma ChainTail(head: Node?, c: seq<Node>)
    requires Chain(head, c) && c != []
    ensures Chain(c[0].next, c[1..])
  {
    var t := c[1..];
    assert forall j :: 0 <= j < |t| ==> t[j] == c[j + 1];
  }

  lemma ChainFront(n: Node, head: Node?, c: seq<Node>)
    requires Chain(head, c) && n.next == head
    ensures Chain(n, [n] + c)
  {
    var u := [n] + c;
    assert forall j :: 1 <= j < |u| ==> u[j] == c[j - 1];
  }

  ghost predicate Linked(table: array<Node?>, cs: Chains)
    reads table, Nodes(cs)
  {
    table.Length == |cs| && forall b :: 0 <= b < |cs| ==> (InNodes(cs, b); Chain(table[b], cs[b]))
  }

  lemma InNodes(cs: Chains, b: int)
    requires 0 <= b < |cs|
    ensures forall n :: n in cs[b] ==> n in Nodes(cs)
  {
  }

  /** Puts an entry that is in no chain in front of its bucket. */
  method Prepend(hash: Key -> nat, table: array<Node?>, n: Node, ghost cs: Chains)
    requires cs != [] && Linked(table, cs) && n !in Nodes(cs)
    modifies table, n`next
    ensures Linked(table, Push(hash, cs, n))
  {
    var h := Index(hash, n.key, table.Length);
    assert forall b :: 0 <= b < |cs| ==> n !in cs[b];
    n.next := table[h];
    table[h] := n;
    assert forall b :: 0 <= b < |cs| ==> Chain(if b == h then n.next else table[b], cs[b]);
    ChainFront(n, n.next, cs[h]);
  }

  /** Moves the entries of one old bucket, first to last, to the front of their new buckets. */
  method MoveBucket(hash: Key -> nat, table: array<Node?>, head: Node?, left: nat, ghost c: seq<Node>, ghost cs: Chains)
    returns (left': nat)
    requires cs != [] && Linked(table, cs) && Chain(head, c) && NewTo(cs, c) && Placed(hash, cs) && Unique(cs)
    requires left >= |c|
    modifies table, c`next
    ensures Linked(table, PushAll(hash, cs, c)) && left' == left - |c|
  {
    hide Linked, Chain, PushAll, Push;
    var he := head;
    left' := left;
    ghost var k := 0;
    assert c[0..] == c && c[..0] == [];
    ghost var cur := cs;
    PushNone(hash, cs);
    while he != null
      invariant 0 <= k <= |c| && Chain(he, c[k..]) && left' == left - k
      invariant cur == PushAll(hash, cs, c[..k]) && Linked(table, cur)
      decreases |c| - k
    {
      HeadOf(he, c[k..]);
      var next := he.next;
      ChainTail(he, c[k..]);
      assert c[k..][1..] == c[k + 1..];
      NotYet(hash, cs, c, k);
      Prepend(hash, table, he, cur);
      PushAllMore(hash, cs, c[..k], c[k]);
      assert c[..k + 1] == c[..k] + [c[k]];
      cur := Push(hash, cur, c[k]);
      left' := left' - 1;
      he := next;
      k := k + 1;
    }
    EndOf(c[k..]);
    assert c[..|c|] == c;
  }

  lemma PushNone(hash: Key -> nat, cs: Chains)
    requires cs != []
    ensures PushAll(hash, cs, []) == cs
  {
  }

  lemma HeadOf(he: Node?, c: seq<Node>)
    requires Chain(he, c) && he != null
    ensures c != [] && he == c[0]
  {
  }

  lemma EndOf(c: seq<Node>)
    requires Chain(null, c)
    ensures c == []
  {
  }

  lemma NotYet(hash: Key -> nat, cs: Chains, c: seq<Node>, k: nat)
    requires cs != [] && NewTo(cs, c) && Placed(hash, cs) && Unique(cs) && k < |c|
    ensures c[k] !in Nodes(PushAll(hash, cs, c[..k])) && c[k] !in c[k + 1..]
  {
    var p := c[..k];
    assert UniqueIn(p) && forall x :: x in p ==> x in c;
    PushAllKeeps(hash, cs, p);
    assert c[k] in c && c[k] !in p;
    if c[k] in Nodes(cs) { var b := WhichBucket(cs, c[k]); }
  }

  // ---------------------------------------------------------------- sizes

  predicate PowerOfTwo(n: nat) { n == 1 || (n > 1 && n % 2 == 0 && PowerOfTwo(n / 2)) }

  lemma SmallPowers(n: nat)
    requires PowerOfTwo(n) && n > 4
    ensures n >= 8
  {
    assert !PowerOfTwo(3);
  }

  /** Between a power of two and its double there is no other. */
  lemma {:induction false} NoPowerBetween(a: nat, b: nat)
    requires PowerOfTwo(a) && PowerOfTwo(b) && a <= b < 2 * a
    ensures a == b
    decreases a
  {
    if a > 1 && b > 1 { NoPowerBetween(a / 2, b / 2); }
  }

  /** The low bits of a number, as masking with a power of two less one keeps them. */
  function LowBits(h: nat, n: nat): nat { if n <= 1 then 0 else h % 2 + 2 * LowBits(h / 2, n / 2) }

  lemma Remainder(h: nat, n: nat, a: nat, r: nat)
    requires n > 0 && h == a * n + r && r < n
    ensures h % n == r
  {
    var b := h / n;
    assert h == b * n + h % n;
    if b < a { Multiple(a - b, n, a, b); } else if b > a { Multiple(b - a, n, b, a); }
  }

  lemma Multiple(d: nat, n: nat, a: nat, b: nat)
    requires d > 0 && n > 0 && a == b + d
    ensures a * n >= b * n + n
  {
    assert a * n == b * n + d * n;
    assert d * n >= n by { assert (d - 1) * n >= 0; }
  }

  /** For a table of a power of two, the remainder is the mask. */
  lemma {:induction false} MaskIsRemainder(h: nat, n: nat)
    requires PowerOfTwo(n)
    ensures h % n == LowBits(h, n)
    decreases n
  {
    if n > 1 {
      MaskIsRemainder(h / 2, n / 2);
      HalfRemainder(h, n / 2);
    }
  }

  lemma HalfRemainder(h: nat, m: nat)
    requires m > 0
    ensures h % (2 * m) == h % 2 + 2 * (h / 2 % m)
  {
    var q, n := h / 2, 2 * m;
    var a, r := q / m, q % m;
    assert q == a * m + r;
    Doubled(a, m);
    Remainder(h, n, a, 2 * r + h % 2);
  }

  lemma Doubled(a: nat, m: nat)
    ensures a * (2 * m) == 2 * (a * m)
  {
  }

  lemma IndexIsMask(hash: Key -> nat, key: Key, n: nat)
    requires PowerOfTwo(n)
    ensures Index(hash, key, n) == LowBits(hash(key), n)
  {
    MaskIsRemainder(hash(key), n);
  }

  lemma DoubledPower(a: nat)
    requires PowerOfTwo(a)
    ensures PowerOfTwo(2 * a)
  {
    assert (2 * a) / 2 == a;
  }

  lemma InitialPower()
    ensures PowerOfTwo(INITIAL_SIZE)
  {
    assert PowerOfTwo(1) && PowerOfTwo(2);
  }

  /** The size of the table that takes one more entry. */
  function GrownSize(size: nat, used: nat): nat {
    if size == 0 then INITIAL_SIZE else if used == size then 2 * size else size
  }

  /** _dictNextPower. */
  method NextPower(size: nat) returns (n: nat)
    ensures size < LONG_MAX ==> PowerOfTwo(n) && n >= size && n >= INITIAL_SIZE
    ensures size < LONG_MAX && n > INITIAL_SIZE ==> n / 2 < size
    ensures size >= LONG_MAX ==> n == LONG_MAX
  {
    if size >= LONG_MAX { return LONG_MAX; }
    n := INITIAL_SIZE;
    while n < size
      invariant PowerOfTwo(n) && n >= INITIAL_SIZE && (n > INITIAL_SIZE ==> n / 2 < size)
      decreases 2 * size - n
    {
      assert (2 * n) / 2 == n;
      n := n * 2;
    }
  }

  // ---------------------------------------------------------------- the table

  ghost predicate HasKey(cs: Chains, k: Key) { exists n :: n in Nodes(cs) && n.key == k }

  /** The entries are the map. */
  ghost predicate Holds(cs: Chains, m: map<Key, Value>)
    reads Nodes(cs)
  {
    && (forall n :: n in Nodes(cs) ==> n.key in m && m[n.key] == n.val)
    && (forall k :: k in m ==> HasKey(cs, k))
  }

  /** Nothing is left to move. */
  lemma {:induction false} NoneLeft(cs: Chains, i: nat)
    requires i <= |cs| && Total(cs[i..]) == 0
    ensures Nodes(cs) == Nodes(cs[..i])
    decreases |cs| - i
  {
    if i < |cs| {
      assert cs[i..][1..] == cs[i + 1..];
      NoneLeft(cs, i + 1);
      OneBucketMore(cs, i);
      assert Members(cs[i]) == {};
    } else {
      assert cs[..i] == cs;
    }
  }

  class Dict {
    const hash: Key -> nat
    var table: array<Node?>
    var size: nat
    var used: nat
    ghost var chains: Chains
    ghost var m: map<Key, Value>

    ghost predicate Valid()
      reads this, table, Nodes(chains)
    {
      && |chains| == size && used <= size && (size == 0 || (PowerOfTwo(size) && size >= INITIAL_SIZE))
      && Linked(table, chains) && Placed(hash, chains) && Unique(chains)
      && Total(chains) == used == |m| && Holds(chains, m)
    }

    /** dictCreate. */
    constructor (hash: Key -> nat)
      ensures Valid() && m == map[] && size == 0 && this.hash == hash && fresh(table)
    {
      this.hash := hash;
      table := new Node?[0];
      size, used, chains, m := 0, 0, [], map[];
    }

    /** dictExpand: moves every entry to a table of the next power of two. Refused when the
        entries would not fit. */
    method Expand(sz: nat) returns (ok: bool)
      requires Valid() && sz < LONG_MAX
      modifies this`table, this`size, this`chains, Nodes(chains)`next
      ensures Valid() && ok == (old(used) <= sz)
      ensures ok && size > INITIAL_SIZE ==> size / 2 < sz
      ensures ok ==> size >= sz && size >= INITIAL_SIZE && fresh(table) && Nodes(chains) == old(Nodes(chains))
      ensures !ok ==> table == old(table) && size == old(size) && chains == old(chains)
    {
      hide Linked, Placed, Unique, Total, PowerOfTwo, Holds;
      var realsize := NextPower(sz);
      if used > sz { return false; }
      ghost var cs := chains;
      var t;
      ghost var nc;
      t, nc := MoveAll(hash, table, size, used, realsize, cs, m);
      table, size, chains := t, realsize, nc;
      ok := true;
    }

    /** dictResize. */
    method Resize() returns (ok: bool)
      requires Valid() && used < LONG_MAX
      modifies this`table, this`size, this`chains, Nodes(chains)`next
      ensures INITIAL_SIZE <= size && used <= size && (size > INITIAL_SIZE ==> size / 2 < used)
      ensures Valid() && ok && m == old(m) && fresh(table) && Nodes(chains) == old(Nodes(chains))
    {
      hide Linked, Placed, Unique, Total, PowerOfTwo, Holds;
      var minimal := used;
      if minimal < INITIAL_SIZE { minimal := INITIAL_SIZE; }
      ok := Expand(minimal);
      if size > INITIAL_SIZE { SmallPowers(size); }
    }

    /** _dictExpandIfNeeded. */
    method ExpandIfNeeded()
      requires Valid() && 2 * size < LONG_MAX
      modifies this`table, this`size, this`chains, Nodes(chains)`next
      ensures Valid() && size > used && Nodes(chains) == old(Nodes(chains)) && (table == old(table) || fresh(table))
      ensures size == GrownSize(old(size), used)
    {
      hide Linked, Placed, Unique, Total, PowerOfTwo, Holds;
      if size == 0 {
        var ok := Expand(INITIAL_SIZE);
        InitialPower();
        NoPowerBetween(INITIAL_SIZE, size);
      } else if used == size {
        ghost var doubled := size * 2;
        DoubledPower(size);
        var ok := Expand(size * 2);
        NoPowerBetween(doubled, size);
      }
    }

    /** dictFind, and the search of _dictKeyIndex. */
    method Find(key: Key) returns (he: Node?)
      requires Valid()
      ensures (he == null) == (key !in m)
      ensures he != null ==> he in Nodes(chains) && he.key == key && he.val == m[key]
    {
      hide Linked, Placed, Unique, Total, PowerOfTwo, Chain;
      if size == 0 {
        NoKeys(chains, m);
        return null;
      }
      var h := Index(hash, key, size);
      LinkedAt(table, chains, h);
      he := table[h];
      ghost var k := 0;
      ghost var c := chains[h];
      assert c[0..] == c;
      while he != null
        invariant 0 <= k <= |c| && Chain(he, c[k..]) && forall j :: 0 <= j < k ==> c[j].key != key
        decreases |c| - k
      {
        HeadOf(he, c[k..]);
        InNodes(chains, h);
        if he.key == key { return; }
        ChainTail(he, c[k..]);
        assert c[k..][1..] == c[k + 1..];
        he := he.next;
        k := k + 1;
      }
      EndOf(c[k..]);
      NotInBucket(hash, chains, h, key);
      NoKey(chains, m, key);
    }

    /** dictAdd: refused when the key is there. */
    method Add(key: Key, val: Value) returns (ok: bool)
      requires Valid() && 2 * size < LONG_MAX
      modifies this, table, Nodes(chains)`next
      ensures Valid() && ok == (key !in old(m))
      ensures m == if ok then old(m)[key := val] else old(m)
      ensures Nodes(chains) >= Nodes(old(chains)) && fresh(Nodes(chains) - Nodes(old(chains)))
      ensures (table == old(table) || fresh(table)) && size == GrownSize(old(size), old(used))
    {
      hide Linked, Placed, Unique, Total, PowerOfTwo, Holds, Nodes;
      ExpandIfNeeded();
      assert allocated(Nodes(chains));
      var he := Find(key);
      if he != null { return false; }
      var n := Insert(key, val);
      ok := true;
    }

    method Insert(key: Key, val: Value) returns (n: Node)
      requires Valid() && used < size && key !in m
      modifies this`chains, this`m, this`used, table
      ensures Valid() && m == old(m)[key := val] && fresh(n) && Nodes(chains) == Nodes(old(chains)) + {n}
    {
      hide Linked, Placed, Unique, Total, PowerOfTwo, Holds;
      assert allocated(Nodes(chains));
      n := new Node(key, val);
      AddNode(hash, table, n, chains, m);
      chains := Push(hash, chains, n);
      m := m[key := val];
      used := used + 1;
    }

    /** dictReplace: whether the key was added. */
    method Replace(key: Key, val: Value) returns (added: bool)
      requires Valid() && 2 * size < LONG_MAX
      modifies this, table, Nodes(chains)
      ensures Valid() && added == (key !in old(m)) && m == old(m)[key := val]
      ensures Nodes(chains) >= Nodes(old(chains)) && fresh(Nodes(chains) - Nodes(old(chains)))
      ensures (table == old(table) || fresh(table)) && size == GrownSize(old(size), old(used))
    {
      hide Linked, Placed, Unique, Total, PowerOfTwo, Holds, GrownSize;
      added := Add(key, val);
      if added { return; }
      var he := Find(key);
      SetValue(hash, he, val, table, chains, m);
      m := m[key := val];
    }

    /** dictGenericDelete; `b` and `j` tell where the entry was. */
    method Delete(key: Key) returns (ok: bool, ghost b: nat, ghost j: nat)
      requires Valid()
      modifies this`chains, this`m, this`used, table, Nodes(chains)`next
      ensures Valid() && ok == (key in old(m)) && m == old(m) - {key}
      ensures ok ==> b < |old(chains)| && j < |old(chains)[b]| && old(chains)[b][j].key == key
      ensures ok ==> chains == Cut(old(chains), b, j)
      ensures !ok ==> chains == old(chains)
      ensures Nodes(chains) <= Nodes(old(chains))
    {
      hide Linked, Placed, Unique, Total, PowerOfTwo, Holds;
      b, j := 0, 0;
      if size == 0 {
        NoKeys(chains, m);
        return false, 0, 0;
      }
      var h, he, prev;
      ghost var k;
      h, he, prev, k := Locate(key);
      if he == null { return false, 0, 0; }
      b, j := h, k;
      UnlinkNode(hash, table, h, he, prev, chains, k, m);
      ghost var r := Cut(chains, h, k);
      assert allocated(Nodes(r));
      chains := r;
      m := m - {key};
      used := used - 1;
      ok := true;
    }

    /** The search of dictGenericDelete: the entry and the one before it. */
    method Locate(key: Key) returns (h: nat, he: Node?, prev: Node?, ghost k: nat)
      requires Valid() && size > 0
      ensures (he == null) == (key !in m)
      ensures he != null ==> h < |chains| && k < |chains[h]| && chains[h][k] == he && he.key == key
      ensures he != null ==> prev == if k == 0 then null else chains[h][k - 1]
    {
      hide Linked, Placed, Unique, Total, PowerOfTwo, Chain;
      h := Index(hash, key, size);
      LinkedAt(table, chains, h);
      he := table[h];
      prev := null;
      k := 0;
      ghost var c := chains[h];
      assert c[0..] == c;
      while he != null && he.key != key
        invariant 0 <= k <= |c| && Chain(he, c[k..]) && prev == (if k == 0 then null else c[k - 1])
        invariant forall i :: 0 <= i < k ==> c[i].key != key
        decreases |c| - k
      {
        HeadOf(he, c[k..]);
        ChainTail(he, c[k..]);
        assert c[k..][1..] == c[k + 1..];
        prev := he;
        he := he.next;
        k := k + 1;
      }
      if he == null {
        EndOf(c[k..]);
        NotInBucket(hash, chains, h, key);
        NoKey(chains, m, key);
      } else {
        HeadOf(he, c[k..]);
        InNodes(chains, h);
      }
    }
  }

  /** Takes the entry out of its chain. */
  method Unlink(table: array<Node?>, h: nat, he: Node, prev: Node?, ghost cs: Chains, ghost j: nat)
    requires h < |cs| && j < |cs[h]| && Linked(table, cs) && cs[h][j] == he
    requires prev == (if j == 0 then null else cs[h][j - 1])
    requires UniqueIn(cs[h]) && forall b :: 0 <= b < |cs| && b != h && prev != null ==> prev !in cs[b]
    modifies table, (if prev == null then {} else {prev})`next
    ensures Linked(table, Cut(cs, h, j))
  {
    ghost var c := cs[h];
    ghost var d := c[..j] + c[j + 1..];
    LinkedAt(table, cs, h);
    assert forall b :: 0 <= b < |cs| ==> Chain(table[b], cs[b]);
    if prev != null {
      prev.next := he.next;
    } else {
      table[h] := he.next;
    }
    assert forall i :: 0 <= i < |d| ==> d[i] == if i < j then c[i] else c[i + 1];
    assert Chain(table[h], d);
    assert forall b :: 0 <= b < |cs| && b != h ==> Chain(table[b], cs[b]);
  }

  method UnlinkNode(hash: Key -> nat, table: array<Node?>, h: nat, he: Node, prev: Node?,
                    ghost cs: Chains, ghost j: nat, ghost m: map<Key, Value>)
    requires h < |cs| && j < |cs[h]| && Linked(table, cs) && Placed(hash, cs) && Unique(cs) && Holds(cs, m)
    requires cs[h][j] == he && prev == (if j == 0 then null else cs[h][j - 1])
    modifies table, Nodes(cs)`next
    ensures var r := Cut(cs, h, j);
      && Linked(table, r) && Placed(hash, r) && Unique(r) && Total(r) == Total(cs) - 1
      && Holds(r, m - {he.key}) && he.key in m && |m - {he.key}| == |m| - 1 && Nodes(r) <= Nodes(cs)
  {
    hide Linked, Total, Cut;
    assert UniqueIn(cs[h]);
    InNodes(cs, h);
    CutKeeps(hash, cs, h, j);
    OnlyOne(hash, cs, he);
    if prev != null { PrevApart(hash, cs, h, prev); }
    assert (m - {he.key}).Keys == m.Keys - {he.key};
    Unlink(table, h, he, prev, cs, j);
    assert Holds(cs, m);
    CutHolds(cs, Cut(cs, h, j), m, he);
  }

  lemma PrevApart(hash: Key -> nat, cs: Chains, h: nat, prev: Node)
    requires Placed(hash, cs) && h < |cs| && prev in cs[h]
    ensures forall b :: 0 <= b < |cs| && b != h ==> prev !in cs[b]
    ensures prev in Nodes(cs)
  {
    InNodes(cs, h);
    forall b | 0 <= b < |cs| && b != h ensures prev !in cs[b] { assert Index(hash, prev.key, |cs|) == h; }
  }

  lemma CutHolds(cs: Chains, r: Chains, m: map<Key, Value>, he: Node)
    requires Holds(cs, m) && Nodes(r) == Nodes(cs) - {he} && forall n :: n in Nodes(cs) && n.key == he.key ==> n == he
    ensures Holds(r, m - {he.key})
  {
    hide Nodes;
    var w := m - {he.key};
    forall k | k in w ensures HasKey(r, k) {
      assert HasKey(cs, k);
      var n :| n in Nodes(cs) && n.key == k;
      assert n in Nodes(r);
    }
  }

  lemma NoKey(cs: Chains, m: map<Key, Value>, key: Key)
    requires Holds(cs, m) && !HasKey(cs, key)
    ensures key !in m
  {
  }

  method AddNode(hash: Key -> nat, table: array<Node?>, n: Node, ghost cs: Chains, ghost m: map<Key, Value>)
    requires cs != [] && Linked(table, cs) && Placed(hash, cs) && Unique(cs) && Holds(cs, m)
    requires n.key !in m && n !in Nodes(cs)
    modifies table, n`next
    ensures var r := Push(hash, cs, n);
      && Linked(table, r) && Placed(hash, r) && Unique(r) && Total(r) == Total(cs) + 1
      && Nodes(r) == Nodes(cs) + {n} && Holds(r, m[n.key := n.val])
  {
    hide Linked, Placed, Unique, Total, Holds, Push;
    NewKey(cs, m, n.key);
    PushKeeps(hash, cs, n);
    Prepend(hash, table, n, cs);
    PushHolds(hash, cs, m, n);
  }

  method SetValue(hash: Key -> nat, he: Node, val: Value, table: array<Node?>,
                  ghost cs: Chains, ghost m: map<Key, Value>)
    requires Linked(table, cs) && Placed(hash, cs) && Unique(cs) && Holds(cs, m) && he in Nodes(cs)
    modifies he`val
    ensures Linked(table, cs) && Holds(cs, m[he.key := val])
  {
    hide Linked, Placed, Unique;
    OnlyOne(hash, cs, he);
    StoreValue(he, val, table, cs);
    ghost var r := m[he.key := val];
    forall k | k in r ensures HasKey(cs, k) {
      if k == he.key { assert he in Nodes(cs); } else { assert HasKey(cs, k); }
    }
  }

  method StoreValue(he: Node, val: Value, table: array<Node?>, ghost cs: Chains)
    requires Linked(table, cs)
    modifies he`val
    ensures Linked(table, cs) && he.val == val
  {
    he.val := val;
    assert forall b :: 0 <= b < |cs| ==> Chain(table[b], cs[b]);
  }

  lemma OnlyOne(hash: Key -> nat, cs: Chains, he: Node)
    requires Placed(hash, cs) && Unique(cs) && he in Nodes(cs)
    ensures forall n :: n in Nodes(cs) && n.key == he.key ==> n == he
  {
    var b := WhichBucket(cs, he);
    forall n | n in Nodes(cs) && n.key == he.key ensures n == he {
      var a := WhichBucket(cs, n);
      SameNode(hash, cs, a, b, n, he);
    }
  }

  lemma NotInBucket(hash: Key -> nat, cs: Chains, h: nat, key: Key)
    requires Placed(hash, cs) && h < |cs| && h == Index(hash, key, |cs|) && forall n :: n in cs[h] ==> n.key != key
    ensures !HasKey(cs, key)
  {
    forall n | n in Nodes(cs) ensures n.key != key {
      var b := WhichBucket(cs, n);
      assert Index(hash, n.key, |cs|) == b;
    }
  }

  lemma NewKey(cs: Chains, m: map<Key, Value>, key: Key)
    requires Holds(cs, m) && key !in m
    ensures forall b, x :: 0 <= b < |cs| && x in cs[b] ==> x.key != key
    ensures forall n :: n in Nodes(cs) ==> n.key != key
  {
    forall b, x: Node | 0 <= b < |cs| && x in cs[b] ensures x.key != key { InNodes(cs, b); }
  }

  lemma PushHolds(hash: Key -> nat, cs: Chains, m: map<Key, Value>, n: Node)
    requires cs != [] && Holds(cs, m) && n.key !in m && Nodes(Push(hash, cs, n)) == Nodes(cs) + {n}
    ensures Holds(Push(hash, cs, n), m[n.key := n.val])
  {
    hide Nodes, Push;
    var r := Push(hash, cs, n);
    forall k | k in m[n.key := n.val] ensures HasKey(r, k) {
      if k == n.key { assert n in Nodes(r); } else { assert HasKey(cs, k); }
    }
  }

  lemma NoKeys(cs: Chains, m: map<Key, Value>)
    requires cs == [] && Holds(cs, m)
    ensures m == map[]
  {
    forall k ensures !HasKey(cs, k) { }
  }

  lemma LinkedAt(table: array<Node?>, cs: Chains, h: nat)
    requires h < |cs| && Linked(table, cs)
    ensures table.Length == |cs| && Chain(table[h], cs[h])
  {
  }

  lemma SameHolds(cs: Chains, nc: Chains, m: map<Key, Value>)
    requires Holds(cs, m) && Nodes(nc) == Nodes(cs)
    ensures Holds(nc, m)
  {
    hide Nodes;
    forall k | k in m ensures HasKey(nc, k) { assert HasKey(cs, k); }
  }

  method MoveAll(hash: Key -> nat, table: array<Node?>, size: nat, used: nat, realsize: nat,
                 ghost cs: Chains, ghost m: map<Key, Value>)
    returns (t: array<Node?>, ghost nc: Chains)
    requires |cs| == size && realsize > 0 && Linked(table, cs) && Placed(hash, cs) && Unique(cs) && Total(cs) == used
    requires Holds(cs, m)
    modifies Nodes(cs)`next
    ensures fresh(t) && |nc| == realsize && Linked(t, nc) && Placed(hash, nc) && Unique(nc) && Total(nc) == used
    ensures Nodes(nc) == Nodes(cs) && Holds(nc, m)
  {
    hide Linked, Placed, Unique, Total;
    t, nc := Rehash(hash, table, size, used, realsize, cs);
    assert Holds(cs, m);
    SameHolds(cs, nc, m);
  }

  /** The loop of dictExpand: every entry ends up in its bucket of the new table, once. */
  method Rehash(hash: Key -> nat, table: array<Node?>, size: nat, used: nat, realsize: nat, ghost cs: Chains)
    returns (t: array<Node?>, ghost nc: Chains)
    requires |cs| == size && realsize > 0 && Linked(table, cs) && Placed(hash, cs) && Unique(cs) && Total(cs) == used
    modifies Nodes(cs)`next
    ensures fresh(t) && |nc| == realsize && Linked(t, nc) && Placed(hash, nc) && Unique(nc) && Total(nc) == used
    ensures Nodes(nc) == Nodes(cs)
  {
    hide Chain, Linked, Placed, Unique, PushAll, Total, LinkedFrom;
    t := new Node?[realsize](_ => null);
    nc := seq(realsize, _ => []);
    EmptyTable(hash, t, nc, cs);
    LinkedStart(table, cs);
    var i, left := 0, used;
    assert cs[0..] == cs;
    while i < size && left > 0
      invariant 0 <= i <= size && left == Total(cs[i..]) && |nc| == realsize
      invariant Linked(t, nc) && Placed(hash, nc) && Unique(nc) && Total(nc) + left == used
      invariant Nodes(nc) == Nodes(cs[..i]) && LinkedFrom(table, cs, i)
    {
      MoveReady(hash, cs, nc, i);
      BucketApart(hash, cs, i);
      LinkedStep(table, cs, i);
      left := MoveBucket(hash, t, table[i], left, cs[i], nc);
      nc := PushAll(hash, nc, cs[i]);
      i := i + 1;
    }
    AllMoved(cs, nc, i, left);
  }

  /** The buckets from `i` on are as they were. */
  ghost predicate LinkedFrom(table: array<Node?>, cs: Chains, i: nat)
    requires i <= |cs|
    reads table, Nodes(cs[i..])
  {
    table.Length == |cs| && Linked2(table, cs[i..], i)
  }

  ghost predicate Linked2(table: array<Node?>, cs: Chains, i: nat)
    reads table, Nodes(cs)
  {
    i + |cs| == table.Length && forall b :: 0 <= b < |cs| ==> (InNodes(cs, b); Chain(table[i + b], cs[b]))
  }

  lemma LinkedStart(table: array<Node?>, cs: Chains)
    requires Linked(table, cs)
    ensures LinkedFrom(table, cs, 0)
  {
    assert cs[0..] == cs;
  }

  lemma LinkedStep(table: array<Node?>, cs: Chains, i: nat)
    requires i < |cs| && LinkedFrom(table, cs, i)
    ensures table.Length == |cs| && Chain(table[i], cs[i]) && LinkedFrom(table, cs, i + 1)
  {
    var t, u := cs[i..], cs[i + 1..];
    assert Chain(table[i + 0], t[0]);
    forall b | 0 <= b < |u| ensures Chain(table[i + 1 + b], u[b]) { assert Chain(table[i + (b + 1)], t[b + 1]); }
  }

  lemma BucketApart(hash: Key -> nat, cs: Chains, i: nat)
    requires Placed(hash, cs) && i < |cs|
    ensures Nodes(cs[i + 1..]) !! Members(cs[i]) && Members(cs[i]) <= Nodes(cs)
  {
    forall n | n in Nodes(cs[i + 1..]) ensures n !in cs[i] {
      var b := WhichBucket(cs[i + 1..], n);
      var d := i + 1 + b;
      assert cs[i + 1..][b] == cs[d];
      assert Index(hash, n.key, |cs|) == d;
    }
  }

  lemma AllMoved(cs: Chains, nc: Chains, i: nat, left: nat)
    requires i <= |cs| && left == Total(cs[i..]) && (i == |cs| || left == 0)
    requires Nodes(nc) == Nodes(cs[..i])
    ensures Nodes(nc) == Nodes(cs) && left == 0
  {
    if i == |cs| { assert cs[i..] == []; }
    NoneLeft(cs, i);
  }

  lemma EmptyTable(hash: Key -> nat, t: array<Node?>, nc: Chains, cs: Chains)
    requires t.Length == |nc| && (forall b :: 0 <= b < |nc| ==> nc[b] == [] && t[b] == null)
    ensures Linked(t, nc) && Placed(hash, nc) && Unique(nc) && Total(nc) == 0
    ensures Nodes(nc) == Nodes(cs[..0])
  {
    EmptyTotal(nc);
  }

  lemma {:induction false} EmptyTotal(nc: Chains)
    requires forall b :: 0 <= b < |nc| ==> nc[b] == []
    ensures Total(nc) == 0
    decreases |nc|
  {
    if nc != [] { EmptyTotal(nc[1..]); }
  }

  lemma MoveReady(hash: Key -> nat, cs: Chains, nc: Chains, i: nat)
    requires Placed(hash, cs) && Unique(cs) && i < |cs| && Placed(hash, nc) && Unique(nc) && nc != []
    requires Nodes(nc) == Nodes(cs[..i])
    ensures NewTo(nc, cs[i])
    ensures var r := PushAll(hash, nc, cs[i]);
      Placed(hash, r) && Unique(r) && Total(r) == Total(nc) + |cs[i]| && Nodes(r) == Nodes(cs[..i + 1])
    ensures Total(cs[i..]) == |cs[i]| + Total(cs[i + 1..])
  {
    NextBucketNew(hash, cs, nc, i);
    PushAllKeeps(hash, nc, cs[i]);
    OneBucketMore(cs, i);
    assert cs[i..][1..] == cs[i + 1..];
  }

  // ---------------------------------------------------------------- iteration

  /** All entries, bucket by bucket. */
  ghost function Flat(cs: Chains): seq<Node> { if cs == [] then [] else cs[0] + Flat(cs[1..]) }

  ghost predicate Suffix(t: seq<Node>, c: seq<Node>) { |t| <= |c| && c[|c| - |t|..] == t }

  lemma ChainSuffix(head: Node?, c: seq<Node>, k: nat)
    requires Chain(head, c) && k <= |c|
    ensures Chain(if k < |c| then c[k] else null, c[k..])
  {
    var t := c[k..];
    assert forall j :: 0 <= j < |t| ==> t[j] == c[k + j];
  }

  /** Where an iterator stands: the bucket, the entry returned last, the one to return next, and
      the entries of the bucket still to come. The entry returned last may be gone. */
  ghost predicate Standing(cs: Chains, index: int, entry: Node?, nextEntry: Node?, rest: seq<Node>) {
    && -1 <= index <= |cs|
    && (entry == null ==> rest == [])
    && (entry != null ==> 0 <= index < |cs| && Suffix(rest, cs[index]))
    && (entry != null ==> nextEntry == if rest == [] then null else rest[0])
  }

  /** The entries it will still return. */
  ghost function Todo(cs: Chains, index: int, rest: seq<Node>): seq<Node>
    requires -1 <= index <= |cs|
  {
    rest + Flat(cs[if index < |cs| then index + 1 else index..])
  }

  /** The loop of dictNext. */
  method Advance(d: Dict, index: int, entry: Node?, nextEntry: Node?, ghost rest: seq<Node>)
    returns (i: int, e: Node?, n: Node?, ghost t: seq<Node>)
    requires d.Valid() && Standing(d.chains, index, entry, nextEntry, rest)
    ensures Standing(d.chains, i, e, n, t)
    ensures var todo := Todo(d.chains, index, rest);
      && (e == null) == (todo == [])
      && (e != null ==> e == todo[0] && Todo(d.chains, i, t) == todo[1..] && BeforeRest(d.chains, i, t, e))
  {
    hide Linked, Placed, Unique, Total, PowerOfTwo, Holds, Chain, Flat, Suffix, BeforeRest;
    i, e, n, t := index, entry, nextEntry, rest;
    LinkedLength(d.table, d.chains);
    while true
      invariant Linked(d.table, d.chains)
      invariant Standing(d.chains, i, e, n, t) && Todo(d.chains, i, t) == Todo(d.chains, index, rest)
      decreases d.size - i, if e != null then 1 else 0
    {
      if e == null {
        FlatStep(d.chains, i + 1);
        if i < d.size { i := i + 1; }
        if i >= d.size {
          FlatStep(d.chains, i);
          assert [] + Flat(d.chains[i..]) == [];
          return;
        }
        e, t := d.table[i], d.chains[i];
        LinkedAt(d.table, d.chains, i);
        WholeSuffix(t);
        assert [] + (t + Flat(d.chains[i + 1..])) == t + Flat(d.chains[i + 1..]);
      } else {
        SuffixChain(d.table, d.chains, i, t);
        e := n;
      }
      if e != null {
        HeadOf(e, t);
        n := e.next;
        NextOf(e, t);
        StepSuffix(t, d.chains[i]);
        TodoStep(t, Flat(d.chains[i + 1..]));
        AtRest(d.chains, i, t);
        t := t[1..];
        return;
      }
      EndOf(t);
    }
  }

  lemma LinkedLength(table: array<Node?>, cs: Chains)
    requires Linked(table, cs)
    ensures table.Length == |cs|
  {
  }

  lemma WholeSuffix(t: seq<Node>)
    ensures Suffix(t, t)
  {
  }

  lemma TodoStep(t: seq<Node>, f: seq<Node>)
    requires t != []
    ensures t + f != [] && (t + f)[0] == t[0] && (t + f)[1..] == t[1..] + f
  {
  }

  lemma AtRest(cs: Chains, i: int, t: seq<Node>)
    requires 0 <= i < |cs| && Suffix(t, cs[i]) && t != []
    ensures BeforeRest(cs, i, t[1..], t[0])
  {
    StepSuffix(t, cs[i]);
  }

  class Iterator {
    const ht: Dict
    var index: int
    var entry: Node?
    var nextEntry: Node?
    ghost var rest: seq<Node>

    /** dictGetIterator. */
    constructor (d: Dict)
      ensures ht == d && index == -1 && entry == null && nextEntry == null && rest == []
    {
      ht := d;
      index, entry, nextEntry, rest := -1, null, null, [];
    }

    /** dictNext. */
    method Next() returns (r: Node?)
      requires ht.Valid() && Standing(ht.chains, index, entry, nextEntry, rest)
      modifies this
      ensures Standing(ht.chains, index, entry, nextEntry, rest) && r == entry
      ensures var todo := old(Todo(ht.chains, index, rest));
        && (r == null) == (todo == [])
        && (r != null ==> r == todo[0] && Todo(ht.chains, index, rest) == todo[1..])
        && (r != null ==> BeforeRest(ht.chains, index, rest, r))
    {
      hide Linked, Placed, Unique, Total, PowerOfTwo, Holds, Flat, BeforeRest, Suffix, Todo, Standing;
      index, entry, nextEntry, rest := Advance(ht, index, entry, nextEntry, rest);
      r := entry;
    }
  }

  /** Entry `r` stands right before `rest` in its chain. */
  ghost predicate BeforeRest(cs: Chains, index: int, rest: seq<Node>, r: Node) {
    0 <= index < |cs| && |rest| < |cs[index]| && Suffix(rest, cs[index]) && cs[index][|cs[index]| - |rest| - 1] == r
  }

  lemma FlatStep(cs: Chains, i: int)
    requires 0 <= i
    ensures i < |cs| ==> Flat(cs[i..]) == cs[i] + Flat(cs[i + 1..])
    ensures i == |cs| ==> Flat(cs[i..]) == []
  {
    if i < |cs| { assert cs[i..][1..] == cs[i + 1..]; }
  }

  lemma SuffixChain(table: array<Node?>, cs: Chains, b: nat, t: seq<Node>)
    requires Linked(table, cs) && b < |cs| && Suffix(t, cs[b])
    ensures Chain(if t == [] then null else t[0], t)
  {
    LinkedAt(table, cs, b);
    ChainSuffix(table[b], cs[b], |cs[b]| - |t|);
  }

  lemma NextOf(head: Node?, c: seq<Node>)
    requires Chain(head, c) && c != []
    ensures c[0].next == if c[1..] == [] then null else c[1..][0]
  {
  }

  lemma StepSuffix(t: seq<Node>, c: seq<Node>)
    requires Suffix(t, c) && t != []
    ensures Suffix(t[1..], c) && |t[1..]| < |c| && c[|c| - |t[1..]| - 1] == t[0]
  {
    assert c[|c| - |t|..][1..] == c[|c| - |t| + 1..];
    assert c[|c| - |t|..][0] == c[|c| - |t|];
  }

  /** Deleting the entry just returned leaves the rest of its chain, and the later buckets. */
  lemma DeleteReturned(hash: Key -> nat, cs: Chains, index: nat, rest: seq<Node>, r: Node, b: nat, j: nat)
    requires Placed(hash, cs) && Unique(cs) && BeforeRest(cs, index, rest, r)
    requires b < |cs| && j < |cs[b]| && cs[b][j].key == r.key
    ensures b == index && Suffix(rest, Cut(cs, b, j)[index]) && Cut(cs, b, j)[index + 1..] == cs[index + 1..]
  {
    var c := cs[index];
    var k := |c| - |rest| - 1;
    SameNode(hash, cs, b, index, cs[b][j], r);
    assert UniqueIn(c);
    assert j == k;
    assert (c[..k] + c[k + 1..])[k..] == c[k + 1..] == rest;
  }

  /** The entry just returned, deleted from the table: the iterator goes on as if it were there. */
  method DeleteEntry(d: Dict, r: Node, index: int, nextEntry: Node?, ghost rest: seq<Node>)
    requires d.Valid() && Standing(d.chains, index, r, nextEntry, rest) && BeforeRest(d.chains, index, rest, r)
    modifies d`chains, d`m, d`used, d.table, Nodes(d.chains)`next
    ensures d.Valid() && Standing(d.chains, index, r, nextEntry, rest) && d.m == old(d.m) - {r.key}
    ensures Todo(d.chains, index, rest) == old(Todo(d.chains, index, rest)) && Nodes(d.chains) <= old(Nodes(d.chains))
  {
    hide Linked, Placed, Unique, Total, PowerOfTwo, Holds, Flat, Suffix, BeforeRest;
    ghost var cs := d.chains;
    ReturnedIsThere(cs, d.m, index, rest, r);
    ghost var b, j;
    var ok;
    ok, b, j := d.Delete(r.key);
    DeleteReturned(d.hash, cs, index, rest, r, b, j);
  }

  lemma ReturnedIsThere(cs: Chains, m: map<Key, Value>, index: int, rest: seq<Node>, r: Node)
    requires BeforeRest(cs, index, rest, r) && Holds(cs, m)
    ensures r.key in m
  {
    InNodes(cs, index);
  }

  /** The iterator stands somewhere in the table, between what was seen and what is to come. */
  ghost predicate Going(cs: Chains, index: int, entry: Node?, nextEntry: Node?, rest: seq<Node>,
                        seen: seq<Node>, all: seq<Node>) {
    Standing(cs, index, entry, nextEntry, rest) && InBounds(cs, index) && seen + Todo(cs, index, rest) == all
  }

  lemma GoingIs(cs: Chains, index: int, entry: Node?, nextEntry: Node?, rest: seq<Node>,
                seen: seq<Node>, all: seq<Node>)
    requires Going(cs, index, entry, nextEntry, rest, seen, all)
    ensures Standing(cs, index, entry, nextEntry, rest) && InBounds(cs, index) && seen + Todo(cs, index, rest) == all
  {
  }

  lemma VisitedOne(cs: Chains, index: int, entry: Node?, nextEntry: Node?, rest: seq<Node>,
      seen: seq<Node>, todo: seq<Node>, r: Node, all: seq<Node>)
    requires Standing(cs, index, entry, nextEntry, rest) && todo != [] && todo[0] == r && seen + todo == all
    requires Todo(cs, index, rest) == todo[1..]
    ensures Going(cs, index, entry, nextEntry, rest, seen + [r], all) && |seen| < |all|
  {
    hide Todo;
    assert todo == [r] + todo[1..];
  }

  lemma NoneToVisit(seen: seq<Node>, all: seq<Node>)
    requires seen + [] == all
    ensures seen == all
  {
  }

  /** One round: the next entry, deleted if it is doomed. */
  method VisitOne(it: Iterator, d: Dict, doomed: set<Key>, ghost seen: seq<Node>, ghost all: seq<Node>)
    returns (r: Node?)
    requires it.ht == d && d.Valid() && Going(d.chains, it.index, it.entry, it.nextEntry, it.rest, seen, all)
    modifies it, d`chains, d`m, d`used, d.table, Nodes(d.chains)`next
    ensures d.Valid() && Nodes(d.chains) <= old(Nodes(d.chains))
    ensures r == null ==> seen == all
    ensures r != null ==> Going(d.chains, it.index, it.entry, it.nextEntry, it.rest, seen + [r], all) && |seen| < |all|
    ensures d.m == if r != null && r.key in doomed then old(d.m) - {r.key} else old(d.m)
  {
    hide Linked, Placed, Unique, Total, PowerOfTwo, Holds, Flat, BeforeRest, Suffix, Todo, Going;
    assert allocated(Nodes(d.chains));
    GoingIs(d.chains, it.index, it.entry, it.nextEntry, it.rest, seen, all);
    ghost var todo := Todo(d.chains, it.index, it.rest);
    r := it.Next();
    if r == null {
      NoneToVisit(seen, all);
    } else {
      if r.key in doomed { DeleteEntry(d, r, it.index, it.nextEntry, it.rest); }
      VisitedOne(d.chains, it.index, it.entry, it.nextEntry, it.rest, seen, todo, r, all);
    }
  }

  /** An iteration that deletes some of the entries it is given, and only those, is given every
      entry once, in the order of the buckets, and leaves exactly the others. */
  method DeleteWhileIterating(d: Dict, doomed: set<Key>) returns (ghost seen: seq<Node>)
    requires d.Valid()
    modifies d`chains, d`m, d`used, d.table, Nodes(d.chains)`next
    ensures d.Valid() && seen == old(Flat(d.chains)) && d.m == old(d.m) - Hit(seen, doomed)
    ensures Nodes(d.chains) <= old(Nodes(d.chains))
  {
    hide *;
    assert allocated(Nodes(d.chains));
    var it := new Iterator(d);
    seen := [];
    ghost var all := Flat(d.chains);
    AtStart(d.chains, all, doomed);
    while true
      invariant d.Valid() && it.ht == d && fresh(it)
      invariant Going(d.chains, it.index, it.entry, it.nextEntry, it.rest, seen, all)
      invariant d.table == old(d.table) && Nodes(d.chains) <= old(Nodes(d.chains))
      invariant d.m == old(d.m) - Hit(seen, doomed)
      decreases |all| - |seen|
    {
      var r := VisitOne(it, d, doomed, seen, all);
      if r == null { break; }
      MoreHit(seen, r, doomed, old(d.m));
      seen := seen + [r];
    }
  }

  ghost predicate InBounds(cs: Chains, index: int) { -1 <= index <= |cs| }

  lemma AtStart(cs: Chains, all: seq<Node>, doomed: set<Key>)
    requires all == Flat(cs)
    ensures Going(cs, -1, null, null, [], [], all) && Hit([], doomed) == {}
  {
    assert cs[0..] == cs && [] + all == all;
  }

  ghost function Hit(seen: seq<Node>, doomed: set<Key>): set<Key> { set n | n in seen && n.key in doomed :: n.key }

  lemma MoreHit(seen: seq<Node>, r: Node, doomed: set<Key>, m: map<Key, Value>)
    ensures m - Hit(seen + [r], doomed) ==
      if r.key in doomed then (m - Hit(seen, doomed)) - {r.key} else m - Hit(seen, doomed)
  {
    assert Hit(seen + [r], doomed) == Hit(seen, doomed) + if r.key in doomed then {r.key} else {};
  }

  /** The order of the buckets lists every entry exactly once. */
  lemma {:induction false} FlatOnce(hash: Key -> nat, cs: Chains, i: nat)
    requires Placed(hash, cs) && Unique(cs) && i <= |cs|
    ensures UniqueIn(Flat(cs[i..])) && Members(Flat(cs[i..])) == Nodes(cs[i..]) && |Flat(cs[i..])| == Total(cs[i..])
    decreases |cs| - i
  {
    if i < |cs| {
      FlatOnce(hash, cs, i + 1);
      var c, t := cs[i], cs[i + 1..];
      assert cs[i..][1..] == t && cs[i..][0] == c;
      assert UniqueIn(c);
      forall x: Node, y: Node | x in c && y in Flat(t) ensures x.key != y.key {
        assert y in Members(Flat(t));
        var b := WhichBucket(t, y);
        assert y in cs[i + 1 + b];
        if x.key == y.key { SameNode(hash, cs, i, i + 1 + b, x, y); }
      }
      JoinUnique(c, Flat(t));
      FirstNodes(cs[i..]);
    } else {
      assert cs[i..] == [];
    }
  }

  lemma JoinUnique(a: seq<Node>, b: seq<Node>)
    requires UniqueIn(a) && UniqueIn(b) && forall x, y :: x in a && y in b ==> x.key != y.key
    ensures UniqueIn(a + b)
  {
    var c := a + b;
    assert forall i :: 0 <= i < |c| ==> c[i] == if i < |a| then a[i] else b[i - |a|];
  }

  lemma FirstNodes(cs: Chains)
    requires cs != []
    ensures Nodes(cs) == Members(cs[0]) + Nodes(cs[1..])
  {
    forall x ensures x in Nodes(cs) <==> x in cs[0] || x in Nodes(cs[1..]) {
      if x in Nodes(cs) && x !in cs[0] {
        var b := WhichBucket(cs, x);
        assert x in cs[1..][b - 1];
      }
      if x in Nodes(cs[1..]) {
        var b := WhichBucket(cs[1..], x);
        assert x in cs[b + 1];
      }
    }
  }
}
