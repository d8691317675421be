/** The lists of waiting clients that redis-1.3.6/redis.c keeps for every key. */
module BlpopCode {
  import opened Bytes
  import opened BlpopSpec

  /** The client once for every time it names the key. */
  function Times(keys: seq<Str>, k: Str, c: Cid): seq<Cid> {
    if keys == [] then [] else (if keys[0] == k then [c] else []) + Times(keys[1..], k, c)
  }

  /** The waiting list of a key that the blocked clients amount to. */
  ghost function Expand(order: seq<Cid>, keysOf: map<Cid, seq<Str>>, k: Str): seq<Cid> {
    if order == [] then []
    else (if order[0] in keysOf then Times(keysOf[order[0]], k, order[0]) else []) + Expand(order[1..], keysOf, k)
  }

  /** The waiting lists are exactly those, and an empty one is not kept. */
  ghost predicate Mirrors(waiting: map<Str, seq<Cid>>, order: seq<Cid>, keysOf: map<Cid, seq<Str>>) {
    forall k :: ListOf(waiting, k) == Expand(order, keysOf, k) && (k in waiting ==> waiting[k] != [])
  }

  function ListOf(waiting: map<Str, seq<Cid>>, k: Str): seq<Cid> { if k in waiting then waiting[k] else [] }

  // ---------------------------------------------------------------- lists and occurrences

  lemma {:induction false} TimesAll(keys: seq<Str>, k: Str, c: Cid)
    ensures forall x :: x in Times(keys, k, c) ==> x == c
    ensures Times(keys, k, c) != [] <==> k in keys
    decreases |keys|
  {
    if keys != [] {
      TimesAll(keys[1..], k, c);
      assert keys == [keys[0]] + keys[1..];
    }
  }

  lemma {:induction false} TimesMore(keys: seq<Str>, x: Str, k: Str, c: Cid)
    ensures Times(keys + [x], k, c) == Times(keys, k, c) + (if x == k then [c] else [])
    decreases |keys|
  {
    if keys == [] {
      assert keys + [x] == [x];
      assert [x][1..] == [];
    } else {
      assert (keys + [x])[1..] == keys[1..] + [x] && (keys + [x])[0] == keys[0];
      TimesMore(keys[1..], x, k, c);
      var f, t, y := if keys[0] == k then [c] else [], Times(keys[1..], k, c), if x == k then [c] else [];
      assert f + (t + y) == (f + t) + y;
    }
  }

  lemma {:induction false} ExpandConcat(a: seq<Cid>, b: seq<Cid>, keysOf: map<Cid, seq<Str>>, k: Str)
    ensures Expand(a + b, keysOf, k) == Expand(a, keysOf, k) + Expand(b, keysOf, k)
    decreases |a|
  {
    hide Times;
    if a == [] {
      assert a + b == b;
    } else {
      assert (a + b)[1..] == a[1..] + b;
      ExpandConcat(a[1..], b, keysOf, k);
    }
  }

  lemma ExpandOne(c: Cid, keysOf: map<Cid, seq<Str>>, k: Str)
    ensures Expand([c], keysOf, k) == if c in keysOf then Times(keysOf[c], k, c) else []
  {
    hide Times;
    var one := [c];
    assert one[1..] == [];
  }

  /** Only the keys of the clients themselves count. */
  lemma {:induction false} ExpandSame(order: seq<Cid>, a: map<Cid, seq<Str>>, b: map<Cid, seq<Str>>, c: Cid, k: Str)
    requires c !in order && a - {c} == b - {c}
    ensures Expand(order, a, k) == Expand(order, b, k)
    ensures c !in Expand(order, a, k)
    decreases |order|
  {
    hide Times;
    if order != [] {
      var x := order[0];
      assert x in a <==> x in b by { assert x in a - {c} <==> x in b - {c}; }
      if x in a { assert (a - {c})[x] == (b - {c})[x]; TimesAll(a[x], k, x); }
      ExpandSame(order[1..], a, b, c, k);
    }
  }

  /** What is before and after a client in the queue. */
  lemma ExpandAround(a: seq<Cid>, c: Cid, b: seq<Cid>, keysOf: map<Cid, seq<Str>>, k: Str)
    requires c in keysOf
    ensures Expand(a + [c] + b, keysOf, k) == Expand(a, keysOf, k) + Times(keysOf[c], k, c) + Expand(b, keysOf, k)
  {
    hide Times, Expand;
    ExpandConcat(a + [c], b, keysOf, k);
    ExpandConcat(a, [c], keysOf, k);
    ExpandOne(c, keysOf, k);
  }

  // ---------------------------------------------------------------- blocking

  /** One more key for the newest client. */
  lemma BlockStep(waiting: map<Str, seq<Cid>>, a: seq<Cid>, c: Cid, keysOf: map<Cid, seq<Str>>, keys: seq<Str>, x: Str)
    requires c !in a && Mirrors(waiting, a + [c], keysOf[c := keys])
    ensures Mirrors(waiting[x := ListOf(waiting, x) + [c]], a + [c], keysOf[c := keys + [x]])
  {
    hide Times, Expand;
    var m, n := keysOf[c := keys], keysOf[c := keys + [x]];
    var w := waiting[x := ListOf(waiting, x) + [c]];
    assert m - {c} == n - {c};
    forall k ensures ListOf(w, k) == Expand(a + [c], n, k) && (k in w ==> w[k] != []) {
      ExpandSame(a, m, n, c, k);
      ExpandConcat(a, [c], m, k);
      ExpandConcat(a, [c], n, k);
      ExpandOne(c, m, k);
      ExpandOne(c, n, k);
      TimesMore(keys, x, k, c);
      var e, t := Expand(a, m, k), Times(keys, k, c);
      assert ListOf(waiting, k) == e + t;
      if k == x {
        assert (e + t) + [c] == e + (t + [c]);
      } else {
        assert t + [] == t;
      }
    }
  }

  lemma TwoUpdates(w: map<Str, seq<Cid>>, x: Str, c: Cid)
    ensures x !in w ==> w[x := []][x := [] + [c]] == w[x := ListOf(w, x) + [c]]
    ensures x in w ==> ListOf(w, x) == w[x]
  {
  }

  lemma BlockStart(waiting: map<Str, seq<Cid>>, a: seq<Cid>, c: Cid, keysOf: map<Cid, seq<Str>>)
    requires c !in a && c !in keysOf && Mirrors(waiting, a, keysOf)
    ensures Mirrors(waiting, a + [c], keysOf[c := []])
  {
    hide Expand;
    var m := keysOf[c := []];
    assert m - {c} == keysOf - {c};
    forall k ensures ListOf(waiting, k) == Expand(a + [c], m, k) {
      ExpandSame(a, keysOf, m, c, k);
      ExpandConcat(a, [c], m, k);
      ExpandOne(c, m, k);
      assert Expand(a, m, k) + [] == Expand(a, m, k);
    }
  }

  // ---------------------------------------------------------------- unblocking

  /** Taking the first occurrence out: listDelNode of the node listSearchKey finds. */
  lemma {:induction false} WithoutAfter(a: seq<Cid>, c: Cid, b: seq<Cid>)
    requires c !in a
    ensures Without(a + ([c] + b), c) == a + b
    decreases |a|
  {
    var l := a + ([c] + b);
    if a == [] {
      assert l == [c] + b && l[1..] == b && a + b == b;
    } else {
      assert a[0] in a;
      assert l[0] == a[0] && l[1..] == a[1..] + ([c] + b);
      WithoutAfter(a[1..], c, b);
      assert [a[0]] + (a[1..] + b) == a + b;
    }
  }

  function Shrunk(waiting: map<Str, seq<Cid>>, x: Str, c: Cid): map<Str, seq<Cid>> {
    var l := Without(ListOf(waiting, x), c);
    if l == [] then waiting - {x} else waiting[x := l]
  }

  /** One key less for a client, wherever it stands in the queue. */
  lemma UnblockStep(waiting: map<Str, seq<Cid>>, a: seq<Cid>, c: Cid, b: seq<Cid>,
                    keysOf: map<Cid, seq<Str>>, keys: seq<Str>)
    requires c !in a && c !in b && keys != [] && Mirrors(waiting, a + [c] + b, keysOf[c := keys])
    ensures keys[0] in waiting && c in waiting[keys[0]]
    ensures Mirrors(Shrunk(waiting, keys[0], c), a + [c] + b, keysOf[c := keys[1..]])
  {
    hide Times, Expand, Shrunk, ListOf;
    var n, x := keysOf[c := keys[1..]], keys[0];
    var w := Shrunk(waiting, x, c);
    AtFront(waiting, a, c, b, keysOf, keys);
    forall k ensures ListOf(w, k) == Expand(a + [c] + b, n, k) && (k in w ==> w[k] != []) {
      UnblockAt(waiting, a, c, b, keysOf, keys, k);
      ShrunkAt(waiting, x, c, k);
    }
  }

  lemma ShrunkAt(waiting: map<Str, seq<Cid>>, x: Str, c: Cid, k: Str)
    ensures var w := Shrunk(waiting, x, c);
      && ListOf(w, k) == (if k == x then Without(ListOf(waiting, x), c) else ListOf(waiting, k))
      && (k in w && (k in waiting ==> waiting[k] != []) ==> w[k] != [])
  {
    hide Without;
  }

  lemma UnblockAt(waiting: map<Str, seq<Cid>>, a: seq<Cid>, c: Cid, b: seq<Cid>,
                  keysOf: map<Cid, seq<Str>>, keys: seq<Str>, k: Str)
    requires c !in a && c !in b && keys != [] && Mirrors(waiting, a + [c] + b, keysOf[c := keys])
    ensures var l := ListOf(waiting, k);
      Expand(a + [c] + b, keysOf[c := keys[1..]], k) == if k == keys[0] then Without(l, c) else l
  {
    hide Times, Expand, Without;
    var m, n := keysOf[c := keys], keysOf[c := keys[1..]];
    assert m - {c} == n - {c};
    ExpandSame(a, m, n, c, k);
    ExpandSame(b, m, n, c, k);
    ExpandAround(a, c, b, m, k);
    ExpandAround(a, c, b, n, k);
    TimesFirst(keys, k, c);
    var e, t, f := Expand(a, m, k), Times(keys[1..], k, c), Expand(b, m, k);
    if k == keys[0] {
      Regroup(e, c, t, f);
      WithoutAfter(e, c, t + f);
    }
  }

  lemma Regroup(e: seq<Cid>, c: Cid, t: seq<Cid>, f: seq<Cid>)
    ensures e + ([c] + t) + f == e + ([c] + (t + f)) && e + t + f == e + (t + f)
  {
  }

  lemma TimesFirst(keys: seq<Str>, k: Str, c: Cid)
    requires keys != []
    ensures Times(keys, k, c) == (if keys[0] == k then [c] else []) + Times(keys[1..], k, c)
    ensures keys[0] != k ==> Times(keys, k, c) == Times(keys[1..], k, c)
  {
  }

  lemma AtFront(waiting: map<Str, seq<Cid>>, a: seq<Cid>, c: Cid, b: seq<Cid>,
                keysOf: map<Cid, seq<Str>>, keys: seq<Str>)
    requires keys != [] && Mirrors(waiting, a + [c] + b, keysOf[c := keys])
    ensures keys[0] in waiting && c in waiting[keys[0]]
  {
    hide Times, Expand;
    var m, x := keysOf[c := keys], keys[0];
    ExpandAround(a, c, b, m, x);
    TimesAll(keys, x, c);
    var t := Times(keys, x, c);
    assert t[0] in t;
    var e, f := Expand(a, m, x), Expand(b, m, x);
    assert (e + t + f)[|e|] == c;
    assert ListOf(waiting, x) == e + t + f;
  }

  lemma UnblockEnd(waiting: map<Str, seq<Cid>>, a: seq<Cid>, c: Cid, b: seq<Cid>, keysOf: map<Cid, seq<Str>>)
    requires c !in a && c !in b && Mirrors(waiting, a + [c] + b, keysOf[c := []])
    ensures Mirrors(waiting, a + b, keysOf - {c})
  {
    hide Expand;
    var m, n := keysOf[c := []], keysOf - {c};
    assert m - {c} == n - {c};
    forall k ensures ListOf(waiting, k) == Expand(a + b, n, k) {
      ExpandSame(a, m, n, c, k);
      ExpandSame(b, m, n, c, k);
      ExpandAround(a, c, b, m, k);
      ExpandConcat(a, b, n, k);
      assert Expand(a, m, k) + [] + Expand(b, m, k) == Expand(a, m, k) + Expand(b, m, k);
    }
  }

  lemma SplitAt(order: seq<Cid>, i: nat)
    requires i < |order|
    ensures order == order[..i] + ([order[i]] + order[i + 1..]) == order[..i] + [order[i]] + order[i + 1..]
  {
  }

  lemma Position(order: seq<Cid>, c: Cid) returns (a: seq<Cid>, b: seq<Cid>)
    requires Distinct(order) && c in order
    ensures order == a + [c] + b && c !in a && c !in b && Without(order, c) == a + b
  {
    hide Without;
    var i :| 0 <= i < |order| && order[i] == c;
    a, b := order[..i], order[i + 1..];
    SplitAt(order, i);
    WithoutAfter(a, c, b);
  }

  // ---------------------------------------------------------------- who is served

  /** The head of a waiting list is the client that has waited longest. */
  lemma {:induction false} HeadIsOldest(order: seq<Cid>, keysOf: map<Cid, seq<Str>>, k: Str)
    ensures var l := Expand(order, keysOf, k);
      Oldest(order, keysOf, k) == if l == [] then None else Some(l[0])
    decreases |order|
  {
    hide Times;
    if order != [] {
      var x := order[0];
      HeadIsOldest(order[1..], keysOf, k);
      if x in keysOf {
        TimesAll(keysOf[x], k, x);
        var t := Times(keysOf[x], k, x);
        if t != [] { assert t[0] in t; }
      }
    }
  }

  class Db {
    var lists: map<Str, Val>
    /** db->blockingkeys. */
    var waiting: map<Str, seq<Cid>>
    /** Every blocked client's own keys and timeout. */
    var keysOf: map<Cid, seq<Str>>
    var until: map<Cid, int>
    var replies: seq<Reply>
    ghost var order: seq<Cid>
    /** The keys whose waiting clients were passed over. */
    ghost var missed: set<Str>

    ghost function S(): St
      reads this
    {
      St(lists, order, keysOf, until, replies)
    }

    ghost predicate Valid()
      reads this
    {
      Inv(S(), missed) && Mirrors(waiting, order, keysOf)
    }

    constructor ()
      ensures Valid() && S() == St(map[], [], map[], map[], []) && missed == {}
    {
      lists, waiting, keysOf, until, replies, order, missed := map[], map[], map[], map[], [], [], {};
    }

    /** The keys one after another, in the client and in the waiting lists. */
    method Enqueue(c: Cid, keys: seq<Str>)
      requires Mirrors(waiting, order, keysOf) && c !in keysOf && c !in order
      modifies this`waiting, this`keysOf
      ensures Mirrors(waiting, order + [c], keysOf) && keysOf == old(keysOf)[c := keys]
    {
      hide Mirrors, ListOf;
      ghost var m := keysOf;
      BlockStart(waiting, order, c, m);
      keysOf := keysOf[c := []];
      for j := 0 to |keys|
        invariant keysOf == m[c := keys[..j]] && Mirrors(waiting, order + [c], keysOf)
      {
        BlockStep(waiting, order, c, m, keys[..j], keys[j]);
        assert keys[..j + 1] == keys[..j] + [keys[j]];
        keysOf := keysOf[c := keysOf[c] + [keys[j]]];
        ghost var w := waiting;
        if keys[j] !in waiting {
          waiting := waiting[keys[j] := []];
        }
        waiting := waiting[keys[j] := waiting[keys[j]] + [c]];
        assert waiting == w[keys[j] := ListOf(w, keys[j]) + [c]] by { TwoUpdates(w, keys[j], c); }
      }
      assert keys[..|keys|] == keys;
    }

    /** blockForKeys. */
    method BlockForKeys(c: Cid, keys: seq<Str>, timeout: int)
      requires Valid() && c !in keysOf && NoneServed(lists, keys, {})
      modifies this
      ensures Valid() && missed == old(missed) && S() == Block(old(S()), c, keys, timeout)
    {
      hide Mirrors, Quiet, NoneServed, Distinct;
      BlockKeeps(S(), c, keys, timeout, missed);
      Enqueue(c, keys);
      until := until[c := timeout];
      order := order + [c];
    }

    /** unblockClientWaitingData. */
    method UnblockClient(c: Cid)
      requires Valid() && c in keysOf
      modifies this
      ensures Valid() && missed == old(missed) && S() == Unblock(old(S()), c)
    {
      hide Mirrors, Quiet, NoneServed, Distinct, Without;
      UnblockKeeps(S(), c, missed);
      ghost var a, b := Position(order, c);
      var keys := keysOf[c];
      ghost var m := keysOf;
      assert keys[0..] == keys && m[c := keys] == m;
      for j := 0 to |keys|
        invariant Mirrors(waiting, order, m[c := keys[j..]])
        invariant lists == old(lists) && order == old(order) && until == old(until) && keysOf == m
        invariant replies == old(replies) && missed == old(missed)
      {
        UnblockStep(waiting, a, c, b, m, keys[j..]);
        assert keys[j..][1..] == keys[j + 1..];
        var l := Without(waiting[keys[j]], c);
        if |l| == 0 {
          waiting := waiting - {keys[j]};
        } else {
          waiting := waiting[keys[j] := l];
        }
      }
      assert keys[|keys|..] == [];
      UnblockEnd(waiting, a, c, b, m);
      keysOf, until := keysOf - {c}, until - {c};
      order := Without(order, c);
    }

    /** handleClientsWaitingListPush. */
    method HandleWaiting(k: Str, ele: Str) returns (served: bool)
      requires Valid()
      modifies this
      ensures Valid() && missed == old(missed)
      ensures var g := Give(old(S()), k, ele); served == g.Some? && S() == if served then g.value else old(S())
    {
      hide Quiet, NoneServed, Distinct, Expand;
      HeadIsOldest(order, keysOf, k);
      assert ListOf(waiting, k) == Expand(order, keysOf, k);
      if k !in waiting { return false; }
      var receiver := waiting[k][0];
      UnblockClient(receiver);
      replies := replies + [Popped(receiver, k, ele)];
      return true;
    }

    /** pushGenericCommand. */
    method PushGeneric(k: Str, ele: Str, head: bool)
      requires Valid()
      modifies this
      ensures Valid() && missed == old(missed) && S() == Push(old(S()), k, ele, head)
    {
      hide Mirrors, Inv, Oldest, Without;
      StepKeeps(S(), DoPush(k, ele, head), missed);
      NobodyMissed(S(), DoPush(k, ele, head), missed);
      if k in lists && lists[k].Other? { return; }
      var served := HandleWaiting(k, ele);
      if served { return; }
      if k !in lists {
        lists := lists[k := List(if head then [ele] + [] else [] + [ele])];
      } else {
        var l := lists[k].items;
        lists := lists[k := List(if head then [ele] + l else l + [ele])];
      }
    }

    /** popGenericCommand. */
    method PopGeneric(k: Str, head: bool) returns (ele: Option<Str>)
      requires Valid()
      modifies this`lists
      ensures Valid() && missed == old(missed) && S() == Pop(old(S()), k, head)
      ensures ele == if old(HasItems(lists, k)) then Some(Front(old(lists)[k].items, head)) else None
    {
      hide Mirrors, Inv;
      StepKeeps(S(), DoPop(k, head), missed);
      NobodyMissed(S(), DoPop(k, head), missed);
      if k !in lists || lists[k].Other? { return None; }
      var l := lists[k].items;
      if l == [] { return None; }
      ele := Some(if head then l[0] else l[|l| - 1]);
      lists := lists[k := List(if head then l[1..] else l[..|l| - 1])];
    }

    /** blockingPopGenericCommand, `until` being the time the client gives up, or zero. */
    method BlockingPopGeneric(c: Cid, keys: seq<Str>, until: int, head: bool)
      requires Valid() && c !in keysOf
      modifies this
      ensures Valid() && missed == old(missed) && S() == BlockingPop(old(S()), c, keys, until, head)
    {
      hide Mirrors, Inv, FirstServed;
      StepKeeps(S(), DoBlockingPop(c, keys, until, head), missed);
      NobodyMissed(S(), DoBlockingPop(c, keys, until, head), missed);
      assert keys[0..] == keys;
      for j := 0 to |keys|
        invariant FirstServed(lists, keys) == j + FirstServed(lists, keys[j..])
        invariant S() == old(S()) && missed == old(missed) && Valid()
      {
        ServedStep(lists, keys, j);
        if keys[j] in lists {
          if lists[keys[j]].Other? { return; }
          if lists[keys[j]].items != [] {
            var e := PopGeneric(keys[j], head);
            replies := replies + [Popped(c, keys[j], e.value)];
            return;
          }
        }
      }
      assert keys[|keys|..] == [];
      ServedNone(lists, keys);
      BlockForKeys(c, keys, until);
    }

    /** rpoplpushcommand. */
    method RPopLPushCommand(src: Str, dst: Str) returns (reply: Option<Str>)
      requires Valid()
      modifies this
      ensures Valid() && missed == old(missed) && S() == RPopLPush(old(S()), src, dst)
      ensures reply == if old(HasItems(lists, src) && !(dst in lists && lists[dst].Other?))
        then Some(Front(old(lists)[src].items, false)) else None
    {
      hide Mirrors, Inv, Oldest, Without, RPopLPush;
      StepKeeps(S(), DoRPopLPush(src, dst), missed);
      NobodyMissed(S(), DoRPopLPush(src, dst), missed);
      RPopLPushIs(S(), src, dst);
      if src !in lists || lists[src].Other? || lists[src].items == [] { return None; }
      var l := lists[src].items;
      var e := l[|l| - 1];
      if dst in lists && lists[dst].Other? { return None; }
      var served := HandleWaiting(dst, e);
      if !served {
        var d := if dst in lists then lists[dst].items else [];
        lists := lists[dst := List([e] + d)];
      }
      reply := Some(e);
      var now := lists[src].items;
      lists := lists[src := List(now[..|now| - 1])];
    }

    /** One client looked at by closeTimedoutClients. */
    method CheckTimeout(c: Cid, now: int)
      requires Valid()
      modifies this
      ensures Valid() && missed == old(missed) && S() == Expire(old(S()), c, now)
    {
      hide Mirrors, Quiet, Distinct, Without;
      StepKeeps(S(), DoExpire(c, now), missed);
      NobodyMissed(S(), DoExpire(c, now), missed);
      if c in keysOf && until[c] != 0 && until[c] < now {
        UnblockClient(c);
        replies := replies + [TimedOut(c)];
      }
    }

    /** freeClient. */
    method FreeClient(c: Cid)
      requires Valid()
      modifies this
      ensures Valid() && missed == old(missed) && S() == Next(old(S()), DoFree(c))
    {
      hide Mirrors, Inv, Without;
      if c in keysOf { UnblockClient(c); }
    }

    /** renameGenericCommand: clients that wait for the new name are not looked at. */
    method RenameGeneric(src: Str, dst: Str, nx: bool) returns (done: bool)
      requires Valid()
      modifies this`lists, this`missed
      ensures Valid() && S() == Renamed(old(S()), src, dst, nx)
      ensures missed == old(missed) + Missed(old(S()), DoRename(src, dst, nx))
      ensures done == old(src != dst && src in lists && !(nx && dst in lists))
    {
      hide Mirrors, Inv, Missed;
      ghost var s := S();
      StepKeeps(s, DoRename(src, dst, nx), missed);
      missed := missed + Missed(s, DoRename(src, dst, nx));
      if src == dst || src !in lists { return false; }
      var o := lists[src];
      if dst !in lists {
        lists := lists[dst := o];
      } else {
        if nx { return false; }
        lists := lists[dst := o];
      }
      lists := lists - {src};
      done := true;
      assert (s.lists - {src})[dst := o] == s.lists[dst := o] - {src};
    }

    /** moveCommand, on the database the key comes to. */
    method MoveIn(k: Str, o: Val) returns (done: bool)
      requires Valid()
      modifies this`lists, this`missed
      ensures Valid() && S() == Next(old(S()), DoMoveIn(k, o)) && done == (k !in old(lists))
      ensures missed == old(missed) + Missed(old(S()), DoMoveIn(k, o))
    {
      hide Mirrors, Inv, Missed;
      ghost var s := S();
      StepKeeps(s, DoMoveIn(k, o), missed);
      missed := missed + Missed(s, DoMoveIn(k, o));
      done := k !in lists;
      if done { lists := lists[k := o]; }
    }

    /** The end of sortCommand with STORE: `sorted` becomes the list at the key, whatever was there. */
    method SortStore(k: Str, sorted: seq<Str>)
      requires Valid()
      modifies this`lists, this`missed
      ensures Valid() && S() == Next(old(S()), DoStore(k, sorted))
      ensures missed == old(missed) + Missed(old(S()), DoStore(k, sorted))
    {
      hide Mirrors, Inv, Missed;
      ghost var s := S();
      StepKeeps(s, DoStore(k, sorted), missed);
      missed := missed + Missed(s, DoStore(k, sorted));
      var l := [];
      for j := 0 to |sorted|
        invariant l == sorted[..j]
      {
        l := l + [sorted[j]];
      }
      assert sorted[..|sorted|] == sorted;
      lists := lists[k := List(l)];
    }
  }

  /** Steps that put no list down pass nobody over. */
  lemma NobodyMissed(s: St, e: Step, m: set<Str>)
    requires PutDown(s, e).None?
    ensures m + Missed(s, e) == m
  {
  }

  /** In steps: hand the element on or put it in front of the target, then take it off the source. */
  lemma RPopLPushIs(s: St, src: Str, dst: Str)
    ensures !HasItems(s.lists, src) || (dst in s.lists && s.lists[dst].Other?) ==> RPopLPush(s, src, dst) == s
    ensures HasItems(s.lists, src) && !(dst in s.lists && s.lists[dst].Other?) ==>
      var l := s.lists[src].items;
      var e := l[|l| - 1];
      var g := Give(s, dst, e);
      if g.Some? then RPopLPush(s, src, dst) == g.value.(lists := s.lists[src := List(l[..|l| - 1])])
      else
        var m := s.lists[dst := List([e] + Items(s.lists, dst))];
        m[src].List? && m[src].items != [] &&
        RPopLPush(s, src, dst) == s.(lists := m[src := List(m[src].items[..|m[src].items| - 1])])
  {
    hide Oldest, Without;
    if HasItems(s.lists, src) && !(dst in s.lists && s.lists[dst].Other?) {
      var l := s.lists[src].items;
      var e := l[|l| - 1];
      assert ([e] + l)[..|l|] == [e] + l[..|l| - 1];
      var m := s.lists[dst := List([e] + l)];
      if src == dst { assert m[src := List([e] + l[..|l| - 1])] == s.lists[src := List([e] + l[..|l| - 1])]; }
    }
  }

  lemma ServedStep(lists: map<Str, Val>, keys: seq<Str>, j: nat)
    requires j < |keys|
    ensures var k := keys[j];
      FirstServed(lists, keys[j..]) ==
        if k in lists && (lists[k].Other? || lists[k].items != []) then 0 else 1 + FirstServed(lists, keys[j + 1..])
  {
    assert keys[j..][1..] == keys[j + 1..] && keys[j..][0] == keys[j];
  }

  lemma ServedNone(lists: map<Str, Val>, keys: seq<Str>)
    ensures FirstServed(lists, []) == 0
    ensures FirstServed(lists, keys) == |keys| ==> NoneServed(lists, keys, {})
  {
  }
}
