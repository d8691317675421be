/** What the list commands and the blocked clients do, in plain terms: which element goes where, and
    who is answered. */
module BlpopEffects {
  import opened Bytes
  import opened BlpopSpec

  /** The key holds nothing, or a list without elements. */
  predicate Vacant(lists: map<Str, Val>, k: Str) { k !in lists || (lists[k].List? && lists[k].items == []) }

  /** The first key that is not vacant decides. */
  lemma {:induction false} FirstDecides(lists: map<Str, Val>, keys: seq<Str>, i: nat)
    requires i <= |keys| && (forall j :: 0 <= j < i ==> Vacant(lists, keys[j]))
    requires i < |keys| ==> !Vacant(lists, keys[i])
    ensures FirstServed(lists, keys) == i
    decreases |keys|
  {
    if keys != [] && i > 0 {
      assert Vacant(lists, keys[0]);
      assert forall j :: 0 <= j < i - 1 ==> keys[1..][j] == keys[j + 1];
      FirstDecides(lists, keys[1..], i - 1);
    }
  }

  /** BLPOP takes the first element of the first key with elements, BRPOP the last; the client gets
      it together with the key, and nobody is blocked or unblocked. */
  lemma BlockingPopTakes(s: St, c: Cid, keys: seq<Str>, until: int, head: bool, i: nat)
    requires i < |keys| && HasItems(s.lists, keys[i]) && forall j :: 0 <= j < i ==> Vacant(s.lists, keys[j])
    ensures var r, k, l := BlockingPop(s, c, keys, until, head), keys[i], s.lists[keys[i]].items;
      && r.replies == s.replies + [Popped(c, k, if head then l[0] else l[|l| - 1])]
      && r.lists == s.lists[k := List(if head then l[1..] else l[..|l| - 1])]
      && r.order == s.order && r.keysOf == s.keysOf && r.until == s.until
  {
    FirstDecides(s.lists, keys, i);
  }

  /** A value of another type before any elements is an error, and nothing changes. */
  lemma BlockingPopFails(s: St, c: Cid, keys: seq<Str>, until: int, head: bool, i: nat)
    requires i < |keys| && keys[i] in s.lists && s.lists[keys[i]].Other?
    requires forall j :: 0 <= j < i ==> Vacant(s.lists, keys[j])
    ensures BlockingPop(s, c, keys, until, head) == s
  {
    FirstDecides(s.lists, keys, i);
  }

  /** With vacant keys only, the client waits for all of them, behind everybody else. */
  lemma BlockingPopWaits(s: St, c: Cid, keys: seq<Str>, until: int, head: bool)
    requires forall k :: k in keys ==> Vacant(s.lists, k)
    ensures var r := BlockingPop(s, c, keys, until, head);
      && r.order == s.order + [c] && r.keysOf == s.keysOf[c := keys] && r.until == s.until[c := until]
      && r.lists == s.lists && r.replies == s.replies
  {
    FirstDecides(s.lists, keys, |keys|);
  }

  /** The client served is the one that stands first among those that wait for the key. */
  lemma {:induction false} OldestStandsFirst(order: seq<Cid>, keysOf: map<Cid, seq<Str>>, k: Str, i: nat)
    requires i < |order| && order[i] in keysOf && k in keysOf[order[i]]
    requires forall j :: 0 <= j < i ==> !(order[j] in keysOf && k in keysOf[order[j]])
    ensures Oldest(order, keysOf, k) == Some(order[i])
    decreases |order|
  {
    if i > 0 {
      assert forall j :: 0 <= j < i - 1 ==> order[1..][j] == order[j + 1];
      OldestStandsFirst(order[1..], keysOf, k, i - 1);
    }
  }

  /** A push onto a key nobody waits for: LPUSH puts the element first, RPUSH last; onto a value of
      another type it is refused. */
  lemma PushStores(s: St, k: Str, ele: Str, head: bool)
    requires Oldest(s.order, s.keysOf, k).None?
    ensures var r := Push(s, k, ele, head);
      && (k in s.lists && s.lists[k].Other? ==> r == s)
      && (k !in s.lists ==> r == s.(lists := s.lists[k := List([ele])]))
      && (k in s.lists && s.lists[k].List? ==>
            var l := s.lists[k].items; r == s.(lists := s.lists[k := List(if head then [ele] + l else l + [ele])]))
  {
    assert [ele] + [] == [ele] == [] + [ele];
  }

  /** A push onto a key somebody waits for: the first of them gets the element and waits no more,
      and the list is not touched. */
  lemma PushServes(s: St, k: Str, ele: Str, head: bool, i: nat)
    requires i < |s.order| && s.order[i] in s.keysOf && k in s.keysOf[s.order[i]]
    requires forall j :: 0 <= j < i ==> !(s.order[j] in s.keysOf && k in s.keysOf[s.order[j]])
    requires Distinct(s.order) && !(k in s.lists && s.lists[k].Other?)
    ensures var r, c := Push(s, k, ele, head), s.order[i];
      && r.replies == s.replies + [Popped(c, k, ele)] && r.lists == s.lists
      && r.keysOf == s.keysOf - {c} && r.order == s.order[..i] + s.order[i + 1..]
  {
    OldestStandsFirst(s.order, s.keysOf, k, i);
    WithoutAt(s.order, i);
  }

  lemma {:induction false} WithoutAt(order: seq<Cid>, i: nat)
    requires i < |order| && Distinct(order)
    ensures Without(order, order[i]) == order[..i] + order[i + 1..]
    decreases |order|
  {
    if i > 0 {
      var t := order[1..];
      assert order[0] != order[i] && t[i - 1] == order[i];
      assert Distinct(t) by { assert forall j :: 0 <= j < |t| ==> t[j] == order[j + 1]; }
      WithoutAt(t, i - 1);
      assert order[..i] == [order[0]] + t[..i - 1] && order[i + 1..] == t[i..];
    }
  }

  /** LPOP takes the first element, RPOP the last. */
  lemma PopTakes(s: St, k: Str, head: bool)
    ensures var r := Pop(s, k, head);
      && (!HasItems(s.lists, k) ==> r == s)
      && (HasItems(s.lists, k) ==>
            var l := s.lists[k].items; r == s.(lists := s.lists[k := List(if head then l[1..] else l[..|l| - 1])]))
  {
  }

  /** RPOPLPUSH without waiting clients: the last element of the source becomes the first of the
      target; with one key for both, the list is rotated. */
  lemma RPopLPushMoves(s: St, src: Str, dst: Str)
    requires HasItems(s.lists, src) && !(dst in s.lists && s.lists[dst].Other?) && Oldest(s.order, s.keysOf, dst).None?
    ensures var r, l := RPopLPush(s, src, dst), s.lists[src].items; var e, rest := l[|l| - 1], l[..|l| - 1];
      && (src == dst ==> r == s.(lists := s.lists[src := List([e] + rest)]))
      && (src != dst ==> r == s.(lists := s.lists[dst := List([e] + Items(s.lists, dst))][src := List(rest)]))
  {
  }

  /** A client is answered by the clock exactly when it is blocked, has a timeout, and the time is
      past it; it then waits no more. */
  lemma ExpireAnswers(s: St, c: Cid, now: int)
    requires s.keysOf.Keys == s.until.Keys
    ensures var r := Expire(s, c, now);
      && (c in s.until && s.until[c] != 0 && now > s.until[c] ==>
            r.replies == s.replies + [TimedOut(c)] && r.keysOf == s.keysOf - {c} && r.lists == s.lists)
      && (!(c in s.until && s.until[c] != 0 && now > s.until[c]) ==> r == s)
  {
  }

  /** RENAME gives the list, as it is, the new name; RENAMENX does not replace. */
  lemma RenameMoves(s: St, src: Str, dst: Str, nx: bool)
    ensures var r := Renamed(s, src, dst, nx);
      && (src == dst || src !in s.lists || (nx && dst in s.lists) ==> r == s)
      && (src != dst && src in s.lists && !(nx && dst in s.lists) ==>
            && r == s.(lists := r.lists) && src !in r.lists && dst in r.lists && r.lists[dst] == s.lists[src]
            && r.lists - {src, dst} == s.lists - {src, dst})
  {
  }
}
