/** Blocking pops of redis-1.3.6/redis.c as a queue of blocked clients: what the lists of waiting
    clients, kept per key, must amount to. */
module BlpopSpec {
  import opened Bytes

  type Str = seq<byte>
  type Cid = nat

  datatype Val = List(items: seq<Str>) | Other

  /** An element handed to a client, or the null reply of a timeout. */
  datatype Reply = Popped(c: Cid, key: Str, ele: Str) | TimedOut(c: Cid)

  /** `order` are the blocked clients, the oldest first, and `keysOf` what each waits for. */
  datatype St = St(lists: map<Str, Val>, order: seq<Cid>, keysOf: map<Cid, seq<Str>>, until: map<Cid, int>,
    replies: seq<Reply>)

  predicate HasItems(lists: map<Str, Val>, k: Str) { k in lists && lists[k].List? && lists[k].items != [] }

  /** The blocked clients are the ones with keys, once each; none waits for a list with elements,
      but for the keys in `missed`. */
  ghost predicate Inv(s: St, missed: set<Str>) {
    && (forall c :: c in s.order <==> c in s.keysOf) && s.keysOf.Keys == s.until.Keys
    && Distinct(s.order) && Quiet(s.lists, s.keysOf, missed)
  }

  ghost predicate Distinct(order: seq<Cid>) {
    forall i, j :: 0 <= i < j < |order| ==> order[i] != order[j]
  }

  ghost predicate Quiet(lists: map<Str, Val>, keysOf: map<Cid, seq<Str>>, missed: set<Str>) {
    forall c :: c in keysOf ==> NoneServed(lists, keysOf[c], missed)
  }

  ghost predicate NoneServed(lists: map<Str, Val>, keys: seq<Str>, missed: set<Str>) {
    forall k :: k in keys && HasItems(lists, k) ==> k in missed
  }

  /** Elements where nobody waits, or where it is known, serve nobody. */
  lemma QuietMore(lists: map<Str, Val>, more: map<Str, Val>, keysOf: map<Cid, seq<Str>>, k: Str,
                  missed: set<Str>, all: set<Str>)
    requires Quiet(lists, keysOf, missed) && forall x :: HasItems(more, x) ==> HasItems(lists, x) || x == k
    requires missed <= all && (Waited(keysOf, k) ==> k in all)
    ensures Quiet(more, keysOf, all)
  {
    forall c | c in keysOf ensures NoneServed(more, keysOf[c], all) { assert NoneServed(lists, keysOf[c], missed); }
  }

  /** Taking elements away serves nobody. */
  lemma QuietFewer(lists: map<Str, Val>, less: map<Str, Val>, keysOf: map<Cid, seq<Str>>, missed: set<Str>)
    requires Quiet(lists, keysOf, missed) && forall k :: HasItems(less, k) ==> HasItems(lists, k)
    ensures Quiet(less, keysOf, missed)
  {
    forall c | c in keysOf ensures NoneServed(less, keysOf[c], missed) { assert NoneServed(lists, keysOf[c], missed); }
  }

  predicate Waited(keysOf: map<Cid, seq<Str>>, k: Str) { exists c :: c in keysOf && k in keysOf[c] }

  // ---------------------------------------------------------------- steps

  /** The client that has waited longest for the key. */
  function Oldest(order: seq<Cid>, keysOf: map<Cid, seq<Str>>, k: Str): (r: Option<Cid>)
    ensures r.Some? ==> r.value in order && r.value in keysOf && k in keysOf[r.value]
  {
    if order == [] then None
    else if order[0] in keysOf && k in keysOf[order[0]] then Some(order[0])
    else Oldest(order[1..], keysOf, k)
  }

  function Without(order: seq<Cid>, c: Cid): seq<Cid> {
    if order == [] then []
    else if order[0] == c then order[1..]
    else [order[0]] + Without(order[1..], c)
  }

  function Unblock(s: St, c: Cid): St {
    s.(order := Without(s.order, c), keysOf := s.keysOf - {c}, until := s.until - {c})
  }

  function Block(s: St, c: Cid, keys: seq<Str>, until: int): St {
    s.(order := s.order + [c], keysOf := s.keysOf[c := keys], until := s.until[c := until])
  }

  /** An element for a key: to the oldest waiting client if there is one. */
  function Give(s: St, k: Str, ele: Str): Option<St> {
    var c := Oldest(s.order, s.keysOf, k);
    if c.None? then None else Some(Unblock(s, c.value).(replies := s.replies + [Popped(c.value, k, ele)]))
  }

  function Items(lists: map<Str, Val>, k: Str): seq<Str> {
    if k in lists && lists[k].List? then lists[k].items else []
  }

  function Added(s: St, k: Str, ele: Str, head: bool): St {
    var l := Items(s.lists, k);
    s.(lists := s.lists[k := List(if head then [ele] + l else l + [ele])])
  }

  function Push(s: St, k: Str, ele: Str, head: bool): St {
    if k in s.lists && s.lists[k].Other? then s
    else
      var g := Give(s, k, ele);
      if g.Some? then g.value else Added(s, k, ele, head)
  }

  function Pop(s: St, k: Str, head: bool): St {
    if !HasItems(s.lists, k) then s
    else
      var l := s.lists[k].items;
      s.(lists := s.lists[k := List(if head then l[1..] else l[..|l| - 1])])
  }

  /** The first key that decides: one of another type, or one with elements. */
  function FirstServed(lists: map<Str, Val>, keys: seq<Str>): (i: nat)
    ensures i <= |keys|
    ensures i < |keys| ==> keys[i] in lists && (lists[keys[i]].Other? || HasItems(lists, keys[i]))
    ensures forall j :: 0 <= j < i ==> !HasItems(lists, keys[j])
  {
    if keys == [] then 0
    else if keys[0] in lists && (lists[keys[0]].Other? || lists[keys[0]].items != []) then 0
    else
      var i := FirstServed(lists, keys[1..]);
      assert forall j :: 1 <= j < 1 + i ==> keys[j] == keys[1..][j - 1];
      1 + i
  }

  function Front(l: seq<Str>, head: bool): Str
    requires l != []
  {
    if head then l[0] else l[|l| - 1]
  }

  function BlockingPop(s: St, c: Cid, keys: seq<Str>, until: int, head: bool): St {
    var i := FirstServed(s.lists, keys);
    if i == |keys| then Block(s, c, keys, until)
    else if s.lists[keys[i]].Other? then s
    else
      var e := Front(s.lists[keys[i]].items, head);
      Pop(s, keys[i], head).(replies := s.replies + [Popped(c, keys[i], e)])
  }

  function RPopLPush(s: St, src: Str, dst: Str): St {
    if !HasItems(s.lists, src) || (dst in s.lists && s.lists[dst].Other?) then s
    else
      var l := s.lists[src].items;
      var e := l[|l| - 1];
      var g := Give(s, dst, e);
      if g.Some? then Pop(g.value, src, false)
      else if src == dst then s.(lists := s.lists[src := List([e] + l[..|l| - 1])])
      else Pop(Added(s, dst, e, true), src, false)
  }

  function Expire(s: St, c: Cid, now: int): St {
    if c in s.keysOf && c in s.until && s.until[c] != 0 && s.until[c] < now then
      Unblock(s, c).(replies := s.replies + [TimedOut(c)])
    else s
  }

  datatype Step =
    | DoPush(k: Str, ele: Str, head: bool)
    | DoPop(k: Str, head: bool)
    | DoBlockingPop(c: Cid, keys: seq<Str>, until: int, head: bool)
    | DoRPopLPush(src: Str, dst: Str)
    | DoExpire(c: Cid, now: int)
    | DoFree(c: Cid)
    | DoSet(k: Str)                       // another value, or an empty list, at the key
    | DoDelete(k: Str)                    // also what MOVE does to the database the key leaves
    | DoRename(src: Str, dst: Str, nx: bool)
    | DoMoveIn(k: Str, v: Val)            // what MOVE does to the database the key comes to
    | DoStore(k: Str, items: seq<Str>)    // the list that SORT with STORE leaves

  /** A blocked client sends no command. */
  predicate Enabled(s: St, e: Step) { e.DoBlockingPop? ==> e.c !in s.keysOf }

  function Next(s: St, e: Step): St {
    match e
    case DoPush(k, ele, head) => Push(s, k, ele, head)
    case DoPop(k, head) => Pop(s, k, head)
    case DoBlockingPop(c, keys, until, head) => BlockingPop(s, c, keys, until, head)
    case DoRPopLPush(src, dst) => RPopLPush(s, src, dst)
    case DoExpire(c, now) => Expire(s, c, now)
    case DoFree(c) => if c in s.keysOf then Unblock(s, c) else s
    case DoSet(k) => s.(lists := s.lists[k := Other])
    case DoDelete(k) => s.(lists := s.lists - {k})
    case DoRename(src, dst, nx) => Renamed(s, src, dst, nx)
    case DoMoveIn(k, v) => if k in s.lists then s else s.(lists := s.lists[k := v])
    case DoStore(k, items) => s.(lists := s.lists[k := List(items)])
  }

  function Renamed(s: St, src: Str, dst: Str, nx: bool): St {
    if src == dst || src !in s.lists || (nx && dst in s.lists) then s
    else s.(lists := (s.lists - {src})[dst := s.lists[src]])
  }

  /** The key at which a step puts down a list with elements without looking who waits for it:
      RENAME, MOVE and SORT with STORE do. */
  function PutDown(s: St, e: Step): Option<Str> {
    match e
    case DoRename(src, dst, nx) =>
      if src != dst && HasItems(s.lists, src) && !(nx && dst in s.lists) then Some(dst) else None
    case DoMoveIn(k, v) => if k !in s.lists && v.List? && v.items != [] then Some(k) else None
    case DoStore(k, items) => if items != [] then Some(k) else None
    case _ => None
  }

  /** The key whose waiting clients the step passes over. */
  function Missed(s: St, e: Step): set<Str> {
    var k := PutDown(s, e);
    if k.Some? && Waited(s.keysOf, k.value) then {k.value} else {}
  }

  // ---------------------------------------------------------------- what every step keeps

  lemma {:induction false} WithoutIs(order: seq<Cid>, c: Cid)
    requires Distinct(order)
    ensures forall x :: x in Without(order, c) <==> x in order && x != c
    ensures Distinct(Without(order, c))
    decreases |order|
  {
    if order != [] {
      var t := order[1..];
      assert order == [order[0]] + t;
      assert Distinct(t) by { assert forall i :: 0 <= i < |t| ==> t[i] == order[i + 1]; }
      assert order[0] !in t;
      if order[0] != c {
        WithoutIs(t, c);
        OneFront(order[0], Without(t, c));
      }
    }
  }

  lemma OneFront(x: Cid, w: seq<Cid>)
    requires Distinct(w) && x !in w
    ensures Distinct([x] + w)
  {
    var u := [x] + w;
    assert forall i :: 1 <= i < |u| ==> u[i] == w[i - 1];
  }

  lemma UnblockKeeps(s: St, c: Cid, m: set<Str>)
    requires Inv(s, m)
    ensures Inv(Unblock(s, c), m)
  {
    WithoutIs(s.order, c);
    var keysOf := s.keysOf - {c};
    forall d | d in keysOf ensures NoneServed(s.lists, keysOf[d], m) { assert NoneServed(s.lists, s.keysOf[d], m); }
  }

  lemma {:induction false} NobodyWaits(order: seq<Cid>, keysOf: map<Cid, seq<Str>>, k: Str)
    requires Oldest(order, keysOf, k).None?
    ensures forall c :: c in order && c in keysOf ==> k !in keysOf[c]
    decreases |order|
  {
    if order != [] {
      NobodyWaits(order[1..], keysOf, k);
      assert order == [order[0]] + order[1..];
    }
  }

  lemma AddedKeeps(s: St, k: Str, ele: Str, head: bool, m: set<Str>)
    requires Inv(s, m) && Give(s, k, ele).None?
    ensures Inv(Added(s, k, ele, head), m)
  {
    NobodyWaits(s.order, s.keysOf, k);
    QuietMore(s.lists, Added(s, k, ele, head).lists, s.keysOf, k, m, m);
  }

  lemma GiveKeeps(s: St, k: Str, ele: Str, m: set<Str>)
    requires Inv(s, m)
    ensures Give(s, k, ele).Some? ==> Inv(Give(s, k, ele).value, m) && Give(s, k, ele).value.lists == s.lists
  {
    var c := Oldest(s.order, s.keysOf, k);
    if c.Some? { UnblockKeeps(s, c.value, m); }
  }

  lemma PopKeeps(s: St, k: Str, head: bool, m: set<Str>)
    requires Inv(s, m)
    ensures Inv(Pop(s, k, head), m)
  {
    QuietFewer(s.lists, Pop(s, k, head).lists, s.keysOf, m);
  }

  lemma BlockKeeps(s: St, c: Cid, keys: seq<Str>, until: int, m: set<Str>)
    requires Inv(s, m) && c !in s.keysOf && NoneServed(s.lists, keys, {})
    ensures Inv(Block(s, c, keys, until), m)
  {
    var keysOf := s.keysOf[c := keys];
    forall d | d in keysOf ensures NoneServed(s.lists, keysOf[d], m) {
      if d != c { assert NoneServed(s.lists, s.keysOf[d], m); }
    }
  }

  lemma RPopLPushKeeps(s: St, src: Str, dst: Str, m: set<Str>)
    requires Inv(s, m)
    ensures Inv(RPopLPush(s, src, dst), m)
  {
    if HasItems(s.lists, src) && !(dst in s.lists && s.lists[dst].Other?) {
      var l := s.lists[src].items;
      var e := l[|l| - 1];
      GiveKeeps(s, dst, e, m);
      if Give(s, dst, e).Some? {
        PopKeeps(Give(s, dst, e).value, src, false, m);
      } else {
        AddedKeeps(s, dst, e, true, m);
        PopKeeps(Added(s, dst, e, true), src, false, m);
        if src == dst { QuietFewer(s.lists, RPopLPush(s, src, dst).lists, s.keysOf, m); }
      }
    }
  }

  /** A list put down at a key serves nobody; whoever waits there is missed. */
  lemma PutDownKeeps(s: St, e: Step, m: set<Str>)
    requires Inv(s, m) && (e.DoRename? || e.DoMoveIn? || e.DoStore?)
    ensures Inv(Next(s, e), m + Missed(s, e))
  {
    var k := if e.DoRename? then e.dst else e.k;
    var all := m + Missed(s, e);
    if PutDown(s, e).Some? {
      QuietMore(s.lists, Next(s, e).lists, s.keysOf, k, m, all);
    } else {
      QuietFewer(s.lists, Next(s, e).lists, s.keysOf, m);
      assert all == m;
    }
  }

  /** Every step keeps the invariant, but for the key whose clients it passes over. */
  lemma StepKeeps(s: St, e: Step, m: set<Str>)
    requires Inv(s, m) && Enabled(s, e)
    ensures Inv(Next(s, e), m + Missed(s, e))
  {
    hide Inv, Push, RPopLPush, Renamed;
    if e.DoRename? || e.DoMoveIn? || e.DoStore? {
      PutDownKeeps(s, e, m);
    } else {
      assert m + Missed(s, e) == m;
      OtherKeeps(s, e, m);
    }
  }

  lemma OtherKeeps(s: St, e: Step, m: set<Str>)
    requires Inv(s, m) && Enabled(s, e) && !e.DoRename? && !e.DoMoveIn? && !e.DoStore?
    ensures Inv(Next(s, e), m)
  {
    match e
    case DoPush(k, ele, head) =>
      GiveKeeps(s, k, ele, m);
      if Give(s, k, ele).None? { AddedKeeps(s, k, ele, head, m); }
    case DoPop(k, head) => PopKeeps(s, k, head, m);
    case DoBlockingPop(c, keys, until, head) =>
      var i := FirstServed(s.lists, keys);
      if i == |keys| { BlockKeeps(s, c, keys, until, m); } else { PopKeeps(s, keys[i], head, m); }
    case DoRPopLPush(src, dst) => RPopLPushKeeps(s, src, dst, m);
    case DoExpire(c, now) => UnblockKeeps(s, c, m);
    case DoFree(c) => UnblockKeeps(s, c, m);
    case DoSet(k) => QuietFewer(s.lists, Next(s, e).lists, s.keysOf, m);
    case DoDelete(k) => QuietFewer(s.lists, Next(s, e).lists, s.keysOf, m);
  }

  /** Nobody waits for a list with elements after a step, if nobody did before, exactly when the
      step does not put a list with elements where somebody waits: a RENAME of one onto another
      key, a MOVE of one, or a SORT that stores some. */
  lemma StepKeepsIff(s: St, e: Step)
    requires Inv(s, {}) && Enabled(s, e)
    ensures Inv(Next(s, e), {}) <==> Missed(s, e) == {}
  {
    if Missed(s, e) == {} {
      StepKeeps(s, e, {});
      assert {} + Missed(s, e) == {};
    } else {
      var k := PutDown(s, e).value;
      var c :| c in s.keysOf && k in s.keysOf[c];
      assert HasItems(Next(s, e).lists, k) && Next(s, e).keysOf == s.keysOf;
      assert !NoneServed(Next(s, e).lists, s.keysOf[c], {});
    }
  }

  ghost predicate CanRun(s: St, steps: seq<Step>)
    decreases |steps|
  {
    steps == [] || (Enabled(s, steps[0]) && CanRun(Next(s, steps[0]), steps[1..]))
  }

  ghost function Run(s: St, steps: seq<Step>): St
    requires CanRun(s, steps)
    decreases |steps|
  {
    if steps == [] then s else Run(Next(s, steps[0]), steps[1..])
  }

  /** The keys whose waiting clients some step of the run passes over. */
  ghost function AllMissed(s: St, steps: seq<Step>): set<Str>
    requires CanRun(s, steps)
    decreases |steps|
  {
    if steps == [] then {} else Missed(s, steps[0]) + AllMissed(Next(s, steps[0]), steps[1..])
  }

  /** In every reachable state, no key somebody waits for has a list with elements, but for the keys
      whose clients the run passed over. */
  lemma {:induction false} EveryRunKeeps(s: St, steps: seq<Step>, m: set<Str>)
    requires Inv(s, m) && CanRun(s, steps)
    ensures Inv(Run(s, steps), m + AllMissed(s, steps))
    decreases |steps|
  {
    hide Inv, Next, Enabled, Missed;
    if steps == [] {
      assert m + {} == m;
    } else {
      var t, rest := Next(s, steps[0]), steps[1..];
      StepKeeps(s, steps[0], m);
      EveryRunKeeps(t, rest, m + Missed(s, steps[0]));
      assert m + Missed(s, steps[0]) + AllMissed(t, rest) == m + (Missed(s, steps[0]) + AllMissed(t, rest));
    }
  }

  /** In every state of the run, nobody waits for a list with elements. */
  ghost predicate AlwaysQuiet(s: St, steps: seq<Step>)
    requires CanRun(s, steps)
    decreases |steps|
  {
    Inv(s, {}) && (steps == [] || AlwaysQuiet(Next(s, steps[0]), steps[1..]))
  }

  /** Nobody ever waits for a list with elements exactly in the runs that pass nobody over. */
  lemma {:induction false} RunKeepsIff(s: St, steps: seq<Step>)
    requires Inv(s, {}) && CanRun(s, steps)
    ensures AlwaysQuiet(s, steps) <==> AllMissed(s, steps) == {}
    decreases |steps|
  {
    hide Inv, Next, Enabled, Missed;
    if steps != [] {
      StepKeepsIff(s, steps[0]);
      if Missed(s, steps[0]) == {} { RunKeepsIff(Next(s, steps[0]), steps[1..]); } else { QuietStart(s, steps); }
    }
  }

  lemma QuietStart(s: St, steps: seq<Step>)
    requires CanRun(s, steps) && steps != []
    ensures AlwaysQuiet(s, steps) ==> Inv(Next(s, steps[0]), {})
  {
    hide Inv, Next, Enabled;
    if AlwaysQuiet(s, steps) { assert AlwaysQuiet(Next(s, steps[0]), steps[1..]); }
  }

  /** Client `c` got the element and waits for nothing any more; all else is as before. */
  ghost predicate GivenTo(s: St, r: St, c: Cid, k: Str, ele: Str) {
    && r.replies == s.replies + [Popped(c, k, ele)] && r.lists == s.lists && c !in r.keysOf && c !in r.order
    && (forall d :: d in s.keysOf && d != c ==> d in r.order && d in r.keysOf && r.keysOf[d] == s.keysOf[d])
  }

  /** The list at `k` has one element more; all else is as before. */
  ghost predicate StoredAt(s: St, r: St, k: Str, ele: Str) {
    && r == s.(lists := r.lists) && HasItems(r.lists, k)
    && multiset(r.lists[k].items) == multiset(Items(s.lists, k)) + multiset{ele}
    && (forall x :: x in s.lists && x != k ==> x in r.lists && r.lists[x] == s.lists[x])
  }

  /** A pushed element goes either to the one client that has waited longest for the key, which
      then waits for nothing, or into the list; never to both and never nowhere. */
  lemma PushGoesOnePlace(s: St, k: Str, ele: Str, head: bool, m: set<Str>)
    requires Inv(s, m) && !(k in s.lists && s.lists[k].Other?)
    ensures var r := Push(s, k, ele, head); var o := Oldest(s.order, s.keysOf, k);
      if o.Some? then GivenTo(s, r, o.value, k, ele) else StoredAt(s, r, k, ele)
  {
    var o := Oldest(s.order, s.keysOf, k);
    if o.Some? { WithoutIs(s.order, o.value); }
  }
}
