/** Replaying a command log beside the live dataset of redis-2.8.0: what a replay can miss, and
    how far a difference can spread. */
module AofFollow {
  import opened Bytes
  import opened AofData

  // ---------------------------------------------------------------- two datasets

  /** Key `s` is the same in both, or missing in `r` and expired before `h`. */
  ghost predicate Agrees(r: Data, d: Data, h: int, s: Slot) {
    if s in r then s in d && r[s] == d[s] else s in d ==> Expired(d, s, h)
  }

  /** `r` is the dataset `d` without some keys that expire before `h`. */
  ghost predicate SubData(r: Data, d: Data, h: int) { forall s :: Agrees(r, d, h, s) }

  /** The same, but for the keys in `x`, of which nothing is said. */
  ghost predicate SubBut(r: Data, d: Data, h: int, x: set<Slot>) { forall s :: s !in x ==> Agrees(r, d, h, s) }

  lemma SubButIs(r: Data, d: Data, h: int, x: set<Slot>)
    ensures SubBut(r, d, h, x) <==> SubData(r - x, d - x, h)
  {
    forall s ensures s in x ==> Agrees(r - x, d - x, h, s)
      ensures s !in x ==> (Agrees(r - x, d - x, h, s) <==> Agrees(r, d, h, s)) {}
  }

  lemma Later(r: Data, d: Data, h: int, h': int, x: set<Slot>)
    requires SubBut(r, d, h, x) && h <= h'
    ensures SubBut(r, d, h', x)
  {
  }

  /** A replayed dataset shows the same keys as the live one from `h` on. */
  lemma SameVisible(r: Data, d: Data, h: int, t: int, x: set<Slot>)
    requires SubBut(r, d, h, x) && h <= t
    ensures Alive(r, t) - x == Alive(d, t) - x
  {
    hide Alive;
    SubButIs(r, d, h, x);
    SubVisible(r - x, d - x, h, t);
    AliveWithout(r, t, x);
    AliveWithout(d, t, x);
  }

  lemma SubVisible(r: Data, d: Data, h: int, t: int)
    requires SubData(r, d, h) && h <= t
    ensures Alive(r, t) == Alive(d, t)
  {
    forall s ensures s in Alive(r, t) <==> s in Alive(d, t)
      ensures s in Alive(r, t) ==> Alive(r, t)[s] == Alive(d, t)[s]
    {
      assert Agrees(r, d, h, s);
    }
  }

  lemma AliveWithout(d: Data, t: int, x: set<Slot>)
    ensures Alive(d - x, t) == Alive(d, t) - x
  {
  }

  // ---------------------------------------------------------------- one command on both

  /** The slots whose old contents a command depends on. */
  function Touched(db: int, c: LogCmd): set<Slot> {
    match c
    case Rename(a, b, _) => {Slot(db, a), Slot(db, b)}
    case Move(k, dst) => {Slot(db, k), Slot(dst, k)}
    case PexpireAt(k, _) => {Slot(db, k)}
    case Add(_, k, _) => {Slot(db, k)}
    case LPush(k, _) => {Slot(db, k)}
    case Pop(k, _) => {Slot(db, k)}
    case Persist(k) => {Slot(db, k)}
    case _ => {}
  }

  /** The slots it gives contents of its own. */
  function Written(db: int, c: LogCmd): set<Slot> {
    match c
    case SetStr(k, _) => {Slot(db, k)}
    case SetRel(k, _, _, _) => {Slot(db, k)}
    case Del(keys) => Slots(db, keys)
    case _ => {}
  }

  predicate Fresh(d: Data, slots: set<Slot>, h: int) {
    forall s :: s in slots ==> !Expired(d, s, h)
  }

  /** A command changes no other slots than these. */
  lemma ApplyFrame(d: Data, db: int, c: LogCmd, s: Slot)
    requires s !in Touched(db, c) && s !in Written(db, c)
    ensures s in Apply(d, db, c) <==> s in d
    ensures s in d ==> Apply(d, db, c)[s] == d[s]
  {
  }

  /** What is in the slots it touches depends on these slots alone. */
  lemma ApplyLocal(r: Data, d: Data, db: int, c: LogCmd, s: Slot)
    requires s in Touched(db, c)
    requires forall x :: x in Touched(db, c) ==> (x in r <==> x in d) && (x in r ==> r[x] == d[x])
    ensures s in Apply(r, db, c) <==> s in Apply(d, db, c)
    ensures s in Apply(r, db, c) ==> Apply(r, db, c)[s] == Apply(d, db, c)[s]
  {
    match c
    case Rename(a, b, nx) => assert Slot(db, a) in Touched(db, c) && Slot(db, b) in Touched(db, c);
    case Move(k, dst) => assert Slot(db, k) in Touched(db, c) && Slot(dst, k) in Touched(db, c);
    case _ =>
  }

  // ---------------------------------------------------------------- suspects

  /** The keys a replay may get wrong after one more command, `d` being the live dataset before
      it: a time relative to the clock is one, and so is everything a command computes from a
      suspect or from a key that a replay may already have dropped. A SET or a DEL clears. */
  function Spread(x: set<Slot>, d: Data, h: int, db: int, c: LogCmd): set<Slot> {
    if c.SetRel? then x + Written(db, c)
    else if Touched(db, c) !! x && Fresh(d, Touched(db, c), h) then x - Written(db, c)
    else x + Touched(db, c)
  }

  function SpreadAll(x: set<Slot>, d: Data, now: int, h: int, db: int, cmds: seq<LogCmd>): set<Slot>
    decreases |cmds|
  {
    if cmds == [] then x
    else SpreadAll(Spread(x, d, h, db, cmds[0]), ApplyAt(d, now, db, cmds[0]), now, h, db, cmds[1..])
  }

  function SpreadFed(x: set<Slot>, d: Data, now: int, h: int, fed: seq<Fed>): set<Slot>
    decreases |fed|
  {
    if fed == [] then x
    else
      var y, r := SpreadAll(x, d, now, h, fed[0].db, fed[0].cmds), ApplyAll(d, now, fed[0].db, fed[0].cmds);
      SpreadFed(y, r, now, h, fed[1..])
  }

  /** One command executed at `now` and replayed at `at`. */
  lemma OneFollows(r: Data, at: int, d: Data, now: int, h: int, x: set<Slot>, db: int, c: LogCmd)
    requires SubBut(r, d, h, x)
    ensures SubBut(ApplyAt(r, at, db, c), ApplyAt(d, now, db, c), h, Spread(x, d, h, db, c))
  {
    hide Apply, Written, Fresh;
    var y := Spread(x, d, h, db, c);
    forall s | s !in y ensures Agrees(ApplyAt(r, at, db, c), ApplyAt(d, now, db, c), h, s) {
      if s in Written(db, c) {
        WriteAgrees(r, at, d, now, h, x, db, c, s);
      } else if s in Touched(db, c) {
        TouchAgrees(r, d, h, x, db, c, s);
      } else {
        assert s !in x;
        FrameAgrees(r, at, d, now, h, db, c, s);
      }
    }
  }

  lemma WriteAgrees(r: Data, at: int, d: Data, now: int, h: int, x: set<Slot>, db: int, c: LogCmd, s: Slot)
    requires s in Written(db, c) && s !in Spread(x, d, h, db, c)
    ensures Agrees(ApplyAt(r, at, db, c), ApplyAt(d, now, db, c), h, s)
  {
  }

  lemma TouchAgrees(r: Data, d: Data, h: int, x: set<Slot>, db: int, c: LogCmd, s: Slot)
    requires SubBut(r, d, h, x) && s in Touched(db, c) && s !in Spread(x, d, h, db, c) && !c.SetRel?
    ensures Agrees(Apply(r, db, c), Apply(d, db, c), h, s)
  {
    hide Apply, Touched;
    forall u | u in Touched(db, c) ensures (u in r <==> u in d) && (u in r ==> r[u] == d[u]) {
      assert Agrees(r, d, h, u);
    }
    ApplyLocal(r, d, db, c, s);
  }

  lemma FrameAgrees(r: Data, at: int, d: Data, now: int, h: int, db: int, c: LogCmd, s: Slot)
    requires Agrees(r, d, h, s) && s !in Written(db, c) && s !in Touched(db, c)
    ensures Agrees(ApplyAt(r, at, db, c), ApplyAt(d, now, db, c), h, s)
  {
    hide Apply;
    if !c.SetRel? {
      ApplyFrame(r, db, c, s);
      ApplyFrame(d, db, c, s);
    }
  }

  lemma {:induction false} AllFollow(r: Data, at: int, d: Data, now: int, h: int, x: set<Slot>,
                                    db: int, cmds: seq<LogCmd>)
    requires SubBut(r, d, h, x)
    ensures SubBut(ApplyAll(r, at, db, cmds), ApplyAll(d, now, db, cmds), h, SpreadAll(x, d, now, h, db, cmds))
    decreases |cmds|
  {
    hide ApplyAt, Spread, SubBut;
    if cmds != [] {
      var c := cmds[0];
      OneFollows(r, at, d, now, h, x, db, c);
      AllFollow(ApplyAt(r, at, db, c), at, ApplyAt(d, now, db, c), now, h, Spread(x, d, h, db, c), db, cmds[1..]);
    }
  }

  /** The same commands, executed at `now` on the live dataset and replayed at any time `at`,
      keep the two datasets together but for the suspects. */
  lemma {:induction false} FedFollows(r: Data, at: int, d: Data, now: int, h: int, x: set<Slot>, fed: seq<Fed>)
    requires SubBut(r, d, h, x)
    ensures SubBut(ReplayFed(r, at, fed), ReplayFed(d, now, fed), h, SpreadFed(x, d, now, h, fed))
    decreases |fed|
  {
    hide ApplyAll, SpreadAll, SubBut;
    if fed != [] {
      var f := fed[0];
      AllFollow(r, at, d, now, h, x, f.db, f.cmds);
      FedFollows(ApplyAll(r, at, f.db, f.cmds), at, ApplyAll(d, now, f.db, f.cmds), now, h,
        SpreadAll(x, d, now, h, f.db, f.cmds), fed[1..]);
    }
  }

  // ---------------------------------------------------------------- client commands

  lemma OneCmd(d: Data, at: int, db: int, c: LogCmd)
    ensures ApplyAll(d, at, db, [c]) == ApplyAt(d, at, db, c)
  {
    hide ApplyAt;
    var one: seq<LogCmd> := [c];
    assert one[1..] == [];
  }

  lemma LazyDel(d: Data, at: int, s: Slot)
    ensures ApplyAll(d, at, s.db, [Del([s.key])]) == d - {s}
  {
    OneCmd(d, at, s.db, Del([s.key]));
    assert Slots(s.db, [s.key]) == {s};
  }

  /** The outcome is what replaying its commands at once on the old dataset gives. */
  ghost predicate IsReplay(d: Data, now: int, o: Outcome) { o.data == ReplayFed(d, now, o.fed) }

  lemma LazyReplay(d: Data, now: int, o: Outcome, s: Slot)
    requires IsReplay(d, now, o)
    ensures IsReplay(d, now, Lazy(o, s, now))
  {
    hide ReplayFed, ApplyAll;
    ReplayFedAppend(d, now, o.fed, Fed(s.db, [Del([s.key])]));
    LazyDel(o.data, now, s);
  }

  lemma ThenReplay(d: Data, now: int, o: Outcome, db: int, c: LogCmd)
    requires IsReplay(d, now, o) && !c.SetRel?
    ensures IsReplay(d, now, Then(o, db, c))
  {
    hide ReplayFed, ApplyAll, Apply;
    ReplayFedAppend(d, now, o.fed, Fed(db, [c]));
    OneCmd(o.data, now, db, c);
  }

  /** What a command does to the dataset is what its propagated commands do. */
  lemma ExecIsReplay(d: Data, now: int, db: int, c: Client)
    ensures Exec(d, now, db, c).data == ReplayFed(d, now, Exec(d, now, db, c).fed)
  {
    hide Apply, ReplayFed, Lazy, Then, IsReplay;
    var o := Outcome(d, []);
    NothingReplayed(d, now);
    match c
    case CTouch(k) => OneReplay(d, now, o, Slot(db, k), db, Persist(k));
    case CSet(k, v) => OneReplay(d, now, o, Slot(db, k), db, SetStr(k, v));
    case CSetEx(k, arg, seconds, v) => SetExReplay(d, now, db, k, arg, seconds, v);
    case CSetRel(k, v, arg, seconds) => SetRelReplay(d, now, db, k, v, arg, seconds);
    case CDel(keys) => ThenReplay(d, now, o, db, Del(keys)); ReplayIs(d, now, Then(o, db, Del(keys)));
    case CRename(a, b, nx) => TwoReplay(d, now, o, Slot(db, a), Slot(db, b), db, Rename(a, b, nx));
    case CMove(k, dst) => TwoReplay(d, now, o, Slot(db, k), Slot(dst, k), db, Move(k, dst));
    case CExpire(k, arg, seconds, relative) =>
      var when := Millis(arg, seconds) + (if relative then now else 0);
      OneReplay(d, now, o, Slot(db, k), db, Del([k]));
      OneReplay(d, now, o, Slot(db, k), db, PexpireAt(k, when));
    case CAdd(kind, k, args) => OneReplay(d, now, o, Slot(db, k), db, Add(kind, k, args));
    case CLPush(k, args) => OneReplay(d, now, o, Slot(db, k), db, LPush(k, args));
    case CPop(k, left) => OneReplay(d, now, o, Slot(db, k), db, Pop(k, left));
    case CPersist(k) => ThenReplay(d, now, o, db, Persist(k)); ReplayIs(d, now, Then(o, db, Persist(k)));
  }

  lemma NothingReplayed(d: Data, now: int)
    ensures IsReplay(d, now, Outcome(d, [])) && ReplayFed(d, now, []) == d
  {
  }

  lemma ReplayIs(d: Data, now: int, o: Outcome)
    requires IsReplay(d, now, o)
    ensures o.data == ReplayFed(d, now, o.fed)
  {
  }

  lemma OneReplay(d: Data, now: int, o: Outcome, s: Slot, db: int, c: LogCmd)
    requires IsReplay(d, now, o) && !c.SetRel?
    ensures o.data == ReplayFed(d, now, o.fed)
    ensures var o1 := Lazy(o, s, now); o1.data == ReplayFed(d, now, o1.fed)
    ensures var o1 := Then(Lazy(o, s, now), db, c); o1.data == ReplayFed(d, now, o1.fed)
  {
    hide Apply, ReplayFed, Lazy, Then;
    LazyReplay(d, now, o, s);
    ThenReplay(d, now, Lazy(o, s, now), db, c);
  }

  lemma TwoReplay(d: Data, now: int, o: Outcome, s: Slot, t: Slot, db: int, c: LogCmd)
    requires IsReplay(d, now, o) && !c.SetRel?
    ensures o.data == ReplayFed(d, now, o.fed)
    ensures var o1 := Lazy(o, s, now); o1.data == ReplayFed(d, now, o1.fed)
    ensures var o2 := Lazy(Lazy(o, s, now), t, now); o2.data == ReplayFed(d, now, o2.fed)
    ensures var o3 := Then(Lazy(Lazy(o, s, now), t, now), db, c); o3.data == ReplayFed(d, now, o3.fed)
  {
    hide Apply, ReplayFed, Lazy, Then;
    LazyReplay(d, now, o, s);
    LazyReplay(d, now, Lazy(o, s, now), t);
    ThenReplay(d, now, Lazy(Lazy(o, s, now), t, now), db, c);
  }

  lemma SetExReplay(d: Data, now: int, db: int, k: Str, arg: int, seconds: bool, v: Str)
    ensures var o := Exec(d, now, db, CSetEx(k, arg, seconds, v)); o.data == ReplayFed(d, now, o.fed)
  {
    var o := Outcome(d, []);
    NothingReplayed(d, now);
    if arg > 0 {
      var s, when := Slot(db, k), now + Millis(arg, seconds);
      LazyReplay(d, now, o, s);
      var o1 := Lazy(o, s, now);
      ReplayFedAppend(d, now, o1.fed, Fed(db, [SetStr(k, v), PexpireAt(k, when)]));
      SetThenExpire(o1.data, now, db, k, v, when);
    }
  }

  lemma SetThenExpire(r: Data, at: int, db: int, k: Str, v: Str, when: int)
    ensures ApplyAll(r, at, db, [SetStr(k, v), PexpireAt(k, when)]) == r[Slot(db, k) := Entry(Text(v), Some(when))]
  {
    var two := [SetStr(k, v), PexpireAt(k, when)];
    assert two[1..] == [PexpireAt(k, when)];
    var r1 := ApplyAt(r, at, db, two[0]);
    assert ApplyAll(r, at, db, two) == ApplyAll(r1, at, db, two[1..]);
    OneCmd(r1, at, db, PexpireAt(k, when));
  }

  lemma SetRelReplay(d: Data, now: int, db: int, k: Str, v: Str, arg: int, seconds: bool)
    ensures var o := Exec(d, now, db, CSetRel(k, v, arg, seconds)); o.data == ReplayFed(d, now, o.fed)
  {
    hide ApplyAt;
    var o, c := Outcome(d, []), SetRel(k, v, arg, seconds);
    NothingReplayed(d, now);
    if arg > 0 {
      LazyReplay(d, now, o, Slot(db, k));
      var o1 := Lazy(o, Slot(db, k), now);
      ReplayFedAppend(d, now, o1.fed, Fed(db, [c]));
      OneCmd(o1.data, now, db, c);
    }
  }

  /** Replaying at any time what a client command propagated at `now` keeps up with what it did,
      but for the suspects. */
  lemma ExecFollows(r: Data, at: int, d: Data, now: int, h: int, x: set<Slot>, db: int, c: Client)
    requires SubBut(r, d, h, x)
    ensures var o := Exec(d, now, db, c);
      SubBut(ReplayFed(r, at, o.fed), o.data, h, SpreadFed(x, d, now, h, o.fed))
  {
    hide SubBut, Exec, ReplayFed, SpreadFed;
    ExecIsReplay(d, now, db, c);
    FedFollows(r, at, d, now, h, x, Exec(d, now, db, c).fed);
  }

  // ---------------------------------------------------------------- commands that leave no suspect

  lemma {:induction false} SpreadFedAppend(x: set<Slot>, d: Data, now: int, h: int, fed: seq<Fed>, f: Fed)
    ensures SpreadFed(x, d, now, h, fed + [f]) ==
      SpreadAll(SpreadFed(x, d, now, h, fed), ReplayFed(d, now, fed), now, h, f.db, f.cmds)
    decreases |fed|
  {
    hide SpreadAll, ApplyAll;
    if fed == [] {
      assert fed + [f] == [f];
    } else {
      assert (fed + [f])[1..] == fed[1..] + [f];
      var y, r := SpreadAll(x, d, now, h, fed[0].db, fed[0].cmds), ApplyAll(d, now, fed[0].db, fed[0].cmds);
      SpreadFedAppend(y, r, now, h, fed[1..], f);
    }
  }

  lemma OneSpread(x: set<Slot>, d: Data, now: int, h: int, db: int, c: LogCmd)
    ensures SpreadAll(x, d, now, h, db, [c]) == Spread(x, d, h, db, c)
  {
    hide Spread, ApplyAt;
    var one: seq<LogCmd> := [c];
    assert one[1..] == [];
  }

  /** Nothing is suspect after what was fed so far. */
  ghost predicate Clean(d: Data, now: int, h: int, o: Outcome) {
    IsReplay(d, now, o) && SpreadFed({}, d, now, h, o.fed) == {}
  }

  lemma NothingSuspect(d: Data, now: int, h: int)
    ensures Clean(d, now, h, Outcome(d, []))
  {
  }

  lemma LazyClean(d: Data, now: int, h: int, o: Outcome, s: Slot)
    requires Clean(d, now, h, o)
    ensures Clean(d, now, h, Lazy(o, s, now)) && !Expired(Lazy(o, s, now).data, s, now)
    ensures Without(Lazy(o, s, now).data, o.data)
  {
    hide SpreadFed, SpreadAll, ReplayFed, Apply;
    LazyReplay(d, now, o, s);
    SpreadFedAppend({}, d, now, h, o.fed, Fed(s.db, [Del([s.key])]));
    OneSpread({}, o.data, now, h, s.db, Del([s.key]));
  }

  /** `r` is `d` without some keys. */
  ghost predicate Without(r: Data, d: Data) { forall s :: s in r ==> s in d && r[s] == d[s] }

  lemma ThenClean(d: Data, now: int, h: int, o: Outcome, db: int, c: LogCmd)
    requires Clean(d, now, h, o) && !c.SetRel? && Fresh(o.data, Touched(db, c), h)
    ensures Clean(d, now, h, Then(o, db, c))
  {
    hide SpreadFed, SpreadAll, ReplayFed, Apply, Touched, Fresh, Written;
    ThenReplay(d, now, o, db, c);
    SpreadFedAppend({}, d, now, h, o.fed, Fed(db, [c]));
    OneSpread({}, o.data, now, h, db, c);
  }

  /** The slots a client command looks up. */
  function Looked(db: int, c: Client): set<Slot> {
    match c
    case CDel(keys) => Slots(db, keys)
    case CRename(a, b, _) => {Slot(db, a), Slot(db, b)}
    case CMove(k, dst) => {Slot(db, k), Slot(dst, k)}
    case _ => {Slot(db, c.k)}
  }

  /** The key expires from `now` on but before `h`. */
  predicate Between(d: Data, s: Slot, now: int, h: int) {
    s in d && d[s].expire.Some? && now <= d[s].expire.value < h
  }

  /** Not logged with a relative time, and no PERSIST of an expired key: PERSIST alone does not
      expire the key it looks at. */
  predicate Safe(d: Data, now: int, db: int, c: Client) {
    !c.CSetRel? && (c.CPersist? ==> !Expired(d, Slot(db, c.k), now))
  }

  /** Safe, and no key it looks up expires between now and the time the log is good from. */
  predicate Timely(d: Data, now: int, h: int, db: int, c: Client) {
    Safe(d, now, db, c) && forall s :: s in Looked(db, c) ==> !Between(d, s, now, h)
  }

  lemma FreshAfter(r: Data, d: Data, now: int, h: int, s: Slot)
    requires Without(r, d) && !Expired(r, s, now) && !Between(d, s, now, h)
    ensures !Expired(r, s, h)
  {
  }

  lemma OneClean(d: Data, now: int, h: int, s: Slot, db: int, c: LogCmd)
    requires !Between(d, s, now, h) && !c.SetRel? && Touched(db, c) <= {s}
    ensures var o1 := Lazy(Outcome(d, []), s, now);
      Clean(d, now, h, o1) && Clean(d, now, h, Then(o1, db, c))
  {
    hide Clean, Lazy, Then, Touched;
    var o := Outcome(d, []);
    NothingSuspect(d, now, h);
    LazyClean(d, now, h, o, s);
    FreshAfter(Lazy(o, s, now).data, d, now, h, s);
    ThenClean(d, now, h, Lazy(o, s, now), db, c);
  }

  lemma TwoClean(d: Data, now: int, h: int, s: Slot, t: Slot, db: int, c: LogCmd)
    requires !Between(d, s, now, h) && !Between(d, t, now, h) && !c.SetRel? && Touched(db, c) <= {s, t}
    ensures var o1 := Lazy(Outcome(d, []), s, now); var o2 := Lazy(o1, t, now);
      Clean(d, now, h, o1) && Clean(d, now, h, o2) && Clean(d, now, h, Then(o2, db, c))
  {
    hide Clean, Lazy, Then, Touched;
    var o := Outcome(d, []);
    NothingSuspect(d, now, h);
    LazyClean(d, now, h, o, s);
    var o1 := Lazy(o, s, now);
    LazyClean(d, now, h, o1, t);
    var o2 := Lazy(o1, t, now);
    assert !Expired(o2.data, s, now);
    FreshAfter(o2.data, d, now, h, s);
    FreshAfter(o2.data, d, now, h, t);
    ThenClean(d, now, h, o2, db, c);
  }

  lemma SetExClean(d: Data, now: int, h: int, db: int, k: Str, arg: int, seconds: bool, v: Str)
    ensures Clean(d, now, h, Exec(d, now, db, CSetEx(k, arg, seconds, v)))
  {
    hide SpreadFed, ReplayFed, SpreadAll, ApplyAll;
    var o, s := Outcome(d, []), Slot(db, k);
    NothingSuspect(d, now, h);
    SetExReplay(d, now, db, k, arg, seconds, v);
    if arg > 0 {
      var when := now + Millis(arg, seconds);
      LazyClean(d, now, h, o, s);
      var o1 := Lazy(o, s, now);
      SpreadFedAppend({}, d, now, h, o1.fed, Fed(db, [SetStr(k, v), PexpireAt(k, when)]));
      SetThenExpireClean(o1.data, now, h, db, k, v, when);
    }
  }

  lemma SetThenExpireClean(d: Data, now: int, h: int, db: int, k: Str, v: Str, when: int)
    ensures SpreadAll({}, d, now, h, db, [SetStr(k, v), PexpireAt(k, when)]) == {}
  {
    var two := [SetStr(k, v), PexpireAt(k, when)];
    assert two[1..] == [PexpireAt(k, when)];
    var d1 := ApplyAt(d, now, db, two[0]);
    assert Spread({}, d, h, db, two[0]) == {};
    assert SpreadAll({}, d, now, h, db, two) == SpreadAll({}, d1, now, h, db, two[1..]);
    OneSpread({}, d1, now, h, db, PexpireAt(k, when));
  }

  /** A timely command makes no key suspect. */
  lemma ExecClean(d: Data, now: int, h: int, db: int, c: Client)
    requires now <= h && Timely(d, now, h, db, c)
    ensures SpreadFed({}, d, now, h, Exec(d, now, db, c).fed) == {}
  {
    hide Apply, SpreadFed, Lazy, Then, IsReplay;
    var o := Outcome(d, []);
    NothingSuspect(d, now, h);
    match c
    case CTouch(k) => OneClean(d, now, h, Slot(db, k), db, Persist(k));
    case CSet(k, v) => OneClean(d, now, h, Slot(db, k), db, SetStr(k, v));
    case CSetEx(k, arg, seconds, v) => SetExClean(d, now, h, db, k, arg, seconds, v);
    case CDel(keys) => ThenClean(d, now, h, o, db, Del(keys));
    case CRename(a, b, nx) => TwoClean(d, now, h, Slot(db, a), Slot(db, b), db, Rename(a, b, nx));
    case CMove(k, dst) => TwoClean(d, now, h, Slot(db, k), Slot(dst, k), db, Move(k, dst));
    case CExpire(k, arg, seconds, relative) =>
      var when := Millis(arg, seconds) + (if relative then now else 0);
      OneClean(d, now, h, Slot(db, k), db, Del([k]));
      OneClean(d, now, h, Slot(db, k), db, PexpireAt(k, when));
    case CAdd(kind, k, args) => OneClean(d, now, h, Slot(db, k), db, Add(kind, k, args));
    case CLPush(k, args) => OneClean(d, now, h, Slot(db, k), db, LPush(k, args));
    case CPop(k, left) => OneClean(d, now, h, Slot(db, k), db, Pop(k, left));
    case CPersist(k) =>
      FreshAfter(d, d, now, h, Slot(db, k));
      ThenClean(d, now, h, o, db, Persist(k));
  }

  // ---------------------------------------------------------------- exactly when

  /** Every possible replay of the dataset keeps up with the outcome. */
  ghost predicate EveryReplayFollows(d: Data, now: int, o: Outcome) {
    forall r, at :: SubData(r, d, now) ==> SubData(ReplayFed(r, at, o.fed), o.data, now)
  }

  lemma SafeFollows(r: Data, at: int, d: Data, now: int, db: int, c: Client)
    requires SubData(r, d, now) && Safe(d, now, db, c)
    ensures SubData(ReplayFed(r, at, Exec(d, now, db, c).fed), Exec(d, now, db, c).data, now)
  {
    hide Exec, ReplayFed, SpreadFed, Agrees;
    assert SubBut(r, d, now, {});
    ExecFollows(r, at, d, now, now, {}, db, c);
    ExecClean(d, now, now, db, c);
  }

  /** PERSIST keeps every possible replay in step exactly when the key is not expired: an expired
      key that a rewrite left out of the file comes back to life in memory only. */
  lemma PersistSafeIff(d: Data, now: int, db: int, k: Str)
    requires Slot(db, k) in d && d[Slot(db, k)].expire.Some?
    ensures EveryReplayFollows(d, now, Exec(d, now, db, CPersist(k))) <==> !Expired(d, Slot(db, k), now)
  {
    var s, o := Slot(db, k), Exec(d, now, db, CPersist(k));
    if Expired(d, s, now) {
      var r := d - {s};
      assert SubData(r, d, now);
      ReplayFedAppend(r, now, [], Fed(db, [Persist(k)]));
      assert [] + [Fed(db, [Persist(k)])] == o.fed;
      OneCmd(r, now, db, Persist(k));
      assert !Agrees(ReplayFed(r, now, o.fed), o.data, now, s);
    } else {
      forall r, at | SubData(r, d, now) ensures SubData(ReplayFed(r, at, o.fed), o.data, now) {
        SafeFollows(r, at, d, now, db, CPersist(k));
      }
    }
  }

  /** What is missing from a snapshot taken by a later clock. */
  lemma LateSnapshot(d: Data, now: int, childNow: int)
    requires 0 <= now <= childNow
    ensures SubData(Alive(d, childNow), d, childNow)
    ensures (forall s :: !Between(d, s, now, childNow)) ==> SubData(Alive(d, childNow), d, now)
  {
    forall s ensures Agrees(Alive(d, childNow), d, childNow, s)
      ensures !Between(d, s, now, childNow) ==> Agrees(Alive(d, childNow), d, now, s) {}
  }

  /** Reloaded at the child's clock or later, a snapshot followed by what a command propagated at
      the fork shows what the live dataset shows. */
  ghost predicate SnapshotFollows(d: Data, now: int, childNow: int, at: int, db: int, c: Client) {
    var o := Exec(d, now, db, c);
    ShowSame(ReplayFed(Alive(d, childNow), at, o.fed), o.data, childNow)
  }

  /** The child that rewrites the file reads the clock after the fork. Whatever safe command
      comes next, the new file shows the live dataset exactly when no key expires in between. */
  lemma LateChildClock(d: Data, now: int, childNow: int, at: int)
    requires 0 <= now <= childNow
    ensures (forall db, c :: Safe(d, now, db, c) ==> SnapshotFollows(d, now, childNow, at, db, c))
      <==> forall s :: !Between(d, s, now, childNow)
  {
    if s :| Between(d, s, now, childNow) {
      ExtendedKeyLost(d, now, childNow, at, s);
    } else {
      forall db, c | Safe(d, now, db, c) ensures SnapshotFollows(d, now, childNow, at, db, c) {
        TimelySnapshot(d, now, childNow, at, db, c);
      }
    }
  }

  lemma TimelySnapshot(d: Data, now: int, childNow: int, at: int, db: int, c: Client)
    requires 0 <= now <= childNow && Safe(d, now, db, c) && forall s :: !Between(d, s, now, childNow)
    ensures SnapshotFollows(d, now, childNow, at, db, c)
  {
    hide Exec, ReplayFed, Alive, SubData, Safe;
    var o, r := Exec(d, now, db, c), Alive(d, childNow);
    LateSnapshot(d, now, childNow);
    SafeFollows(r, at, d, now, db, c);
    forall t | t >= childNow ensures Alive(ReplayFed(r, at, o.fed), t) == Alive(o.data, t) {
      SubVisible(ReplayFed(r, at, o.fed), o.data, now, t);
    }
  }

  /** A key in between whose life is prolonged before the child's clock is lost. */
  lemma ExtendedKeyLost(d: Data, now: int, childNow: int, at: int, s: Slot)
    requires 0 <= now <= childNow && Between(d, s, now, childNow)
    ensures var c := CExpire(s.key, childNow + 1, false, false);
      Safe(d, now, s.db, c) && !SnapshotFollows(d, now, childNow, at, s.db, c)
  {
    var c, r := CExpire(s.key, childNow + 1, false, false), Alive(d, childNow);
    var o := Exec(d, now, s.db, c);
    var p := PexpireAt(s.key, childNow + 1);
    assert s == Slot(s.db, s.key);
    assert o == Then(Outcome(d, []), s.db, p);
    ReplayFedAppend(r, at, [], Fed(s.db, [p]));
    assert [] + [Fed(s.db, [p])] == o.fed;
    OneCmd(r, at, s.db, p);
    assert s !in ReplayFed(r, at, o.fed);
    assert s in Alive(o.data, childNow) && s !in Alive(ReplayFed(r, at, o.fed), childNow);
  }

  // ---------------------------------------------------------------- relative times

  /** A key with one expiry or another shows the same from `from` on exactly when the two are
      equal or both have passed by then. */
  lemma TwoClocks(d: Data, s: Slot, v: Val, live: nat, replayed: nat, from: int)
    ensures ShowSame(d[s := Entry(v, Some(replayed))], d[s := Entry(v, Some(live))], from)
      <==> live == replayed || (live < from && replayed < from)
  {
    var a, b := d[s := Entry(v, Some(replayed))], d[s := Entry(v, Some(live))];
    if live != replayed {
      var hi := if live < replayed then replayed else live;
      if hi >= from {
        assert (s in Alive(a, hi)) != (s in Alive(b, hi));
      } else {
        forall t | t >= from ensures Alive(a, t) == Alive(b, t) {
          GoneFrom(d, s, v, live, t);
          GoneFrom(d, s, v, replayed, t);
        }
      }
    }
  }

  lemma GoneFrom(d: Data, s: Slot, v: Val, e: nat, t: int)
    requires e < t
    ensures Alive(d[s := Entry(v, Some(e))], t) == Alive(d - {s}, t)
  {
  }

  /** SET with EX or PX is logged as it came. Executed at `now` and replayed at `loadedAt`, it
      shows the same from `from` on exactly when the clocks agree or the key is gone by both. */
  lemma RelativeTimeIff(d: Data, now: nat, loadedAt: nat, from: int, db: int, k: Str, v: Str, arg: nat, seconds: bool)
    requires arg > 0
    ensures var o := Exec(d, now, db, CSetRel(k, v, arg, seconds)); var ms := Millis(arg, seconds);
      ShowSame(ReplayFed(d, loadedAt, o.fed), o.data, from)
      <==> now == loadedAt || (now + ms < from && loadedAt + ms < from)
  {
    hide Alive, ShowSame, ReplayFed, ApplyAll;
    var s, c := Slot(db, k), SetRel(k, v, arg, seconds);
    var ms := Millis(arg, seconds);
    var o1 := Lazy(Outcome(d, []), s, now);
    ReplayFedAppend(d, loadedAt, o1.fed, Fed(db, [c]));
    NothingReplayed(d, loadedAt);
    if Expired(d, s, now) {
      ReplayFedAppend(d, loadedAt, [], Fed(db, [Del([k])]));
      LazyDel(d, loadedAt, s);
      assert [] + [Fed(db, [Del([k])])] == o1.fed;
    }
    assert ReplayFed(d, loadedAt, o1.fed) == o1.data;
    OneCmd(o1.data, loadedAt, db, c);
    TwoClocks(o1.data, s, Text(v), now + ms, loadedAt + ms, from);
  }

  /** SET key value PX 5 at time 0, reloaded at time 100: the key is back until 105. */
  lemma RelativeTimeExample(k: Str, v: Str)
    ensures var o := Exec(map[], 0, 0, CSetRel(k, v, 5, false)); var r := ReplayFed(map[], 100, o.fed);
      Alive(o.data, 100) == map[] && Slot(0, k) in Alive(r, 100) && r[Slot(0, k)] == Entry(Text(v), Some(105))
  {
    var c := SetRel(k, v, 5, false);
    ReplayFedAppend(map[], 100, [], Fed(0, [c]));
    OneCmd(map[], 100, 0, c);
    assert [] + [Fed(0, [c])] == Exec(map[], 0, 0, CSetRel(k, v, 5, false)).fed;
  }
}
