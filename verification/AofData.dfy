/** The dataset of redis-2.8.0/src/db.c, what commands do to it while serving clients, and what
    the commands of the append-only file do to it when they are replayed. */
module AofData {
  import opened Bytes

  type Str = seq<byte>

  const DBNUM: nat := 16

  datatype Kind = RPush | SAdd | ZAdd | HMSet

  datatype Val =
    | Text(s: Str) | List(items: seq<Str>) | Set(m: set<Str>) | Zset(z: map<Str, Str>) | Hash(h: map<Str, Str>)

  datatype Slot = Slot(db: int, key: Str)

  /** A value and the time, in milliseconds, when it expires. */
  datatype Entry = Entry(val: Val, expire: Option<int>)

  type Data = map<Slot, Entry>

  /** The commands of the file; Zset scores stay in the text form they have there. */
  datatype LogCmd =
    | Select(db: int)
    | SetStr(k: Str, v: Str)
    | SetRel(k: Str, v: Str, arg: int, seconds: bool)   // SET key value EX n, or PX n
    | Del(keys: seq<Str>)
    | Rename(a: Str, b: Str, nx: bool)
    | Move(k: Str, dst: int)
    | PexpireAt(k: Str, when: int)
    | Add(kind: Kind, k: Str, args: seq<Str>)
    | LPush(k: Str, args: seq<Str>)
    | Pop(k: Str, left: bool)
    | Persist(k: Str)

  // ---------------------------------------------------------------- values

  function Empty(kind: Kind): Val {
    match kind
    case RPush => List([])
    case SAdd => Set({})
    case ZAdd => Zset(map[])
    case HMSet => Hash(map[])
  }

  predicate Fits(v: Val, kind: Kind) {
    match kind
    case RPush => v.List?
    case SAdd => v.Set?
    case ZAdd => v.Zset?
    case HMSet => v.Hash?
  }

  function Width(kind: Kind): nat { if kind == RPush || kind == SAdd then 1 else 2 }

  /** Adds one item: an RPUSH or SADD element, a ZADD score and member, an HMSET field and value. */
  function AddOne(v: Val, kind: Kind, args: seq<Str>): (r: Val)
    requires Fits(v, kind) && |args| >= Width(kind)
    ensures Fits(r, kind)
  {
    match kind
    case RPush => List(v.items + [args[0]])
    case SAdd => Set(v.m + {args[0]})
    case ZAdd => Zset(v.z[args[1] := args[0]])
    case HMSet => Hash(v.h[args[0] := args[1]])
  }

  function AddAll(v: Val, kind: Kind, args: seq<Str>): (r: Val)
    requires Fits(v, kind)
    ensures Fits(r, kind)
    decreases |args|
  {
    if |args| < Width(kind) then v else AddAll(AddOne(v, kind, args), kind, args[Width(kind)..])
  }

  /** Whether adding raises the dirty counter: lists and hashes always do, sets and sorted sets
      when some item is new or has another score. */
  predicate Dirty(v: Val, kind: Kind, args: seq<Str>)
    requires Fits(v, kind)
    decreases |args|
  {
    |args| >= Width(kind) && (kind == RPush || kind == HMSet || AddOne(v, kind, args) != v
      || Dirty(AddOne(v, kind, args), kind, args[Width(kind)..]))
  }

  /** A command that is not propagated changed nothing. */
  lemma {:induction false} CleanChangesNothing(v: Val, kind: Kind, args: seq<Str>)
    requires Fits(v, kind) && !Dirty(v, kind, args)
    ensures AddAll(v, kind, args) == v
    decreases |args|
  {
    if |args| >= Width(kind) { CleanChangesNothing(AddOne(v, kind, args), kind, args[Width(kind)..]); }
  }

  function PushLeft(items: seq<Str>, args: seq<Str>): seq<Str>
    decreases |args|
  {
    if args == [] then items else PushLeft([args[0]] + items, args[1..])
  }

  // ---------------------------------------------------------------- commands on the dataset

  function Slots(db: int, keys: seq<Str>): set<Slot> { set k | k in keys :: Slot(db, k) }

  function MoveEntry(d: Data, src: Slot, dst: Slot, e: Entry): Data {
    (d - {src})[dst := e]
  }

  /** A collection command on one entry; None when the key holds another type. */
  function Added(d: Data, s: Slot, kind: Kind, args: seq<Str>): Option<Entry> {
    if s !in d then Some(Entry(AddAll(Empty(kind), kind, args), None))
    else if Fits(d[s].val, kind) then Some(d[s].(val := AddAll(d[s].val, kind, args)))
    else None
  }

  function LPushed(d: Data, s: Slot, args: seq<Str>): Option<Entry> {
    if s !in d then Some(Entry(List(PushLeft([], args)), None))
    else if d[s].val.List? then Some(d[s].(val := List(PushLeft(d[s].val.items, args))))
    else None
  }

  predicate CanPop(d: Data, s: Slot) { s in d && d[s].val.List? && d[s].val.items != [] }

  function Popped(d: Data, s: Slot, left: bool): Data
    requires CanPop(d, s)
  {
    var l := d[s].val.items;
    var rest := if left then l[1..] else l[..|l| - 1];
    if rest == [] then d - {s} else d[s := d[s].(val := List(rest))]
  }

  predicate CanRename(d: Data, db: int, a: Str, b: Str, nx: bool) {
    a != b && Slot(db, a) in d && !(nx && Slot(db, b) in d)
  }

  predicate CanMove(d: Data, db: int, k: Str, dst: int) {
    0 <= dst < DBNUM && dst != db && Slot(db, k) in d && Slot(dst, k) !in d
  }

  /** A command against the dataset, with no key expiring meanwhile; one that needs a clock is
      left to `ApplyAt`. */
  function Apply(d: Data, db: int, c: LogCmd): Data {
    match c
    case Select(_) => d
    case SetRel(_, _, _, _) => d
    case SetStr(k, v) => d[Slot(db, k) := Entry(Text(v), None)]
    case Del(keys) => d - Slots(db, keys)
    case Rename(a, b, nx) =>
      if CanRename(d, db, a, b, nx) then MoveEntry(d, Slot(db, a), Slot(db, b), d[Slot(db, a)]) else d
    case Move(k, dst) =>
      if CanMove(d, db, k, dst) then MoveEntry(d, Slot(db, k), Slot(dst, k), Entry(d[Slot(db, k)].val, None)) else d
    case PexpireAt(k, when) =>
      if Slot(db, k) in d then d[Slot(db, k) := d[Slot(db, k)].(expire := Some(when))] else d
    case Add(kind, k, args) =>
      var e := Added(d, Slot(db, k), kind, args);
      if e.Some? then d[Slot(db, k) := e.value] else d
    case LPush(k, args) =>
      var e := LPushed(d, Slot(db, k), args);
      if e.Some? then d[Slot(db, k) := e.value] else d
    case Pop(k, left) => if CanPop(d, Slot(db, k)) then Popped(d, Slot(db, k), left) else d
    case Persist(k) => if Slot(db, k) in d then d[Slot(db, k) := d[Slot(db, k)].(expire := None)] else d
  }

  function Millis(arg: int, seconds: bool): int { if seconds then 1000 * arg else arg }

  /** The same by the clock `at` of whoever executes it. */
  function ApplyAt(d: Data, at: int, db: int, c: LogCmd): Data {
    if c.SetRel? then d[Slot(db, c.k) := Entry(Text(c.v), Some(at + Millis(c.arg, c.seconds)))] else Apply(d, db, c)
  }

  // ---------------------------------------------------------------- replay

  /** The fake client that loads a file: its selected database, the dataset so far and the time
      of loading. Nothing expires while loading. */
  datatype Loader = Loader(sel: int, data: Data, at: int)

  function ReplayOne(st: Loader, c: LogCmd): Loader {
    match c
    case Select(db) => if 0 <= db < DBNUM then st.(sel := db) else st
    case _ => st.(data := ApplyAt(st.data, st.at, st.sel, c))
  }

  function Replay(st: Loader, log: seq<LogCmd>): Loader
    decreases |log|
  {
    if log == [] then st else Replay(ReplayOne(st, log[0]), log[1..])
  }

  /** A server that starts at time `at`. */
  function Start(at: int): Loader { Loader(0, map[], at) }

  lemma {:induction false} ReplayConcat(st: Loader, a: seq<LogCmd>, b: seq<LogCmd>)
    ensures Replay(st, a + b) == Replay(Replay(st, a), b)
    decreases |a|
  {
    if a == [] {
      assert a + b == b;
    } else {
      assert (a + b)[1..] == a[1..] + b;
      ReplayConcat(ReplayOne(st, a[0]), a[1..], b);
    }
  }

  lemma SelectReplays(st: Loader, db: int)
    requires 0 <= db < DBNUM
    ensures Replay(st, [Select(db)]) == st.(sel := db)
  {
    var one: seq<LogCmd> := [Select(db)];
    assert one[1..] == [];
    assert Replay(st, one) == Replay(ReplayOne(st, one[0]), one[1..]);
  }

  lemma NoReplay(st: Loader)
    ensures Replay(st, []) == st
  {
  }

  /** No command has a time relative to the clock. */
  predicate Timeless(log: seq<LogCmd>) { forall i :: 0 <= i < |log| ==> !log[i].SetRel? }

  /** Such a log replays alike whenever it is loaded. */
  lemma {:induction false} TimelessReplay(st: Loader, at: int, log: seq<LogCmd>)
    requires Timeless(log)
    ensures Replay(st.(at := at), log) == Replay(st, log).(at := at)
    decreases |log|
  {
    hide Apply;
    if log != [] {
      var t := log[1..];
      assert forall i :: 0 <= i < |t| ==> t[i] == log[i + 1];
      TimelessReplay(ReplayOne(st, log[0]), at, t);
    }
  }

  // ---------------------------------------------------------------- live commands

  predicate Expired(d: Data, s: Slot, now: int) {
    s in d && d[s].expire.Some? && d[s].expire.value >= 0 && now > d[s].expire.value
  }

  /** A command handed to feedAppendOnlyFile for a database; several log commands when it
      translates one client command into more. */
  datatype Fed = Fed(db: int, cmds: seq<LogCmd>)

  datatype Outcome = Outcome(data: Data, fed: seq<Fed>)

  /** expireIfNeeded: an expired key is deleted and a DEL is propagated. */
  function Lazy(o: Outcome, s: Slot, now: int): Outcome {
    if Expired(o.data, s, now) then Outcome(o.data - {s}, o.fed + [Fed(s.db, [Del([s.key])])]) else o
  }

  datatype Client =
    | CTouch(k: Str)                                   // any lookup of a key
    | CSet(k: Str, v: Str)
    | CSetEx(k: Str, arg: int, seconds: bool, v: Str)  // SETEX, PSETEX
    | CSetRel(k: Str, v: Str, arg: int, seconds: bool) // SET with EX or PX
    | CDel(keys: seq<Str>)
    | CRename(a: Str, b: Str, nx: bool)
    | CMove(k: Str, dst: int)
    | CExpire(k: Str, arg: int, seconds: bool, relative: bool)
    | CAdd(kind: Kind, k: Str, args: seq<Str>)
    | CLPush(k: Str, args: seq<Str>)
    | CPop(k: Str, left: bool)
    | CPersist(k: Str)

  function Then(o: Outcome, db: int, c: LogCmd): Outcome {
    Outcome(Apply(o.data, db, c), o.fed + [Fed(db, [c])])
  }

  /** A client command in database `db` at time `now`, with everything it propagates. */
  function Exec(d: Data, now: int, db: int, c: Client): Outcome {
    var o := Outcome(d, []);
    match c
    case CTouch(k) => Lazy(o, Slot(db, k), now)
    case CSet(k, v) => Then(Lazy(o, Slot(db, k), now), db, SetStr(k, v))
    case CSetEx(k, arg, seconds, v) =>
      if arg <= 0 then o
      else
        var o1 := Lazy(o, Slot(db, k), now);
        var when := now + Millis(arg, seconds);
        Outcome(o1.data[Slot(db, k) := Entry(Text(v), Some(when))],
                o1.fed + [Fed(db, [SetStr(k, v), PexpireAt(k, when)])])
    case CSetRel(k, v, arg, seconds) =>
      if arg <= 0 then o
      else
        var o1 := Lazy(o, Slot(db, k), now);
        Outcome(ApplyAt(o1.data, now, db, SetRel(k, v, arg, seconds)), o1.fed + [Fed(db, [SetRel(k, v, arg, seconds)])])
    case CDel(keys) => if d.Keys !! Slots(db, keys) then o else Then(o, db, Del(keys))
    case CRename(a, b, nx) =>
      if a == b then o
      else
        var o1 := Lazy(o, Slot(db, a), now);
        if Slot(db, a) !in o1.data then o1
        else
          var o2 := Lazy(o1, Slot(db, b), now);
          if nx && Slot(db, b) in o2.data then o2 else Then(o2, db, Rename(a, b, nx))
    case CMove(k, dst) =>
      if !(0 <= dst < DBNUM) || dst == db then o
      else
        var o1 := Lazy(o, Slot(db, k), now);
        if Slot(db, k) !in o1.data then o1
        else
          var o2 := Lazy(o1, Slot(dst, k), now);
          if Slot(dst, k) in o2.data then o2 else Then(o2, db, Move(k, dst))
    case CExpire(k, arg, seconds, relative) =>
      var when := Millis(arg, seconds) + (if relative then now else 0);
      var o1 := Lazy(o, Slot(db, k), now);
      if Slot(db, k) !in o1.data then o1
      else if when <= now then Then(o1, db, Del([k]))
      else Then(o1, db, PexpireAt(k, when))
    case CAdd(kind, k, args) =>
      if args == [] || |args| % Width(kind) != 0 then o
      else
        var o1 := Lazy(o, Slot(db, k), now);
        if Refused(o1.data, Slot(db, k), kind, args) then o1 else Then(o1, db, Add(kind, k, args))
    case CLPush(k, args) =>
      if args == [] then o
      else
        var o1 := Lazy(o, Slot(db, k), now);
        if LPushed(o1.data, Slot(db, k), args).None? then o1 else Then(o1, db, LPush(k, args))
    case CPop(k, left) =>
      var o1 := Lazy(o, Slot(db, k), now);
      if !CanPop(o1.data, Slot(db, k)) then o1 else Then(o1, db, Pop(k, left))
    case CPersist(k) =>
      if Slot(db, k) in d && d[Slot(db, k)].expire.Some? then Then(o, db, Persist(k)) else o
  }

  /** The key has another type, or nothing would change. */
  predicate Refused(d: Data, s: Slot, kind: Kind, args: seq<Str>) {
    s in d && (!Fits(d[s].val, kind) || !Dirty(d[s].val, kind, args))
  }

  /** Replays what was fed, at time `at`; each element selects its own database. */
  function ReplayFed(r: Data, at: int, fed: seq<Fed>): Data
    decreases |fed|
  {
    if fed == [] then r else ReplayFed(ApplyAll(r, at, fed[0].db, fed[0].cmds), at, fed[1..])
  }

  function ApplyAll(r: Data, at: int, db: int, cmds: seq<LogCmd>): Data
    decreases |cmds|
  {
    if cmds == [] then r else ApplyAll(ApplyAt(r, at, db, cmds[0]), at, db, cmds[1..])
  }

  lemma {:induction false} ReplayFedAppend(r: Data, at: int, fed: seq<Fed>, f: Fed)
    ensures ReplayFed(r, at, fed + [f]) == ApplyAll(ReplayFed(r, at, fed), at, f.db, f.cmds)
    decreases |fed|
  {
    if fed == [] {
      assert fed + [f] == [f];
    } else {
      assert (fed + [f])[1..] == fed[1..] + [f];
      ReplayFedAppend(ApplyAll(r, at, fed[0].db, fed[0].cmds), at, fed[1..], f);
    }
  }

  // ---------------------------------------------------------------- what a reader sees

  /** The keys a rewrite writes at `now`, and those a lookup at `now` finds. */
  function Alive(d: Data, now: int): Data {
    map s | s in d && !Expired(d, s, now) :: d[s]
  }

  /** Both datasets show the same keys at every time from `from` on. */
  ghost predicate ShowSame(a: Data, b: Data, from: int) {
    forall t {:trigger Alive(a, t)} :: t >= from ==> Alive(a, t) == Alive(b, t)
  }

  // ---------------------------------------------------------------- well-formed datasets

  predicate NonEmpty(v: Val) {
    match v
    case Text(_) => true
    case List(l) => l != []
    case Set(m) => m != {}
    case Zset(z) => z != map[]
    case Hash(h) => h != map[]
  }

  predicate EntryOk(s: Slot, e: Entry) {
    0 <= s.db < DBNUM && NonEmpty(e.val) && (e.expire.Some? ==> e.expire.value > 0)
  }

  /** No collection is empty and every expiry is a positive time. */
  ghost predicate WellFormed(d: Data) { forall s :: s in d ==> EntryOk(s, d[s]) }

  lemma {:induction false} AddAllNonEmpty(v: Val, kind: Kind, args: seq<Str>)
    requires Fits(v, kind) && (NonEmpty(v) || |args| >= Width(kind))
    ensures NonEmpty(AddAll(v, kind, args))
    decreases |args|
  {
    if |args| >= Width(kind) {
      var w := AddOne(v, kind, args);
      assert NonEmpty(w) by {
        match kind
        case RPush => assert w.items[|v.items|] == args[0];
        case SAdd => assert args[0] in w.m;
        case ZAdd => assert args[1] in w.z;
        case HMSet => assert args[0] in w.h;
      }
      AddAllNonEmpty(w, kind, args[Width(kind)..]);
    }
  }

  lemma {:induction false} PushLeftNonEmpty(items: seq<Str>, args: seq<Str>)
    requires items != [] || args != []
    ensures PushLeft(items, args) != []
    decreases |args|
  {
    if args != [] { PushLeftNonEmpty([args[0]] + items, args[1..]); }
  }

  /** What a log command must satisfy to keep the dataset well formed. */
  predicate CmdOk(c: LogCmd) {
    match c
    case PexpireAt(_, when) => when > 0
    case Add(kind, _, args) => |args| >= Width(kind)
    case LPush(_, args) => args != []
    case _ => true
  }

  lemma ApplyWell(d: Data, db: int, c: LogCmd)
    requires WellFormed(d) && 0 <= db < DBNUM && CmdOk(c)
    ensures WellFormed(Apply(d, db, c))
  {
    match c {
      case Add(kind, k, args) =>
        AddAllNonEmpty(Empty(kind), kind, args);
        if Slot(db, k) in d && Fits(d[Slot(db, k)].val, kind) { AddAllNonEmpty(d[Slot(db, k)].val, kind, args); }
      case LPush(k, args) =>
        PushLeftNonEmpty([], args);
        if Slot(db, k) in d && d[Slot(db, k)].val.List? { PushLeftNonEmpty(d[Slot(db, k)].val.items, args); }
      case _ =>
    }
  }

  /** Client commands keep the dataset well formed, and propagate for existing databases only. */
  lemma ExecWell(d: Data, now: nat, db: int, c: Client)
    requires WellFormed(d) && 0 <= db < DBNUM
    ensures WellFormed(Exec(d, now, db, c).data) && FedOk(Exec(d, now, db, c).fed)
  {
    hide Apply, WellFormed, FedOk, Lazy, Then;
    var o := Outcome(d, []);
    assert FedOk(o.fed) by { NothingFed(); }
    match c
    case CTouch(k) => LazyWell(o, Slot(db, k), now);
    case CSet(k, v) => LazyWell(o, Slot(db, k), now); ThenWell(Lazy(o, Slot(db, k), now), db, SetStr(k, v));
    case CSetEx(k, arg, seconds, v) =>
      LazyWell(o, Slot(db, k), now);
      if arg > 0 {
        var o1, when := Lazy(o, Slot(db, k), now), now + Millis(arg, seconds);
        InsertWell(o1.data, Slot(db, k), Entry(Text(v), Some(when)));
        MoreFed(o1.fed, db, [SetStr(k, v), PexpireAt(k, when)]);
      }
    case CSetRel(k, v, arg, seconds) =>
      LazyWell(o, Slot(db, k), now);
      if arg > 0 {
        var o1, when := Lazy(o, Slot(db, k), now), now + Millis(arg, seconds);
        InsertWell(o1.data, Slot(db, k), Entry(Text(v), Some(when)));
        MoreFed(o1.fed, db, [SetRel(k, v, arg, seconds)]);
      }
    case CDel(keys) => ThenWell(o, db, Del(keys));
    case CRename(a, b, nx) =>
      LazyWell(o, Slot(db, a), now);
      LazyWell(Lazy(o, Slot(db, a), now), Slot(db, b), now);
      ThenWell(Lazy(Lazy(o, Slot(db, a), now), Slot(db, b), now), db, Rename(a, b, nx));
    case CMove(k, dst) => MoveWell(d, now, db, k, dst);
    case CExpire(k, arg, seconds, relative) =>
      var when := Millis(arg, seconds) + (if relative then now else 0);
      LazyWell(o, Slot(db, k), now);
      ThenWell(Lazy(o, Slot(db, k), now), db, Del([k]));
      if when > now { ThenWell(Lazy(o, Slot(db, k), now), db, PexpireAt(k, when)); }
    case CAdd(kind, k, args) =>
      LazyWell(o, Slot(db, k), now);
      if !(args == [] || |args| % Width(kind) != 0) { ThenWell(Lazy(o, Slot(db, k), now), db, Add(kind, k, args)); }
    case CLPush(k, args) =>
      LazyWell(o, Slot(db, k), now);
      if args != [] { ThenWell(Lazy(o, Slot(db, k), now), db, LPush(k, args)); }
    case CPop(k, left) => LazyWell(o, Slot(db, k), now); ThenWell(Lazy(o, Slot(db, k), now), db, Pop(k, left));
    case CPersist(k) => ThenWell(o, db, Persist(k));
  }

  lemma MoveWell(d: Data, now: nat, db: int, k: Str, dst: int)
    requires WellFormed(d) && 0 <= db < DBNUM
    ensures WellFormed(Exec(d, now, db, CMove(k, dst)).data) && FedOk(Exec(d, now, db, CMove(k, dst)).fed)
  {
    hide Apply, WellFormed;
    var o := Outcome(d, []);
    LazyWell(o, Slot(db, k), now);
    if 0 <= dst < DBNUM {
      LazyWell(Lazy(o, Slot(db, k), now), Slot(dst, k), now);
      ThenWell(Lazy(Lazy(o, Slot(db, k), now), Slot(dst, k), now), db, Move(k, dst));
    }
  }

  predicate FedOk(fed: seq<Fed>) {
    forall i :: 0 <= i < |fed| ==> 0 <= fed[i].db < DBNUM && forall c :: c in fed[i].cmds ==> !c.Select?
  }

  lemma NothingFed()
    ensures FedOk([])
  {
  }

  lemma MoreFed(fed: seq<Fed>, db: int, cmds: seq<LogCmd>)
    requires FedOk(fed) && 0 <= db < DBNUM && forall c :: c in cmds ==> !c.Select?
    ensures FedOk(fed + [Fed(db, cmds)])
  {
  }

  lemma LazyWell(o: Outcome, s: Slot, now: int)
    requires WellFormed(o.data) && FedOk(o.fed) && 0 <= s.db < DBNUM
    ensures WellFormed(Lazy(o, s, now).data) && FedOk(Lazy(o, s, now).fed)
  {
  }

  lemma ThenWell(o: Outcome, db: int, c: LogCmd)
    requires WellFormed(o.data) && FedOk(o.fed) && 0 <= db < DBNUM && CmdOk(c) && !c.Select?
    ensures WellFormed(Then(o, db, c).data) && FedOk(Then(o, db, c).fed)
  {
    hide Apply, WellFormed;
    ApplyWell(o.data, db, c);
  }

  lemma InsertWell(d: Data, s: Slot, e: Entry)
    requires WellFormed(d) && EntryOk(s, e)
    ensures WellFormed(d[s := e])
  {
  }
}
