/** The append-only file of redis-2.8.0/src/aof.c as a state machine: commands are fed to a
    buffer and to the diff of a running rewrite, and the file is flushed, rewritten by a child
    and swapped, switched on and off. */
module AofProtocol {
  import opened Bytes
  import opened AofData
  import opened AofFollow

  // ---------------------------------------------------------------- feeding

  /** feedAppendOnlyFile: SELECT when the database is not the one last selected. */
  function FeedOne(sel: int, f: Fed): seq<LogCmd> {
    (if f.db != sel then [Select(f.db)] else []) + f.cmds
  }

  function FeedAll(sel: int, fed: seq<Fed>): seq<LogCmd>
    decreases |fed|
  {
    if fed == [] then [] else FeedOne(sel, fed[0]) + FeedAll(fed[0].db, fed[1..])
  }

  function SelAfter(sel: int, fed: seq<Fed>): int { if fed == [] then sel else fed[|fed| - 1].db }

  lemma {:induction false} PlainReplay(st: Loader, cmds: seq<LogCmd>)
    requires forall c :: c in cmds ==> !c.Select?
    ensures Replay(st, cmds) == st.(data := ApplyAll(st.data, st.at, st.sel, cmds))
    decreases |cmds|
  {
    hide ApplyAt;
    if cmds != [] {
      assert cmds[0] in cmds;
      PlainReplay(ReplayOne(st, cmds[0]), cmds[1..]);
    }
  }

  predicate Knows(sel: int, st: Loader) { sel == -1 || st.sel == sel }

  lemma FeedOneReplays(st: Loader, sel: int, f: Fed)
    requires 0 <= f.db < DBNUM && Knows(sel, st) && forall c :: c in f.cmds ==> !c.Select?
    ensures Replay(st, FeedOne(sel, f)) == Loader(f.db, ApplyAll(st.data, st.at, f.db, f.cmds), st.at)
  {
    hide Apply, ApplyAll;
    if f.db != sel {
      ReplayConcat(st, [Select(f.db)], f.cmds);
      SelectReplays(st, f.db);
      PlainReplay(st.(sel := f.db), f.cmds);
    } else {
      assert FeedOne(sel, f) == f.cmds;
      PlainReplay(st, f.cmds);
    }
  }

  /** Whatever was fed is replayed in the database it was executed in. */
  lemma {:induction false} FeedReplays(st: Loader, sel: int, fed: seq<Fed>)
    requires FedOk(fed) && Knows(sel, st)
    ensures Replay(st, FeedAll(sel, fed)).data == ReplayFed(st.data, st.at, fed)
    ensures Knows(SelAfter(sel, fed), Replay(st, FeedAll(sel, fed)))
    decreases |fed|
  {
    hide Apply, ApplyAll, FeedOne, Replay;
    if fed == [] {
      NoReplay(st);
    } else {
      var st1 := Replay(st, FeedOne(sel, fed[0]));
      FeedOneReplays(st, sel, fed[0]);
      assert fed == [fed[0]] + fed[1..];
      FeedReplays(st1, fed[0].db, fed[1..]);
      ReplayConcat(st, FeedOne(sel, fed[0]), FeedAll(fed[0].db, fed[1..]));
    }
  }

  // ---------------------------------------------------------------- state machine

  /** server.aof_state. */
  datatype Mode = Off | On | Wait

  /** How far a log can be trusted: reloaded from `from` on, it shows the dataset but for the
      suspects. */
  datatype Trust = Trust(suspects: set<Slot>, from: nat)

  /** A running rewrite: what the child writes, and the dataset it was forked from. */
  datatype Child = Child(snap: seq<LogCmd>, data: Data, trust: Trust)

  /** `saved` is the dataset of the moment when the file was last brought up to date. `trust` is
      about file and buffer together, `savedTrust` about the file alone. */
  datatype St = St(data: Data, now: nat, file: seq<LogCmd>, buf: seq<LogCmd>, diff: seq<LogCmd>,
    sel: int, mode: Mode, child: Option<Child>, saved: Data, trust: Trust, savedTrust: Trust)

  datatype Step =
    | Command(db: int, c: Client)
    | Expire(s: Slot)
    | Tick(at: nat)
    | Flush
    | Rewrite(childNow: nat, snap: seq<LogCmd>)
    | Done(ok: bool)
    | Start(childNow: nat, snap: seq<LogCmd>)
    | Stop

  /** The earliest time from now on at which the log can be trusted. */
  function Horizon(now: nat, t: Trust): nat { if t.from > now then t.from else now }

  function Fresher(now: nat, t: Trust): Trust { t.(from := Horizon(now, t)) }

  /** The trust after what was fed at `now`, `d` being the live dataset before. */
  function After(t: Trust, d: Data, now: nat, fed: seq<Fed>): Trust {
    t.(suspects := SpreadFed(t.suspects, d, now, Horizon(now, t), fed))
  }

  function Emit(s: St, o: Outcome): St {
    if s.mode.Off? then s.(data := o.data)
    else
      var log := FeedAll(s.sel, o.fed);
      s.(data := o.data, sel := SelAfter(s.sel, o.fed),
         buf := if s.mode.On? then s.buf + log else s.buf,
         trust := if s.mode.On? then After(s.trust, s.data, s.now, o.fed) else s.trust,
         diff := if s.child.Some? then s.diff + log else s.diff,
         child := if s.child.Some? then
             Some(s.child.value.(trust := After(s.child.value.trust, s.data, s.now, o.fed))) else None)
  }

  function Flushed(s: St): St {
    if s.mode.On? then
      s.(file := s.file + s.buf, buf := [], saved := s.data, savedTrust := Fresher(s.now, s.trust))
    else s
  }

  function Forked(s: St, childNow: nat, snap: seq<LogCmd>): St {
    s.(child := Some(Child(snap, s.data, Trust({}, childNow))), sel := -1)
  }

  function NoChild(s: St): St { s.(child := None, diff := []) }

  /** backgroundRewriteDoneHandler. */
  function Finished(s: St, ok: bool): St
    requires s.child.Some?
  {
    var c := s.child.value;
    if !ok then NoChild(s)
    else if s.mode.Off? then
      NoChild(s).(file := c.snap + s.diff, saved := c.data, savedTrust := c.trust)
    else
      NoChild(s).(file := c.snap + s.diff, saved := s.data, savedTrust := Fresher(s.now, c.trust),
        trust := c.trust, sel := -1, buf := [], mode := On)
  }

  /** What the child writes, whenever it is loaded: the keys alive by its clock, which it reads
      after the fork. */
  ghost predicate ForkOk(s: St, childNow: nat, snap: seq<LogCmd>) {
    s.now <= childNow && forall at :: Replay(AofData.Start(at), snap).data == Alive(s.data, childNow)
  }

  /** A child that ends well has read the clock before: server and child share it. */
  ghost predicate Enabled(s: St, e: Step) {
    match e
    case Command(db, c) => 0 <= db < DBNUM
    case Expire(k) => 0 <= k.db < DBNUM
    case Tick(at) => s.now <= at
    case Flush => true
    case Rewrite(childNow, snap) => s.child.None? && ForkOk(s, childNow, snap)
    case Done(ok) => s.child.Some? && (ok ==> s.child.value.trust.from <= s.now)
    case Start(childNow, snap) => s.mode.Off? && s.child.None? && ForkOk(s, childNow, snap)
    case Stop => !s.mode.Off?
  }

  ghost function Next(s: St, e: Step): St
    requires Enabled(s, e)
  {
    match e
    case Command(db, c) => Emit(s, Exec(s.data, s.now, db, c))
    case Expire(k) => Emit(s, Lazy(Outcome(s.data, []), k, s.now))
    case Tick(at) => s.(now := at)
    case Flush => Flushed(s)
    case Rewrite(childNow, snap) => Forked(s, childNow, snap)
    case Done(ok) => Finished(s, ok)
    case Start(childNow, snap) => Forked(s, childNow, snap).(mode := Wait)
    case Stop => NoChild(Flushed(s)).(sel := -1, mode := Off)
  }

  // ---------------------------------------------------------------- invariant

  /** Loaded at `at`, a log replays to the live dataset but for suspects and expired keys. */
  ghost predicate Tracks(log: seq<LogCmd>, at: int, d: Data, now: nat, sel: int, t: Trust) {
    var st := Replay(AofData.Start(at), log);
    SubBut(st.data, d, Horizon(now, t), t.suspects) && Knows(sel, st)
  }

  ghost predicate ChildOk(s: St, at: int) {
    match s.child
    case None => s.diff == []
    case Some(c) =>
      if s.mode.Off? then
        s.diff == [] && SubBut(Replay(AofData.Start(at), c.snap).data, c.data, c.trust.from, c.trust.suspects)
      else Tracks(c.snap + s.diff, at, s.data, s.now, s.sel, c.trust)
  }

  /** The logs in use can be trusted by now. */
  predicate Current(s: St) { s.savedTrust.from <= s.now && (s.mode.On? ==> s.trust.from <= s.now) }

  ghost predicate Inv(s: St, at: int) {
    && WellFormed(s.data) && Current(s)
    && SubBut(Replay(AofData.Start(at), s.file).data, s.saved, s.savedTrust.from, s.savedTrust.suspects)
    && (s.mode.On? ==> Tracks(s.file + s.buf, at, s.data, s.now, s.sel, s.trust))
    && (!s.mode.On? ==> s.buf == [])
    && ChildOk(s, at)
  }

  /** After loading a file at startup, or with an empty dataset. */
  ghost predicate Init(s: St) {
    && WellFormed(s.data) && s.buf == [] && s.diff == [] && s.child.None? && s.sel == -1
    && !s.mode.Wait? && s.trust == s.savedTrust && s.trust.from <= s.now && (s.mode.On? ==> s.data == s.saved)
    && (forall at :: SubBut(Replay(AofData.Start(at), s.file).data, s.saved, s.savedTrust.from, s.savedTrust.suspects))
  }

  lemma TracksMore(log: seq<LogCmd>, at: int, d: Data, now: nat, sel: int, t: Trust, o: Outcome)
    requires Tracks(log, at, d, now, sel, t) && FedOk(o.fed) && IsReplay(d, now, o)
    ensures Tracks(log + FeedAll(sel, o.fed), at, o.data, now, SelAfter(sel, o.fed), After(t, d, now, o.fed))
  {
    hide Replay, ReplayFed, FeedAll, SubBut, FedOk, SpreadFed;
    var st := Replay(AofData.Start(at), log);
    ReplayConcat(AofData.Start(at), log, FeedAll(sel, o.fed));
    FeedReplays(st, sel, o.fed);
    LoadedAt(at, log);
    FedFollows(st.data, at, d, now, Horizon(now, t), t.suspects, o.fed);
  }

  lemma LoadedAt(at: int, log: seq<LogCmd>)
    ensures Replay(AofData.Start(at), log).at == at
  {
    SameClock(AofData.Start(at), log);
  }

  lemma {:induction false} SameClock(st: Loader, log: seq<LogCmd>)
    ensures Replay(st, log).at == st.at
    decreases |log|
  {
    hide ApplyAt;
    if log != [] { SameClock(ReplayOne(st, log[0]), log[1..]); }
  }

  lemma EmitKeeps(s: St, at: int, o: Outcome)
    requires Inv(s, at) && FedOk(o.fed) && WellFormed(o.data) && IsReplay(s.data, s.now, o)
    ensures Inv(Emit(s, o), at)
  {
    hide Replay, FeedAll, SubBut, FedOk, WellFormed, IsReplay, SpreadFed;
    if !s.mode.Off? {
      var log := FeedAll(s.sel, o.fed);
      if s.mode.On? {
        TracksMore(s.file + s.buf, at, s.data, s.now, s.sel, s.trust, o);
        Assoc(s.file, s.buf, log);
      }
      if s.child.Some? {
        TracksMore(s.child.value.snap + s.diff, at, s.data, s.now, s.sel, s.child.value.trust, o);
        Assoc(s.child.value.snap, s.diff, log);
      }
    }
  }

  lemma CommandKeeps(s: St, at: int, db: int, c: Client)
    requires Inv(s, at) && 0 <= db < DBNUM
    ensures Inv(Emit(s, Exec(s.data, s.now, db, c)), at)
  {
    hide Inv, FedOk, WellFormed, Exec, Emit, ReplayFed;
    WellOf(s, at);
    ExecWell(s.data, s.now, db, c);
    ExecIsReplay(s.data, s.now, db, c);
    EmitKeeps(s, at, Exec(s.data, s.now, db, c));
  }

  lemma WellOf(s: St, at: int)
    requires Inv(s, at)
    ensures WellFormed(s.data)
  {
  }

  lemma ExpireKeeps(s: St, at: int, k: Slot)
    requires Inv(s, at) && 0 <= k.db < DBNUM
    ensures Inv(Emit(s, Lazy(Outcome(s.data, []), k, s.now)), at)
  {
    hide Inv, FedOk, WellFormed, Emit, Lazy, IsReplay;
    var o := Outcome(s.data, []);
    WellOf(s, at);
    NothingFed();
    NothingReplayed(s.data, s.now);
    LazyWell(o, k, s.now);
    LazyReplay(s.data, s.now, o, k);
    EmitKeeps(s, at, Lazy(o, k, s.now));
  }

  lemma TickKeeps(s: St, at: int, time: nat)
    requires Inv(s, at) && s.now <= time
    ensures Inv(s.(now := time), at)
  {
    hide Replay, SubBut, WellFormed;
    if s.mode.On? {
      var r := Replay(AofData.Start(at), s.file + s.buf).data;
      Later(r, s.data, Horizon(s.now, s.trust), Horizon(time, s.trust), s.trust.suspects);
    }
    if s.child.Some? && !s.mode.Off? {
      var c := s.child.value;
      var r := Replay(AofData.Start(at), c.snap + s.diff).data;
      Later(r, s.data, Horizon(s.now, c.trust), Horizon(time, c.trust), c.trust.suspects);
    }
  }

  lemma FlushKeeps(s: St, at: int)
    requires Inv(s, at)
    ensures Inv(Flushed(s), at)
  {
    hide Replay, SubBut, WellFormed;
    assert (s.file + s.buf) + [] == s.file + s.buf;
  }

  lemma ForkKeeps(s: St, at: int, childNow: nat, snap: seq<LogCmd>, mode: Mode)
    requires Inv(s, at) && s.child.None? && ForkOk(s, childNow, snap)
    requires mode == s.mode || (mode.Wait? && s.mode.Off?)
    ensures Inv(Forked(s, childNow, snap).(mode := mode), at)
  {
    hide Replay, WellFormed, Alive;
    LateSnapshot(s.data, s.now, childNow);
    assert snap + [] == snap;
    assert s.diff == [];
    assert SubBut(Replay(AofData.Start(at), snap).data, s.data, childNow, {});
  }

  lemma DoneKeeps(s: St, at: int, ok: bool)
    requires Inv(s, at) && s.child.Some? && (ok ==> s.child.value.trust.from <= s.now)
    ensures Inv(Finished(s, ok), at)
  {
    hide Replay, SubBut, WellFormed;
    var log := s.child.value.snap + s.diff;
    assert log + [] == log;
    if s.mode.Off? { assert log == s.child.value.snap; }
  }

  lemma StopKeeps(s: St, at: int)
    requires Inv(s, at)
    ensures Inv(NoChild(Flushed(s)).(sel := -1, mode := Off), at)
  {
    hide Replay, SubBut, WellFormed;
    FlushKeeps(s, at);
  }

  /** Every step keeps the invariant, for every time of loading. */
  lemma StepKeeps(s: St, at: int, e: Step)
    requires Inv(s, at) && Enabled(s, e)
    ensures Inv(Next(s, e), at)
  {
    hide Inv, Emit, Exec, Lazy, Flushed, Forked, Finished, NoChild, ForkOk;
    match e
    case Command(db, c) => CommandKeeps(s, at, db, c);
    case Expire(k) => ExpireKeeps(s, at, k);
    case Tick(time) => TickKeeps(s, at, time);
    case Flush => FlushKeeps(s, at);
    case Rewrite(childNow, snap) => ForkKeeps(s, at, childNow, snap, s.mode); SameMode(s, childNow, snap);
    case Done(ok) => DoneKeeps(s, at, ok);
    case Start(childNow, snap) => ForkKeeps(s, at, childNow, snap, Wait);
    case Stop => StopKeeps(s, at);
  }

  lemma SameMode(s: St, childNow: nat, snap: seq<LogCmd>)
    ensures Forked(s, childNow, snap).(mode := s.mode) == Forked(s, childNow, snap)
  {
  }

  lemma InitInv(s: St, at: int)
    requires Init(s)
    ensures Inv(s, at)
  {
    hide Replay, WellFormed, SubBut;
    assert s.file + s.buf == s.file;
    Later(Replay(AofData.Start(at), s.file).data, s.saved, s.trust.from, Horizon(s.now, s.trust), s.trust.suspects);
  }

  // ---------------------------------------------------------------- runs

  ghost predicate CanRun(s: St, steps: seq<Step>)
    decreases |steps|
  {
    steps == [] || (Enabled(s, steps[0]) && CanRun(Next(s, steps[0]), steps[1..]))
  }

  ghost function Run(s: St, steps: seq<Step>): St
    requires CanRun(s, steps)
    decreases |steps|
  {
    if steps == [] then s else Run(Next(s, steps[0]), steps[1..])
  }

  lemma {:induction false} RunKeeps(s: St, at: int, steps: seq<Step>)
    requires Inv(s, at) && CanRun(s, steps)
    ensures Inv(Run(s, steps), at)
    decreases |steps|
  {
    hide Inv, Next, Enabled;
    if steps != [] {
      StepKeeps(s, at, steps[0]);
      RunKeeps(Next(s, steps[0]), at, steps[1..]);
    }
  }

  /** What a server that loads this log at time `at` shows at time `t`. */
  function Reload(log: seq<LogCmd>, at: int, t: int): Data { Alive(Replay(AofData.Start(at), log).data, t) }

  /** Reloaded from then on, the log shows the dataset but for the suspects. */
  ghost predicate Shows(log: seq<LogCmd>, d: Data, from: nat, x: set<Slot>) {
    forall at, t {:trigger Reload(log, at, t)} :: t >= from ==> Reload(log, at, t) - x == Alive(d, t) - x
  }

  lemma TracksShows(log: seq<LogCmd>, d: Data, h: nat, x: set<Slot>)
    requires forall at :: SubBut(Replay(AofData.Start(at), log).data, d, h, x)
    ensures Shows(log, d, h, x)
  {
    hide Replay, SubBut, Alive;
    forall at, t | t >= h ensures Reload(log, at, t) - x == Alive(d, t) - x {
      SameVisible(Replay(AofData.Start(at), log).data, d, h, t, x);
    }
  }

  /** In every reachable state, whenever the log is loaded: (1) with the file on, reloading what
      has been logged shows the live dataset, now and later, but for the suspects; (2) so does
      reloading what the running rewrite will install, from the time its child has read on; (3) a
      crash that loses the buffer falls back to the dataset of the last flush or swap. */
  lemma EveryRunReloads(s: St, steps: seq<Step>)
    requires Init(s) && CanRun(s, steps)
    ensures var e := Run(s, steps);
      && (e.mode.On? ==> Shows(e.file + e.buf, e.data, e.now, e.trust.suspects))
      && (e.child.Some? && !e.mode.Off? ==>
            var c := e.child.value; Shows(c.snap + e.diff, e.data, Horizon(e.now, c.trust), c.trust.suspects))
      && Shows(e.file, e.saved, e.savedTrust.from, e.savedTrust.suspects) && e.savedTrust.from <= e.now
  {
    hide Replay, SubBut, WellFormed, Next, Enabled, Run, CanRun, Alive, Init;
    var e := Run(s, steps);
    forall at ensures Inv(e, at) {
      InitInv(s, at);
      RunKeeps(s, at, steps);
    }
    InvShows(e);
  }

  lemma InvShows(e: St)
    requires forall at :: Inv(e, at)
    ensures Current(e)
    ensures e.mode.On? ==> Shows(e.file + e.buf, e.data, e.now, e.trust.suspects)
    ensures e.child.Some? && !e.mode.Off? ==>
      var c := e.child.value; Shows(c.snap + e.diff, e.data, Horizon(e.now, c.trust), c.trust.suspects)
    ensures Shows(e.file, e.saved, e.savedTrust.from, e.savedTrust.suspects)
  {
    hide Replay, SubBut, WellFormed, Shows;
    assert Inv(e, 0);
    if e.mode.On? {
      var log := e.file + e.buf;
      forall at ensures SubBut(Replay(AofData.Start(at), log).data, e.data, e.now, e.trust.suspects) {
        assert Inv(e, at);
      }
      TracksShows(log, e.data, e.now, e.trust.suspects);
    }
    if e.child.Some? && !e.mode.Off? {
      var c := e.child.value;
      var log, h := c.snap + e.diff, Horizon(e.now, c.trust);
      forall at ensures SubBut(Replay(AofData.Start(at), log).data, e.data, h, c.trust.suspects) { assert Inv(e, at); }
      TracksShows(log, e.data, h, c.trust.suspects);
    }
    var from, x := e.savedTrust.from, e.savedTrust.suspects;
    forall at ensures SubBut(Replay(AofData.Start(at), e.file).data, e.saved, from, x) { assert Inv(e, at); }
    TracksShows(e.file, e.saved, from, x);
  }

  // ---------------------------------------------------------------- runs without suspects

  /** A command that is timely for every log that is kept: not logged with a relative time, not a
      PERSIST of an expired key, and, while a child runs, looking at no key that expires before the
      child reads the clock. */
  predicate TimelyStep(s: St, e: Step) {
    e.Command? ==>
      && (s.mode.On? ==> Safe(s.data, s.now, e.db, e.c))
      && (s.child.Some? && !s.mode.Off? ==> Timely(s.data, s.now, Horizon(s.now, s.child.value.trust), e.db, e.c))
  }

  ghost predicate TimelyRun(s: St, steps: seq<Step>)
    requires CanRun(s, steps)
    decreases |steps|
  {
    steps == [] || (TimelyStep(s, steps[0]) && TimelyRun(Next(s, steps[0]), steps[1..]))
  }

  predicate NoSuspects(s: St) {
    s.trust.suspects == {} && s.savedTrust.suspects == {} && (s.child.Some? ==> s.child.value.trust.suspects == {})
  }

  lemma TimelyKeeps(s: St, e: Step)
    requires NoSuspects(s) && Current(s) && Enabled(s, e) && TimelyStep(s, e)
    ensures NoSuspects(Next(s, e)) && Current(Next(s, e))
  {
    hide Exec, Lazy, SpreadFed, Timely, FeedAll;
    match e
    case Command(db, c) =>
      if s.mode.On? {
        SafeIsTimely(s.data, s.now, db, c);
        ExecClean(s.data, s.now, s.now, db, c);
      }
      if s.child.Some? && !s.mode.Off? { ExecClean(s.data, s.now, Horizon(s.now, s.child.value.trust), db, c); }
    case Expire(k) =>
      ExpireClean(s.data, s.now, Horizon(s.now, s.trust), k);
      if s.child.Some? { ExpireClean(s.data, s.now, Horizon(s.now, s.child.value.trust), k); }
    case _ =>
  }

  lemma SafeIsTimely(d: Data, now: int, db: int, c: Client)
    requires Safe(d, now, db, c)
    ensures Timely(d, now, now, db, c)
  {
  }

  lemma ExpireClean(d: Data, now: int, h: int, k: Slot)
    ensures SpreadFed({}, d, now, h, Lazy(Outcome(d, []), k, now).fed) == {}
  {
    hide SpreadFed, Lazy;
    NothingSuspect(d, now, h);
    LazyClean(d, now, h, Outcome(d, []), k);
  }

  lemma {:induction false} TimelyRunKeeps(s: St, steps: seq<Step>)
    requires NoSuspects(s) && Current(s) && CanRun(s, steps) && TimelyRun(s, steps)
    ensures NoSuspects(Run(s, steps))
    decreases |steps|
  {
    hide NoSuspects, Current, Next, Enabled, TimelyStep;
    if steps != [] {
      TimelyKeeps(s, steps[0]);
      TimelyRunKeeps(Next(s, steps[0]), steps[1..]);
    }
  }

  /** Over every run of timely commands, reloading at any time shows exactly the live dataset, so
      does what a running rewrite will install, and after a crash exactly the one of the last flush
      or swap is there. */
  lemma TimelyRunsReloadExactly(s: St, steps: seq<Step>, at: int, t: int)
    requires Init(s) && NoSuspects(s) && CanRun(s, steps) && TimelyRun(s, steps)
    ensures var e := Run(s, steps);
      && (e.mode.On? && t >= e.now ==> Reload(e.file + e.buf, at, t) == Alive(e.data, t))
      && (e.child.Some? && !e.mode.Off? && t >= Horizon(e.now, e.child.value.trust) ==>
            Reload(e.child.value.snap + e.diff, at, t) == Alive(e.data, t))
      && (t >= e.savedTrust.from ==> Reload(e.file, at, t) == Alive(e.saved, t)) && e.savedTrust.from <= e.now
  {
    hide Replay, Next, Enabled, Run, CanRun, TimelyRun, Alive, Reload;
    TimelyRunKeeps(s, steps);
    EveryRunReloads(s, steps);
    var e := Run(s, steps);
    NoneRemoved(Reload(e.file + e.buf, at, t), Alive(e.data, t));
    if e.child.Some? { NoneRemoved(Reload(e.child.value.snap + e.diff, at, t), Alive(e.data, t)); }
    NoneRemoved(Reload(e.file, at, t), Alive(e.saved, t));
  }

  lemma NoneRemoved(r: Data, d: Data)
    ensures r - {} == d - {} <==> r == d
  {
    assert r - {} == r && d - {} == d;
  }

  /** Installing the rewritten file changes nothing a reload could show, but for the suspects of
      either log. */
  lemma SwapIsInvisible(s: St, at: int, t: int)
    requires Inv(s, at) && s.mode.On? && Enabled(s, Done(true)) && t >= s.now
    ensures var x := s.trust.suspects + s.child.value.trust.suspects;
      Reload(Next(s, Done(true)).file, at, t) - x == Reload(s.file + s.buf, at, t) - x == Alive(s.data, t) - x
  {
    hide Replay, SubBut, WellFormed, Alive, Reload;
    var c := s.child.value;
    ShowsBut(s.file + s.buf, at, s.data, s.now, t, s.trust.suspects, c.trust.suspects);
    ShowsBut(c.snap + s.diff, at, s.data, s.now, t, c.trust.suspects, s.trust.suspects);
    assert c.trust.suspects + s.trust.suspects == s.trust.suspects + c.trust.suspects;
  }

  lemma ShowsBut(log: seq<LogCmd>, at: int, d: Data, h: nat, t: int, x: set<Slot>, y: set<Slot>)
    requires SubBut(Replay(AofData.Start(at), log).data, d, h, x) && t >= h
    ensures Reload(log, at, t) - (x + y) == Alive(d, t) - (x + y)
  {
    hide Replay, SubBut, Alive;
    SameVisible(Replay(AofData.Start(at), log).data, d, h, t, x);
    assert Reload(log, at, t) - (x + y) == (Reload(log, at, t) - x) - y;
    assert Alive(d, t) - (x + y) == (Alive(d, t) - x) - y;
  }
}
