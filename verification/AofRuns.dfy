/** Two runs of the append-only file after which a reload does not show the live dataset. */
module AofRuns {
  import opened Bytes
  import opened AofData
  import opened AofFollow
  import opened AofProtocol

  /** A server with an empty dataset and an empty file, switched on. */
  const EMPTY := St(map[], 0, [], [], [], -1, On, None, map[], Trust({}, 0), Trust({}, 0))

  lemma EmptyIsInit()
    ensures Init(EMPTY) && NoSuspects(EMPTY)
  {
    forall at ensures SubBut(Replay(AofData.Start(at), []).data, map[], 0, {}) { NoReplay(AofData.Start(at)); }
  }

  lemma RunOne(s: St, e: Step, rest: seq<Step>)
    requires Enabled(s, e) && CanRun(Next(s, e), rest)
    ensures CanRun(s, [e] + rest) && Run(s, [e] + rest) == Run(Next(s, e), rest)
  {
    hide Enabled, Next;
    assert ([e] + rest)[1..] == rest;
  }

  lemma NoKeysAlive(at: int, childNow: int, d: Data, s: Slot, e: Entry)
    requires d == map[s := e] && Expired(d, s, childNow)
    ensures Replay(AofData.Start(at), []).data == Alive(d, childNow)
  {
    NoReplay(AofData.Start(at));
  }

  // ---------------------------------------------------------------- PERSIST

  /** PSETEX of a key, the key expires, the file is rewritten without it, then PERSIST: the key is
      there for good, and no reload has it. */
  lemma PersistRun(k: Str, v: Str, at: int, t: int)
    ensures var steps := [Command(0, CSetEx(k, 5, false, v)), Tick(10), Rewrite(10, []), Done(true),
                          Command(0, CPersist(k))];
      Init(EMPTY) && CanRun(EMPTY, steps) && var e := Run(EMPTY, steps);
      && e.mode.On? && e.data == map[Slot(0, k) := Entry(Text(v), None)] && e.trust.suspects == {Slot(0, k)}
      && Reload(e.file + e.buf, at, t) == map[]
  {
    hide Run, CanRun, SpreadFed, Replay, FeedAll, ForkOk, Alive, Init;
    EmptyIsInit();
    var s := Slot(0, k);
    var d: Data := map[s := Entry(Text(v), Some(5))];
    var s1 := Next(EMPTY, Command(0, CSetEx(k, 5, false, v)));
    assert s1.data == d && s1.now == 0 && s1.child.None? && s1.mode.On?;
    var s2 := Next(s1, Tick(10));
    forall at ensures Replay(AofData.Start(at), []).data == Alive(s2.data, 10) { NoKeysAlive(at, 10, d, s, d[s]); }
    assert ForkOk(s2, 10, []) by { IsFork(s2, 10, []); }
    var s3 := Next(s2, Rewrite(10, []));
    var s4 := Next(s3, Done(true));
    assert s4.data == d && s4.now == 10 && s4.mode.On? && s4.sel == -1 && s4.buf == [] && s4.child.None?;
    assert s4.file == [] by { assert s3.diff == [] && [] + s3.diff == []; }
    var s5 := Next(s4, Command(0, CPersist(k)));
    PersistFeeds(d, k, v);
    RunNone(s5);
    RunOne(s4, Command(0, CPersist(k)), []);
    RunOne(s3, Done(true), [Command(0, CPersist(k))] + []);
    RunOne(s2, Rewrite(10, []), [Done(true)] + ([Command(0, CPersist(k))] + []));
    RunOne(s1, Tick(10), [Rewrite(10, [])] + ([Done(true)] + ([Command(0, CPersist(k))] + [])));
    var rest := [Tick(10)] + ([Rewrite(10, [])] + ([Done(true)] + ([Command(0, CPersist(k))] + [])));
    RunOne(EMPTY, Command(0, CSetEx(k, 5, false, v)), rest);
    assert [Command(0, CSetEx(k, 5, false, v))] + rest
      == [Command(0, CSetEx(k, 5, false, v)), Tick(10), Rewrite(10, []), Done(true), Command(0, CPersist(k))];
    PersistReplays(at, t, k);
    assert s5.file + s5.buf == [Select(0), Persist(k)];
  }

  lemma RunNone(s: St)
    ensures CanRun(s, []) && Run(s, []) == s
  {
  }

  lemma IsFork(s: St, childNow: nat, snap: seq<LogCmd>)
    requires s.now <= childNow && forall at :: Replay(AofData.Start(at), snap).data == Alive(s.data, childNow)
    ensures ForkOk(s, childNow, snap)
  {
    hide Replay, Alive;
  }

  lemma PersistFeeds(d: Data, k: Str, v: Str)
    requires d == map[Slot(0, k) := Entry(Text(v), Some(5))]
    ensures var o := Exec(d, 10, 0, CPersist(k));
      && o.data == map[Slot(0, k) := Entry(Text(v), None)] && FeedAll(-1, o.fed) == [Select(0), Persist(k)]
      && SelAfter(-1, o.fed) == 0 && SpreadFed({}, d, 10, 10, o.fed) == {Slot(0, k)}
  {
    var o, f := Exec(d, 10, 0, CPersist(k)), Fed(0, [Persist(k)]);
    assert o.fed == [f] && [f][1..] == [];
    assert FeedAll(-1, [f]) == FeedOne(-1, f) + FeedAll(0, []);
    SpreadFedAppend({}, d, 10, 10, [], f);
    assert [] + [f] == [f];
    OneSpread({}, d, 10, 10, 0, Persist(k));
    assert Expired(d, Slot(0, k), 10);
  }

  lemma PersistReplays(at: int, t: int, k: Str)
    ensures Reload([Select(0), Persist(k)], at, t) == map[]
  {
    var log := [Select(0), Persist(k)];
    var st := AofData.Start(at);
    assert log[1..] == [Persist(k)] && log[1..][1..] == [];
    assert Replay(st, log) == Replay(ReplayOne(st, log[0]), log[1..]);
    assert Replay(st, log[1..]) == Replay(ReplayOne(st, log[1]), []);
    assert ReplayOne(st, log[1]).data == map[];
  }

  // ---------------------------------------------------------------- the child's clock

  /** A list [x] that expires at 5, a rewrite forked at 0 whose child reads the clock at 6, an
      RPUSH of y in between, and the swap at 6: the live list was [x, y] until it expired; every
      reload has the list [y], and has it for good. */
  lemma LateClockRun(k: Str, x: Str, y: Str, at: int, t: int)
    ensures var steps := [Command(0, CAdd(RPush, k, [x])), Command(0, CExpire(k, 5, false, false)), Rewrite(6, []),
                          Command(0, CAdd(RPush, k, [y])), Tick(6), Done(true)];
      Init(EMPTY) && CanRun(EMPTY, steps) && var e := Run(EMPTY, steps);
      && e.mode.On? && e.now == 6 && e.trust.suspects == {Slot(0, k)}
      && e.data == map[Slot(0, k) := Entry(List([x, y]), Some(5))] && Alive(e.data, 6) == map[]
      && Reload(e.file + e.buf, at, t) == map[Slot(0, k) := Entry(List([y]), None)]
  {
    hide Run, CanRun, Next, Enabled, Reload, Init;
    EmptyIsInit();
    var e1, e2 := Command(0, CAdd(RPush, k, [x])), Command(0, CExpire(k, 5, false, false));
    var rest := [Rewrite(6, []), Command(0, CAdd(RPush, k, [y])), Tick(6), Done(true)];
    var s2 := ListAlone(k, x);
    ForkPushDone(s2, k, x, y);
    RunOne(Next(EMPTY, e1), e2, rest);
    RunOne(EMPTY, e1, [e2] + rest);
    assert [e1] + ([e2] + rest) == [e1, e2, Rewrite(6, []), Command(0, CAdd(RPush, k, [y])), Tick(6), Done(true)];
    var log := [Select(0), Add(RPush, k, [y])];
    assert log + [] == log;
    PushReplays(at, t, k, y);
  }

  lemma ListAlone(k: Str, x: Str) returns (s2: St)
    ensures var e1, e2 := Command(0, CAdd(RPush, k, [x])), Command(0, CExpire(k, 5, false, false));
      Enabled(EMPTY, e1) && Enabled(Next(EMPTY, e1), e2) && s2 == Next(Next(EMPTY, e1), e2)
    ensures s2.data == map[Slot(0, k) := Entry(List([x]), Some(5))]
    ensures s2.now == 0 && s2.child.None? && s2.mode.On? && s2.diff == []
  {
    hide SpreadFed, FeedAll, AddAll;
    AddsOne([], x);
    assert [] + [x] == [x];
    var s1 := Next(EMPTY, Command(0, CAdd(RPush, k, [x])));
    assert s1.data == map[Slot(0, k) := Entry(List([x]), None)] && s1.now == 0 && s1.child.None? && s1.mode.On?;
    s2 := Next(s1, Command(0, CExpire(k, 5, false, false)));
  }

  lemma ForkPushDone(s2: St, k: Str, x: Str, y: Str)
    requires s2.data == map[Slot(0, k) := Entry(List([x]), Some(5))]
    requires s2.now == 0 && s2.child.None? && s2.mode.On? && s2.diff == []
    ensures var rest := [Rewrite(6, []), Command(0, CAdd(RPush, k, [y])), Tick(6), Done(true)];
      CanRun(s2, rest) && var e := Run(s2, rest);
      && e.mode.On? && e.now == 6 && e.trust.suspects == {Slot(0, k)}
      && e.data == map[Slot(0, k) := Entry(List([x, y]), Some(5))]
      && e.file == [Select(0), Add(RPush, k, [y])] && e.buf == []
  {
    hide Run, CanRun, SpreadFed, Replay, FeedAll, ForkOk, Alive, Exec;
    var s, d, c := Slot(0, k), s2.data, CAdd(RPush, k, [y]);
    forall at ensures Replay(AofData.Start(at), []).data == Alive(d, 6) { NoKeysAlive(at, 6, d, s, d[s]); }
    assert ForkOk(s2, 6, []) by { IsFork(s2, 6, []); }
    var s3 := Next(s2, Rewrite(6, []));
    PushFeeds(d, k, x, y);
    var s4 := Next(s3, Command(0, c));
    var log := [Select(0), Add(RPush, k, [y])];
    assert [] + log == log;
    var s5 := Next(s4, Tick(6));
    var s6 := Next(s5, Done(true));
    RunNone(s6);
    RunOne(s5, Done(true), []);
    RunOne(s4, Tick(6), [Done(true)] + []);
    RunOne(s3, Command(0, c), [Tick(6)] + ([Done(true)] + []));
    RunOne(s2, Rewrite(6, []), [Command(0, c)] + ([Tick(6)] + ([Done(true)] + [])));
    assert [Rewrite(6, [])] + ([Command(0, c)] + ([Tick(6)] + ([Done(true)] + [])))
      == [Rewrite(6, []), Command(0, c), Tick(6), Done(true)];
  }

  lemma AddsOne(l: seq<Str>, y: Str)
    ensures AddAll(List(l), RPush, [y]) == List(l + [y])
  {
    var one: seq<Str> := [y];
    assert one[1..] == [];
  }

  lemma PushFeeds(d: Data, k: Str, x: Str, y: Str)
    requires d == map[Slot(0, k) := Entry(List([x]), Some(5))]
    ensures var o := Exec(d, 0, 0, CAdd(RPush, k, [y]));
      && o.data == map[Slot(0, k) := Entry(List([x, y]), Some(5))]
      && FeedAll(-1, o.fed) == [Select(0), Add(RPush, k, [y])]
      && SelAfter(-1, o.fed) == 0 && SpreadFed({}, d, 0, 6, o.fed) == {Slot(0, k)}
  {
    var o, c := Exec(d, 0, 0, CAdd(RPush, k, [y])), Add(RPush, k, [y]);
    var f := Fed(0, [c]);
    AddsOne([x], y);
    assert [x] + [y] == [x, y];
    assert o.fed == [f] && [f][1..] == [];
    assert FeedAll(-1, [f]) == FeedOne(-1, f) + FeedAll(0, []);
    SpreadFedAppend({}, d, 0, 6, [], f);
    assert [] + [f] == [f];
    OneSpread({}, d, 0, 6, 0, c);
    assert Expired(d, Slot(0, k), 6);
  }

  lemma PushReplays(at: int, t: int, k: Str, y: Str)
    ensures Reload([Select(0), Add(RPush, k, [y])], at, t) == map[Slot(0, k) := Entry(List([y]), None)]
  {
    var log := [Select(0), Add(RPush, k, [y])];
    var st := AofData.Start(at);
    assert log[1..] == [log[1]] && log[1..][1..] == [];
    assert Replay(st, log) == Replay(ReplayOne(st, log[0]), log[1..]);
    assert Replay(st, log[1..]) == Replay(ReplayOne(st, log[1]), []);
    AddsOne([], y);
    assert [] + [y] == [y];
    assert ReplayOne(st, log[1]).data == map[Slot(0, k) := Entry(List([y]), None)];
  }
}
