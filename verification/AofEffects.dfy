/** What the steps of the append-only protocol do to the logs, and that a flush makes everything
    durable. */
module AofEffects {
  import opened AofData
  import opened AofProtocol

  /** Whatever is propagated goes, translated, behind the buffer when the file is on and behind the
      diff when a rewrite runs that will be used. */
  lemma FeedGoes(s: St, o: Outcome)
    ensures var r, log := Emit(s, o), FeedAll(s.sel, o.fed);
      && r.data == o.data && r.file == s.file && r.mode == s.mode
      && r.buf == (if s.mode.On? then s.buf + log else s.buf)
      && r.diff == (if !s.mode.Off? && s.child.Some? then s.diff + log else s.diff)
  {
    hide FeedAll;
  }

  /** A flush empties the buffer into the file. */
  lemma FlushMoves(s: St)
    requires Enabled(s, Flush) && s.mode.On?
    ensures var r := Next(s, Flush); r.file == s.file + s.buf && r.buf == [] && r.data == s.data && r.saved == s.data
  {
  }

  /** A rewrite that ends well puts snapshot and diff in the place of file and buffer, and switches
      on a file that waited for it; one that fails leaves them alone. */
  lemma RewriteEnds(s: St, ok: bool)
    requires Enabled(s, Done(ok))
    ensures var r, c := Next(s, Done(ok)), s.child.value;
      && r.child.None? && r.diff == [] && r.data == s.data
      && r.file == (if ok then c.snap + s.diff else s.file)
      && r.buf == (if ok && !s.mode.Off? then [] else s.buf)
      && r.mode == (if ok && s.mode.Wait? then On else s.mode)
  {
  }

  /** Switching on starts a rewrite and waits for it; switching off writes the buffer and drops a
      running rewrite. */
  lemma Switching(s: St, childNow: nat, snap: seq<LogCmd>)
    ensures Enabled(s, Step.Start(childNow, snap)) ==>
      var r := Next(s, Step.Start(childNow, snap)); r.mode == Wait && r.child.Some? && r.child.value.snap == snap
    ensures Enabled(s, Stop) ==>
      var r := Next(s, Stop);
      r.mode == Off && r.child.None? && r.buf == (if s.mode.On? then [] else s.buf)
      && r.file == (if s.mode.On? then s.file + s.buf else s.file)
  {
  }

  /** After any run that ends with a flush, the file alone shows the live dataset, now and later,
      suspects aside: a crash loses nothing. */
  lemma FlushedIsDurable(s: St, steps: seq<Step>)
    requires Init(s) && CanRun(s, steps) && Run(s, steps).mode.On?
    ensures CanRun(s, steps + [Flush]) && var e := Run(s, steps + [Flush]);
      e.data == Run(s, steps).data && Shows(e.file, e.data, e.now, e.trust.suspects)
  {
    hide Run, CanRun, Enabled, Next, Shows, Init;
    var m := Run(s, steps);
    OneFlush(m);
    RunOn(s, steps, [Flush]);
    EveryRunReloads(s, steps + [Flush]);
    var e := Run(s, steps + [Flush]);
    assert e.file + [] == e.file;
  }

  lemma OneFlush(m: St)
    requires m.mode.On?
    ensures CanRun(m, [Flush]) && var e := Run(m, [Flush]); e.buf == [] && e.mode.On? && e.data == m.data
  {
    hide Replay, Alive;
    var one: seq<Step> := [Flush];
    assert one[1..] == [];
    assert Enabled(m, one[0]) && CanRun(Next(m, one[0]), []);
    assert Run(m, one) == Run(Next(m, one[0]), []);
  }

  lemma {:induction false} RunOn(s: St, a: seq<Step>, b: seq<Step>)
    requires CanRun(s, a) && CanRun(Run(s, a), b)
    ensures CanRun(s, a + b) && Run(s, a + b) == Run(Run(s, a), b)
    decreases |a|
  {
    hide Enabled, Next;
    if a == [] {
      assert a + b == b;
    } else {
      RunOn(Next(s, a[0]), a[1..], b);
      assert (a + b)[1..] == a[1..] + b;
    }
  }
}
