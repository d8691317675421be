/** The append-only file of redis-2.8.0/src/aof.c on bytes: the output buffer, the blocks of the
    rewrite buffer, the file and the child's file. Every method is a step of the protocol. */
module AofServer {
  import opened Bytes
  import opened Resp
  import opened AofData
  import opened AofFollow
  import opened AofText
  import opened AofProtocol
  import AofSnapshot

  const BLOCK_SIZE: nat := 10 * 1024 * 1024

  function Join(blocks: seq<seq<byte>>): seq<byte>
    decreases |blocks|
  {
    if blocks == [] then [] else Join(blocks[..|blocks| - 1]) + blocks[|blocks| - 1]
  }

  lemma JoinMore(blocks: seq<seq<byte>>, b: seq<byte>)
    ensures Join(blocks + [b]) == Join(blocks) + b
  {
    assert (blocks + [b])[..|blocks|] == blocks;
  }

  /** Every block but the last is full, none is over-full. */
  predicate BlocksOk(blocks: seq<seq<byte>>) {
    forall i :: 0 <= i < |blocks| ==> |blocks[i]| <= BLOCK_SIZE && (i < |blocks| - 1 ==> |blocks[i]| == BLOCK_SIZE)
  }

  lemma LastBlock(blocks: seq<seq<byte>>, more: seq<byte>)
    requires blocks != [] && BlocksOk(blocks) && |blocks[|blocks| - 1]| + |more| <= BLOCK_SIZE
    ensures var n := |blocks| - 1; var b := blocks[..n] + [blocks[n] + more];
      BlocksOk(b) && Join(b) == Join(blocks) + more
  {
    var n := |blocks| - 1;
    JoinMore(blocks[..n], blocks[n]);
    JoinMore(blocks[..n], blocks[n] + more);
    assert blocks[..n] + [blocks[n]] == blocks;
    assert (Join(blocks[..n]) + blocks[n]) + more == Join(blocks[..n]) + (blocks[n] + more);
  }

  /** Fills the last block, then starts new ones. */
  method AppendToBlocks(blocks: seq<seq<byte>>, text: seq<byte>) returns (b: seq<seq<byte>>)
    requires BlocksOk(blocks)
    ensures BlocksOk(b) && Join(b) == Join(blocks) + text
  {
    hide Join;
    b := blocks;
    var s := text;
    while s != []
      invariant BlocksOk(b) && Join(b) + s == Join(blocks) + text
      decreases |s|, if b == [] || |b[|b| - 1]| == BLOCK_SIZE then 1 else 0
    {
      if b != [] {
        var n := |b| - 1;
        var free := BLOCK_SIZE - |b[n]|;
        var len := if free < |s| then free else |s|;
        if len > 0 {
          LastBlock(b, s[..len]);
          assert (Join(b) + s[..len]) + s[len..] == Join(b) + s by { assert s[..len] + s[len..] == s; }
          b := b[..n] + [b[n] + s[..len]];
          s := s[len..];
        }
      }
      if s != [] {
        JoinMore(b, []);
        b := b + [[]];
      }
    }
    assert Join(b) + [] == Join(b);
  }

  method WriteBlocks(dst: seq<byte>, blocks: seq<seq<byte>>) returns (out: seq<byte>)
    ensures out == dst + Join(blocks)
  {
    out := dst;
    for i := 0 to |blocks|
      invariant out == dst + Join(blocks[..i])
    {
      JoinMore(blocks[..i], blocks[i]);
      assert blocks[..i + 1] == blocks[..i] + [blocks[i]];
      if |blocks[i]| != 0 { out := out + blocks[i]; }
    }
    assert blocks[..|blocks|] == blocks;
  }

  /** feedAppendOnlyFile, up to the text it produces. */
  method FeedText(selected: int, f: Fed) returns (text: seq<byte>)
    ensures text == LogText(FeedOne(selected, f))
  {
    hide LogText, ToArgv, PrintCmd;
    text := [];
    ghost var log: seq<LogCmd> := [];
    EmptyText();
    if f.db != selected {
      log := [Select(f.db)];
      TextOne(Select(f.db));
      AofSnapshot.SelectArgv(f.db);
      text := CatCommand(text, [SELECT, Decimal(f.db)]);
      assert [] + PrintCmd([SELECT, Decimal(f.db)]) == PrintCmd([SELECT, Decimal(f.db)]);
    }
    assert log + f.cmds[..0] == log;
    for i := 0 to |f.cmds|
      invariant text == LogText(log + f.cmds[..i])
    {
      text := CatCommand(text, ToArgv(f.cmds[i]));
      TextOne(f.cmds[i]);
      TextConcat(log + f.cmds[..i], [f.cmds[i]]);
      assert (log + f.cmds[..i]) + [f.cmds[i]] == log + f.cmds[..i + 1];
    }
    assert log + f.cmds[..|f.cmds|] == FeedOne(selected, f);
  }

  lemma EmptyText()
    ensures LogText([]) == []
  {
  }

  lemma {:induction false} FeedAllMore(sel: int, fed: seq<Fed>, f: Fed)
    ensures FeedAll(sel, fed + [f]) == FeedAll(sel, fed) + FeedOne(SelAfter(sel, fed), f)
    decreases |fed|
  {
    hide FeedOne;
    if fed == [] {
      assert fed + [f] == [f];
      assert [f][1..] == [];
    } else {
      assert (fed + [f])[1..] == fed[1..] + [f];
      FeedAllMore(fed[0].db, fed[1..], f);
      assert SelAfter(sel, fed) == SelAfter(fed[0].db, fed[1..]);
    }
  }

  /** The invariant, whenever the log is loaded. */
  ghost predicate InvAll(s: St) { forall at :: Inv(s, at) }

  class Server {
    var data: Data
    var now: nat
    var file: seq<byte>
    var aofBuf: seq<byte>
    var blocks: seq<seq<byte>>
    var selected: int
    var mode: Mode
    /** What the child has written or will write. */
    var childFile: Option<seq<byte>>
    ghost var st: St

    /** The bytes spell the protocol's logs. */
    ghost predicate Same()
      reads this
    {
      && data == st.data && now == st.now && selected == st.sel && mode == st.mode
      && file == LogText(st.file) && aofBuf == LogText(st.buf)
      && BlocksOk(blocks) && Join(blocks) == LogText(st.diff)
      && childFile.Some? == st.child.Some?
      && (childFile.Some? ==> childFile.value == LogText(st.child.value.snap))
    }

    ghost predicate Valid()
      reads this
    {
      Same() && InvAll(st)
    }

    /** A server with an empty dataset, file and clock. */
    constructor (on: bool)
      ensures Valid() && Init(st) && mode == (if on then On else Off)
    {
      data, now, file, aofBuf, blocks, selected, childFile := map[], 0, [], [], [], -1, None;
      mode := if on then On else Off;
      st := St(map[], 0, [], [], [], -1, if on then On else Off, None, map[], Trust({}, 0), Trust({}, 0));
      new;
      forall at ensures SubBut(Replay(AofData.Start(at), []).data, map[], 0, {}) { NoReplay(AofData.Start(at)); }
      forall at ensures Inv(st, at) { InitInv(st, at); }
    }

    /** Feeds everything a command propagates. */
    method Propagate(fed: seq<Fed>)
      requires Same() && mode != Off
      modifies this`aofBuf, this`blocks, this`selected
      ensures selected == SelAfter(old(selected), fed)
      ensures mode.On? ==> aofBuf == old(aofBuf) + LogText(FeedAll(old(selected), fed))
      ensures !mode.On? ==> aofBuf == old(aofBuf)
      ensures BlocksOk(blocks)
      ensures childFile.Some? ==> Join(blocks) == old(Join(blocks)) + LogText(FeedAll(old(selected), fed))
      ensures childFile.None? ==> blocks == old(blocks)
    {
      hide LogText, FeedAll, FeedOne, Join, BlocksOk;
      FedNothing(selected);
      assert fed[..0] == [];
      for i := 0 to |fed|
        invariant selected == SelAfter(old(selected), fed[..i])
        invariant mode.On? ==> aofBuf == old(aofBuf) + LogText(FeedAll(old(selected), fed[..i]))
        invariant !mode.On? ==> aofBuf == old(aofBuf)
        invariant BlocksOk(blocks)
        invariant childFile.Some? ==> Join(blocks) == old(Join(blocks)) + LogText(FeedAll(old(selected), fed[..i]))
        invariant childFile.None? ==> blocks == old(blocks)
      {
        ghost var before := LogText(FeedAll(old(selected), fed[..i]));
        var text := FeedText(selected, fed[i]);
        FeedAllMore(old(selected), fed[..i], fed[i]);
        TextConcat(FeedAll(old(selected), fed[..i]), FeedOne(selected, fed[i]));
        assert fed[..i + 1] == fed[..i] + [fed[i]];
        selected := fed[i].db;
        if mode == On {
          Assoc(old(aofBuf), before, text);
          aofBuf := aofBuf + text;
        }
        if childFile.Some? {
          Assoc(old(Join(blocks)), before, text);
          blocks := AppendToBlocks(blocks, text);
        }
      }
      assert fed[..|fed|] == fed;
    }

    /** The effect of an outcome: the new dataset, and its commands fed when the file is not off. */
    method Commit(o: Outcome)
      requires Same()
      modifies this
      ensures Same() && st == Emit(old(st), o)
    {
      hide LogText, FeedAll, Join, BlocksOk;
      if mode != Off {
        Propagate(o.fed);
        TextConcat(st.buf, FeedAll(st.sel, o.fed));
        TextConcat(st.diff, FeedAll(st.sel, o.fed));
      }
      data := o.data;
      st := Emit(st, o);
    }

    /** call(): executes a client command and propagates it. */
    method Call(db: int, c: Client)
      requires Valid() && 0 <= db < DBNUM
      modifies this
      ensures Valid() && st == Next(old(st), Command(db, c))
    {
      hide InvAll, LogText, Exec, Emit, Inv, Join, BlocksOk;
      KeepsAll(st, Command(db, c));
      var o := Exec(data, now, db, c);
      Commit(o);
    }

    /** One key looked at by the active expire cycle. */
    method ExpireCycle(s: Slot)
      requires Valid() && 0 <= s.db < DBNUM
      modifies this
      ensures Valid() && st == Next(old(st), Expire(s))
    {
      hide InvAll, LogText, Emit, Inv, Join, BlocksOk;
      KeepsAll(st, Expire(s));
      Commit(Lazy(Outcome(data, []), s, now));
    }

    method ClockTick(at: nat)
      requires Valid() && now <= at
      modifies this`now, this`st
      ensures Valid() && st == Next(old(st), Tick(at))
    {
      hide InvAll, LogText, Inv, Join, BlocksOk;
      KeepsAll(st, Tick(at));
      now := at;
      st := st.(now := at);
    }

    /** flushAppendOnlyFile, when the write goes through. */
    method FlushAppendOnlyFile()
      requires Valid()
      modifies this`file, this`aofBuf, this`st
      ensures Valid() && st == Next(old(st), Flush)
    {
      hide InvAll, LogText, Join, BlocksOk, Tracks, WellFormed, ChildOk;
      KeepsAll(st, Flush);
      InvParts(st);
      TextConcat(st.file, st.buf);
      EmptyText();
      Assoc(file, [], []);
      if aofBuf != [] {
        file := file + aofBuf;
        aofBuf := [];
      } else {
        assert file + aofBuf == file;
      }
      st := Flushed(st);
    }

    /** rewriteAppendOnlyFileBackground: `childNow` is the clock the child reads. Refused while a
        child is running. */
    method RewriteBackground(childNow: nat) returns (ok: bool)
      requires Valid() && now <= childNow
      modifies this`childFile, this`selected, this`st
      ensures Valid() && ok == old(childFile.None?)
      ensures !ok ==> st == old(st)
      ensures ok ==> st.child.Some? && Enabled(old(st), Rewrite(childNow, st.child.value.snap))
      ensures ok ==> st == Next(old(st), Rewrite(childNow, st.child.value.snap))
    {
      hide InvAll, LogText, Join, BlocksOk, Tracks, ChildOk, Alive, Replay, WellFormed;
      if childFile.Some? { return false; }
      InvParts(st);
      var text;
      ghost var snap;
      text, snap := AofSnapshot.RewriteAppendOnlyFile(data, childNow);
      KeepsAll(st, Rewrite(childNow, snap));
      childFile := Some(text);
      selected := -1;
      st := Forked(st, childNow, snap);
      ok := true;
    }

    /** backgroundRewriteDoneHandler: `ok` when the child exited well and every file operation of
        the handler succeeded. By then the clock is at least what the child read. */
    method BackgroundRewriteDone(ok: bool)
      requires Valid() && childFile.Some? && (ok ==> st.child.value.trust.from <= now)
      modifies this
      ensures Valid() && st == Next(old(st), Done(ok))
    {
      hide InvAll, LogText, Join, BlocksOk, Tracks, WellFormed, ChildOk;
      KeepsAll(st, Done(ok));
      EmptyText();
      if ok {
        TextConcat(st.child.value.snap, st.diff);
        file := WriteBlocks(childFile.value, blocks);
        if mode != Off {
          selected := -1;
          aofBuf := [];
        }
        if mode == Wait { mode := On; }
      }
      blocks, childFile := [], None;
      NoBlocks();
      st := Finished(st, ok);
    }

    /** startAppendOnly. */
    method StartAppendOnly(childNow: nat) returns (ok: bool)
      requires Valid() && mode == Off && now <= childNow
      modifies this
      ensures Valid() && ok == old(childFile.None?)
      ensures !ok ==> st == old(st)
      ensures ok ==> st.child.Some? && Enabled(old(st), Step.Start(childNow, st.child.value.snap))
      ensures ok ==> st == Next(old(st), Step.Start(childNow, st.child.value.snap))
    {
      hide InvAll, LogText, Join, BlocksOk, Tracks, ChildOk, ForkOk;
      ghost var before := st;
      ok := RewriteBackground(childNow);
      if ok {
        KeepsAll(before, Step.Start(childNow, st.child.value.snap));
        mode := Wait;
        st := st.(mode := Wait);
      }
    }

    /** stopAppendOnly. */
    method StopAppendOnly()
      requires Valid() && mode != Off
      modifies this
      ensures Valid() && st == Next(old(st), Stop)
    {
      hide InvAll, LogText, Join, BlocksOk, Tracks, WellFormed, ChildOk;
      KeepsAll(st, Stop);
      FlushAppendOnlyFile();
      EmptyText();
      NoBlocks();
      selected, mode := -1, Off;
      if childFile.Some? {
        blocks, childFile := [], None;
      } else {
        InvParts(st);
      }
      st := NoChild(st).(sel := -1, mode := Off);
    }

    /** The bytes written and buffered so far load as commands whose replay, at any time `at`,
        shows the live dataset, now and later, but for the suspects; the bytes of a running rewrite
        do too, from the time its child read on. */
    lemma BytesReload(at: int, t: int)
      requires Valid()
      ensures var x := st.trust.suspects;
        mode.On? && t >= now && WritableLog(st.file + st.buf) ==>
          LoadLog(file + aofBuf).Some? && Reload(LoadLog(file + aofBuf).value, at, t) - x == Alive(data, t) - x
      ensures !mode.Off? && childFile.Some? && WritableLog(st.child.value.snap + st.diff) ==>
        var b, trust := childFile.value + Join(blocks), st.child.value.trust;
        t >= Horizon(now, trust) ==>
          LoadLog(b).Some? && Reload(LoadLog(b).value, at, t) - trust.suspects == Alive(data, t) - trust.suspects
    {
      hide LogText, Join, BlocksOk, Inv, WritableLog, Reload, Alive, LoadLog, Horizon;
      InvShows(st);
      TextConcat(st.file, st.buf);
      if mode.On? && WritableLog(st.file + st.buf) { LoadUndoesText(st.file + st.buf); }
      if !mode.Off? && childFile.Some? && WritableLog(st.child.value.snap + st.diff) {
        TextConcat(st.child.value.snap, st.diff);
        LoadUndoesText(st.child.value.snap + st.diff);
      }
    }
  }

  /** A step keeps the invariant for every time of loading. */
  lemma KeepsAll(s: St, e: Step)
    requires InvAll(s) && Enabled(s, e)
    ensures InvAll(Next(s, e))
  {
    hide Inv, Next, Enabled;
    forall at ensures Inv(Next(s, e), at) { StepKeeps(s, at, e); }
  }

  lemma InvParts(s: St)
    requires InvAll(s)
    ensures WellFormed(s.data) && (s.child.None? ==> s.diff == []) && (!s.mode.On? ==> s.buf == [])
  {
    assert Inv(s, 0);
    hide WellFormed, Replay;
  }

  lemma NoBlocks()
    ensures BlocksOk([]) && Join([]) == []
  {
  }

  lemma FedNothing(sel: int)
    ensures LogText(FeedAll(sel, [])) == []
  {
  }
}
