/** The same on the fields of a client. */
module RequestCode {
  import opened Bytes
  import opened Resp
  import opened Request

  /** Every command that takes its last argument as a bulk has a name and at least that argument. */
  ghost predicate TableOk(table: seq<Cmd>) {
    forall c :: c in table && c.bulk ==> c.arity >= 2 || c.arity <= -2
  }

  /** An argument that is already in the buffer is taken at once; that is the step the input loop
      would take next. */
  lemma FastPath(table: seq<Cmd>, c: Client, cmd: Cmd, n: nat)
    requires TableOk(table) && |c.argv| >= 1 && c.multibulk == 0 && c.alive && Folded(c.argv[0]) != QUIT
    requires Lookup(table, c.argv[0]) == Some(cmd) && ArityOk(cmd, |c.argv|) && cmd.bulk && n + 2 <= |c.buf|
    ensures var d := c.(argv := c.argv[..|c.argv| - 1], bulklen := n + 2);
      var argv := c.argv[..|c.argv| - 1] + [c.buf[..n]];
      Ready(d) && Step(table, d) == Reset(c.(buf := c.buf[n + 2..], called := c.called + [argv]))
  {
    hide Folded, Lookup, LeadingInt;
    assert cmd in table;
    var argv := c.argv[..|c.argv| - 1] + [c.buf[..n]];
    assert |argv| == |c.argv| >= 2 && argv[0] == c.argv[0];
  }

  class Connection {
    const table: seq<Cmd>
    var buf: Str
    var argv: Argv
    var mbargv: Argv
    var multibulk: int
    var bulklen: int
    var alive: bool
    var called: seq<Argv>
    var errors: nat

    function St(): Client
      reads this
    {
      Client(buf, argv, mbargv, multibulk, bulklen, alive, called, errors)
    }

    constructor (table: seq<Cmd>)
      ensures this.table == table && St() == Client([], [], [], 0, -1, true, [], 0)
    {
      this.table := table;
      buf, argv, mbargv, multibulk, bulklen := [], [], [], 0, -1;
      alive, called, errors := true, [], 0;
    }

    method ResetClient()
      modifies this`argv, this`mbargv, this`multibulk, this`bulklen
      ensures St() == Reset(old(St()))
    {
      argv, mbargv := [], [];
      bulklen := -1;
      multibulk := 0;
    }

    method ReplyError()
      modifies this`argv, this`mbargv, this`multibulk, this`bulklen, this`errors
      ensures St() == Fail(old(St()))
    {
      errors := errors + 1;
      ResetClient();
    }

    /** The second half of processCommand. */
    method Execute()
      requires TableOk(table) && argv != [] && alive && multibulk == 0
      modifies this
      ensures Drain(table, St()) == Drain(table, Dispatch(table, old(St())))
      ensures (alive ==> bulklen == -1 || bulklen >= 2) && |buf| <= old(|buf|)
    {
      hide Folded, Lookup, LeadingInt, ArityOk, Ready, Step;
      if Folded(argv[0]) == QUIT {
        alive := false;
        return;
      }
      var cmd := Lookup(table, argv[0]);
      if cmd.None? || !ArityOk(cmd.value, |argv|) {
        ReplyError();
        return;
      }
      if cmd.value.bulk && bulklen == -1 {
        var n := LeadingInt(argv[|argv| - 1]);
        if n < 0 || n > MAX_BULK {
          ReplyError();
          return;
        }
        ghost var c := St();
        argv := argv[..|argv| - 1];
        bulklen := n + 2;
        if |buf| < bulklen { return; }
        FastPath(table, c, cmd.value, n);
        argv := argv + [buf[..bulklen - 2]];
        buf := buf[bulklen..];
      }
      called := called + [argv];
      ResetClient();
    }

    /** processCommand. */
    method Process()
      requires TableOk(table) && argv != [] && alive && (bulklen == -1 || bulklen >= 2)
      modifies this
      ensures Drain(table, St()) == Drain(table, ProcessCommand(table, old(St())))
      ensures (alive ==> bulklen == -1 || bulklen >= 2) && |buf| <= old(|buf|)
    {
      hide Drain, Dispatch, LeadingInt;
      if multibulk == 0 && |argv| == 1 && argv[0] != [] && argv[0][0] == STAR {
        multibulk := LeadingInt(argv[0][1..]);
        if multibulk <= 0 { ResetClient(); } else { argv := []; }
        return;
      }
      if multibulk != 0 {
        if bulklen == -1 {
          if argv[0] == [] || argv[0][0] != DOLLAR {
            ReplyError();
            return;
          }
          var n := LeadingInt(argv[0][1..]);
          if n < 0 || n > MAX_BULK {
            ReplyError();
            return;
          }
          argv := argv[..|argv| - 1];
          bulklen := n + 2;
          return;
        }
        mbargv := mbargv + [argv[0]];
        argv := argv[..|argv| - 1];
        multibulk := multibulk - 1;
        if multibulk != 0 {
          bulklen := -1;
          return;
        }
        argv, mbargv := mbargv, argv;
        bulklen := 0;
      }
      Execute();
    }

    /** processInputBuffer, for a client that is not blocked. */
    method ProcessInputBuffer()
      requires TableOk(table) && alive && (bulklen == -1 || bulklen >= 2)
      modifies this
      ensures St() == Drain(table, old(St())) && (alive ==> bulklen == -1 || bulklen >= 2)
    {
      hide LineEnd, Words, Chomp, ProcessCommand, Drain;
      while true
        invariant alive && (bulklen == -1 || bulklen >= 2)
        invariant Drain(table, St()) == Drain(table, old(St()))
        decreases |buf|
      {
        ghost var c := St();
        DrainIs(table, c);
        if bulklen == -1 {
          var e := LineEnd(buf);
          if e.None? {
            if |buf| >= MAX_REQUEST { alive := false; }
            return;
          }
          var query := buf[..e.value];
          buf := buf[e.value + 1..];
          argv := argv + Words(Chomp(query));
          if argv != [] { Process(); }
        } else {
          if |buf| < bulklen { return; }
          argv := argv + [buf[..bulklen - 2]];
          buf := buf[bulklen..];
          Process();
        }
        if !alive || buf == [] {
          DrainIdle(table, St());
          return;
        }
      }
    }

    /** readQueryFromClient. */
    method ReadQuery(chunk: Str)
      requires TableOk(table) && alive && (bulklen == -1 || bulklen >= 2)
      modifies this
      ensures St() == Drain(table, More(old(St()), chunk)) && (alive ==> bulklen == -1 || bulklen >= 2)
    {
      hide Drain;
      buf := buf + chunk;
      ProcessInputBuffer();
    }
  }

  lemma DrainIs(table: seq<Cmd>, c: Client)
    ensures Drain(table, c) ==
      if Ready(c) then Drain(table, Step(table, c)) else if TooLong(c) then c.(alive := false) else c
  {
    hide Ready, Step, TooLong;
  }

  lemma DrainIdle(table: seq<Cmd>, c: Client)
    requires !c.alive || (c.buf == [] && (c.bulklen == -1 || c.bulklen >= 2))
    ensures Drain(table, c) == c
  {
  }
}
