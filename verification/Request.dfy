/** processInputBuffer and processCommand of redis-1.3.6/redis.c: the request parser as a state
    that takes bytes in whatever pieces they arrive. */
module Request {
  import opened Bytes
  import opened Resp

  type Str = seq<byte>

  const MAX_REQUEST: nat := 1024 * 1024 * 256
  const MAX_BULK: nat := 1024 * 1024 * 1024
  const INT_MAX: nat := 0x7FFF_FFFF

  /** An entry of the command table; a negative arity is a minimum. */
  datatype Cmd = Cmd(name: Str, arity: int, bulk: bool)

  /** The fields of the client the parser uses; `called` are the commands executed so far. */
  datatype Client = Client(buf: Str, argv: Argv, mbargv: Argv, multibulk: int, bulklen: int,
    alive: bool, called: seq<Argv>, errors: nat)

  // ---------------------------------------------------------------- text

  /** strchr for a newline: where it is, unless a zero byte comes first. */
  function LineEnd(s: Str): (r: Option<nat>)
    ensures r.Some? ==> r.value < |s| && s[r.value] == LF
  {
    if s == [] || s[0] == 0 then None
    else if s[0] == LF then Some(0)
    else
      var r := LineEnd(s[1..]);
      if r.Some? then Some(r.value + 1) else None
  }

  function FirstSpace(s: Str): (i: nat)
    ensures i <= |s|
  {
    if s == [] || s[0] == SPACE then 0 else 1 + FirstSpace(s[1..])
  }

  /** sdssplitlen at single spaces, without the empty pieces. */
  function Words(s: Str): (w: Argv)
    ensures forall x :: x in w ==> x != []
    decreases |s|
  {
    if s == [] then []
    else
      var i := FirstSpace(s);
      (if i > 0 then [s[..i]] else []) + (if i < |s| then Words(s[i + 1..]) else [])
  }

  function Chomp(s: Str): Str {
    if s != [] && s[|s| - 1] == CR then s[..|s| - 1] else s
  }

  /** A C string: up to the first zero byte, letters in lower case. */
  function Folded(s: Str): Str {
    if s == [] || s[0] == 0 then [] else [if 65 <= s[0] <= 90 then s[0] + 32 else s[0]] + Folded(s[1..])
  }

  const QUIT: Str := [113, 117, 105, 116]

  function Lookup(table: seq<Cmd>, name: Str): (r: Option<Cmd>)
    ensures r.Some? ==> r.value in table
  {
    if table == [] then None
    else if Folded(table[0].name) == Folded(name) then Some(table[0])
    else Lookup(table[1..], name)
  }

  predicate ArityOk(c: Cmd, argc: nat) {
    !((c.arity > 0 && c.arity != argc) || argc < -c.arity)
  }

  // ---------------------------------------------------------------- one step

  function Reset(c: Client): Client { c.(argv := [], mbargv := [], bulklen := -1, multibulk := 0) }

  function Fail(c: Client): Client { Reset(c).(errors := c.errors + 1) }

  /** Execute a complete argument vector, or go on to read the last argument of a bulk command. */
  function Dispatch(table: seq<Cmd>, c: Client): Client
    requires c.argv != []
  {
    if Folded(c.argv[0]) == QUIT then c.(alive := false)
    else
      var cmd := Lookup(table, c.argv[0]);
      if cmd.None? || !ArityOk(cmd.value, |c.argv|) then Fail(c)
      else if cmd.value.bulk && c.bulklen == -1 then
        var n := LeadingInt(c.argv[|c.argv| - 1]);
        if n < 0 || n > MAX_BULK then Fail(c) else c.(argv := c.argv[..|c.argv| - 1], bulklen := n + 2)
      else Reset(c.(called := c.called + [c.argv]))
  }

  predicate Starred(s: Str) { s != [] && s[0] == STAR }

  function ProcessCommand(table: seq<Cmd>, c: Client): Client
    requires c.argv != []
  {
    if c.multibulk == 0 && |c.argv| == 1 && Starred(c.argv[0]) then
      var n := LeadingInt(c.argv[0][1..]);
      if n <= 0 then Reset(c.(multibulk := n)) else c.(multibulk := n, argv := [])
    else if c.multibulk != 0 then
      if c.bulklen == -1 then
        if c.argv[0] == [] || c.argv[0][0] != DOLLAR then Fail(c)
        else
          var n := LeadingInt(c.argv[0][1..]);
          if n < 0 || n > MAX_BULK then Fail(c) else c.(argv := c.argv[..|c.argv| - 1], bulklen := n + 2)
      else
        var d := c.(mbargv := c.mbargv + [c.argv[0]], argv := c.argv[..|c.argv| - 1], multibulk := c.multibulk - 1);
        if d.multibulk == 0 then Dispatch(table, d.(argv := d.mbargv, mbargv := d.argv, bulklen := 0))
        else d.(bulklen := -1)
    else Dispatch(table, c)
  }

  /** There is a whole line, or the whole bulk. */
  predicate Ready(c: Client) {
    c.alive && if c.bulklen == -1 then LineEnd(c.buf).Some? else 0 <= c.bulklen - 2 && c.bulklen <= |c.buf|
  }

  /** Takes the line or the bulk off the buffer and processes it. */
  function Step(table: seq<Cmd>, c: Client): Client
    requires Ready(c)
  {
    if c.bulklen == -1 then
      var e := LineEnd(c.buf).value;
      var d := c.(buf := c.buf[e + 1..], argv := c.argv + Words(Chomp(c.buf[..e])));
      if d.argv == [] then d else ProcessCommand(table, d)
    else
      ProcessCommand(table, c.(buf := c.buf[c.bulklen..], argv := c.argv + [c.buf[..c.bulklen - 2]]))
  }

  predicate TooLong(c: Client) { c.alive && c.bulklen == -1 && LineEnd(c.buf).None? && |c.buf| >= MAX_REQUEST }

  /** Everything that can be done with the bytes at hand. */
  function Drain(table: seq<Cmd>, c: Client): Client
    decreases |c.buf|
  {
    if Ready(c) then StepShrinks(table, c); Drain(table, Step(table, c))
    else if TooLong(c) then c.(alive := false)
    else c
  }

  lemma ProcessBuffer(table: seq<Cmd>, c: Client)
    requires c.argv != []
    ensures ProcessCommand(table, c).buf == c.buf
  {
  }

  lemma StepShrinks(table: seq<Cmd>, c: Client)
    requires Ready(c)
    ensures |Step(table, c).buf| < |c.buf|
  {
    hide ProcessCommand, Words, Chomp, LineEnd;
    if c.bulklen == -1 {
      var e := LineEnd(c.buf).value;
      var d := c.(buf := c.buf[e + 1..], argv := c.argv + Words(Chomp(c.buf[..e])));
      if d.argv != [] { ProcessBuffer(table, d); }
    } else {
      ProcessBuffer(table, c.(buf := c.buf[c.bulklen..], argv := c.argv + [c.buf[..c.bulklen - 2]]));
    }
  }

  /** readQueryFromClient: some bytes arrive. */
  function More(c: Client, s: Str): Client { c.(buf := c.buf + s) }

  function FeedAll(table: seq<Cmd>, c: Client, chunks: seq<Str>): Client
    decreases |chunks|
  {
    if chunks == [] then c else FeedAll(table, Drain(table, More(c, chunks[0])), chunks[1..])
  }

  // ---------------------------------------------------------------- bytes that come later

  lemma {:induction false} LineEndMore(s: Str, t: Str)
    requires LineEnd(s).Some?
    ensures LineEnd(s + t) == LineEnd(s)
    decreases |s|
  {
    if s[0] != LF {
      assert (s + t)[1..] == s[1..] + t;
      LineEndMore(s[1..], t);
    }
  }

  lemma ProcessMore(table: seq<Cmd>, c: Client, t: Str)
    requires c.argv != []
    ensures ProcessCommand(table, More(c, t)) == More(ProcessCommand(table, c), t)
  {
    hide LeadingInt, Dispatch;
    if c.multibulk == 1 && c.bulklen != -1 {
      var d := c.(mbargv := c.argv[..|c.argv| - 1], argv := c.mbargv + [c.argv[0]], multibulk := 0, bulklen := 0);
      DispatchMore(table, d, t);
    } else if c.multibulk == 0 && !(|c.argv| == 1 && Starred(c.argv[0])) {
      DispatchMore(table, c, t);
    }
  }

  lemma DispatchMore(table: seq<Cmd>, c: Client, t: Str)
    requires c.argv != []
    ensures Dispatch(table, More(c, t)) == More(Dispatch(table, c), t)
  {
    hide LeadingInt, Folded, Lookup, ArityOk;
  }

  /** A step does not look at bytes it does not consume. */
  lemma StepMore(table: seq<Cmd>, c: Client, t: Str)
    requires Ready(c)
    ensures Ready(More(c, t)) && Step(table, More(c, t)) == More(Step(table, c), t)
  {
    hide ProcessCommand, Words, Chomp, LineEnd;
    var b := c.buf + t;
    if c.bulklen == -1 {
      LineEndMore(c.buf, t);
      var e := LineEnd(c.buf).value;
      assert b[..e] == c.buf[..e] && b[e + 1..] == c.buf[e + 1..] + t;
      var d := c.(buf := c.buf[e + 1..], argv := c.argv + Words(Chomp(c.buf[..e])));
      if d.argv != [] { ProcessMore(table, d, t); }
    } else {
      var n := c.bulklen;
      assert b[..n - 2] == c.buf[..n - 2] && b[n..] == c.buf[n..] + t;
      ProcessMore(table, c.(buf := c.buf[n..], argv := c.argv + [c.buf[..n - 2]]), t);
    }
  }

  /** Two reads do what one read of all their bytes does, for any bytes whatsoever short of the
      request limit. */
  lemma {:induction false} DrainTwice(table: seq<Cmd>, c: Client, t: Str)
    requires |c.buf| < MAX_REQUEST
    ensures Drain(table, More(Drain(table, c), t)) == Drain(table, More(c, t))
    decreases |c.buf|
  {
    hide Ready, Step, LineEnd;
    if Ready(c) {
      StepShrinks(table, c);
      StepMore(table, c, t);
      DrainTwice(table, Step(table, c), t);
    }
  }

  function Join(chunks: seq<Str>): Str
    decreases |chunks|
  {
    if chunks == [] then [] else chunks[0] + Join(chunks[1..])
  }

  /** So no split of a stream into reads matters. */
  lemma {:induction false} AnySplit(table: seq<Cmd>, c: Client, chunks: seq<Str>)
    requires |c.buf| + |Join(chunks)| < MAX_REQUEST
    ensures Drain(table, FeedAll(table, Drain(table, c), chunks)) == Drain(table, More(c, Join(chunks)))
    decreases |chunks|
  {
    hide Drain;
    if chunks == [] {
      assert More(c, []) == c by { assert c.buf + [] == c.buf; }
      DrainTwice(table, c, []);
      DrainKeepsShort(table, c);
      assert More(Drain(table, c), []) == Drain(table, c) by { assert Drain(table, c).buf + [] == Drain(table, c).buf; }
    } else {
      var a := chunks[0];
      DrainTwice(table, c, a);
      AnySplit(table, More(c, a), chunks[1..]);
      assert More(More(c, a), Join(chunks[1..])) == More(c, Join(chunks)) by {
        assert (c.buf + a) + Join(chunks[1..]) == c.buf + (a + Join(chunks[1..]));
      }
    }
  }

  lemma {:induction false} DrainKeepsShort(table: seq<Cmd>, c: Client)
    ensures |Drain(table, c).buf| <= |c.buf|
    decreases |c.buf|
  {
    hide Ready, Step, LineEnd;
    if Ready(c) {
      StepShrinks(table, c);
      DrainKeepsShort(table, Step(table, c));
    }
  }
}
