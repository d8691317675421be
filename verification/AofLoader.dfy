/** loadAppendOnlyFile, down to the sequence of argument vectors it executes. */
module AofLoader {
  import opened Bytes
  import opened Resp

  /** Length of the line at the start of `s` as fgets with a buffer of 128 bytes reads it. */
  function LineLen(s: seq<byte>, room: nat): (n: nat)
    ensures n <= |s| && n <= room
    decreases room
  {
    if s == [] || room == 0 then 0 else if s[0] == LF then 1 else 1 + LineLen(s[1..], room - 1)
  }

  datatype Load<T> = Loaded(value: T, rest: seq<byte>) | Bad

  /** One `<prefix><number>` line. */
  function LoadCount(s: seq<byte>, prefix: byte): (r: Load<int>)
    ensures r.Loaded? ==> |r.rest| < |s|
  {
    var n := LineLen(s, 127);
    if n == 0 || s[0] != prefix then Bad else Loaded(LeadingInt(s[1..n]), s[n..])
  }

  function LoadBulk(s: seq<byte>): (r: Load<seq<byte>>)
    ensures r.Loaded? ==> |r.rest| < |s|
  {
    var c := LoadCount(s, DOLLAR);
    if c.Bad? || c.value < 0 || |c.rest| < c.value + 2 then Bad
    else Loaded(c.rest[..c.value], c.rest[c.value + 2..])
  }

  function LoadArgs(s: seq<byte>, argc: nat): (r: Load<Argv>)
    ensures r.Loaded? ==> |r.value| == argc && |r.rest| <= |s|
    decreases argc
  {
    if argc == 0 then Loaded([], s)
    else
      var a := LoadBulk(s);
      if a.Bad? then Bad
      else
        var t := LoadArgs(a.rest, argc - 1);
        if t.Bad? then Bad else Loaded([a.value] + t.value, t.rest)
  }

  function LoadCmd(s: seq<byte>): (r: Load<Argv>)
    ensures r.Loaded? ==> |r.rest| < |s|
  {
    var c := LoadCount(s, STAR);
    if c.Bad? || c.value < 1 then Bad else LoadArgs(c.rest, c.value)
  }

  /** All commands of a file; None where the server refuses to start with it. */
  function LoadAll(s: seq<byte>): Option<seq<Argv>>
    decreases |s|
  {
    if s == [] then Some([])
    else
      var c := LoadCmd(s);
      if c.Bad? then None
      else
        var t := LoadAll(c.rest);
        if t.None? then None else Some([c.value] + t.value)
  }

  /** The bounds of the format: counts fit a line of 127 bytes. */
  predicate Printable(n: nat) { |Digits(n)| <= 124 }

  predicate Writable(argv: Argv) {
    argv != [] && Printable(|argv|) && forall a :: a in argv ==> Printable(|a|)
  }

  lemma {:induction false} LineOf(a: seq<byte>, t: seq<byte>, room: nat)
    requires |a| < room && forall i :: 0 <= i < |a| ==> a[i] != LF
    ensures LineLen(a + [LF] + t, room) == |a| + 1
    decreases |a|
  {
    var s := a + [LF] + t;
    if a != [] {
      assert s[1..] == a[1..] + [LF] + t;
      LineOf(a[1..], t, room - 1);
    }
  }

  lemma CountReadBack(prefix: byte, n: nat, t: seq<byte>)
    requires Printable(n) && prefix != LF
    ensures LoadCount(Count(prefix, n) + t, prefix) == Loaded(n, t)
  {
    hide Digits, LeadingInt, LineLen;
    var a := [prefix] + Digits(n) + [CR];
    var s := Count(prefix, n) + t;
    assert s == a + [LF] + t;
    LineOf(a, t, 127);
    assert s[1..|a| + 1] == Decimal(n) + CRLF;
    DecimalReadBack(n, CRLF);
    assert s[|a| + 1..] == t;
  }

  lemma BulkReadBack(b: seq<byte>, t: seq<byte>)
    requires Printable(|b|)
    ensures LoadBulk(Bulk(b) + t) == Loaded(b, t)
  {
    hide Digits, LoadCount, Count;
    assert Bulk(b) + t == Count(DOLLAR, |b|) + (b + CRLF + t);
    CountReadBack(DOLLAR, |b|, b + CRLF + t);
    assert (b + CRLF + t)[..|b|] == b && (b + CRLF + t)[|b| + 2..] == t;
  }

  lemma NoArgs(t: seq<byte>)
    ensures LoadArgs(Bulks([]) + t, 0) == Loaded([], t)
  {
    assert Bulks([]) + t == t;
  }

  lemma FirstBulk(argv: Argv, t: seq<byte>)
    requires argv != []
    ensures Bulks(argv) + t == Bulk(argv[0]) + (Bulks(argv[1..]) + t)
  {
    hide Bulk;
    Assoc(Bulk(argv[0]), Bulks(argv[1..]), t);
  }

  lemma LoadFirst(s: seq<byte>, a: seq<byte>, rest: Argv, u: seq<byte>, t: seq<byte>)
    requires LoadBulk(s) == Loaded(a, u) && LoadArgs(u, |rest|) == Loaded(rest, t)
    ensures LoadArgs(s, |rest| + 1) == Loaded([a] + rest, t)
  {
    hide LoadBulk;
  }

  lemma {:induction false} ArgsReadBack(argv: Argv, t: seq<byte>)
    requires forall a :: a in argv ==> Printable(|a|)
    ensures LoadArgs(Bulks(argv) + t, |argv|) == Loaded(argv, t)
    decreases |argv|
  {
    hide LoadBulk, Bulk, Printable, Bulks, LoadArgs;
    if argv == [] {
      NoArgs(t);
    } else {
      var a, rest := argv[0], argv[1..];
      assert a in argv && forall x :: x in rest ==> x in argv;
      FirstBulk(argv, t);
      BulkReadBack(a, Bulks(rest) + t);
      ArgsReadBack(rest, t);
      LoadFirst(Bulks(argv) + t, a, rest, Bulks(rest) + t, t);
      assert argv == [a] + rest;
    }
  }

  lemma CmdReadBack(argv: Argv, t: seq<byte>)
    requires Writable(argv)
    ensures LoadCmd(PrintCmd(argv) + t) == Loaded(argv, t)
  {
    hide LoadCount, LoadArgs, Bulks, Count, Printable;
    assert PrintCmd(argv) + t == Count(STAR, |argv|) + (Bulks(argv) + t);
    CountReadBack(STAR, |argv|, Bulks(argv) + t);
    ArgsReadBack(argv, t);
  }

  /** Loading undoes printing: the file executes exactly the commands that were appended. */
  lemma {:induction false} LoadUndoesPrint(cmds: seq<Argv>)
    requires forall c :: c in cmds ==> Writable(c)
    ensures LoadAll(PrintAll(cmds)) == Some(cmds)
    decreases |cmds|
  {
    hide LoadCmd, Writable, Count, Bulks;
    if cmds != [] {
      CmdReadBack(cmds[0], PrintAll(cmds[1..]));
      LoadUndoesPrint(cmds[1..]);
      PrintNotEmpty(cmds[0]);
      assert cmds == [cmds[0]] + cmds[1..];
    }
  }

  lemma PrintNotEmpty(c: Argv)
    ensures PrintCmd(c) != []
  {
  }
}
