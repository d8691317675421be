/** Printed commands, however they are cut into reads. */
module RequestStream {
  import opened Bytes
  import opened Resp
  import opened Request

  // ---------------------------------------------------------------- tokens

  /** The parser with an empty buffer waits for exactly these bytes: no part of them makes it
      move, all of them do. */
  ghost predicate Takes(table: seq<Cmd>, c: Client, tok: Str) {
    && c.buf == [] && tok != [] && Ready(More(c, tok)) && Step(table, More(c, tok)).buf == []
    && (forall n :: 0 <= n < |tok| ==> Waits(c, tok[..n]))
  }

  predicate Waits(c: Client, s: Str) { !Ready(More(c, s)) && !TooLong(More(c, s)) }

  ghost predicate Leads(table: seq<Cmd>, c: Client, toks: seq<Str>, d: Client)
    decreases |toks|
  {
    if toks == [] then c.buf == [] && c == d
    else Takes(table, c, toks[0]) && Leads(table, Step(table, More(c, toks[0])), toks[1..], d)
  }

  lemma {:induction false} LeadsOn(table: seq<Cmd>, c: Client, a: seq<Str>, d: Client, b: seq<Str>, e: Client)
    requires Leads(table, c, a, d) && Leads(table, d, b, e)
    ensures Leads(table, c, a + b, e)
    decreases |a|
  {
    hide Waits, Step, Ready;
    if a == [] {
      assert a + b == b;
    } else {
      assert (a + b)[1..] == a[1..] + b && (a + b)[0] == a[0];
      LeadsOn(table, Step(table, More(c, a[0])), a[1..], d, b, e);
    }
  }

  /** One read of `s`, with `rest` still to come: whole tokens are processed, the beginning of the
      next one stays in the buffer. */
  lemma {:induction false} DrainLeads(table: seq<Cmd>, c: Client, toks: seq<Str>, d: Client, s: Str, rest: Str)
    returns (c': Client, toks': seq<Str>, q: Str)
    requires Leads(table, c, toks, d) && s + rest == Join(toks)
    ensures Drain(table, More(c, s)) == More(c', q)
    ensures Leads(table, c', toks', d) && q + rest == Join(toks')
    ensures if toks' == [] then q == [] else |q| < |toks'[0]|
    decreases |toks|
  {
    hide Step, Ready, TooLong;
    if toks == [] {
      c', toks', q := c, toks, s;
      NothingReady(table, c);
      assert s == [];
    } else if |s| < |toks[0]| {
      c', toks', q := c, toks, s;
      PrefixOf(s, rest, toks[0], Join(toks[1..]));
      assert Waits(c, toks[0][..|s|]);
    } else {
      var tok, t := toks[0], Join(toks[1..]);
      CutAfter(s, rest, tok, t);
      var s1 := s[|tok|..];
      StepMore(table, More(c, tok), s1);
      assert More(More(c, tok), s1) == More(c, s) by { assert (c.buf + tok) + s1 == c.buf + s; }
      var c1 := Step(table, More(c, tok));
      c', toks', q := DrainLeads(table, c1, toks[1..], d, s1, rest);
    }
  }

  lemma NothingReady(table: seq<Cmd>, c: Client)
    requires c.buf == []
    ensures Drain(table, More(c, [])) == More(c, [])
  {
    assert c.buf + [] == [];
  }

  lemma PrefixOf(s: Str, rest: Str, tok: Str, t: Str)
    requires s + rest == tok + t && |s| < |tok|
    ensures s == tok[..|s|]
  {
    assert (s + rest)[..|s|] == s && (tok + t)[..|s|] == tok[..|s|];
  }

  lemma CutAfter(s: Str, rest: Str, tok: Str, t: Str)
    requires s + rest == tok + t && |s| >= |tok|
    ensures s == tok + s[|tok|..] && s[|tok|..] + rest == t
  {
    assert (s + rest)[..|tok|] == s[..|tok|] && (tok + t)[..|tok|] == tok;
    assert (s + rest)[|tok|..] == s[|tok|..] + rest && (tok + t)[|tok|..] == t;
  }

  /** Any number of reads. */
  lemma {:induction false} FeedLeads(table: seq<Cmd>, c: Client, toks: seq<Str>, d: Client, q: Str, chunks: seq<Str>)
    requires Leads(table, c, toks, d) && q + Join(chunks) == Join(toks)
    requires if toks == [] then q == [] else |q| < |toks[0]|
    ensures FeedAll(table, More(c, q), chunks) == d
    decreases |chunks|
  {
    hide Drain, Takes, Step, Ready;
    if chunks == [] {
      assert q + [] == q;
      assert toks == [];
      assert More(c, q) == c;
    } else {
      var t := Join(chunks[1..]);
      assert (q + chunks[0]) + t == q + Join(chunks);
      var c', toks', q' := DrainLeads(table, c, toks, d, q + chunks[0], t);
      assert More(More(c, q), chunks[0]) == More(c, q + chunks[0]) by {
        assert (c.buf + q) + chunks[0] == c.buf + (q + chunks[0]);
      }
      FeedLeads(table, c', toks', d, q', chunks[1..]);
    }
  }

  // ---------------------------------------------------------------- count lines

  predicate Plain(s: Str) { forall i :: 0 <= i < |s| ==> s[i] != LF && s[i] != 0 && s[i] != SPACE && s[i] != CR }

  lemma {:induction false} LineOf(s: Str)
    requires forall i :: 0 <= i < |s| ==> s[i] != LF && s[i] != 0
    ensures LineEnd(s) == None && LineEnd(s + [LF]) == Some(|s|)
    decreases |s|
  {
    if s != [] {
      assert (s + [LF])[1..] == s[1..] + [LF];
      LineOf(s[1..]);
    } else {
      assert s + [LF] == [LF];
    }
  }

  lemma {:induction false} NoSpace(s: Str)
    requires Plain(s)
    ensures FirstSpace(s) == |s|
    decreases |s|
  {
    if s != [] { NoSpace(s[1..]); }
  }

  lemma OneWord(s: Str)
    requires Plain(s) && s != []
    ensures Words(Chomp(s + [CR])) == [s]
  {
    assert (s + [CR])[..|s|] == s;
    NoSpace(s);
    assert s[..|s|] == s && [s] + [] == [s];
  }

  lemma {:induction false} DigitsShort(n: nat, k: nat, p: nat)
    requires n < p && p == Pow10(k) && k >= 1
    ensures |Digits(n)| <= k
    decreases k
  {
    if n >= 10 {
      assert k >= 2 && Pow10(k) == 10 * Pow10(k - 1);
      DigitsShort(n / 10, k - 1, Pow10(k - 1));
    }
  }

  function Pow10(k: nat): nat { if k == 0 then 1 else 10 * Pow10(k - 1) }

  lemma CountPlain(prefix: byte, n: nat)
    requires n <= INT_MAX && (prefix == STAR || prefix == DOLLAR)
    ensures var s := [prefix] + Digits(n);
      Plain(s) && |s| <= 11 && s[1..] == Digits(n) && Count(prefix, n) == s + [CR] + [LF]
  {
    assert Pow10(10) == 10000000000 by { Ten(); }
    DigitsShort(n, 10, 10000000000);
  }

  lemma Ten()
    ensures Pow10(10) == 10000000000
  {
    assert Pow10(2) == 100;
    assert Pow10(4) == 10000;
    assert Pow10(6) == 1000000;
    assert Pow10(8) == 100000000;
  }

  /** A count line is taken whole, and is one word. */
  lemma LineTaken(table: seq<Cmd>, c: Client, prefix: byte, n: nat)
    requires c.buf == [] && c.argv == [] && c.alive && c.bulklen == -1
    requires n <= INT_MAX && (prefix == STAR || prefix == DOLLAR)
    ensures var m := More(c, Count(prefix, n)); var word := [prefix] + Digits(n);
      && Count(prefix, n) != [] && Ready(m) && Step(table, m) == ProcessCommand(table, c.(argv := [word]))
      && (forall k :: 0 <= k < |Count(prefix, n)| ==> Waits(c, Count(prefix, n)[..k]))
  {
    hide LineEnd, Digits, ProcessCommand, Words, Chomp;
    var word := [prefix] + Digits(n);
    var t := Count(prefix, n);
    CountPlain(prefix, n);
    var line := word + [CR];
    LineOf(line);
    assert c.buf + t == t;
    assert t == line + [LF] && t[..|line|] == line && t[|line| + 1..] == [];
    OneWord(word);
    assert c.argv + [word] == [word];
    forall k | 0 <= k < |t| ensures Waits(c, t[..k]) {
      assert t[..k] == line[..k];
      LineOf(line[..k]);
      assert c.buf + t[..k] == t[..k];
    }
  }

  /** The bytes of a bulk are taken whole, whatever they are. */
  lemma BulkTaken(table: seq<Cmd>, c: Client, arg: Str)
    requires c.buf == [] && c.argv == [] && c.alive && c.bulklen == |arg| + 2
    ensures var m := More(c, arg + CRLF);
      && Ready(m) && Step(table, m) == ProcessCommand(table, c.(argv := [arg]))
      && (forall k :: 0 <= k < |arg + CRLF| ==> Waits(c, (arg + CRLF)[..k]))
  {
    hide LineEnd, ProcessCommand;
    var t := arg + CRLF;
    assert c.buf + t == t && t[..|arg|] == arg && t[|arg| + 2..] == [];
    assert c.argv + [arg] == [arg];
    forall k | 0 <= k < |t| ensures Waits(c, t[..k]) { assert c.buf + t[..k] == t[..k]; }
  }

  // ---------------------------------------------------------------- commands

  /** A known command with the right number of arguments, each of a size the protocol allows. */
  predicate Callable(table: seq<Cmd>, argv: Argv) {
    && 0 < |argv| <= INT_MAX && Folded(argv[0]) != QUIT
    && Lookup(table, argv[0]).Some? && ArityOk(Lookup(table, argv[0]).value, |argv|)
    && forall a :: a in argv ==> |a| <= MAX_BULK
  }

  /** Between two commands. */
  predicate Idle(c: Client) {
    c.buf == [] && c.argv == [] && c.mbargv == [] && c.bulklen == -1 && c.multibulk == 0 && c.alive
  }

  /** Having read `k` arguments of a command. */
  function Reading(c: Client, argv: Argv, k: nat): Client
    requires k <= |argv|
  {
    c.(mbargv := argv[..k], multibulk := |argv| - k)
  }

  lemma DigitsBack(n: nat)
    ensures LeadingInt(Digits(n)) == n
  {
    DecimalReadBack(n, []);
    assert Digits(n) + [] == Digits(n);
  }

  lemma HeaderLeads(table: seq<Cmd>, c: Client, argv: Argv)
    requires Idle(c) && 0 < |argv| <= INT_MAX
    ensures Leads(table, c, [Count(STAR, |argv|)], Reading(c, argv, 0))
  {
    hide Ready, Step, LeadingInt, Digits, Count;
    var n := |argv|;
    LineTaken(table, c, STAR, n);
    assert ([STAR] + Digits(n))[1..] == Digits(n);
    DigitsBack(n);
    assert argv[..0] == [];
    OneToken(table, c, Count(STAR, n), Reading(c, argv, 0));
  }

  lemma OneToken(table: seq<Cmd>, c: Client, tok: Str, d: Client)
    requires Takes(table, c, tok) && Step(table, More(c, tok)) == d
    ensures Leads(table, c, [tok], d)
  {
    hide Takes, Step, Ready;
    var one: seq<Str> := [tok];
    assert one[1..] == [];
    TakesEmpties(table, c, tok);
    assert Leads(table, d, [], d);
  }

  lemma TakesEmpties(table: seq<Cmd>, c: Client, tok: Str)
    requires Takes(table, c, tok)
    ensures Step(table, More(c, tok)).buf == []
  {
  }

  /** One argument: its count line and its bytes. */
  lemma ArgLeads(table: seq<Cmd>, c: Client, argv: Argv, k: nat)
    requires Idle(c) && Callable(table, argv) && k < |argv|
    ensures Leads(table, Reading(c, argv, k), [Count(DOLLAR, |argv[k]|), argv[k] + CRLF],
      if k + 1 < |argv| then Reading(c, argv, k + 1) else c.(called := c.called + [argv]))
  {
    hide Ready, Step, LeadingInt, Digits, Count, Lookup, Folded;
    var a := argv[k];
    assert a in argv;
    var r := Reading(c, argv, k);
    LineTaken(table, r, DOLLAR, |a|);
    assert ([DOLLAR] + Digits(|a|))[1..] == Digits(|a|);
    DigitsBack(|a|);
    var w := r.(bulklen := |a| + 2);
    assert [[DOLLAR] + Digits(|a|)][..0] == [];
    OneToken(table, r, Count(DOLLAR, |a|), w);
    BulkTaken(table, w, a);
    var e := if k + 1 < |argv| then Reading(c, argv, k + 1) else c.(called := c.called + [argv]);
    assert ProcessCommand(table, w.(argv := [a])) == e by { LastArg(table, c, argv, k); }
    OneToken(table, w, a + CRLF, e);
    LeadsOn(table, r, [Count(DOLLAR, |a|)], w, [a + CRLF], e);
    assert [Count(DOLLAR, |a|)] + [a + CRLF] == [Count(DOLLAR, |a|), a + CRLF];
  }

  lemma LastArg(table: seq<Cmd>, c: Client, argv: Argv, k: nat)
    requires Idle(c) && Callable(table, argv) && k < |argv|
    ensures var w := Reading(c, argv, k).(bulklen := |argv[k]| + 2, argv := [argv[k]]);
      ProcessCommand(table, w) ==
        if k + 1 < |argv| then Reading(c, argv, k + 1) else c.(called := c.called + [argv])
  {
    hide LeadingInt, Lookup, Folded;
    assert argv[..k] + [argv[k]] == argv[..k + 1];
    assert argv[..|argv|] == argv;
    var one: Argv := [argv[k]];
    assert one[..0] == [];
  }

  /** The pieces of the arguments from `k` on. */
  function ArgTokens(argv: Argv, k: nat): seq<Str>
    requires k <= |argv|
    decreases |argv| - k
  {
    if k == |argv| then [] else [Count(DOLLAR, |argv[k]|), argv[k] + CRLF] + ArgTokens(argv, k + 1)
  }

  lemma {:induction false} ArgsLead(table: seq<Cmd>, c: Client, argv: Argv, k: nat)
    requires Idle(c) && Callable(table, argv) && k < |argv|
    ensures Leads(table, Reading(c, argv, k), ArgTokens(argv, k), c.(called := c.called + [argv]))
    decreases |argv| - k
  {
    hide Takes, Leads, Callable, Count;
    ArgLeads(table, c, argv, k);
    var toks, e := [Count(DOLLAR, |argv[k]|), argv[k] + CRLF], c.(called := c.called + [argv]);
    if k + 1 < |argv| {
      ArgsLead(table, c, argv, k + 1);
      LeadsOn(table, Reading(c, argv, k), toks, Reading(c, argv, k + 1), ArgTokens(argv, k + 1), e);
    } else {
      assert toks + [] == toks;
    }
  }

  lemma LeadsNone(table: seq<Cmd>, c: Client)
    requires c.buf == []
    ensures Leads(table, c, [], c)
  {
  }

  function CmdTokens(argv: Argv): seq<Str> { [Count(STAR, |argv|)] + ArgTokens(argv, 0) }

  lemma CmdLeads(table: seq<Cmd>, c: Client, argv: Argv)
    requires Idle(c) && Callable(table, argv)
    ensures Leads(table, c, CmdTokens(argv), c.(called := c.called + [argv]))
  {
    hide Takes, Leads, Count;
    HeaderLeads(table, c, argv);
    ArgsLead(table, c, argv, 0);
    LeadsOn(table, c, [Count(STAR, |argv|)], Reading(c, argv, 0), ArgTokens(argv, 0), c.(called := c.called + [argv]));
  }

  function Tokens(cmds: seq<Argv>): seq<Str>
    decreases |cmds|
  {
    if cmds == [] then [] else CmdTokens(cmds[0]) + Tokens(cmds[1..])
  }

  lemma {:induction false} AllLead(table: seq<Cmd>, c: Client, cmds: seq<Argv>)
    requires Idle(c) && forall a :: a in cmds ==> Callable(table, a)
    ensures Leads(table, c, Tokens(cmds), c.(called := c.called + cmds))
    decreases |cmds|
  {
    hide Leads, CmdTokens, Callable;
    if cmds == [] {
      assert c.called + [] == c.called;
      LeadsNone(table, c);
    } else {
      assert cmds[0] in cmds;
      CmdLeads(table, c, cmds[0]);
      var d := c.(called := c.called + [cmds[0]]);
      AllLead(table, d, cmds[1..]);
      assert c.called + [cmds[0]] + cmds[1..] == c.called + cmds;
      LeadsOn(table, c, CmdTokens(cmds[0]), d, Tokens(cmds[1..]), c.(called := c.called + cmds));
    }
  }

  // ---------------------------------------------------------------- the printed text

  lemma {:induction false} JoinConcat(a: seq<Str>, b: seq<Str>)
    ensures Join(a + b) == Join(a) + Join(b)
    decreases |a|
  {
    if a == [] {
      assert a + b == b;
    } else {
      assert (a + b)[1..] == a[1..] + b;
      JoinConcat(a[1..], b);
    }
  }

  lemma {:induction false} ArgsText(argv: Argv, k: nat)
    requires k <= |argv|
    ensures Join(ArgTokens(argv, k)) == Bulks(argv[k..])
    decreases |argv| - k
  {
    hide Count;
    if k == |argv| {
      assert argv[k..] == [];
    } else {
      var x, y := Count(DOLLAR, |argv[k]|), argv[k] + CRLF;
      ArgsText(argv, k + 1);
      JoinConcat([x, y], ArgTokens(argv, k + 1));
      TwoJoined(x, y);
      assert argv[k..][1..] == argv[k + 1..];
      assert x + y == Bulk(argv[k]);
    }
  }

  lemma TwoJoined(x: Str, y: Str)
    ensures Join([x, y]) == x + y
  {
    var two: seq<Str> := [x, y];
    assert two[1..] == [y] && two[1..][1..] == [];
    assert Join(two[1..]) == y + Join(two[1..][1..]);
  }

  lemma {:induction false} TokensText(cmds: seq<Argv>)
    ensures Join(Tokens(cmds)) == PrintAll(cmds)
    decreases |cmds|
  {
    hide Count, ArgTokens;
    if cmds != [] {
      TokensText(cmds[1..]);
      JoinConcat(CmdTokens(cmds[0]), Tokens(cmds[1..]));
      var h := Count(STAR, |cmds[0]|);
      JoinConcat([h], ArgTokens(cmds[0], 0));
      var one: seq<Str> := [h];
      assert one[1..] == [];
      assert Join(one) == h + Join(one[1..]);
      ArgsText(cmds[0], 0);
      assert cmds[0][0..] == cmds[0];
    }
  }

  lemma FirstTokenNotEmpty(cmds: seq<Argv>)
    ensures Tokens(cmds) != [] ==> |Tokens(cmds)[0]| > 0
  {
  }

  /** For every list of callable commands, with arguments of any bytes, and every way of cutting
      their printed form into reads: exactly those commands are executed, in order, nothing
      else happens, and the parser is ready for the next command. */
  lemma EveryChunkingDispatches(table: seq<Cmd>, c: Client, cmds: seq<Argv>, chunks: seq<Str>)
    requires Idle(c) && (forall a :: a in cmds ==> Callable(table, a)) && Join(chunks) == PrintAll(cmds)
    ensures FeedAll(table, c, chunks) == c.(called := c.called + cmds)
  {
    hide Leads, Callable, Tokens;
    AllLead(table, c, cmds);
    TokensText(cmds);
    FirstTokenNotEmpty(cmds);
    assert [] + Join(chunks) == Join(chunks);
    FeedLeads(table, c, Tokens(cmds), c.(called := c.called + cmds), [], chunks);
    assert More(c, []) == c by { assert c.buf + [] == c.buf; }
  }
}
