/** All the ways to send a request: counted arguments, a line of words, a line whose last word counts
    the bytes that follow, a wrong line and an empty one, in any mix and however cut into reads. */
module RequestForms {
  import opened Bytes
  import opened Resp
  import opened Request
  import opened RequestStream

  // ---------------------------------------------------------------- words

  /** The words with a space between each two. */
  function Joined(w: Argv): Str
    decreases |w|
  {
    if w == [] then [] else if |w| == 1 then w[0] else w[0] + [SPACE] + Joined(w[1..])
  }

  lemma {:induction false} SpaceAfter(a: Str, t: Str)
    requires forall i :: 0 <= i < |a| ==> a[i] != SPACE
    ensures FirstSpace(a) == |a| && FirstSpace(a + [SPACE] + t) == |a|
    decreases |a|
  {
    var s := a + [SPACE] + t;
    if a != [] {
      assert s[1..] == a[1..] + [SPACE] + t && s[0] == a[0];
      SpaceAfter(a[1..], t);
    }
  }

  /** A text without spaces is one word, and a space ends a word: that says what the words are. */
  lemma {:induction false} WordsSplit(a: Str, b: Str)
    requires forall i :: 0 <= i < |a| ==> a[i] != SPACE
    ensures Words(a) == (if a == [] then [] else [a]) && Words(a + [SPACE] + b) == Words(a) + Words(b)
  {
    SpaceAfter(a, b);
    var s := a + [SPACE] + b;
    assert s[..|a|] == a && s[|a| + 1..] == b;
    if a != [] { assert a[..|a|] == a && [a] + [] == [a]; }
  }

  predicate IsWord(a: Str) { a != [] && Plain(a) }

  lemma {:induction false} WordsOfJoined(w: Argv)
    requires forall a :: a in w ==> IsWord(a)
    ensures Words(Joined(w)) == w
    decreases |w|
  {
    hide Words;
    if |w| == 0 {
      WordsSplit([], []);
    } else {
      assert w[0] in w;
      assert w == [w[0]] + w[1..];
      WordsSplit(w[0], Joined(w[1..]));
      if |w| > 1 { WordsOfJoined(w[1..]); }
    }
  }

  lemma {:induction false} JoinedIsLine(w: Argv)
    requires forall a :: a in w ==> IsWord(a)
    ensures forall i :: 0 <= i < |Joined(w)| ==> Joined(w)[i] != LF && Joined(w)[i] != 0
    decreases |w|
  {
    if |w| > 0 {
      assert w[0] in w;
      assert w == [w[0]] + w[1..];
      if |w| > 1 { JoinedIsLine(w[1..]); }
    }
  }

  /** A line is taken whole, word by word. */
  lemma LineOfWords(table: seq<Cmd>, c: Client, w: Argv)
    requires c.buf == [] && c.argv == [] && c.alive && c.bulklen == -1
    requires (forall a :: a in w ==> IsWord(a)) && |Joined(w)| + 2 < MAX_REQUEST
    ensures var t := Joined(w) + CRLF; var m := More(c, t);
      && t != [] && Ready(m) && Step(table, m) == (if w == [] then c else ProcessCommand(table, c.(argv := w)))
      && (forall k :: 0 <= k < |t| ==> Waits(c, t[..k]))
  {
    hide LineEnd, ProcessCommand, Words, Joined;
    var t, line := Joined(w) + CRLF, Joined(w) + [CR];
    JoinedIsLine(w);
    LineOf(line);
    assert c.buf + t == t;
    assert t == line + [LF] && t[..|line|] == line && t[|line| + 1..] == [];
    assert line[..|line| - 1] == Joined(w);
    WordsOfJoined(w);
    assert c.argv + w == w;
    forall k | 0 <= k < |t| ensures Waits(c, t[..k]) {
      assert t[..k] == line[..k];
      LineOf(line[..k]);
      assert c.buf + t[..k] == t[..k];
    }
  }

  // ---------------------------------------------------------------- commands of the table

  /** A positive arity is exact, a negative one a minimum. */
  lemma ArityIff(cmd: Cmd, argc: nat)
    requires argc > 0
    ensures ArityOk(cmd, argc) <==> (cmd.arity > 0 && argc == cmd.arity) || (cmd.arity <= 0 && argc >= -cmd.arity)
  {
  }

  /** Upper case is lower case. */
  function Lower(b: byte): byte { if 65 <= b <= 90 then b + 32 else b }

  predicate SameName(a: Str, b: Str) { |a| == |b| && forall i :: 0 <= i < |a| ==> Lower(a[i]) == Lower(b[i]) }

  lemma {:induction false} FoldedIs(s: Str)
    requires 0 !in s
    ensures |Folded(s)| == |s| && forall i :: 0 <= i < |s| ==> Folded(s)[i] == Lower(s[i])
    decreases |s|
  {
    if s != [] {
      assert s == [s[0]] + s[1..];
      FoldedIs(s[1..]);
    }
  }

  /** The command found is the first whose name is the same but for case. */
  lemma {:induction false} LookupFinds(table: seq<Cmd>, name: Str, i: nat)
    requires 0 !in name && forall x :: x in table ==> 0 !in x.name
    requires i <= |table| && (forall j :: 0 <= j < i ==> !SameName(table[j].name, name))
    requires i < |table| ==> SameName(table[i].name, name)
    ensures Lookup(table, name) == if i < |table| then Some(table[i]) else None
    decreases |table|
  {
    if table != [] {
      assert table[0] in table;
      FoldedIs(table[0].name);
      FoldedIs(name);
      if i > 0 {
        assert !SameName(table[0].name, name);
        assert forall j :: 0 <= j < i - 1 ==> table[1..][j] == table[j + 1];
        LookupFinds(table[1..], name, i - 1);
      } else {
        assert Folded(table[0].name) == Folded(name);
      }
    }
  }

  // ---------------------------------------------------------------- requests

  datatype Form =
    | Counted(argv: Argv)     // counted arguments
    | Line(argv: Argv)        // a line of words
    | Bulk(argv: Argv)        // a line with the size of the last argument, and its bytes
    | Wrong(argv: Argv)       // a line that is no command, or has too few or too many words
    | Empty

  /** The words of the line that announces the last argument. */
  function Announce(argv: Argv): Argv
    requires argv != []
  {
    argv[..|argv| - 1] + [Digits(|argv[|argv| - 1]|)]
  }

  predicate LineOk(w: Argv) {
    w != [] && (forall a :: a in w ==> IsWord(a)) && |Joined(w)| + 2 < MAX_REQUEST && !(|w| == 1 && Starred(w[0]))
  }

  predicate Sendable(table: seq<Cmd>, q: Form) {
    match q
    case Counted(argv) => Callable(table, argv)
    case Line(argv) => LineOk(argv) && Callable(table, argv) && !Lookup(table, argv[0]).value.bulk
    case Bulk(argv) =>
      |argv| >= 2 && Callable(table, argv) && Lookup(table, argv[0]).value.bulk && LineOk(Announce(argv))
    case Wrong(w) =>
      && LineOk(w) && Folded(w[0]) != QUIT
      && (Lookup(table, w[0]).None? || !ArityOk(Lookup(table, w[0]).value, |w|))
    case Empty => true
  }

  /** The bytes that are sent, as the pieces the parser takes. */
  function Pieces(q: Form): seq<Str> {
    match q
    case Counted(argv) => CmdTokens(argv)
    case Line(argv) => [Joined(argv) + CRLF]
    case Bulk(argv) => if argv == [] then [] else [Joined(Announce(argv)) + CRLF, argv[|argv| - 1] + CRLF]
    case Wrong(w) => [Joined(w) + CRLF]
    case Empty => [CRLF]
  }

  /** What a request does: its command is executed, or it is an error, or nothing. */
  function Done(c: Client, q: Form): Client {
    match q
    case Wrong(_) => c.(errors := c.errors + 1)
    case Empty => c
    case _ => c.(called := c.called + [q.argv])
  }

  lemma LineLeads(table: seq<Cmd>, c: Client, w: Argv, d: Client)
    requires Idle(c) && LineOk(w) && ProcessCommand(table, c.(argv := w)) == d && d.buf == []
    ensures Leads(table, c, [Joined(w) + CRLF], d)
  {
    hide Ready, Step, Joined, ProcessCommand, Leads, Waits;
    LineOfWords(table, c, w);
    OneToken(table, c, Joined(w) + CRLF, d);
  }

  lemma BulkLeads(table: seq<Cmd>, c: Client, argv: Argv)
    requires Idle(c) && Sendable(table, Bulk(argv))
    ensures Leads(table, c, Pieces(Bulk(argv)), c.(called := c.called + [argv]))
  {
    hide Ready, Step, Joined, Leads, Waits, Lookup, Folded, LeadingInt, Digits;
    var n := |argv| - 1;
    var last, w := argv[n], Announce(argv);
    assert last in argv && w[0] == argv[0] && |w| == |argv| && w[..n] == argv[..n];
    DigitsBack(|last|);
    var r := c.(argv := argv[..n], bulklen := |last| + 2);
    assert ProcessCommand(table, c.(argv := w)) == r;
    LineLeads(table, c, w, r);
    var e := c.(called := c.called + [argv]);
    BytesTaken(table, r, argv[..n], last);
    assert argv[..n] + [last] == argv;
    assert ProcessCommand(table, r.(argv := argv)) == e;
    OneToken(table, r, last + CRLF, e);
    LeadsOn(table, c, [Joined(w) + CRLF], r, [last + CRLF], e);
    assert [Joined(w) + CRLF] + [last + CRLF] == Pieces(Bulk(argv));
  }

  /** The announced bytes are taken whole and become the last argument. */
  lemma BytesTaken(table: seq<Cmd>, c: Client, front: Argv, last: Str)
    requires c.buf == [] && c.argv == front && c.alive && c.bulklen == |last| + 2
    ensures var t := last + CRLF; var m := More(c, t);
      && t != [] && Ready(m) && Step(table, m) == ProcessCommand(table, c.(argv := front + [last]))
      && (forall k :: 0 <= k < |t| ==> Waits(c, t[..k]))
  {
    hide LineEnd, ProcessCommand;
    var t := last + CRLF;
    assert c.buf + t == t && t[..|last|] == last && t[|last| + 2..] == [];
    forall k | 0 <= k < |t| ensures Waits(c, t[..k]) { assert c.buf + t[..k] == t[..k]; }
  }

  lemma EmptyLeads(table: seq<Cmd>, c: Client)
    requires Idle(c)
    ensures Leads(table, c, [CRLF], c)
  {
    hide Ready, Step, Leads, Waits;
    LineOfWords(table, c, []);
    assert Joined([]) + CRLF == CRLF;
    OneToken(table, c, CRLF, c);
  }

  lemma FormLeads(table: seq<Cmd>, c: Client, q: Form)
    requires Idle(c) && Sendable(table, q)
    ensures Leads(table, c, Pieces(q), Done(c, q))
  {
    hide Leads, Joined, CmdTokens, Lookup, Folded;
    match q
    case Counted(argv) => CmdLeads(table, c, argv);
    case Line(argv) => LineLeads(table, c, argv, Done(c, q));
    case Bulk(argv) => BulkLeads(table, c, argv);
    case Wrong(w) => LineLeads(table, c, w, Done(c, q));
    case Empty => EmptyLeads(table, c);
  }

  function AllPieces(qs: seq<Form>): seq<Str>
    decreases |qs|
  {
    if qs == [] then [] else Pieces(qs[0]) + AllPieces(qs[1..])
  }

  function AllDone(c: Client, qs: seq<Form>): Client
    decreases |qs|
  {
    if qs == [] then c else AllDone(Done(c, qs[0]), qs[1..])
  }

  lemma {:induction false} FormsLead(table: seq<Cmd>, c: Client, qs: seq<Form>)
    requires Idle(c) && forall q :: q in qs ==> Sendable(table, q)
    ensures Leads(table, c, AllPieces(qs), AllDone(c, qs))
    decreases |qs|
  {
    hide Leads, Pieces, Callable, LineOk;
    if qs == [] {
      LeadsNone(table, c);
    } else {
      assert qs[0] in qs;
      FormLeads(table, c, qs[0]);
      FormsLead(table, Done(c, qs[0]), qs[1..]);
      LeadsOn(table, c, Pieces(qs[0]), Done(c, qs[0]), AllPieces(qs[1..]), AllDone(c, qs));
    }
  }

  lemma {:induction false} PieceNotEmpty(qs: seq<Form>)
    ensures AllPieces(qs) != [] ==> |AllPieces(qs)[0]| > 0
    decreases |qs|
  {
    if qs != [] { PieceNotEmpty(qs[1..]); }
  }

  /** Every mix of requests, in every form, cut into reads in every way: the commands are executed in
      order with exactly their arguments, wrong lines are errors, empty lines are nothing, and the
      parser is ready for the next request. */
  lemma EveryMixDispatches(table: seq<Cmd>, c: Client, qs: seq<Form>, chunks: seq<Str>)
    requires Idle(c) && (forall q :: q in qs ==> Sendable(table, q)) && Join(chunks) == Join(AllPieces(qs))
    ensures FeedAll(table, c, chunks) == AllDone(c, qs)
  {
    hide Leads, Sendable, AllPieces;
    FormsLead(table, c, qs);
    PieceNotEmpty(qs);
    assert [] + Join(chunks) == Join(chunks);
    FeedLeads(table, c, AllPieces(qs), AllDone(c, qs), [], chunks);
    assert More(c, []) == c by { assert c.buf + [] == c.buf; }
  }
}
