/** The multi-bulk request format: how commands are printed (catAppendOnlyGenericCommand) and
    the number parsing that both readers of the format rely on. */
module Resp {
  import opened Bytes

  type Argv = seq<seq<byte>>

  const CR: byte := 13
  const LF: byte := 10
  const CRLF: seq<byte> := [13, 10]
  const STAR: byte := 42
  const DOLLAR: byte := 36
  const MINUS: byte := 45
  const PLUS: byte := 43
  const SPACE: byte := 32

  predicate IsDigit(b: byte) { 48 <= b <= 57 }

  predicate IsSpace(b: byte) { b == 32 || 9 <= b <= 13 }

  // ---------------------------------------------------------------- numbers

  /** ll2string for a non-negative number. */
  function Digits(n: nat): (s: seq<byte>)
    ensures s != [] && IsDigit(s[0])
    ensures forall i :: 0 <= i < |s| ==> IsDigit(s[i])
  {
    if n < 10 then [48 + n] else Digits(n / 10) + [48 + n % 10]
  }

  /** ll2string. */
  function Decimal(n: int): seq<byte> { if n < 0 then [MINUS] + Digits(-n) else Digits(n) }

  /** The value of the digits at the start of `s`, after the digits of `acc`. */
  function LeadingNat(s: seq<byte>, acc: nat): nat
    decreases |s|
  {
    if s != [] && IsDigit(s[0]) then LeadingNat(s[1..], acc * 10 + (s[0] - 48)) else acc
  }

  function SkipBlanks(s: seq<byte>): seq<byte> {
    if s != [] && IsSpace(s[0]) then SkipBlanks(s[1..]) else s
  }

  /** atoi and strtoll: blanks, an optional sign, then digits up to the first other byte. */
  function LeadingInt(s: seq<byte>): int {
    var t := SkipBlanks(s);
    if t != [] && t[0] == MINUS then -(LeadingNat(t[1..], 0) as int)
    else if t != [] && t[0] == PLUS then LeadingNat(t[1..], 0)
    else LeadingNat(t, 0)
  }

  lemma {:induction false} DigitsThen(n: nat, t: seq<byte>)
    ensures LeadingNat(Digits(n) + t, 0) == LeadingNat(t, n)
    decreases n
  {
    if n < 10 {
      assert (Digits(n) + t)[1..] == t;
    } else {
      var d: byte := 48 + n % 10;
      assert Digits(n) + t == Digits(n / 10) + ([d] + t);
      DigitsThen(n / 10, [d] + t);
      assert ([d] + t)[1..] == t;
    }
  }

  lemma LeadingNatEnd(t: seq<byte>)
    requires t == [] || !IsDigit(t[0])
    ensures forall m :: LeadingNat(t, m) == m
  {
  }

  /** A printed number is read back, whatever follows it unless it is a digit. */
  lemma DecimalReadBack(n: int, t: seq<byte>)
    requires t == [] || !IsDigit(t[0])
    ensures LeadingInt(Decimal(n) + t) == n
  {
    hide Digits, LeadingNat;
    LeadingNatEnd(t);
    assert SkipBlanks(Decimal(n) + t) == Decimal(n) + t;
    if n < 0 {
      DigitsThen(-n, t);
      assert (Decimal(n) + t)[1..] == Digits(-n) + t;
    } else {
      DigitsThen(n, t);
    }
  }

  // ---------------------------------------------------------------- commands

  /** A count line: `*3` before the arguments, `$5` before a bulk of five bytes. */
  function Count(prefix: byte, n: nat): seq<byte> { [prefix] + Digits(n) + CRLF }

  function Bulk(s: seq<byte>): seq<byte> { Count(DOLLAR, |s|) + s + CRLF }

  function Bulks(argv: Argv): seq<byte> {
    if argv == [] then [] else Bulk(argv[0]) + Bulks(argv[1..])
  }

  /** catAppendOnlyGenericCommand. */
  function PrintCmd(argv: Argv): seq<byte> { Count(STAR, |argv|) + Bulks(argv) }

  function PrintAll(cmds: seq<Argv>): seq<byte> {
    if cmds == [] then [] else PrintCmd(cmds[0]) + PrintAll(cmds[1..])
  }

  lemma {:induction false} BulksConcat(a: Argv, b: Argv)
    ensures Bulks(a + b) == Bulks(a) + Bulks(b)
    decreases |a|
  {
    if a == [] {
      assert a + b == b;
    } else {
      assert (a + b)[1..] == a[1..] + b;
      BulksConcat(a[1..], b);
    }
  }

  lemma {:induction false} PrintConcat(a: seq<Argv>, b: seq<Argv>)
    ensures PrintAll(a + b) == PrintAll(a) + PrintAll(b)
    decreases |a|
  {
    if a == [] {
      assert a + b == b;
    } else {
      assert (a + b)[1..] == a[1..] + b;
      PrintConcat(a[1..], b);
    }
  }

  lemma BulksOne(a: seq<byte>)
    ensures Bulks([a]) == Bulk(a)
  {
    var one: Argv := [a];
    assert one[1..] == [];
  }

  lemma PrintOne(c: Argv)
    ensures PrintAll([c]) == PrintCmd(c)
  {
    var one: seq<Argv> := [c];
    assert one[1..] == [];
  }

  lemma NoBulks(s: seq<byte>)
    ensures s + Bulks([]) == s
  {
  }

  lemma BulkText(s: seq<byte>, a: seq<byte>)
    ensures s + Count(DOLLAR, |a|) + a + CRLF == s + Bulk(a)
  {
    hide Count;
    Assoc(s, Count(DOLLAR, |a|), a);
    Assoc(s, Count(DOLLAR, |a|) + a, CRLF);
  }

  /** catAppendOnlyGenericCommand appends the printed command, one argument at a time. */
  method CatCommand(dst: seq<byte>, argv: Argv) returns (buf: seq<byte>)
    ensures buf == dst + PrintCmd(argv)
  {
    hide Count, Bulks, Bulk;
    ghost var start := dst + Count(STAR, |argv|);
    buf := dst + Count(STAR, |argv|);
    NoBulks(start);
    assert argv[..0] == [];
    for j := 0 to |argv|
      invariant buf == start + Bulks(argv[..j])
    {
      assert argv[..j + 1] == argv[..j] + [argv[j]];
      BulksConcat(argv[..j], [argv[j]]);
      BulksOne(argv[j]);
      ghost var was := buf;
      buf := buf + Count(DOLLAR, |argv[j]|);
      buf := buf + argv[j];
      buf := buf + CRLF;
      BulkText(was, argv[j]);
      Assoc(start, Bulks(argv[..j]), Bulk(argv[j]));
    }
    assert argv[..|argv|] == argv;
    Assoc(dst, Count(STAR, |argv|), Bulks(argv));
  }
}
