/** The commands of the append-only file as argument vectors, and so as bytes. */
module AofText {
  import opened Bytes
  import opened Resp
  import opened AofData
  import AofLoader

  const SELECT: Str := [83, 69, 76, 69, 67, 84]
  const SET: Str := [83, 69, 84]
  const EX: Str := [69, 88]
  const PX: Str := [80, 88]
  const DEL: Str := [68, 69, 76]
  const RENAME: Str := [82, 69, 78, 65, 77, 69]
  const RENAMENX: Str := [82, 69, 78, 65, 77, 69, 78, 88]
  const MOVE: Str := [77, 79, 86, 69]
  const PEXPIREAT: Str := [80, 69, 88, 80, 73, 82, 69, 65, 84]
  const RPUSH: Str := [82, 80, 85, 83, 72]
  const LPUSH: Str := [76, 80, 85, 83, 72]
  const SADD: Str := [83, 65, 68, 68]
  const ZADD: Str := [90, 65, 68, 68]
  const HMSET: Str := [72, 77, 83, 69, 84]
  const LPOP: Str := [76, 80, 79, 80]
  const RPOP: Str := [82, 80, 79, 80]
  const PERSIST: Str := [80, 69, 82, 83, 73, 83, 84]

  function NameOf(kind: Kind): Str {
    match kind
    case RPush => RPUSH
    case SAdd => SADD
    case ZAdd => ZADD
    case HMSet => HMSET
  }

  function ToArgv(c: LogCmd): Argv {
    match c
    case Select(db) => [SELECT, Decimal(db)]
    case SetStr(k, v) => [SET, k, v]
    case SetRel(k, v, arg, seconds) => [SET, k, v, if seconds then EX else PX, Decimal(arg)]
    case Del(keys) => [DEL] + keys
    case Rename(a, b, nx) => [if nx then RENAMENX else RENAME, a, b]
    case Move(k, dst) => [MOVE, k, Decimal(dst)]
    case PexpireAt(k, when) => [PEXPIREAT, k, Decimal(when)]
    case Add(kind, k, args) => [NameOf(kind), k] + args
    case LPush(k, args) => [LPUSH, k] + args
    case Pop(k, left) => [if left then LPOP else RPOP, k]
    case Persist(k) => [PERSIST, k]
  }

  /** The command table by name and arity. */
  function FromArgv(a: Argv): Option<LogCmd> {
    if |a| == 0 then None
    else
      var n := a[0];
      if n == DEL then Some(Del(a[1..]))
      else if |a| == 1 then None
      else if n == SELECT then Some(Select(LeadingInt(a[1])))
      else if n == LPUSH then Some(LPush(a[1], a[2..]))
      else if n == RPUSH then Some(Add(RPush, a[1], a[2..]))
      else if n == SADD then Some(Add(SAdd, a[1], a[2..]))
      else if n == ZADD then Some(Add(ZAdd, a[1], a[2..]))
      else if n == HMSET then Some(Add(HMSet, a[1], a[2..]))
      else if n == LPOP then Some(Pop(a[1], true))
      else if n == RPOP then Some(Pop(a[1], false))
      else if n == PERSIST then Some(Persist(a[1]))
      else if |a| == 2 then None
      else if n == SET then
        if |a| == 3 then Some(SetStr(a[1], a[2]))
        else if |a| == 5 && (a[3] == EX || a[3] == PX) then Some(SetRel(a[1], a[2], LeadingInt(a[4]), a[3] == EX))
        else None
      else if n == RENAME then Some(Rename(a[1], a[2], false))
      else if n == RENAMENX then Some(Rename(a[1], a[2], true))
      else if n == MOVE then Some(Move(a[1], LeadingInt(a[2])))
      else if n == PEXPIREAT then Some(PexpireAt(a[1], LeadingInt(a[2])))
      else None
  }

  lemma DecimalBack(n: int)
    ensures LeadingInt(Decimal(n)) == n
  {
    DecimalReadBack(n, []);
    assert Decimal(n) + [] == Decimal(n);
  }

  /** Reading a command's argument vector gives the command back. */
  lemma ArgvReadBack(c: LogCmd)
    ensures FromArgv(ToArgv(c)) == Some(c)
  {
    hide Decimal, LeadingInt;
    match c
    case Select(db) => DecimalBack(db);
    case SetRel(_, _, arg, _) => DecimalBack(arg);
    case Move(k, dst) => DecimalBack(dst);
    case PexpireAt(k, when) => DecimalBack(when);
    case Del(keys) => assert ([DEL] + keys)[1..] == keys;
    case Add(kind, k, args) => assert ([NameOf(kind), k] + args)[2..] == args;
    case LPush(k, args) => assert ([LPUSH, k] + args)[2..] == args;
    case _ =>
  }

  function Argvs(log: seq<LogCmd>): seq<Argv>
    decreases |log|
  {
    if log == [] then [] else [ToArgv(log[0])] + Argvs(log[1..])
  }

  /** The bytes of a log. */
  function LogText(log: seq<LogCmd>): seq<byte> { PrintAll(Argvs(log)) }

  function Commands(a: seq<Argv>): Option<seq<LogCmd>>
    decreases |a|
  {
    if a == [] then Some([])
    else
      var c, t := FromArgv(a[0]), Commands(a[1..]);
      if c.Some? && t.Some? then Some([c.value] + t.value) else None
  }

  /** loadAppendOnlyFile, up to executing the commands. */
  function LoadLog(bytes: seq<byte>): Option<seq<LogCmd>> {
    var a := AofLoader.LoadAll(bytes);
    if a.Some? then Commands(a.value) else None
  }

  lemma {:induction false} CommandsBack(log: seq<LogCmd>)
    ensures Commands(Argvs(log)) == Some(log)
    decreases |log|
  {
    hide ToArgv, FromArgv;
    if log != [] {
      var a := Argvs(log);
      assert a[1..] == Argvs(log[1..]);
      ArgvReadBack(log[0]);
      CommandsBack(log[1..]);
      assert [log[0]] + log[1..] == log;
    }
  }

  ghost predicate WritableLog(log: seq<LogCmd>) {
    forall a :: a in Argvs(log) ==> AofLoader.Writable(a)
  }

  /** Loading the bytes of a log gives exactly its commands. */
  lemma LoadUndoesText(log: seq<LogCmd>)
    requires WritableLog(log)
    ensures LoadLog(LogText(log)) == Some(log)
  {
    hide ToArgv, FromArgv;
    AofLoader.LoadUndoesPrint(Argvs(log));
    CommandsBack(log);
  }

  lemma {:induction false} ArgvsConcat(a: seq<LogCmd>, b: seq<LogCmd>)
    ensures Argvs(a + b) == Argvs(a) + Argvs(b)
    decreases |a|
  {
    hide ToArgv;
    if a == [] {
      assert a + b == b;
    } else {
      assert (a + b)[1..] == a[1..] + b;
      ArgvsConcat(a[1..], b);
    }
  }

  lemma TextConcat(a: seq<LogCmd>, b: seq<LogCmd>)
    ensures LogText(a + b) == LogText(a) + LogText(b)
  {
    hide ToArgv, Argvs, PrintAll;
    ArgvsConcat(a, b);
    PrintConcat(Argvs(a), Argvs(b));
  }

  lemma TextOne(c: LogCmd)
    ensures LogText([c]) == PrintCmd(ToArgv(c))
  {
    hide ToArgv, PrintCmd;
    var one := [c];
    assert one[1..] == [];
    assert Argvs(one) == [ToArgv(c)];
    PrintOne(ToArgv(c));
  }
}
