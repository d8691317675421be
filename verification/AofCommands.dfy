/** What every client command does to the dataset, in plain terms: which keys appear, disappear or
    change, and to what. Live execution and replay share these commands. */
module AofCommands {
  import opened Bytes
  import opened AofData

  // ---------------------------------------------------------------- what is there

  /** The key can be seen: it is there, and its expiry, if any, is not past. */
  ghost predicate Seen(d: Data, s: Slot, now: int) {
    s in d && (d[s].expire.Some? ==> now <= d[s].expire.value)
  }

  /** A rewrite writes, and a lookup finds, exactly those keys. */
  lemma AliveAreSeen(d: Data, now: int)
    requires WellFormed(d)
    ensures Alive(d, now) == map s | s in d && (d[s].expire.Some? ==> now <= d[s].expire.value) :: d[s]
  {
    forall s | s in d ensures EntryOk(s, d[s]) {}
  }

  lemma SeenIff(d: Data, s: Slot, now: int)
    requires WellFormed(d)
    ensures Seen(d, s, now) <==> s in d && !Expired(d, s, now)
  {
    if s in d { assert EntryOk(s, d[s]); }
  }

  /** All keys but those of `x` are as they were. */
  ghost predicate OnlyTouches(d: Data, r: Data, x: set<Slot>) { r - x == d - x }

  /** The key holds the entry, and no other key changed. */
  ghost predicate Becomes(d: Data, r: Data, s: Slot, e: Entry) { s in r && r[s] == e && OnlyTouches(d, r, {s}) }

  /** The key is gone, and no other key changed. */
  ghost predicate Vanishes(d: Data, r: Data, s: Slot) { s !in r && OnlyTouches(d, r, {s}) }

  /** What looking a key up leaves: a key past its expiry is deleted. */
  lemma LookupIs(d: Data, s: Slot, now: int)
    requires WellFormed(d)
    ensures var r := Lazy(Outcome(d, []), s, now).data;
      && (Seen(d, s, now) ==> r == d) && (!Seen(d, s, now) ==> Vanishes(d, r, s))
  {
    SeenIff(d, s, now);
  }

  lemma TouchIs(d: Data, now: int, db: int, k: Str)
    requires WellFormed(d)
    ensures var s, r := Slot(db, k), Exec(d, now, db, CTouch(k)).data;
      && (Seen(d, s, now) ==> r == d) && (!Seen(d, s, now) ==> Vanishes(d, r, s))
  {
    LookupIs(d, Slot(db, k), now);
  }

  // ---------------------------------------------------------------- keys

  /** SET makes the key the string, without expiry. */
  lemma SetIs(d: Data, now: int, db: int, k: Str, v: Str)
    ensures Becomes(d, Exec(d, now, db, CSet(k, v)).data, Slot(db, k), Entry(Text(v), None))
  {
  }

  /** SETEX and PSETEX, and SET with EX or PX, make the key the string and let it expire so many
      seconds or milliseconds from now; a time that is not positive is refused. */
  lemma SetExIs(d: Data, now: int, db: int, k: Str, n: int, seconds: bool, v: Str)
    ensures var r := Exec(d, now, db, CSetEx(k, n, seconds, v)).data;
      var q := Exec(d, now, db, CSetRel(k, v, n, seconds)).data;
      && (n <= 0 ==> r == d && q == d)
      && (n > 0 ==> var e := Entry(Text(v), Some(now + (if seconds then 1000 * n else n)));
            Becomes(d, r, Slot(db, k), e) && Becomes(d, q, Slot(db, k), e))
  {
  }

  /** DEL removes the keys it names and no others. */
  lemma DelIs(d: Data, now: int, db: int, keys: seq<Str>)
    ensures var r := Exec(d, now, db, CDel(keys)).data;
      forall s :: (s in r <==> s in d && !(s.db == db && s.key in keys)) && (s in r ==> r[s] == d[s])
  {
  }

  /** RENAME gives the entry, expiry included, the new name and takes the old name away. Nothing
      happens for one and the same name, for a key that cannot be seen, and under RENAMENX for a
      target that can. */
  lemma RenameIs(d: Data, now: int, db: int, a: Str, b: Str, nx: bool)
    requires WellFormed(d)
    ensures var s, t, r := Slot(db, a), Slot(db, b), Exec(d, now, db, CRename(a, b, nx)).data;
      && (a == b ==> r == d)
      && (a != b && !Seen(d, s, now) ==> Vanishes(d, r, s))
      && (a != b && Seen(d, s, now) && nx && Seen(d, t, now) ==> r == d)
      && (a != b && Seen(d, s, now) && !(nx && Seen(d, t, now)) ==>
            s !in r && t in r && r[t] == d[s] && OnlyTouches(d, r, {s, t}))
  {
    SeenIff(d, Slot(db, a), now);
    SeenIff(d, Slot(db, b), now);
  }

  /** MOVE takes the value, without its expiry, to the other database, and the key leaves the old
      one. Nothing happens for the same or a missing database, for a key that cannot be seen, or for
      one that can be seen there already. */
  lemma MoveIs(d: Data, now: int, db: int, k: Str, dst: int)
    requires WellFormed(d)
    ensures var s, t, r := Slot(db, k), Slot(dst, k), Exec(d, now, db, CMove(k, dst)).data;
      && (!(0 <= dst < DBNUM) || dst == db ==> r == d)
      && (0 <= dst < DBNUM && dst != db && !Seen(d, s, now) ==> Vanishes(d, r, s))
      && (0 <= dst < DBNUM && dst != db && Seen(d, s, now) && Seen(d, t, now) ==> r == d)
      && (0 <= dst < DBNUM && dst != db && Seen(d, s, now) && !Seen(d, t, now) ==>
            s !in r && t in r && r[t] == Entry(d[s].val, None) && OnlyTouches(d, r, {s, t}))
  {
    SeenIff(d, Slot(db, k), now);
    SeenIff(d, Slot(dst, k), now);
  }

  /** EXPIRE, PEXPIRE, EXPIREAT and PEXPIREAT: the key expires at the time named, counted from now
      or from zero, in seconds or milliseconds; a time that has come already deletes it. */
  lemma ExpireIs(d: Data, now: int, db: int, k: Str, n: int, seconds: bool, relative: bool)
    requires WellFormed(d)
    ensures var s, r := Slot(db, k), Exec(d, now, db, CExpire(k, n, seconds, relative)).data;
      var when := (if seconds then 1000 * n else n) + (if relative then now else 0);
      && (!Seen(d, s, now) || when <= now ==> Vanishes(d, r, s))
      && (Seen(d, s, now) && when > now ==> Becomes(d, r, s, Entry(d[s].val, Some(when))))
  {
    SeenIff(d, Slot(db, k), now);
    assert k in [k] && [k][0] == k;
  }

  /** PERSIST takes the expiry away. */
  lemma PersistIs(d: Data, now: int, db: int, k: Str)
    ensures var s, r := Slot(db, k), Exec(d, now, db, CPersist(k)).data;
      (s !in d ==> r == d) && (s in d ==> Becomes(d, r, s, Entry(d[s].val, None)))
  {
    var s := Slot(db, k);
    if s in d && d[s].expire.None? { assert d[s] == Entry(d[s].val, None); }
  }

  // ---------------------------------------------------------------- collections

  /** RPUSH appends the arguments in order. */
  lemma {:induction false} AppendAll(l: seq<Str>, args: seq<Str>)
    ensures AddAll(List(l), RPush, args) == List(l + args)
    decreases |args|
  {
    if args == [] {
      assert l + args == l;
    } else {
      AppendAll(l + [args[0]], args[1..]);
      assert (l + [args[0]]) + args[1..] == l + args;
    }
  }

  /** SADD adds the arguments. */
  lemma {:induction false} InsertAll(m: set<Str>, args: seq<Str>)
    ensures AddAll(Set(m), SAdd, args) == Set(m + set x | x in args)
    decreases |args|
  {
    if args != [] {
      InsertAll(m + {args[0]}, args[1..]);
      assert args == [args[0]] + args[1..];
      assert (m + {args[0]}) + (set x | x in args[1..]) == m + set x | x in args;
    } else {
      assert m + (set x | x in args) == m;
    }
  }

  /** The value that the last pair of the arguments gives a name, or the one it had. The name is the
      first of a pair, or the second when `swapped`. */
  function LastPair(args: seq<Str>, swapped: bool, x: Str, was: Option<Str>): Option<Str>
    decreases |args|
  {
    if |args| < 2 then was
    else
      var n := |args| - |args| % 2;
      if args[if swapped then n - 1 else n - 2] == x then Some(args[if swapped then n - 2 else n - 1])
      else LastPair(args[..n - 2], swapped, x, was)
  }

  function Get(m: map<Str, Str>, x: Str): Option<Str> { if x in m then Some(m[x]) else None }

  /** One pair at the front comes before all others. */
  lemma {:induction false} FrontPair(a: Str, b: Str, args: seq<Str>, swapped: bool, x: Str, was: Option<Str>)
    ensures LastPair([a, b] + args, swapped, x, was) ==
      LastPair(args, swapped, x, if (if swapped then b else a) == x then Some(if swapped then a else b) else was)
    decreases |args|
  {
    var all := [a, b] + args;
    if |args| < 2 {
      assert all[..0] == [];
    } else {
      var n := |args| - |args| % 2;
      assert |all| - |all| % 2 == n + 2 && all[n] == args[n - 2] && all[n + 1] == args[n - 1];
      var name := if swapped then args[n - 1] else args[n - 2];
      if name != x {
        assert all[..n] == [a, b] + args[..n - 2];
        FrontPair(a, b, args[..n - 2], swapped, x, was);
      }
    }
  }

  /** HMSET gives every field the value that follows it, the last one of several. */
  lemma {:induction false} SetFields(h: map<Str, Str>, args: seq<Str>, x: Str)
    ensures var r := AddAll(Hash(h), HMSet, args); r.Hash? && Get(r.h, x) == LastPair(args, false, x, Get(h, x))
    decreases |args|
  {
    if |args| >= 2 {
      SetFields(h[args[0] := args[1]], args[2..], x);
      FrontPair(args[0], args[1], args[2..], false, x, Get(h, x));
      assert args == [args[0], args[1]] + args[2..];
    }
  }

  /** ZADD gives every member the score before it, the last one of several. */
  lemma {:induction false} SetScores(z: map<Str, Str>, args: seq<Str>, x: Str)
    ensures var r := AddAll(Zset(z), ZAdd, args); r.Zset? && Get(r.z, x) == LastPair(args, true, x, Get(z, x))
    decreases |args|
  {
    if |args| >= 2 {
      SetScores(z[args[1] := args[0]], args[2..], x);
      FrontPair(args[0], args[1], args[2..], true, x, Get(z, x));
      assert args == [args[0], args[1]] + args[2..];
    }
  }

  /** The collection commands with well-formed arguments: a missing key is created, one of the right
      type gets the items and keeps its expiry, one of another type is left alone. */
  lemma AddIs(d: Data, now: int, db: int, kind: Kind, k: Str, args: seq<Str>)
    requires WellFormed(d) && args != [] && |args| % Width(kind) == 0
    ensures var s, r := Slot(db, k), Exec(d, now, db, CAdd(kind, k, args)).data;
      && (!Seen(d, s, now) ==> Becomes(d, r, s, Entry(AddAll(Empty(kind), kind, args), None)))
      && (Seen(d, s, now) && Fits(d[s].val, kind) ==>
            Becomes(d, r, s, Entry(AddAll(d[s].val, kind, args), d[s].expire)))
      && (Seen(d, s, now) && !Fits(d[s].val, kind) ==> r == d)
  {
    hide AddAll, Dirty;
    var s := Slot(db, k);
    SeenIff(d, s, now);
    if Seen(d, s, now) && Fits(d[s].val, kind) && !Dirty(d[s].val, kind, args) {
      CleanChangesNothing(d[s].val, kind, args);
    }
  }

  /** RPUSH and SADD, in one sentence each. */
  lemma RPushIs(d: Data, now: int, db: int, k: Str, args: seq<Str>)
    requires WellFormed(d) && args != []
    ensures var s, r := Slot(db, k), Exec(d, now, db, CAdd(RPush, k, args)).data;
      && (!Seen(d, s, now) ==> Becomes(d, r, s, Entry(List(args), None)))
      && (Seen(d, s, now) && d[s].val.List? ==> Becomes(d, r, s, Entry(List(d[s].val.items + args), d[s].expire)))
      && (Seen(d, s, now) && !d[s].val.List? ==> r == d)
  {
    hide AddAll, Exec, Becomes;
    AddIs(d, now, db, RPush, k, args);
    AppendAll([], args);
    assert [] + args == args;
    if Seen(d, Slot(db, k), now) && d[Slot(db, k)].val.List? { AppendAll(d[Slot(db, k)].val.items, args); }
  }

  lemma SAddIs(d: Data, now: int, db: int, k: Str, args: seq<Str>)
    requires WellFormed(d) && args != []
    ensures var s, r, x := Slot(db, k), Exec(d, now, db, CAdd(SAdd, k, args)).data, set a | a in args;
      && (!Seen(d, s, now) ==> Becomes(d, r, s, Entry(Set(x), None)))
      && (Seen(d, s, now) && d[s].val.Set? ==> Becomes(d, r, s, Entry(Set(d[s].val.m + x), d[s].expire)))
      && (Seen(d, s, now) && !d[s].val.Set? ==> r == d)
  {
    hide AddAll, Exec, Becomes;
    AddIs(d, now, db, SAdd, k, args);
    InsertAll({}, args);
    assert {} + (set a | a in args) == set a | a in args;
    if Seen(d, Slot(db, k), now) && d[Slot(db, k)].val.Set? { InsertAll(d[Slot(db, k)].val.m, args); }
  }

  function Reversed(s: seq<Str>): (r: seq<Str>)
    ensures |r| == |s| && forall i :: 0 <= i < |s| ==> r[i] == s[|s| - 1 - i]
  {
    seq(|s|, i requires 0 <= i < |s| => s[|s| - 1 - i])
  }

  /** LPUSH puts one argument after the other in front, so that the last is first. */
  lemma {:induction false} PushLeftIs(l: seq<Str>, args: seq<Str>)
    ensures PushLeft(l, args) == Reversed(args) + l
    decreases |args|
  {
    if args == [] {
      assert Reversed(args) + l == l;
    } else {
      PushLeftIs([args[0]] + l, args[1..]);
      assert Reversed(args) == Reversed(args[1..]) + [args[0]];
      assert (Reversed(args[1..]) + [args[0]]) + l == Reversed(args[1..]) + ([args[0]] + l);
    }
  }

  lemma LPushIs(d: Data, now: int, db: int, k: Str, args: seq<Str>)
    requires WellFormed(d) && args != []
    ensures var s, r := Slot(db, k), Exec(d, now, db, CLPush(k, args)).data;
      && (!Seen(d, s, now) ==> Becomes(d, r, s, Entry(List(Reversed(args)), None)))
      && (Seen(d, s, now) && d[s].val.List? ==>
            Becomes(d, r, s, Entry(List(Reversed(args) + d[s].val.items), d[s].expire)))
      && (Seen(d, s, now) && !d[s].val.List? ==> r == d)
  {
    hide PushLeft, Reversed;
    var s := Slot(db, k);
    SeenIff(d, s, now);
    PushLeftIs([], args);
    assert Reversed(args) + [] == Reversed(args);
    if s in d && d[s].val.List? { PushLeftIs(d[s].val.items, args); }
  }

  /** LPOP takes the first element and RPOP the last; the key goes with its last element. */
  lemma PopIs(d: Data, now: int, db: int, k: Str, left: bool)
    requires WellFormed(d)
    ensures var s, r := Slot(db, k), Exec(d, now, db, CPop(k, left)).data;
      && (!Seen(d, s, now) ==> Vanishes(d, r, s))
      && (Seen(d, s, now) && !d[s].val.List? ==> r == d)
      && (Seen(d, s, now) && d[s].val.List? ==>
            var l := d[s].val.items;
            && |l| >= 1 && (|l| == 1 ==> Vanishes(d, r, s))
            && (|l| > 1 ==> Becomes(d, r, s, Entry(List(if left then l[1..] else l[..|l| - 1]), d[s].expire))))
  {
    var s := Slot(db, k);
    SeenIff(d, s, now);
    if s in d { assert EntryOk(s, d[s]); }
  }

  /** When adding counts as a change: always for lists and hashes, for sets when a member is new. */
  lemma DirtyWhen(v: Val, kind: Kind, args: seq<Str>)
    requires Fits(v, kind) && |args| >= Width(kind)
    ensures kind == RPush || kind == HMSet ==> Dirty(v, kind, args)
    ensures kind == SAdd ==> (Dirty(v, kind, args) <==> exists x :: x in args && x !in v.m)
    ensures kind == ZAdd && Dirty(v, kind, args) == false ==> AddAll(v, kind, args) == v
  {
    if kind == SAdd { NewMember(v.m, args); }
    if kind == ZAdd && !Dirty(v, kind, args) { CleanChangesNothing(v, kind, args); }
  }

  lemma {:induction false} NewMember(m: set<Str>, args: seq<Str>)
    ensures Dirty(Set(m), SAdd, args) <==> exists x :: x in args && x !in m
    decreases |args|
  {
    if args != [] {
      assert args == [args[0]] + args[1..];
      if args[0] in m {
        assert m + {args[0]} == m;
        NewMember(m, args[1..]);
      } else {
        assert args[0] in args && args[0] in m + {args[0]};
      }
    }
  }
}
