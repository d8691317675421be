/** The compressor and decompressor of redis-1.3.6/lzf_c.c and lzf_d.c, on buffers of bytes. */
module Lzf {
  import opened Bytes
  import opened LzfFormat

  const MAX_LIT := 32
  const MAX_OFF := 8192
  const MAX_REF := 264
  const HSIZE := 65536

  const TWO32 := 0x1_0000_0000
  const TWO64 := 0x1_0000_0000_0000_0000

  /** A slot of the match table holds a pointer; before its first use, any bit pattern. */
  type Address = x: int | 0 <= x < TWO64

  function Next(hval: int, b: byte): int { (hval * 256 + b) % TWO32 }

  function First(b0: byte, b1: byte): int { b0 * 256 + b1 }

  function Idx(hval: int): (i: int)
    ensures 0 <= i < HSIZE
  {
    (hval / 256 - hval * 5) % HSIZE
  }

  /** The distance minus one, in 64-bit unsigned arithmetic, from table entry `ref` to
      position `ip` of a buffer at address `base`. */
  function Offset(base: int, ip: int, ref: Address): int { (base + ip - ref - 1) % TWO64 }

  /** The matcher follows a table entry only if it points strictly inside the part already
      read, whatever the table was initialised with. */
  lemma FollowedEntryIsInside(base: int, ip: int, len: int, ref: Address)
    requires MAX_OFF <= base && base + len < TWO64 && 0 <= ip <= len
    requires Offset(base, ip, ref) < MAX_OFF && ref > base
    ensures 0 < ref - base < ip
    ensures Offset(base, ip, ref) == ip - (ref - base) - 1
  {
  }

  /** The `n` bytes at `ref` equal the `n` bytes at `ip`. */
  ghost predicate Same(s: seq<byte>, ref: nat, ip: nat, n: nat)
    requires ref <= ip && ip + n <= |s|
  {
    forall j :: ref <= j < ref + n ==> s[j] == s[j + (ip - ref)]
  }

  /** Number of equal bytes at `ref` and `ip`, at least 3 and at most MAX_REF. */
  method MatchLength(s: seq<byte>, ref: nat, ip: nat) returns (len: nat)
    requires 0 < ref < ip && ip + 4 < |s| && Same(s, ref, ip, 3)
    ensures 3 <= len <= MAX_REF && ip + len <= |s| && Same(s, ref, ip, len)
    ensures len == MAX_REF || ip + len >= |s| - 2 || s[ref + len] != s[ip + len]
  {
    len := 2;
    var maxlen := |s| - ip - len;
    maxlen := if maxlen > MAX_REF then MAX_REF else maxlen;
    if maxlen > 16 {
      for k := 0 to 16
        invariant len == 2 + k && Same(s, ref, ip, len + 1)
      {
        len := len + 1;
        if s[ref + len] != s[ip + len] { return; }
      }
    }
    len := len + 1;
    while len < maxlen && s[ref + len] == s[ip + len]
      invariant 3 <= len && (len <= maxlen || len == 19) && ip + len <= |s|
      invariant Same(s, ref, ip, len)
    {
      len := len + 1;
    }
  }

  /** The first `op` bytes of `out` are a complete stream for the first `ip` bytes of `s`,
      at most one byte per 32 longer than them. */
  ghost predicate Closed(s: seq<byte>, out: seq<byte>, ip: nat, op: nat)
  {
    op <= |out| && ip <= |s| && op <= ip + ip / 32
    && Decode(out[..op], [], |s|) == Some(s[..ip])
  }

  /** State of the compressor with a literal run of `lit` bytes open: what precedes the run's
      header is a complete stream and the run's bytes follow the header. */
  ghost predicate OpenRun(s: seq<byte>, out: seq<byte>, ip: nat, op: nat, lit: nat)
  {
    lit <= ip <= |s| && lit + 1 <= op <= |out|
    && Closed(s, out, ip - lit, op - lit - 1)
    && out[op - lit..op] == s[ip - lit..ip]
  }

  lemma StartRun(s: seq<byte>, out: seq<byte>, ip: nat, op: nat)
    requires Closed(s, out, ip, op) && op < |out|
    ensures OpenRun(s, out, ip, op + 1, 0)
  {
  }

  lemma AddLiteral(s: seq<byte>, out: seq<byte>, ip: nat, op: nat, lit: nat)
    requires OpenRun(s, out, ip, op, lit) && ip < |s| && op < |out|
    ensures OpenRun(s, out[op := s[ip]], ip + 1, op + 1, lit + 1)
  {
    var z := out[op := s[ip]];
    assert z[..op - lit - 1] == out[..op - lit - 1];
    assert z[op - lit..op + 1] == out[op - lit..op] + [s[ip]];
  }

  lemma PatchedRun(out: seq<byte>, start: nat, op: nat, lits: seq<byte>)
    requires start < op <= |out| && 1 <= |lits| <= MAX_LIT && out[start + 1..op] == lits
    ensures out[start := |lits| - 1][..op] == out[..start] + LiteralRun(lits)
  {
    var z := out[start := |lits| - 1];
    assert z[..start] == out[..start] && z[start + 1..op] == lits;
    assert z[..op] == z[..start] + [z[start]] + z[start + 1..op];
  }

  /** Patching the header of a non-empty run completes the stream, up to the run's own
      header byte. */
  lemma PatchHeader(s: seq<byte>, out: seq<byte>, ip: nat, op: nat, lit: nat)
    requires OpenRun(s, out, ip, op, lit) && 1 <= lit <= MAX_LIT
    ensures Decode(out[op - lit - 1 := lit - 1][..op], [], |s|) == Some(s[..ip])
  {
    hide Decode;
    var start := op - lit - 1;
    PatchedRun(out, start, op, s[ip - lit..ip]);
    ExtendLiteral(out[..start], s[ip - lit..ip], s[..ip - lit], |s|);
    assert s[..ip - lit] + s[ip - lit..ip] == s[..ip];
  }

  /** A reference after a closed or just patched run; it costs less than it covers, so it
      also pays for the header of the run before it. */
  lemma AddReference(s: seq<byte>, out: seq<byte>, ip: nat, op: nat, ref: nat, len: nat, out': seq<byte>)
    requires op <= |out| && 0 < ref < ip <= ref + MAX_OFF && 3 <= len <= MAX_REF && ip + len <= |s|
    requires Same(s, ref, ip, len)
    requires Decode(out[..op], [], |s|) == Some(s[..ip]) && op <= ip + ip / 32 + 1
    requires var r := Reference(ip - ref, len); op + |r| <= |out'| && out'[..op + |r|] == out[..op] + r
    ensures Closed(s, out', ip + len, op + |Reference(ip - ref, len)|)
  {
    hide Decode;
    assert s[ref..ref + len] == s[ip..ip + len];
    ExtendReference(out[..op], s, ref, ip, len);
  }

  /** Writes a back reference at `op`. */
  method EmitReference(out: array<byte>, op: nat, dist: nat, len: nat) returns (op': nat)
    requires 1 <= dist <= MAX_OFF && 3 <= len <= MAX_REF && op + 3 <= out.Length
    modifies out
    ensures op' == op + |Reference(dist, len)|
    ensures out[..op'] == old(out[..op]) + Reference(dist, len)
    ensures out[op'..] == old(out[op'..])
  {
    var off := dist - 1;
    op' := op;
    if len - 2 < 7 {
      out[op'] := off / 256 + (len - 2) * 32;
      op' := op' + 1;
    } else {
      out[op'] := off / 256 + 7 * 32;
      op' := op' + 1;
      out[op'] := len - 2 - 7;
      op' := op' + 1;
    }
    out[op'] := off % 256;
    op' := op' + 1;
  }

  lemma EmptyStream(s: seq<byte>, out: seq<byte>)
    ensures Closed(s, out, 0, 0)
  {
  }

  /** Ends the open run: patches its header, or drops the header of an empty run. */
  method StopRun(s: seq<byte>, out: array<byte>, ip: nat, op: nat, lit: nat) returns (op': nat)
    requires lit <= MAX_LIT && OpenRun(s, out[..], ip, op, lit)
    modifies out
    ensures op' == (if lit == 0 then op - 1 else op) && op' <= ip + (ip + 31) / 32
    ensures Decode(out[..op'], [], |s|) == Some(s[..ip])
    ensures out[op..] == old(out[op..])
  {
    hide Decode;
    if lit > 0 { PatchHeader(s, out[..], ip, op, lit); }
    out[op - lit - 1] := if lit == 0 then 255 else lit - 1;
    op' := if lit == 0 then op - 1 else op;
    if lit == 0 {
      assert out[..op'] == old(out[..op']);
    } else {
      assert op' <= (ip - 1) + (ip - lit) / 32 + 2;
    }
  }

  lemma ThreeSame(s: seq<byte>, ref: nat, ip: nat)
    requires ref < ip && ip + 3 <= |s|
    ensures Same(s, ref, ip, 3) <==> s[ref] == s[ip] && s[ref + 1] == s[ip + 1] && s[ref + 2] == s[ip + 2]
  {
    if s[ref] == s[ip] && s[ref + 1] == s[ip + 1] && s[ref + 2] == s[ip + 2] {
      forall j | ref <= j < ref + 3 ensures s[j] == s[j + (ip - ref)] {
        assert j == ref || j == ref + 1 || j == ref + 2;
      }
    }
  }

  /** Does the entry point to an earlier occurrence of the next three bytes? */
  method Matches(s: seq<byte>, ip: nat, ref: Address, base: int) returns (yes: bool)
    requires ip < |s| - 2 && MAX_OFF <= base && base + |s| < TWO64
    ensures yes <==> 0 < ref - base < ip <= ref - base + MAX_OFF && ip + 4 < |s| && Same(s, ref - base, ip, 3)
  {
    var off := Offset(base, ip, ref);
    if off < MAX_OFF && ip + 4 < |s| && ref > base {
      FollowedEntryIsInside(base, ip, |s|, ref);
      ThreeSame(s, ref - base, ip);
      return s[ref - base] == s[ip] && s[ref - base + 1] == s[ip + 1] && s[ref - base + 2] == s[ip + 2];
    }
    return false;
  }

  /** Equal from `i` on, so equal from any later position on. */
  lemma Tail(a: seq<byte>, b: seq<byte>, i: nat, j: nat)
    requires |a| == |b| && i <= j <= |a| && a[i..] == b[i..]
    ensures a[j..] == b[j..]
  {
    assert a[i..][j - i..] == a[j..] && b[i..][j - i..] == b[j..];
  }

  /** Ends the open run, writes the longest match at `ref` and opens a new run; fails when
      fewer than five bytes of output are left. */
  method TakeMatch(s: seq<byte>, out: array<byte>, outLen: nat, ip: nat, op: nat, lit: nat, ref: nat)
    returns (ok: bool, op': nat, len: nat)
    requires lit < MAX_LIT && op <= outLen + 1 <= out.Length && OpenRun(s, out[..], ip, op, lit)
    requires 0 < ref < ip <= ref + MAX_OFF && ip + 4 < |s| && Same(s, ref, ip, 3)
    modifies out
    ensures ok ==> 0 < op' <= outLen && 3 <= len <= MAX_REF && ip + len <= |s| && OpenRun(s, out[..], ip + len, op', 0)
    ensures ok ==> op' <= (if lit == 0 then op + 3 else op + 4)
    ensures ok ==> len == MAX_REF || ip + len >= |s| - 2 || s[ref + len] != s[ip + len]
    ensures !ok ==> outLen <= ip + (ip + 31) / 32 + 4 && outLen <= op + 4
    ensures out[outLen + 1..] == old(out[outLen + 1..])
  {
    hide Decode, Same;
    op' := StopRun(s, out, ip, op, lit);
    Tail(out[..], old(out[..]), op, outLen + 1);
    len := 0;
    if op' + 3 + 1 >= outLen { return false, op', len; }
    len := MatchLength(s, ref, ip);
    ghost var before, opBefore := out[..], op';
    op' := EmitReference(out, op', ip - ref, len);
    Tail(out[..], before, op', outLen + 1);
    AddReference(s, before, ip, opBefore, ref, len, out[..]);
    StartRun(s, out[..], ip + len, op');
    op' := op' + 1;
    ok := true;
  }

  /** Adds the next byte to the open run. */
  method TakeLiteral(s: seq<byte>, out: array<byte>, ip: nat, op: nat, lit: nat) returns (op': nat, lit': nat)
    requires lit < MAX_LIT && ip < |s| && op + 1 < out.Length && OpenRun(s, out[..], ip, op, lit)
    modifies out
    ensures OpenRun(s, out[..], ip + 1, op', lit')
    ensures (op', lit') == if lit + 1 == MAX_LIT then (op + 2, 0) else (op + 1, lit + 1)
    ensures out[op + 1..] == old(out[op + 1..])
  {
    hide Decode;
    AddLiteral(s, out[..], ip, op, lit);
    out[op] := s[ip];
    op', lit' := FinishFullRun(s, out, ip + 1, op + 1, lit + 1);
  }

  /** How far the output is ahead of the input. */
  lemma RunBound(s: seq<byte>, out: seq<byte>, ip: nat, op: nat, lit: nat)
    requires OpenRun(s, out, ip, op, lit)
    ensures op <= ip + (ip - lit) / 32 + 1
  {
  }

  // ---------------------------------------------------------------- one byte repeated

  predicate Repeats(s: seq<byte>) { forall i :: 0 <= i < |s| ==> s[i] == s[0] }

  /** The hashes of three and of four equal bytes. */
  function Three(b: byte): int { b * 0x01_0101 }

  function Four(b: byte): int { b * 0x0101_0101 }

  lemma HashOfRun(b: byte)
    ensures Next(First(b, b), b) == Three(b) && Next(Three(b), b) == Four(b) && Next(Four(b), b) == Four(b)
  {
    var n: int := b;
    assert Four(b) * 256 + n == Four(b) + TWO32 * n;
  }

  /** The hash so far, and from the third byte on the table entry of the position before. */
  ghost predicate Hashed(s: seq<byte>, tab: seq<Address>, hval: int, ip: nat, base: int) {
    && |tab| == HSIZE && s != []
    && (ip == 0 && |s| >= 2 ==> hval == First(s[0], s[0]))
    && (ip == 1 ==> hval == Three(s[0]))
    && (ip >= 2 && ip + 4 < |s| ==> hval == Four(s[0]) && tab[Idx(Four(s[0]))] == base + ip - 1)
  }

  /** Two literals first, then matches of full length, three bytes each; at the end a few literals. */
  predicate Sizes(n: nat, ip: nat, op: nat, lit: nat) {
    && (ip < 2 ==> op == ip + 1 && lit == ip)
    && (ip == 2 ==> op == 3 && lit == 2)
    && (ip > 2 && ip + 4 < n ==> lit == 0 && 264 * (op - 4) <= 3 * (ip - 2))
    && (ip > 2 && ip + 4 >= n ==> lit <= ip + 6 - n && 264 * (op - 8) <= 3 * n + 264 * (ip + 4 - n))
  }

  ghost predicate Steady(s: seq<byte>, tab: seq<Address>, hval: int, ip: nat, op: nat, lit: nat, base: int) {
    Hashed(s, tab, hval, ip, base) && Sizes(|s|, ip, op, lit)
  }

  lemma SteadyStart(s: seq<byte>, tab: seq<Address>, base: int)
    requires |s| > 0 && |tab| == HSIZE
    ensures Repeats(s) ==> Steady(s, tab, if |s| >= 2 then First(s[0], s[1]) else 0, 0, 1, 0, base)
  {
  }

  /** From the third byte on, as long as there is room for a match, there is one. */
  lemma SteadyFinds(s: seq<byte>, tab: seq<Address>, hval: int, ip: nat, op: nat, lit: nat, base: int)
    requires Repeats(s) && ip < |s| - 2 && Steady(s, tab, hval, ip, op, lit, base)
    ensures ip >= 2 && ip + 4 < |s| ==> tab[Idx(Next(hval, s[ip + 2]))] == base + ip - 1 && Same(s, ip - 1, ip, 3)
  {
    hide Idx, Next;
    HashOfRun(s[0]);
    assert s[ip + 2] == s[0];
  }

  lemma SteadyMatch(s: seq<byte>, tab: seq<Address>, hval: int, ip: nat, op: nat, lit: nat, base: int,
                    op': nat, len: nat, ref: nat)
    requires Repeats(s) && Steady(s, tab, hval, ip, op, lit, base) && 0 < ref < ip && ip + 4 < |s|
    requires ip + len <= |s| && 3 <= len <= MAX_REF && op' <= (if lit == 0 then op + 3 else op + 4)
    requires len == MAX_REF || ip + len >= |s| - 2 || s[ref + len] != s[ip + len]
    ensures ip + len > 2 && Sizes(|s|, ip + len, op', 0)
  {
    hide Hashed;
    assert forall i :: 0 <= i < |s| ==> s[i] == s[0];
  }

  lemma SteadyEnd(s: seq<byte>, tab: seq<Address>, hval: int, ip: nat, op: nat, base: int)
    requires |tab| == HSIZE && ip > 2 && ip >= |s| - 4 && Sizes(|s|, ip, op, 0) && s != []
    ensures Steady(s, tab, hval, ip, op, 0, base)
  {
  }

  lemma SteadyHash(s: seq<byte>, tab: seq<Address>, hval: int, ip: nat, op: nat, base: int)
    requires Repeats(s) && |tab| == HSIZE && 2 < ip < |s| - 2 && Sizes(|s|, ip, op, 0)
    requires hval == Next(Next(First(s[ip - 2], s[ip - 1]), s[ip]), s[ip + 1]) && tab[Idx(hval)] == base + ip - 1
    ensures Steady(s, tab, hval, ip, op, 0, base)
  {
    hide Idx, Next, Sizes;
    assert s[ip - 2] == s[0] && s[ip - 1] == s[0] && s[ip] == s[0] && s[ip + 1] == s[0];
    HashOfRun(s[0]);
  }

  lemma SteadyLiteral(s: seq<byte>, tab: seq<Address>, hval: int, ip: nat, op: nat, lit: nat, base: int)
    requires Repeats(s) && ip < |s| - 2 && Steady(s, tab, hval, ip, op, lit, base) && 0 <= base && base + |s| < TWO64
    requires ip < 2 || ip + 4 >= |s|
    ensures lit < 8
    ensures var h := Next(hval, s[ip + 2]); Steady(s, tab[Idx(h) := base + ip], h, ip + 1, op + 1, lit + 1, base)
  {
    hide Idx, Next;
    HashOfRun(s[0]);
    assert s[ip + 2] == s[0];
  }

  /** What is left is short, and the output has room for it. */
  lemma SteadyTail(s: seq<byte>, tab: seq<Address>, hval: int, ip: nat, op: nat, lit: nat, base: int)
    requires Steady(s, tab, hval, ip, op, lit, base) && |s| - 2 <= ip <= |s|
    ensures lit < 8 && op + (|s| - ip) <= |s| / 88 + 12
  {
    hide Hashed;
  }

  /** As long as there is input, the output is short. */
  lemma SteadyRoom(n: nat, ip: nat, op: nat, lit: nat)
    requires Sizes(n, ip, op, lit) && ip < n - 2
    ensures op + 4 < n / 88 + 16
  {
  }

  // ---------------------------------------------------------------- the compressor

  /** The output does not hold a literal run of all the input, nor a run of one byte compressed. */
  predicate Tight(s: seq<byte>, outLen: nat) {
    outLen < |s| + |s| / 32 + 4 && (Repeats(s) ==> outLen < |s| / 88 + 16)
  }

  /** One round of the main loop: a match is taken where the table points to one, else a literal. */
  method Round(s: seq<byte>, out: array<byte>, outLen: nat, htab: array<Address>, base: int,
               hval: int, ip: nat, op: nat, lit: nat)
    returns (ok: bool, hval': int, ip': nat, op': nat, lit': nat)
    requires outLen < out.Length && htab.Length == HSIZE && MAX_OFF <= base && base + |s| < TWO64
    requires lit < MAX_LIT && ip < |s| - 2 && 0 < op <= outLen + 1 && OpenRun(s, out[..], ip, op, lit)
    requires Repeats(s) ==> Steady(s, htab[..], hval, ip, op, lit, base)
    modifies out, htab
    ensures out[outLen + 1..] == old(out[outLen + 1..])
    ensures !ok ==> Tight(s, outLen)
    ensures ok ==> lit' < MAX_LIT && ip < ip' <= |s| && 0 < op' <= outLen + 1 && OpenRun(s, out[..], ip', op', lit')
    ensures ok && Repeats(s) ==> Steady(s, htab[..], hval', ip', op', lit', base)
  {
    hide Decode, Same, OpenRun, Idx, Next, Repeats, Sizes, Hashed;
    RunBound(s, out[..], ip, op, lit);
    if Repeats(s) { SteadyRoom(|s|, ip, op, lit); }
    ghost var tab := htab[..];
    hval', ip', op', lit' := Next(hval, s[ip + 2]), ip, op, lit;
    var ref := htab[Idx(hval')];
    htab[Idx(hval')] := base + ip;
    var found := Matches(s, ip, ref, base);
    if Repeats(s) { SteadyFinds(s, tab, hval, ip, op, lit, base); }
    if found {
      var len;
      ok, op', len := TakeMatch(s, out, outLen, ip, op, lit, ref - base);
      if !ok { return; }
      if Repeats(s) { SteadyMatch(s, tab, hval, ip, op, lit, base, op', len, ref - base); }
      ip', lit' := ip + len, 0;
      if ip' >= |s| - 2 {
        if Repeats(s) { SteadyEnd(s, htab[..], hval', ip', op', base); }
      } else {
        hval' := Rehash(s, htab, ip', base);
        if Repeats(s) { SteadyHash(s, htab[..], hval', ip', op', base); }
      }
    } else {
      ok := op < outLen;
      if !ok { return; }
      if Repeats(s) { SteadyLiteral(s, tab, hval, ip, op, lit, base); }
      op', lit' := TakeLiteral(s, out, ip, op, lit);
      ip' := ip + 1;
    }
  }

  /** Compresses `s` into the first `outLen` bytes of `out`, whose buffer is one byte longer.
      Returns 0 when the result does not fit. The table's contents are arbitrary. With room for the
      input and its headers it fits; a run of one byte always shrinks to less than one in 88. */
  method Compress(s: seq<byte>, out: array<byte>, outLen: nat, htab: array<Address>, base: int)
    returns (n: nat)
    requires outLen < out.Length && htab.Length == HSIZE
    requires MAX_OFF <= base && base + |s| < TWO64
    modifies out, htab
    ensures n <= outLen && n <= |s| + (|s| + 31) / 32
    ensures n > 0 ==> Decode(out[..n], [], |s|) == Some(s)
    ensures |s| > 0 && outLen >= |s| + |s| / 32 + 4 ==> n > 0
    ensures |s| > 0 && Repeats(s) && outLen >= |s| / 88 + 16 ==> 0 < n <= |s| / 88 + 12
    ensures out[outLen + 1..] == old(out[outLen + 1..])
  {
    hide Decode, OpenRun, Repeats, Steady;
    if |s| == 0 || outLen == 0 { return 0; }
    var ip, op, lit := 0, 1, 0;
    EmptyStream(s, out[..]);
    StartRun(s, out[..], 0, 0);
    var hval := if |s| >= 2 then First(s[0], s[1]) else 0;
    SteadyStart(s, htab[..], base);
    while ip < |s| - 2
      invariant 0 <= lit < MAX_LIT && 0 <= ip <= |s| && 0 < op <= outLen + 1
      invariant OpenRun(s, out[..], ip, op, lit)
      invariant Repeats(s) ==> Steady(s, htab[..], hval, ip, op, lit, base)
      invariant out[outLen + 1..] == old(out[outLen + 1..])
      decreases |s| - ip
    {
      var ok;
      ok, hval, ip, op, lit := Round(s, out, outLen, htab, base, hval, ip, op, lit);
      if !ok { return 0; }
    }
    RunBound(s, out[..], ip, op, lit);
    if Repeats(s) { SteadyTail(s, htab[..], hval, ip, op, lit, base); }
    if op + 3 > outLen { return 0; }
    op, lit := LastLiterals(s, out, outLen, ip, op, lit);
    n := StopRun(s, out, |s|, op, lit);
    assert s[..|s|] == s;
  }

  /** The last bytes, of which no match is looked for. */
  method LastLiterals(s: seq<byte>, out: array<byte>, outLen: nat, ip0: nat, op0: nat, lit0: nat)
    returns (op: nat, lit: nat)
    requires outLen < out.Length && lit0 < MAX_LIT && |s| - 2 <= ip0 <= |s| && op0 + 3 <= outLen
    requires OpenRun(s, out[..], ip0, op0, lit0)
    modifies out
    ensures lit < MAX_LIT && op <= outLen && OpenRun(s, out[..], |s|, op, lit)
    ensures lit0 < 8 ==> op == op0 + (|s| - ip0)
    ensures out[outLen + 1..] == old(out[outLen + 1..])
  {
    hide OpenRun;
    var ip;
    ip, op, lit := ip0, op0, lit0;
    while ip < |s|
      invariant 0 <= lit < MAX_LIT && ip0 <= ip <= |s|
      invariant op + (|s| - ip) + (lit + (|s| - ip)) / MAX_LIT <= outLen
      invariant lit0 < 8 ==> lit == lit0 + (ip - ip0) && op == op0 + (ip - ip0)
      invariant OpenRun(s, out[..], ip, op, lit)
      invariant out[outLen + 1..] == old(out[outLen + 1..])
    {
      op, lit := TakeLiteral(s, out, ip, op, lit);
      ip := ip + 1;
    }
  }

  /** Closes a run that reached MAX_LIT bytes and opens the next one. */
  method FinishFullRun(s: seq<byte>, out: array<byte>, ip: nat, op: nat, lit: nat) returns (op': nat, lit': nat)
    requires lit <= MAX_LIT && op < out.Length && OpenRun(s, out[..], ip, op, lit)
    modifies out
    ensures OpenRun(s, out[..], ip, op', lit')
    ensures (op', lit') == if lit == MAX_LIT then (op + 1, 0) else (op, lit)
    ensures out[op..] == old(out[op..])
  {
    op', lit' := op, lit;
    if lit == MAX_LIT {
      PatchHeader(s, out[..], ip, op, lit);
      out[op - lit - 1] := lit - 1;
      StartRun(s, out[..], ip, op);
      lit', op' := 0, op + 1;
    }
  }

  /** Enters the last two positions of a match into the table. */
  method Rehash(s: seq<byte>, htab: array<Address>, ip: nat, base: int) returns (hval: int)
    requires htab.Length == HSIZE && 2 <= ip < |s| - 2 && 0 <= base && base + |s| < TWO64
    modifies htab
    ensures hval == Next(Next(First(s[ip - 2], s[ip - 1]), s[ip]), s[ip + 1]) && htab[Idx(hval)] == base + ip - 1
  {
    hval := Next(First(s[ip - 2], s[ip - 1]), s[ip]);
    htab[Idx(hval)] := base + ip - 2;
    hval := Next(hval, s[ip + 1]);
    htab[Idx(hval)] := base + ip - 1;
  }

  /** Copies `n` bytes of `s` from `ip` on to `op`. */
  method CopyLiterals(s: seq<byte>, ip: nat, out: array<byte>, op: nat, n: nat)
    requires ip + n <= |s| && op + n <= out.Length
    modifies out
    ensures out[..op + n] == old(out[..op]) + s[ip..ip + n]
    ensures out[op + n..] == old(out[op + n..])
  {
    for k := 0 to n
      invariant out[..op + k] == old(out[..op]) + s[ip..ip + k]
      invariant out[op + n..] == old(out[op + n..])
    {
      out[op + k] := s[ip + k];
    }
  }

  /** Copies `n` bytes one at a time from `dist` positions back, so that bytes written by
      this copy may be read by it. */
  method CopyReference(out: array<byte>, op: nat, dist: nat, n: nat)
    requires 0 < dist <= op && op + n <= out.Length
    modifies out
    ensures out[..op + n] == CopyBack(old(out[..op]), dist, n)
    ensures out[op + n..] == old(out[op + n..])
  {
    for k := 0 to n
      invariant CopyBack(out[..op + k], dist, n - k) == CopyBack(old(out[..op]), dist, n)
      invariant out[op + n..] == old(out[op + n..])
    {
      ghost var was := out[..op + k];
      out[op + k] := out[op + k - dist];
      assert out[..op + k + 1] == was + [was[|was| - dist]];
    }
  }

  /** Decodes the token at `ip`, or fails as the format says it must. */
  method TakeToken(input: seq<byte>, ip: nat, out: array<byte>, op: nat, outLen: nat)
    returns (ok: bool, ip': nat, op': nat)
    requires ip < |input| && op <= outLen <= out.Length
    modifies out
    ensures var t := DecodeToken(input[ip..], old(out[..op]), outLen);
      ok == t.Some? && (ok ==> ip' == ip + t.value.bytes && op' <= outLen && out[..op'] == t.value.out)
    ensures out[outLen..] == old(out[outLen..])
  {
    hide CopyBack;
    ghost var rest := input[ip..];
    var ctrl: nat := input[ip];
    ip', op' := ip + 1, op;
    if ctrl < 32 {
      ctrl := ctrl + 1;
      if op + ctrl > outLen { return false, ip', op'; }
      if ip' + ctrl > |input| { return false, ip', op'; }
      CopyLiterals(input, ip', out, op, ctrl);
      assert rest[1..1 + ctrl] == input[ip'..ip' + ctrl];
      return true, ip' + ctrl, op + ctrl;
    }
    var len := ctrl / 32;
    var ref := op - ctrl % 32 * 256 - 1;
    if ip' >= |input| { return false, ip', op'; }
    if len == 7 {
      len := len + input[ip'];
      ip' := ip' + 1;
      if ip' >= |input| { return false, ip', op'; }
    }
    ref := ref - input[ip'];
    ip' := ip' + 1;
    if op + len + 2 > outLen { return false, ip', op'; }
    if ref < 0 { return false, ip', op'; }
    CopyReference(out, op, op - ref, len + 2);
    return true, ip', op + len + 2;
  }

  /** Decompresses `input` into the first `outLen` bytes of `out`: returns the number of bytes
      written, or 0 exactly when the stream is malformed or does not fit. */
  method Decompress(input: seq<byte>, out: array<byte>, outLen: nat) returns (n: nat)
    requires input != [] && outLen <= out.Length
    modifies out
    ensures n == 0 <==> Decode(input, [], outLen).None?
    ensures n > 0 ==> n <= outLen && Decode(input, [], outLen) == Some(out[..n])
    ensures out[outLen..] == old(out[outLen..])
  {
    hide DecodeToken;
    var ip, op := 0, 0;
    assert input[0..] == input;
    while ip < |input|
      invariant 0 <= ip <= |input| && 0 <= op <= outLen && (ip > 0 ==> op > 0)
      invariant Decode(input[ip..], out[..op], outLen) == Decode(input, [], outLen)
      invariant out[outLen..] == old(out[outLen..])
    {
      var ok, ip', op' := TakeToken(input, ip, out, op, outLen);
      if !ok { return 0; }
      assert input[ip..][ip' - ip..] == input[ip'..];
      ip, op := ip', op';
    }
    n := op;
  }

  /** The round trip: whatever the match table held, a non-zero result of the compressor
      decompresses to exactly the input in any buffer that has room for it. */
  method RoundTrip(s: seq<byte>, outLen: nat, htab: array<Address>, base: int, room: nat)
    returns (n: nat, back: array<byte>)
    requires htab.Length == HSIZE && MAX_OFF <= base && base + |s| < TWO64 && |s| <= room
    modifies htab
    ensures n > 0 ==> back.Length == room && back[..|s|] == s
  {
    hide Decode;
    var out := new byte[outLen + 1];
    n := Compress(s, out, outLen, htab, base);
    back := new byte[room];
    if n > 0 {
      DecodeMoreRoom(out[..n], [], |s|, room);
      var m := Decompress(out[..n], back, room);
    }
  }
}
