/** LZF compression (redis-1.3.6/lzf_c.c, lzf_d.c).

    Compressed format, one control byte first:
      000LLLLL <L+1 bytes>          literal run of L+1 bytes
      LLLooooo oooooooo             back reference of L+2 bytes
      111ooooo LLLLLLLL oooooooo    back reference of L+9 bytes
    where the offset bits hold the distance minus one. This module says what a stream means,
    independently of how either loop runs. */
module LzfFormat {
  import opened Bytes

  /** `out` extended by `n` bytes, each a copy of the byte `dist` positions before it.
      Overlapping references (dist < n) repeat bytes appended by the same reference. */
  function CopyBack(out: seq<byte>, dist: nat, n: nat): (r: seq<byte>)
    requires 0 < dist <= |out|
    ensures |r| == |out| + n
    decreases n
  {
    if n == 0 then out else CopyBack(out + [out[|out| - dist]], dist, n - 1)
  }

  /** Size in bytes of the back reference that `input` starts with. */
  function RefBytes(input: seq<byte>): nat
    requires input != []
  {
    if input[0] / 32 == 7 then 3 else 2
  }

  function RefLength(input: seq<byte>): nat
    requires input != [] && RefBytes(input) <= |input|
  {
    var len: nat := input[0] / 32;
    if len == 7 then 9 + input[1] else len + 2
  }

  function RefDistance(input: seq<byte>): nat
    requires input != [] && RefBytes(input) <= |input|
  {
    var high: nat := input[0] % 32;
    high * 256 + input[RefBytes(input) - 1] + 1
  }

  /** One control byte and what belongs to it. */
  datatype Token = Token(bytes: nat, out: seq<byte>)

  /** The first token of `input`: how many bytes it takes and the output after it, or None
      where the decoder reports an error: output beyond `room`, truncated input, or a
      reference that starts before the output. */
  function DecodeToken(input: seq<byte>, out: seq<byte>, room: nat): (t: Option<Token>)
    requires input != []
    ensures t.Some? ==> 0 < t.value.bytes <= |input| && |out| < |t.value.out| <= room
  {
    if input[0] < 32 then
      var n: nat := input[0] + 1;
      if |out| + n > room || 1 + n > |input| then None
      else Some(Token(1 + n, out + input[1..1 + n]))
    else if |input| < RefBytes(input) then None
    else if |out| + RefLength(input) > room || RefDistance(input) > |out| then None
    else Some(Token(RefBytes(input), CopyBack(out, RefDistance(input), RefLength(input))))
  }

  /** The output after all of `input`. */
  function Decode(input: seq<byte>, out: seq<byte>, room: nat): Option<seq<byte>>
    decreases |input|
  {
    if input == [] then Some(out)
    else
      var t := DecodeToken(input, out, room);
      if t.None? then None else Decode(input[t.value.bytes..], t.value.out, room)
  }

  lemma TokenAppend(a: seq<byte>, b: seq<byte>, out: seq<byte>, room: nat)
    requires a != [] && DecodeToken(a, out, room).Some?
    ensures DecodeToken(a + b, out, room) == DecodeToken(a, out, room)
  {
    if a[0] < 32 {
      var n: nat := a[0] + 1;
      assert (a + b)[1..1 + n] == a[1..1 + n];
    }
  }

  // ---------------------------------------------------------------- the tokens, bit by bit

  /** A copy keeps what was there, and each new byte is the one `dist` before it. */
  lemma {:induction false} CopyBackIs(out: seq<byte>, dist: nat, n: nat)
    requires 0 < dist <= |out|
    ensures CopyBack(out, dist, n)[..|out|] == out
    ensures forall j :: |out| <= j < |out| + n ==> CopyBack(out, dist, n)[j] == CopyBack(out, dist, n)[j - dist]
    decreases n
  {
    if n > 0 {
      var more := out + [out[|out| - dist]];
      CopyBackIs(more, dist, n - 1);
      var r := CopyBack(out, dist, n);
      assert r[..|more|] == more && r[..|out|] == more[..|out|];
      assert r[|out|] == more[|out|] && r[|out| - dist] == more[|out| - dist];
    }
  }

  /** A control byte below 32 announces one literal more than it says. */
  lemma LiteralToken(lits: seq<byte>, t: seq<byte>, out: seq<byte>, room: nat)
    requires 1 <= |lits| <= 32 && |out| + |lits| <= room
    ensures DecodeToken([|lits| - 1] + lits + t, out, room) == Some(Token(|lits| + 1, out + lits))
  {
    assert ([|lits| - 1] + lits + t)[1..1 + |lits|] == lits;
  }

  /** Three bits of length, thirteen bits of distance. */
  lemma ShortToken(len: nat, high: nat, low: byte, t: seq<byte>, out: seq<byte>, room: nat)
    requires 1 <= len <= 6 && high < 32 && 256 * high + low + 1 <= |out| && |out| + len + 2 <= room
    ensures DecodeToken([32 * len + high, low] + t, out, room) ==
      Some(Token(2, CopyBack(out, 256 * high + low + 1, len + 2)))
  {
    hide CopyBack;
    var s := [32 * len + high, low] + t;
    assert s[0] / 32 == len && s[0] % 32 == high;
  }

  /** All three bits set: one more byte of length. */
  lemma LongToken(len: byte, high: nat, low: byte, t: seq<byte>, out: seq<byte>, room: nat)
    requires high < 32 && 256 * high + low + 1 <= |out| && |out| + len + 9 <= room
    ensures DecodeToken([224 + high, len, low] + t, out, room) ==
      Some(Token(3, CopyBack(out, 256 * high + low + 1, len + 9)))
  {
    hide CopyBack;
    var s := [224 + high, len, low] + t;
    assert s[0] / 32 == 7 && s[0] % 32 == high;
  }

  /** Decoding a concatenation is decoding its parts in turn. */
  lemma {:induction false} DecodeAppend(a: seq<byte>, b: seq<byte>, out: seq<byte>, room: nat)
    requires Decode(a, out, room).Some?
    ensures Decode(a + b, out, room) == Decode(b, Decode(a, out, room).value, room)
    decreases |a|
  {
    if a == [] {
      assert a + b == b;
    } else {
      TokenAppend(a, b, out, room);
      var t := DecodeToken(a, out, room).value;
      assert (a + b)[t.bytes..] == a[t.bytes..] + b;
      DecodeAppend(a[t.bytes..], b, t.out, room);
    }
  }

  /** A stream that decodes within some room decodes to the same bytes within more. */
  lemma {:induction false} DecodeMoreRoom(a: seq<byte>, out: seq<byte>, room: nat, more: nat)
    requires Decode(a, out, room).Some? && room <= more
    ensures Decode(a, out, more) == Decode(a, out, room)
    decreases |a|
  {
    if a != [] {
      var t := DecodeToken(a, out, room).value;
      DecodeMoreRoom(a[t.bytes..], t.out, room, more);
    }
  }

  /** The bytes of a literal run. */
  function LiteralRun(lits: seq<byte>): seq<byte>
    requires 1 <= |lits| <= 32
  {
    [|lits| - 1] + lits
  }

  /** The two or three bytes of a back reference of `n` bytes at distance `dist`. */
  function Reference(dist: nat, n: nat): seq<byte>
    requires 1 <= dist <= 8192 && 3 <= n <= 264
  {
    var off := dist - 1;
    if n - 2 < 7 then [off / 256 + (n - 2) * 32, off % 256]
    else [off / 256 + 7 * 32, n - 9, off % 256]
  }

  lemma DecodeLiteralRun(lits: seq<byte>, out: seq<byte>, room: nat)
    requires 1 <= |lits| <= 32 && |out| + |lits| <= room
    ensures Decode(LiteralRun(lits), out, room) == Some(out + lits)
  {
    var s := LiteralRun(lits);
    assert s[1 + |lits|..] == [] && s[1..1 + |lits|] == lits;
  }

  lemma DecodeReference(dist: nat, n: nat, out: seq<byte>, room: nat)
    requires 1 <= dist <= 8192 && 3 <= n <= 264
    requires dist <= |out| && |out| + n <= room
    ensures Decode(Reference(dist, n), out, room) == Some(CopyBack(out, dist, n))
  {
    var s := Reference(dist, n);
    var hdr := |s|;
    assert s[0] / 32 == if hdr == 3 then 7 else n - 2;
    assert s[0] % 32 == (dist - 1) / 256;
    assert s[hdr..] == [];
  }

  /** A reference to an earlier occurrence of the next `n` bytes of `s` reproduces them,
      whether or not the two occurrences overlap. */
  lemma {:induction false} CopyBackMatches(s: seq<byte>, ref: nat, ip: nat, n: nat)
    requires ref < ip && ip + n <= |s|
    requires s[ref..ref + n] == s[ip..ip + n]
    ensures CopyBack(s[..ip], ip - ref, n) == s[..ip + n]
    decreases n
  {
    if n > 0 {
      assert s[ref..ref + n][0] == s[ip..ip + n][0];
      assert s[..ip] + [s[..ip][ref]] == s[..ip + 1];
      assert s[ref + 1..ref + n] == s[ref..ref + n][1..] == s[ip + 1..ip + n];
      CopyBackMatches(s, ref + 1, ip + 1, n - 1);
    }
  }

  /** A decoded prefix followed by a literal run. */
  lemma ExtendLiteral(z: seq<byte>, lits: seq<byte>, done: seq<byte>, room: nat)
    requires Decode(z, [], room) == Some(done)
    requires 1 <= |lits| <= 32 && |done| + |lits| <= room
    ensures Decode(z + LiteralRun(lits), [], room) == Some(done + lits)
  {
    DecodeAppend(z, LiteralRun(lits), [], room);
    DecodeLiteralRun(lits, done, room);
  }

  /** A decoded prefix of `s` followed by a reference to an earlier match. */
  lemma ExtendReference(z: seq<byte>, s: seq<byte>, ref: nat, ip: nat, n: nat)
    requires ref < ip <= ref + 8192 && ip + n <= |s| && 3 <= n <= 264
    requires Decode(z, [], |s|) == Some(s[..ip])
    requires s[ref..ref + n] == s[ip..ip + n]
    ensures Decode(z + Reference(ip - ref, n), [], |s|) == Some(s[..ip + n])
  {
    hide Decode, CopyBack;
    DecodeAppend(z, Reference(ip - ref, n), [], |s|);
    DecodeReference(ip - ref, n, s[..ip], |s|);
    CopyBackMatches(s, ref, ip, n);
  }
}
