/** Every loader of the RDB format looks at exactly the bytes it consumes: cut off behind them, or
    followed by anything else, they are read alike. */
module RdbExact {
  import opened Bytes
  import opened RdbFormat

  /** What was consumed when `rest` is left of `s`. */
  function Taken(s: Str, rest: Str): Str
    requires |rest| <= |s|
  {
    s[..|s| - |rest|]
  }

  /** `p` is consumed first and `q` after it. */
  lemma TwoParts(s: Str, r: Str, u: Str, t: Str)
    requires |u| <= |r| <= |s| && s == Taken(s, r) + r && r == Taken(r, u) + u
    ensures s == Taken(s, u) + u && Taken(s, u) == Taken(s, r) + Taken(r, u)
    ensures Taken(s, u) + t == Taken(s, r) + (Taken(r, u) + t)
  {
    var p, q := Taken(s, r), Taken(r, u);
    assert s == p + (q + u) == (p + q) + u;
    assert Taken(s, u) == p + q;
    assert (p + q) + t == p + (q + t);
  }

  lemma LenExact(s: Str, t: Str)
    requires LoadLen(s).Read?
    ensures var l := LoadLen(s); s == Taken(s, l.rest) + l.rest && LoadLen(Taken(s, l.rest) + t) == Read(l.value, t)
  {
    var l := LoadLen(s);
    var n := |s| - |l.rest|;
    var u := s[..n] + t;
    assert l.rest == s[n..] && u[n..] == t;
  }

  lemma TimeExact(s: Str, t: Str)
    requires LoadTime(s).Read?
    ensures var v := LoadTime(s); s == Taken(s, v.rest) + v.rest && LoadTime(Taken(s, v.rest) + t) == Read(v.value, t)
  {
    var u := s[..4] + t;
    assert u[4..] == t && s == s[..4] + s[4..];
  }

  lemma IntegerExact(s: Str, kind: nat, t: Str)
    requires kind <= 2 && LoadInteger(s, kind).Read?
    ensures var v := LoadInteger(s, kind);
      s == Taken(s, v.rest) + v.rest && LoadInteger(Taken(s, v.rest) + t, kind) == Read(v.value, t)
  {
    if kind == 2 {
      TimeExact(s, t);
    } else {
      var v := LoadInteger(s, kind);
      var n := |s| - |v.rest|;
      var u := s[..n] + t;
      assert v.rest == s[n..] && u[n..] == t;
    }
  }

  lemma ScoreExact(s: Str, t: Str)
    requires LoadScore(s).Read?
    ensures var x := LoadScore(s); s == Taken(s, x.rest) + x.rest && LoadScore(Taken(s, x.rest) + t) == Read(x.value, t)
  {
    var x := LoadScore(s);
    var n := |s| - |x.rest|;
    var u := s[..n] + t;
    assert x.rest == s[n..] && u[n..] == t;
    if s[0] < 253 { assert u[1..n] == s[1..n]; }
  }

  /** A known number of bytes, as a string or compressed. */
  lemma BytesExact(r: Str, n: nat, t: Str)
    requires n <= |r|
    ensures r == Taken(r, r[n..]) + r[n..] && Taken(r, r[n..]) == r[..n]
    ensures (r[..n] + t)[..n] == r[..n] && (r[..n] + t)[n..] == t
  {
  }

  lemma LzfExact(s: Str, t: Str)
    requires LoadLzf(s).Read?
    ensures var v := LoadLzf(s); s == Taken(s, v.rest) + v.rest && LoadLzf(Taken(s, v.rest) + t) == Read(v.value, t)
  {
    hide LoadLen, LzfFormat.Decode;
    var v, c := LoadLzf(s), LoadLen(s);
    var l, n := LoadLen(c.rest), c.value.n;
    var q := l.rest[..n];
    BytesExact(l.rest, n, t);
    LenExact(c.rest, q + t);
    TwoParts(c.rest, l.rest, v.rest, t);
    LenExact(s, Taken(c.rest, v.rest) + t);
    TwoParts(s, c.rest, v.rest, t);
  }

  lemma StringExact(s: Str, t: Str)
    requires LoadString(s).Read?
    ensures var a := LoadString(s);
      s == Taken(s, a.rest) + a.rest && LoadString(Taken(s, a.rest) + t) == Read(a.value, t)
  {
    hide LoadLen, LoadInteger, LoadLzf, Resp.Decimal;
    var a, l := LoadString(s), LoadLen(s);
    if !l.value.encoded {
      BytesExact(l.rest, l.value.n, t);
    } else if l.value.n <= 2 {
      IntegerExact(l.rest, l.value.n, t);
    } else {
      LzfExact(l.rest, t);
    }
    LenExact(s, Taken(l.rest, a.rest) + t);
    TwoParts(s, l.rest, a.rest, t);
  }

  lemma {:induction false} StringsExact(s: Str, n: nat, t: Str)
    requires LoadStrings(s, n).Read?
    ensures var a := LoadStrings(s, n);
      s == Taken(s, a.rest) + a.rest && LoadStrings(Taken(s, a.rest) + t, n) == Read(a.value, t)
    decreases n
  {
    hide LoadString;
    if n == 0 {
      assert Taken(s, s) + t == t;
    } else {
      var a, x := LoadStrings(s, n), LoadString(s);
      StringsExact(x.rest, n - 1, t);
      StringExact(s, Taken(x.rest, a.rest) + t);
      TwoParts(s, x.rest, a.rest, t);
    }
  }

  lemma {:induction false} ScoredExact(s: Str, n: nat, t: Str)
    requires LoadScored(s, n).Read?
    ensures var a := LoadScored(s, n);
      s == Taken(s, a.rest) + a.rest && LoadScored(Taken(s, a.rest) + t, n) == Read(a.value, t)
    decreases n
  {
    hide LoadString, LoadScore;
    if n == 0 {
      assert Taken(s, s) + t == t;
    } else {
      var a, x := LoadScored(s, n), LoadString(s);
      var y := LoadScore(x.rest);
      ScoredExact(y.rest, n - 1, t);
      ScoreExact(x.rest, Taken(y.rest, a.rest) + t);
      TwoParts(x.rest, y.rest, a.rest, t);
      StringExact(s, Taken(x.rest, a.rest) + t);
      TwoParts(s, x.rest, a.rest, t);
    }
  }

  lemma {:induction false} FieldsExact(s: Str, n: nat, t: Str)
    requires LoadFields(s, n).Read?
    ensures var a := LoadFields(s, n);
      s == Taken(s, a.rest) + a.rest && LoadFields(Taken(s, a.rest) + t, n) == Read(a.value, t)
    decreases n
  {
    hide LoadString;
    if n == 0 {
      assert Taken(s, s) + t == t;
    } else {
      var a, x := LoadFields(s, n), LoadString(s);
      var y := LoadString(x.rest);
      FieldsExact(y.rest, n - 1, t);
      StringExact(x.rest, Taken(y.rest, a.rest) + t);
      TwoParts(x.rest, y.rest, a.rest, t);
      StringExact(s, Taken(x.rest, a.rest) + t);
      TwoParts(s, x.rest, a.rest, t);
    }
  }

  /** Reading an object takes a beginning of the bytes, and those alone decide what is read. */
  lemma ObjectExact(kind: byte, s: Str, t: Str)
    requires LoadObject(kind, s).Read?
    ensures var v := LoadObject(kind, s);
      s == Taken(s, v.rest) + v.rest && LoadObject(kind, Taken(s, v.rest) + t) == Read(v.value, t)
  {
    hide LoadString, LoadLen, LoadStrings, LoadScored, LoadFields, Table, Elements;
    var v := LoadObject(kind, s);
    if kind == 0 {
      StringExact(s, t);
    } else {
      var l := LoadLen(s);
      if kind == 1 || kind == 2 {
        StringsExact(l.rest, l.value.n, t);
      } else if kind == 3 {
        ScoredExact(l.rest, l.value.n, t);
      } else {
        FieldsExact(l.rest, l.value.n, t);
      }
      LenExact(s, Taken(l.rest, v.rest) + t);
      TwoParts(s, l.rest, v.rest, t);
    }
  }
}
