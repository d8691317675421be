/** Order of sorted-set elements: by score, then by member as memcmp orders byte strings. */
module ZsetOrder {
  import opened Bytes

  type Member = seq<byte>

  datatype Elem = Elem(score: real, member: Member)

  /** compareStringObjects(a, b) < 0. */
  predicate LexLess(a: Member, b: Member)
    decreases |a|
  {
    if b == [] then false
    else if a == [] then true
    else a[0] < b[0] || (a[0] == b[0] && LexLess(a[1..], b[1..]))
  }

  predicate Less(a: Elem, b: Elem) {
    a.score < b.score || (a.score == b.score && LexLess(a.member, b.member))
  }

  lemma {:induction false} LexTrans(a: Member, b: Member, c: Member)
    requires LexLess(a, b) && LexLess(b, c)
    ensures LexLess(a, c)
    decreases |a|
  {
    if a != [] && a[0] == b[0] && b[0] == c[0] { LexTrans(a[1..], b[1..], c[1..]); }
  }

  lemma {:induction false} LexIrreflexive(a: Member)
    ensures !LexLess(a, a)
    decreases |a|
  {
    if a != [] { LexIrreflexive(a[1..]); }
  }

  lemma {:induction false} LexTotal(a: Member, b: Member)
    ensures LexLess(a, b) || a == b || LexLess(b, a)
    decreases |a|
  {
    if a != [] && b != [] && a[0] == b[0] {
      LexTotal(a[1..], b[1..]);
      assert a == [a[0]] + a[1..] && b == [b[0]] + b[1..];
    }
  }

  /** The strings agree up to position `n`, where the first one ends or has the smaller byte. */
  predicate SmallerAt(a: Member, b: Member, n: nat) {
    n <= |a| && n < |b| && a[..n] == b[..n] && (n == |a| || a[n] < b[n])
  }

  lemma {:induction false} SmallerIsLess(a: Member, b: Member, n: nat)
    requires SmallerAt(a, b, n)
    ensures LexLess(a, b)
    decreases n
  {
    if n > 0 {
      assert a[..n][0] == a[0] && b[..n][0] == b[0];
      assert a[1..][..n - 1] == a[..n][1..] && b[1..][..n - 1] == b[..n][1..];
      SmallerIsLess(a[1..], b[1..], n - 1);
    }
  }

  lemma {:induction false} LessIsSmaller(a: Member, b: Member) returns (n: nat)
    requires LexLess(a, b)
    ensures SmallerAt(a, b, n)
    decreases |a|
  {
    if a == [] || a[0] < b[0] {
      n := 0;
    } else {
      n := LessIsSmaller(a[1..], b[1..]);
      n := n + 1;
      assert a[..n] == [a[0]] + a[1..][..n - 1] && b[..n] == [b[0]] + b[1..][..n - 1];
    }
  }

  /** Bytes decide at the first difference, and a string comes before its extensions. */
  lemma LexLessIff(a: Member, b: Member)
    ensures LexLess(a, b) <==> exists n :: SmallerAt(a, b, n)
  {
    if LexLess(a, b) { var n := LessIsSmaller(a, b); }
    if n :| SmallerAt(a, b, n) { SmallerIsLess(a, b, n); }
  }

  /** Scores decide first, then the members. */
  lemma LessIff(a: Elem, b: Elem)
    ensures Less(a, b) <==> a.score < b.score || (a.score == b.score && exists n :: SmallerAt(a.member, b.member, n))
  {
    LexLessIff(a.member, b.member);
  }

  lemma LessTrans(a: Elem, b: Elem, c: Elem)
    requires Less(a, b) && Less(b, c)
    ensures Less(a, c)
  {
    if a.score == b.score == c.score { LexTrans(a.member, b.member, c.member); }
  }

  lemma LessTotal(a: Elem, b: Elem)
    ensures Less(a, b) || a == b || Less(b, a)
    ensures !(Less(a, b) && Less(b, a)) && !Less(a, a)
  {
    LexTotal(a.member, b.member);
    LexIrreflexive(a.member);
    if LexLess(a.member, b.member) && LexLess(b.member, a.member) { LexTrans(a.member, b.member, a.member); }
  }
}
