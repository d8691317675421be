/** redis-1.3.6/pqsort.c: a quicksort that only orders what lands in a range of positions. */
module Pqsort {
  /** A value and its place in the order that the comparison function decides. */
  datatype Elem = Elem(rank: int, obj: int)

  function Cmp(a: Elem, b: Elem): int { a.rank - b.rank }

  // ---------------------------------------------------------------- permutations of a segment

  /** `t` is `s` with the elements of `lo..hi` in another order. */
  ghost predicate Perm(s: seq<Elem>, t: seq<Elem>, lo: int, hi: int) {
    && |s| == |t| && 0 <= lo <= hi <= |s|
    && s[..lo] == t[..lo] && s[hi..] == t[hi..]
    && multiset(s[lo..hi]) == multiset(t[lo..hi])
  }

  lemma PermSelf(s: seq<Elem>, lo: int, hi: int)
    requires 0 <= lo <= hi <= |s|
    ensures Perm(s, s, lo, hi)
  {
  }

  lemma PermTrans(s: seq<Elem>, t: seq<Elem>, u: seq<Elem>, lo: int, hi: int)
    requires Perm(s, t, lo, hi) && Perm(t, u, lo, hi)
    ensures Perm(s, u, lo, hi)
  {
  }

  /** What is outside the segment stays, and what is inside comes from inside. */
  lemma PermElems(s: seq<Elem>, t: seq<Elem>, lo: int, hi: int)
    requires Perm(s, t, lo, hi)
    ensures forall i :: 0 <= i < |t| && !(lo <= i < hi) ==> t[i] == s[i]
    ensures forall i :: lo <= i < hi ==> t[i] in s[lo..hi]
  {
    forall i | 0 <= i < |t| && !(lo <= i < hi) ensures t[i] == s[i] {
      if i < lo { assert t[..lo][i] == s[..lo][i]; } else { assert t[hi..][i - hi] == s[hi..][i - hi]; }
    }
    forall i | lo <= i < hi ensures t[i] in s[lo..hi] {
      assert t[lo..hi][i - lo] in multiset(t[lo..hi]);
    }
  }

  lemma SplitBag(s: seq<Elem>, a: int, b: int, c: int)
    requires 0 <= a <= b <= c <= |s|
    ensures multiset(s[a..c]) == multiset(s[a..b]) + multiset(s[b..c])
  {
    assert s[a..c] == s[a..b] + s[b..c];
  }

  lemma PermWiden(s: seq<Elem>, t: seq<Elem>, a: int, lo: int, hi: int, b: int)
    requires Perm(s, t, lo, hi) && 0 <= a <= lo && hi <= b <= |s|
    ensures Perm(s, t, a, b)
  {
    PermElems(s, t, lo, hi);
    assert s[..a] == t[..a] && s[b..] == t[b..] && s[a..lo] == t[a..lo] && s[hi..b] == t[hi..b];
    SplitBag(s, a, lo, b);
    SplitBag(s, lo, hi, b);
    SplitBag(t, a, lo, b);
    SplitBag(t, lo, hi, b);
  }

  function Swapped(s: seq<Elem>, i: int, j: int): seq<Elem>
    requires 0 <= i < |s| && 0 <= j < |s|
  {
    s[i := s[j]][j := s[i]]
  }

  lemma SwapPerm(s: seq<Elem>, i: int, j: int, lo: int, hi: int)
    requires 0 <= lo <= i < hi <= |s| && lo <= j < hi
    ensures Perm(s, Swapped(s, i, j), lo, hi)
  {
    var t, m := Swapped(s, i, j), s[lo..hi];
    assert t[lo..hi] == m[i - lo := m[j - lo]][j - lo := m[i - lo]];
  }

  method Swap(a: array<Elem>, i: int, j: int)
    requires 0 <= i < a.Length && 0 <= j < a.Length
    modifies a
    ensures a[..] == Swapped(old(a[..]), i, j)
  {
    a[i], a[j] := a[j], a[i];
  }

  // ---------------------------------------------------------------- what is promised

  /** Nothing before `p` is larger and nothing after it is smaller, within `lo..hi`. */
  ghost predicate Fixed(s: seq<Elem>, lo: int, hi: int, p: int) {
    && 0 <= lo <= p < hi <= |s|
    && (forall i :: lo <= i < p ==> s[i].rank <= s[p].rank)
    && (forall j :: p < j < hi ==> s[p].rank <= s[j].rank)
  }

  ghost predicate RangeFixed(s: seq<Elem>, lo: int, hi: int, left: int, right: int) {
    forall p :: lo <= p < hi && left <= p <= right ==> Fixed(s, lo, hi, p)
  }

  ghost predicate Sorted(s: seq<Elem>, lo: int, hi: int) {
    0 <= lo <= hi <= |s| && forall i, j :: lo <= i < j < hi ==> s[i].rank <= s[j].rank
  }

  // ---------------------------------------------------------------- insertion sort

  /** Ordered up to `m`, but for the element at `p` still moving down. */
  ghost predicate Inserting(s: seq<Elem>, lo: int, m: int, p: int) {
    && 0 <= lo <= p <= m < |s|
    && (forall i, j :: lo <= i < j <= m && j != p ==> s[i].rank <= s[j].rank)
  }

  lemma InsertStep(s: seq<Elem>, lo: int, m: int, p: int)
    requires Inserting(s, lo, m, p) && lo < p && s[p - 1].rank > s[p].rank
    ensures Inserting(Swapped(s, p, p - 1), lo, m, p - 1)
  {
  }

  /** Moves the element at `m` down to its place. */
  method InsertOne(a: array<Elem>, lo: int, m: int, hi: int)
    requires 0 <= lo < m < hi <= a.Length && Sorted(a[..], lo, m)
    modifies a
    ensures Sorted(a[..], lo, m + 1) && Perm(old(a[..]), a[..], lo, hi)
  {
    hide Perm, Inserting, Sorted, Swapped;
    var p := m;
    StartInsert(a[..], lo, m);
    PermSelf(a[..], lo, hi);
    while p > lo && Cmp(a[p - 1], a[p]) > 0
      invariant lo <= p <= m
      invariant Inserting(a[..], lo, m, p) && Perm(old(a[..]), a[..], lo, hi)
    {
      ghost var s := a[..];
      InsertStep(s, lo, m, p);
      SwapPerm(s, p, p - 1, lo, hi);
      Swap(a, p, p - 1);
      PermTrans(old(a[..]), s, a[..], lo, hi);
      p := p - 1;
    }
    EndInsert(a[..], lo, m, p);
  }

  method InsertionSort(a: array<Elem>, lo: int, hi: int)
    requires 0 <= lo <= hi <= a.Length
    modifies a
    ensures Sorted(a[..], lo, hi) && Perm(old(a[..]), a[..], lo, hi)
  {
    hide Perm, Sorted;
    PermSelf(a[..], lo, hi);
    ShortSorted(a[..], lo, hi);
    var m := lo + 1;
    while m < hi
      invariant lo < m <= hi || (lo == hi && m == lo + 1)
      invariant Sorted(a[..], lo, if m < hi then m else hi) && Perm(old(a[..]), a[..], lo, hi)
    {
      ghost var s := a[..];
      InsertOne(a, lo, m, hi);
      PermTrans(old(a[..]), s, a[..], lo, hi);
      m := m + 1;
    }
  }

  lemma ShortSorted(s: seq<Elem>, lo: int, hi: int)
    requires 0 <= lo <= hi <= |s|
    ensures Sorted(s, lo, if lo + 1 < hi then lo + 1 else hi)
  {
  }

  lemma StartInsert(s: seq<Elem>, lo: int, m: int)
    requires 0 <= lo <= m < |s| && Sorted(s, lo, m)
    ensures Inserting(s, lo, m, m)
  {
  }

  lemma EndInsert(s: seq<Elem>, lo: int, m: int, p: int)
    requires Inserting(s, lo, m, p) && (p == lo || s[p - 1].rank <= s[p].rank)
    ensures Sorted(s, lo, m + 1)
  {
    if p > lo {
      forall i | lo <= i < p ensures s[i].rank <= s[p].rank { assert i < p - 1 ==> s[i].rank <= s[p - 1].rank; }
    }
  }

  // ---------------------------------------------------------------- the median

  /** The position of the middle one of three elements. */
  function Med3(s: seq<Elem>, a: int, b: int, c: int): (m: int)
    requires 0 <= a < |s| && 0 <= b < |s| && 0 <= c < |s|
    ensures m == a || m == b || m == c
    ensures s[a].rank <= s[m].rank || s[b].rank <= s[m].rank || s[c].rank <= s[m].rank
    ensures Middle(s[a].rank, s[b].rank, s[c].rank, s[m].rank)
  {
    if Cmp(s[a], s[b]) < 0 then (if Cmp(s[b], s[c]) < 0 then b else if Cmp(s[a], s[c]) < 0 then c else a)
    else (if Cmp(s[b], s[c]) > 0 then b else if Cmp(s[a], s[c]) < 0 then a else c)
  }

  /** At least one of the others is no larger, and at least one no smaller. */
  predicate Middle(x: int, y: int, z: int, m: int) {
    && ((x <= m && y <= m) || (x <= m && z <= m) || (y <= m && z <= m))
    && ((x >= m && y >= m) || (x >= m && z >= m) || (y >= m && z >= m))
  }

  method ChoosePivot(a: array<Elem>, lo: int, n: int) returns (m: int)
    requires 0 <= lo && 7 <= n && lo + n <= a.Length
    ensures lo <= m < lo + n
  {
    m := lo + n / 2;
    if n > 7 {
      var l, h := lo, lo + n - 1;
      if n > 40 {
        var d := n / 8;
        l := Med3(a[..], l, l + d, l + 2 * d);
        m := Med3(a[..], m - d, m, m + d);
        h := Med3(a[..], h - 2 * d, h - d, h);
      }
      m := Med3(a[..], l, m, h);
    }
  }

  // ---------------------------------------------------------------- partition

  datatype Cursor = Cursor(pa: int, pb: int, pc: int, pd: int)

  /** Around the pivot at `lo`: equal, smaller, not yet seen, larger, equal. */
  ghost predicate Parted(s: seq<Elem>, lo: int, hi: int, c: Cursor) {
    && 0 <= lo < c.pa <= c.pb <= c.pc + 1 <= c.pd + 1 <= hi <= |s|
    && (forall i :: lo <= i < c.pa ==> s[i].rank == s[lo].rank)
    && (forall i :: c.pa <= i < c.pb ==> s[i].rank < s[lo].rank)
    && (forall i :: c.pc < i <= c.pd ==> s[i].rank > s[lo].rank)
    && (forall i :: c.pd < i < hi ==> s[i].rank == s[lo].rank)
  }

  lemma UpEqual(s: seq<Elem>, lo: int, hi: int, c: Cursor)
    requires Parted(s, lo, hi, c) && c.pb <= c.pc && s[c.pb].rank == s[lo].rank
    ensures Parted(Swapped(s, c.pa, c.pb), lo, hi, c.(pa := c.pa + 1, pb := c.pb + 1))
  {
  }

  lemma DownEqual(s: seq<Elem>, lo: int, hi: int, c: Cursor)
    requires Parted(s, lo, hi, c) && c.pb <= c.pc && s[c.pc].rank == s[lo].rank
    ensures Parted(Swapped(s, c.pc, c.pd), lo, hi, c.(pc := c.pc - 1, pd := c.pd - 1))
  {
  }

  lemma Exchange(s: seq<Elem>, lo: int, hi: int, c: Cursor)
    requires Parted(s, lo, hi, c) && c.pb < c.pc
    requires s[c.pb].rank > s[lo].rank && s[c.pc].rank < s[lo].rank
    ensures Parted(Swapped(s, c.pb, c.pc), lo, hi, c.(pb := c.pb + 1, pc := c.pc - 1))
  {
  }

  method ScanUp(a: array<Elem>, lo: int, hi: int, c0: Cursor, cnt0: int) returns (c: Cursor, cnt: int)
    requires hi <= a.Length && Parted(a[..], lo, hi, c0)
    modifies a
    ensures Parted(a[..], lo, hi, c) && Perm(old(a[..]), a[..], lo, hi)
    ensures c.pb >= c0.pb && c.pc == c0.pc && (c.pb <= c.pc ==> a[c.pb].rank > a[lo].rank)
  {
    hide Perm;
    c, cnt := c0, cnt0;
    PermSelf(a[..], lo, hi);
    while c.pb <= c.pc && Cmp(a[c.pb], a[lo]) <= 0
      invariant Parted(a[..], lo, hi, c) && Perm(old(a[..]), a[..], lo, hi)
      invariant c.pb >= c0.pb && c.pc == c0.pc
      decreases c.pc - c.pb
    {
      if Cmp(a[c.pb], a[lo]) == 0 {
        ghost var s := a[..];
        cnt := 1;
        UpEqual(s, lo, hi, c);
        SwapPerm(s, c.pa, c.pb, lo, hi);
        Swap(a, c.pa, c.pb);
        PermTrans(old(a[..]), s, a[..], lo, hi);
        c := c.(pa := c.pa + 1, pb := c.pb + 1);
      } else {
        c := c.(pb := c.pb + 1);
      }
    }
  }

  method ScanDown(a: array<Elem>, lo: int, hi: int, c0: Cursor, cnt0: int) returns (c: Cursor, cnt: int)
    requires hi <= a.Length && Parted(a[..], lo, hi, c0)
    requires c0.pb <= c0.pc ==> a[c0.pb].rank > a[lo].rank
    modifies a
    ensures Parted(a[..], lo, hi, c) && Perm(old(a[..]), a[..], lo, hi)
    ensures c.pc <= c0.pc && c.pb == c0.pb
    ensures c.pb <= c.pc ==> c.pb < c.pc && a[c.pb].rank > a[lo].rank && a[c.pc].rank < a[lo].rank
  {
    hide Perm;
    c, cnt := c0, cnt0;
    PermSelf(a[..], lo, hi);
    while c.pb <= c.pc && Cmp(a[c.pc], a[lo]) >= 0
      invariant Parted(a[..], lo, hi, c) && Perm(old(a[..]), a[..], lo, hi)
      invariant c.pc <= c0.pc && c.pb == c0.pb
      invariant c.pb <= c.pc ==> a[c.pb].rank > a[lo].rank
      decreases c.pc - c.pb
    {
      if Cmp(a[c.pc], a[lo]) == 0 {
        ghost var s := a[..];
        cnt := 1;
        DownEqual(s, lo, hi, c);
        SwapPerm(s, c.pc, c.pd, lo, hi);
        Swap(a, c.pc, c.pd);
        PermTrans(old(a[..]), s, a[..], lo, hi);
        c := c.(pc := c.pc - 1, pd := c.pd - 1);
      } else {
        c := c.(pc := c.pc - 1);
      }
    }
  }

  /** The scanning loop: everything in `lo..hi` is on its side when it ends. */
  method Partition(a: array<Elem>, lo: int, hi: int) returns (c: Cursor, cnt: int)
    requires 0 <= lo && lo + 2 <= hi <= a.Length
    modifies a
    ensures Parted(a[..], lo, hi, c) && c.pb == c.pc + 1 && Perm(old(a[..]), a[..], lo, hi)
  {
    hide Perm;
    cnt := 0;
    c := Cursor(lo + 1, lo + 1, hi - 1, hi - 1);
    PermSelf(a[..], lo, hi);
    while true
      invariant Parted(a[..], lo, hi, c) && Perm(old(a[..]), a[..], lo, hi)
      decreases c.pc - c.pb + 1
    {
      ghost var s0 := a[..];
      c, cnt := ScanUp(a, lo, hi, c, cnt);
      PermTrans(old(a[..]), s0, a[..], lo, hi);
      ghost var s1 := a[..];
      c, cnt := ScanDown(a, lo, hi, c, cnt);
      PermTrans(old(a[..]), s1, a[..], lo, hi);
      if c.pb > c.pc { break; }
      ghost var s2 := a[..];
      Exchange(s2, lo, hi, c);
      SwapPerm(s2, c.pb, c.pc, lo, hi);
      Swap(a, c.pb, c.pc);
      PermTrans(old(a[..]), s2, a[..], lo, hi);
      cnt := 1;
      c := c.(pb := c.pb + 1, pc := c.pc - 1);
    }
  }

  // ---------------------------------------------------------------- moving the equal ones in

  /** `r` elements from `i` on exchanged with those from `j` on. */
  ghost predicate Blocks(s: seq<Elem>, t: seq<Elem>, i: int, j: int, r: int) {
    && |s| == |t| && 0 <= i && 0 <= r && i + r <= j && j + r <= |s|
    && (forall k {:trigger t[k]} :: i <= k < i + r ==> t[k] == s[k + j - i])
    && (forall k {:trigger t[k]} :: j <= k < j + r ==> t[k] == s[k - j + i])
    && (forall k {:trigger t[k]} :: 0 <= k < |s| && !(i <= k < i + r) && !(j <= k < j + r) ==> t[k] == s[k])
  }

  lemma BlocksNone(s: seq<Elem>, i: int, j: int)
    requires 0 <= i <= j <= |s|
    ensures Blocks(s, s, i, j, 0)
  {
  }

  lemma BlocksStep(s: seq<Elem>, t: seq<Elem>, i: int, j: int, k: int)
    requires Blocks(s, t, i, j, k) && i + k < j && j + k < |s|
    ensures Blocks(s, Swapped(t, i + k, j + k), i, j, k + 1)
  {
    assert t[i + k] == s[i + k] && t[j + k] == s[j + k];
  }

  method VecSwap(a: array<Elem>, i: int, j: int, r: int, ghost lo: int, ghost hi: int)
    requires 0 <= lo <= i && 0 <= r && i + r <= j && j + r <= hi <= a.Length
    modifies a
    ensures Blocks(old(a[..]), a[..], i, j, r) && Perm(old(a[..]), a[..], lo, hi)
  {
    hide Perm, Blocks, Swapped;
    PermSelf(a[..], lo, hi);
    BlocksNone(a[..], i, j);
    for k := 0 to r
      invariant Blocks(old(a[..]), a[..], i, j, k) && Perm(old(a[..]), a[..], lo, hi)
    {
      ghost var s := a[..];
      SwapPerm(s, i + k, j + k, lo, hi);
      BlocksStep(old(a[..]), s, i, j, k);
      Swap(a, i + k, j + k);
      PermTrans(old(a[..]), s, a[..], lo, hi);
    }
  }

  /** Smaller, equal, larger. */
  ghost predicate ThreeWay(s: seq<Elem>, lo: int, hi: int, x: int, y: int, v: int) {
    && 0 <= lo <= x < y <= hi <= |s|
    && (forall i :: lo <= i < x ==> s[i].rank < v)
    && (forall i :: x <= i < y ==> s[i].rank == v)
    && (forall i :: y <= i < hi ==> s[i].rank > v)
  }

  /** After the left half has been moved. */
  ghost predicate HalfWay(s: seq<Elem>, lo: int, hi: int, c: Cursor, v: int) {
    && 0 <= lo < c.pa <= c.pb == c.pc + 1 <= c.pd + 1 <= hi <= |s|
    && (forall i :: lo <= i < lo + c.pb - c.pa ==> s[i].rank < v)
    && (forall i :: lo + c.pb - c.pa <= i < c.pb ==> s[i].rank == v)
    && (forall i :: c.pc < i <= c.pd ==> s[i].rank > v)
    && (forall i :: c.pd < i < hi ==> s[i].rank == v)
  }

  lemma LeftHalf(s: seq<Elem>, t: seq<Elem>, lo: int, hi: int, c: Cursor, r: int)
    requires Parted(s, lo, hi, c) && c.pb == c.pc + 1
    requires r == (if c.pa - lo < c.pb - c.pa then c.pa - lo else c.pb - c.pa)
    requires Blocks(s, t, lo, c.pb - r, r)
    ensures HalfWay(t, lo, hi, c, s[lo].rank)
  {
  }

  lemma RightHalf(s: seq<Elem>, t: seq<Elem>, lo: int, hi: int, c: Cursor, v: int, r: int)
    requires HalfWay(s, lo, hi, c, v)
    requires r == (if c.pd - c.pc < hi - 1 - c.pd then c.pd - c.pc else hi - 1 - c.pd)
    requires Blocks(s, t, c.pb, hi - r, r)
    ensures ThreeWay(t, lo, hi, lo + (c.pb - c.pa), hi - (c.pd - c.pc), v)
  {
  }

  /** Brings the elements equal to the pivot between the two sides. */
  method Gather(a: array<Elem>, lo: int, hi: int, c: Cursor) returns (ghost v: int)
    requires hi <= a.Length && Parted(a[..], lo, hi, c) && c.pb == c.pc + 1
    modifies a
    ensures ThreeWay(a[..], lo, hi, lo + (c.pb - c.pa), hi - (c.pd - c.pc), v)
    ensures Perm(old(a[..]), a[..], lo, hi)
  {
    hide Perm, Blocks, HalfWay, ThreeWay;
    v := a[lo].rank;
    var r := if c.pa - lo < c.pb - c.pa then c.pa - lo else c.pb - c.pa;
    VecSwap(a, lo, c.pb - r, r, lo, hi);
    LeftHalf(old(a[..]), a[..], lo, hi, c, r);
    ghost var s := a[..];
    r := if c.pd - c.pc < hi - 1 - c.pd then c.pd - c.pc else hi - 1 - c.pd;
    VecSwap(a, c.pb, hi - r, r, lo, hi);
    RightHalf(s, a[..], lo, hi, c, v, r);
    PermTrans(old(a[..]), s, a[..], lo, hi);
  }

  // ---------------------------------------------------------------- the sort

  /** Sorting one side keeps the three parts apart. */
  lemma SideKeeps(s: seq<Elem>, t: seq<Elem>, lo: int, hi: int, x: int, y: int, v: int)
    requires ThreeWay(s, lo, hi, x, y, v) && Perm(s, t, lo, x)
    ensures ThreeWay(t, lo, hi, x, y, v)
  {
    PermElems(s, t, lo, x);
  }

  /** The positions below the part that is sorted next are final. */
  lemma LeftDone(s: seq<Elem>, lo: int, hi: int, x: int, y: int, v: int, left: int, right: int)
    requires ThreeWay(s, lo, hi, x, y, v) && RangeFixed(s, lo, x, left, right)
    ensures DoneBelow(s, lo, y, hi, left, right)
  {
    forall p | lo <= p < y && left <= p <= right ensures Fixed(s, lo, hi, p) {
      if p < x { assert Fixed(s, lo, x, p); }
    }
  }

  /** Everything in `lo..m` is no larger than anything in `m..hi`. */
  ghost predicate Apart(s: seq<Elem>, lo: int, m: int, hi: int) {
    && 0 <= lo <= m <= hi <= |s|
    && (forall i, j :: lo <= i < m <= j < hi ==> s[i].rank <= s[j].rank)
  }

  /** Done below `m`: what is left to do is to order `m..hi`. */
  ghost predicate DoneBelow(s: seq<Elem>, lo: int, m: int, hi: int, left: int, right: int) {
    && Apart(s, lo, m, hi)
    && (forall p :: lo <= p < m && left <= p <= right ==> Fixed(s, lo, hi, p))
  }

  /** Ordering the rest orders all. */
  lemma RestFixed(s: seq<Elem>, lo: int, m: int, hi: int, left: int, right: int)
    requires DoneBelow(s, lo, m, hi, left, right) && RangeFixed(s, m, hi, left, right)
    ensures RangeFixed(s, lo, hi, left, right)
  {
    forall p | lo <= p < hi && left <= p <= right ensures Fixed(s, lo, hi, p) {
      if p >= m { assert Fixed(s, m, hi, p); }
    }
  }

  lemma SortedFixed(s: seq<Elem>, lo: int, hi: int, left: int, right: int)
    requires Sorted(s, lo, hi)
    ensures RangeFixed(s, lo, hi, left, right)
  {
  }

  /** Permuting the rest does not disturb what is done. */
  lemma DoneKeeps(s: seq<Elem>, t: seq<Elem>, lo: int, m: int, hi: int, left: int, right: int)
    requires DoneBelow(s, lo, m, hi, left, right) && Perm(s, t, m, hi)
    ensures DoneBelow(t, lo, m, hi, left, right)
  {
    PermElems(s, t, m, hi);
    forall p | lo <= p < m && left <= p <= right ensures Fixed(t, lo, hi, p) {
      assert Fixed(s, lo, hi, p);
    }
  }

  lemma DoneMore(s: seq<Elem>, lo: int, m: int, y: int, hi: int, left: int, right: int)
    requires DoneBelow(s, lo, m, hi, left, right) && DoneBelow(s, m, y, hi, left, right)
    ensures DoneBelow(s, lo, y, hi, left, right)
  {
    forall p | lo <= p < y && left <= p <= right ensures Fixed(s, lo, hi, p) {
      if p >= m { assert Fixed(s, m, hi, p); }
    }
  }

  /** Whether the partition starting at `lo` with `n` elements can be skipped. */
  predicate Outside(lo: int, n: int, left: int, right: int) {
    (left < lo && right < lo) || (left >= lo + n && right >= lo + n)
  }

  /** One round: partition `lo..hi`, order the left side, and report where the right side starts. */
  method Round(a: array<Elem>, lo: int, hi: int, left: int, right: int) returns (sorted: bool, y: int)
    requires 0 <= lo && lo + 7 <= hi <= a.Length
    modifies a
    decreases hi - lo, 0
    ensures Perm(old(a[..]), a[..], lo, hi)
    ensures sorted ==> RangeFixed(a[..], lo, hi, left, right)
    ensures !sorted ==> lo < y <= hi && DoneBelow(a[..], lo, y, hi, left, right)
  {
    hide Perm, Parted, ThreeWay, RangeFixed, DoneBelow, Sorted, Outside, Apart, Fixed;
    var c, cnt := Split(a, lo, hi);
    ghost var s := a[..];
    y := hi;
    if cnt == 0 {
      InsertionSort(a, lo, hi);
      PermTrans(old(a[..]), s, a[..], lo, hi);
      SortedFixed(a[..], lo, hi, left, right);
      return true, y;
    }
    CursorBounds(s, lo, hi, c);
    ghost var v := Gather(a, lo, hi, c);
    PermTrans(old(a[..]), s, a[..], lo, hi);
    ghost var t := a[..];
    var x := lo + (c.pb - c.pa);
    y := hi - (c.pd - c.pc);
    SidesBounds(t, lo, hi, x, y, v);
    if x - lo > 1 && !Outside(lo, x - lo, left, right) {
      Sort(a, lo, x - lo, left, right);
      SideKeeps(t, a[..], lo, hi, x, y, v);
      PermWiden(t, a[..], lo, lo, x, hi);
      PermTrans(old(a[..]), t, a[..], lo, hi);
    } else {
      Skipped(t, lo, x - lo, left, right);
    }
    LeftDone(a[..], lo, hi, x, y, v, left, right);
    sorted := false;
  }

  /** Puts the pivot first and partitions around it. */
  method Split(a: array<Elem>, lo: int, hi: int) returns (c: Cursor, cnt: int)
    requires 0 <= lo && lo + 7 <= hi <= a.Length
    modifies a
    ensures Parted(a[..], lo, hi, c) && c.pb == c.pc + 1 && Perm(old(a[..]), a[..], lo, hi)
  {
    hide Perm, Parted, Swapped;
    var m := ChoosePivot(a, lo, hi - lo);
    SwapPerm(a[..], lo, m, lo, hi);
    Swap(a, lo, m);
    ghost var s := a[..];
    c, cnt := Partition(a, lo, hi);
    PermTrans(old(a[..]), s, a[..], lo, hi);
  }

  /** A segment no asked position falls into, or of one element, needs no work. */
  lemma Skipped(s: seq<Elem>, lo: int, n: int, left: int, right: int)
    requires 0 <= lo <= lo + n <= |s| && (n <= 1 || Outside(lo, n, left, right))
    ensures RangeFixed(s, lo, lo + n, left, right)
  {
  }

  lemma CursorBounds(s: seq<Elem>, lo: int, hi: int, c: Cursor)
    requires Parted(s, lo, hi, c)
    ensures 0 <= lo < c.pa <= c.pb <= c.pc + 1 <= c.pd + 1 <= hi <= |s|
  {
  }

  lemma SidesBounds(s: seq<Elem>, lo: int, hi: int, x: int, y: int, v: int)
    requires ThreeWay(s, lo, hi, x, y, v)
    ensures 0 <= lo <= x < y <= hi <= |s|
  {
  }

  /** _pqsort on the `n` elements from `base` on: a permutation after which every position of
      `left..right` holds what a full sort of the segment would put there. */
  method Sort(a: array<Elem>, base: int, n: int, left: int, right: int)
    requires 0 <= base && 0 <= n && base + n <= a.Length
    modifies a
    decreases n, 1
    ensures Perm(old(a[..]), a[..], base, base + n)
    ensures RangeFixed(a[..], base, base + n, left, right)
  {
    hide Perm, RangeFixed, DoneBelow, Sorted, Outside;
    var lo, hi := base, base + n;
    PermSelf(a[..], base, hi);
    NothingDone(a[..], base, hi, left, right);
    while true
      invariant base <= lo <= hi == base + n
      invariant Perm(old(a[..]), a[..], base, hi) && DoneBelow(a[..], base, lo, hi, left, right)
      decreases hi - lo
    {
      ghost var s := a[..];
      if hi - lo < 7 {
        InsertionSort(a, lo, hi);
        PermWiden(s, a[..], base, lo, hi, hi);
        PermTrans(old(a[..]), s, a[..], base, hi);
        SortedFixed(a[..], lo, hi, left, right);
        DoneKeeps(s, a[..], base, lo, hi, left, right);
        RestFixed(a[..], base, lo, hi, left, right);
        return;
      }
      var sorted, y := Round(a, lo, hi, left, right);
      PermWiden(s, a[..], base, lo, hi, hi);
      PermTrans(old(a[..]), s, a[..], base, hi);
      DoneKeeps(s, a[..], base, lo, hi, left, right);
      if sorted {
        RestFixed(a[..], base, lo, hi, left, right);
        return;
      }
      DoneMore(a[..], base, lo, y, hi, left, right);
      if !(hi - y > 1 && !Outside(y, hi - y, left, right)) {
        Skipped(a[..], y, hi - y, left, right);
        RestFixed(a[..], base, y, hi, left, right);
        return;
      }
      lo := y;
    }
  }

  lemma NothingDone(s: seq<Elem>, lo: int, hi: int, left: int, right: int)
    requires 0 <= lo <= hi <= |s|
    ensures DoneBelow(s, lo, lo, hi, left, right)
  {
  }

  // ---------------------------------------------------------------- against a full sort

  function CountBelow(s: seq<Elem>, v: int): nat {
    if s == [] then 0 else (if s[0].rank < v then 1 else 0) + CountBelow(s[1..], v)
  }

  lemma {:induction false} CountConcat(s: seq<Elem>, t: seq<Elem>, v: int)
    ensures CountBelow(s + t, v) == CountBelow(s, v) + CountBelow(t, v)
    decreases |s|
  {
    if s == [] {
      assert s + t == t;
    } else {
      assert (s + t)[1..] == s[1..] + t;
      CountConcat(s[1..], t, v);
    }
  }

  /** Equal bags have equal counts. */
  lemma {:induction false} CountBag(s: seq<Elem>, t: seq<Elem>, v: int)
    requires multiset(s) == multiset(t)
    ensures CountBelow(s, v) == CountBelow(t, v)
    decreases |s|
  {
    if s == [] {
      assert |multiset(t)| == 0;
    } else {
      assert s[0] in multiset(t);
      var j :| 0 <= j < |t| && t[j] == s[0];
      var u := t[..j] + t[j + 1..];
      TakeOut(s, t, j);
      CountBag(s[1..], u, v);
      CountConcat(t[..j], t[j + 1..], v);
      CountConcat(t[..j], [t[j]] + t[j + 1..], v);
      CountConcat([t[j]], t[j + 1..], v);
      assert t == t[..j] + ([t[j]] + t[j + 1..]);
      assert CountBelow([t[j]], v) == CountBelow([s[0]], v);
      assert s == [s[0]] + s[1..];
      CountConcat([s[0]], s[1..], v);
    }
  }

  lemma TakeOut(s: seq<Elem>, t: seq<Elem>, j: int)
    requires s != [] && 0 <= j < |t| && t[j] == s[0] && multiset(s) == multiset(t)
    ensures multiset(s[1..]) == multiset(t[..j] + t[j + 1..])
  {
    var m := multiset{s[0]};
    assert s == [s[0]] + s[1..];
    assert multiset(s) == m + multiset(s[1..]);
    assert t == t[..j] + [t[j]] + t[j + 1..];
    assert multiset(t) == multiset(t[..j]) + m + multiset(t[j + 1..]);
    assert multiset(s[1..]) == multiset(s) - m == multiset(t[..j]) + multiset(t[j + 1..]);
  }

  lemma {:induction false} CountBounds(s: seq<Elem>, v: int)
    ensures CountBelow(s, v) <= |s|
    ensures (forall i :: 0 <= i < |s| ==> s[i].rank < v) ==> CountBelow(s, v) == |s|
    ensures (forall i :: 0 <= i < |s| ==> s[i].rank >= v) ==> CountBelow(s, v) == 0
    decreases |s|
  {
    if s != [] {
      CountBounds(s[1..], v);
      assert forall i :: 0 <= i < |s| - 1 ==> s[1..][i] == s[i + 1];
    }
  }

  /** Two orders of the same elements that both fix a position agree on what is there. */
  lemma FixedAgree(s: seq<Elem>, t: seq<Elem>, lo: int, hi: int, p: int)
    requires Perm(s, t, lo, hi) && Fixed(s, lo, hi, p) && Fixed(t, lo, hi, p)
    ensures s[p].rank == t[p].rank
  {
    NotSmaller(s, t, lo, hi, p);
    NotSmaller(t, s, lo, hi, p);
  }

  lemma NotSmaller(s: seq<Elem>, t: seq<Elem>, lo: int, hi: int, p: int)
    requires Perm(s, t, lo, hi) && Fixed(s, lo, hi, p) && Fixed(t, lo, hi, p)
    ensures s[p].rank >= t[p].rank
  {
    hide CountBelow;
    CountBag(s[lo..hi], t[lo..hi], t[p].rank);
    FewBelow(t, lo, hi, p);
    if s[p].rank < t[p].rank { ManyBelow(s, lo, hi, p, t[p].rank); }
  }

  lemma ManyBelow(s: seq<Elem>, lo: int, hi: int, p: int, v: int)
    requires Fixed(s, lo, hi, p) && s[p].rank < v
    ensures CountBelow(s[lo..hi], v) > p - lo
  {
    hide CountBelow;
    var a, b := s[lo..p + 1], s[p + 1..hi];
    assert s[lo..hi] == a + b;
    CountConcat(a, b, v);
    assert forall i :: 0 <= i < |a| ==> a[i].rank < v;
    CountBounds(a, v);
  }

  lemma FewBelow(s: seq<Elem>, lo: int, hi: int, p: int)
    requires Fixed(s, lo, hi, p)
    ensures CountBelow(s[lo..hi], s[p].rank) <= p - lo
  {
    hide CountBelow;
    var a, b := s[lo..p], s[p..hi];
    assert s[lo..hi] == a + b;
    CountConcat(a, b, s[p].rank);
    CountBounds(a, s[p].rank);
    assert forall i :: 0 <= i < |b| ==> b[i].rank >= s[p].rank;
    CountBounds(b, s[p].rank);
  }

  /** What is asked for: `after` has, in positions `left..right`, the ranks that any full sort of
      `before` has there, for every full sort. */
  lemma AsFullSort(before: seq<Elem>, after: seq<Elem>, full: seq<Elem>, n: int, left: int, right: int, p: int)
    requires Perm(before, after, 0, n) && RangeFixed(after, 0, n, left, right)
    requires Perm(before, full, 0, n) && Sorted(full, 0, n)
    requires 0 <= p < n && left <= p <= right
    ensures after[p].rank == full[p].rank
  {
    assert Perm(after, full, 0, n);
    SortedFixed(full, 0, n, p, p);
    FixedAgree(after, full, 0, n, p);
  }
}
