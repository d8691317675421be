/** The swap file of redis-1.3.6/redis.c: pages of bytes, objects written over them as
    rdbSaveObject prints them and read back by rdbLoadObject. */
module SwapFile {
  import opened Bytes
  import RdbFormat
  import opened RdbExact

  type Str = seq<byte>

  type PageSize = n: int | n > 0 witness 1

  /** vm-page-size of the configuration; nothing below depends on its value. */
  const PAGE_SIZE: PageSize

  type Page = p: Str | |p| == PAGE_SIZE witness seq(PAGE_SIZE, _ => 0)

  const ZEROS: Page := seq(PAGE_SIZE, _ => 0)

  /** The type of an object and its bytes. */
  datatype Object = Object(vtype: byte, image: Str)

  /** The bytes are read back as an object of the type, all of them. */
  predicate Whole(v: Object) {
    var r := RdbFormat.LoadObject(v.vtype, v.image);
    r.Read? && r.rest == []
  }

  /** The object that a database holds, with the bytes rdbSaveObject writes for it. */
  type Value = v: Object | Whole(v) witness Object(0, [0])

  // ---------------------------------------------------------------- sizes

  /** rdbSavedObjectPages: the pages that hold this many bytes. */
  function PagesFor(bytes: nat): nat { (bytes + (PAGE_SIZE - 1)) / PAGE_SIZE }

  function PagesOf(v: Value): (n: nat)
    ensures n >= 1
  {
    OnePageMore(|v.image|);
    PagesFor(|v.image|)
  }

  lemma OnePageMore(n: nat)
    ensures 0 < n <= PAGE_SIZE ==> PagesFor(n) == 1
    ensures n > PAGE_SIZE ==> PagesFor(n) == 1 + PagesFor(n - PAGE_SIZE)
    ensures n > 0 ==> PagesFor(n) >= 1
  {
    var p, m := PAGE_SIZE, n + (PAGE_SIZE - 1);
    DivideStep(m, p);
    if n > p { DivideStep(m - p, p); }
  }

  lemma DivideStep(m: nat, p: int)
    requires p > 0
    ensures m < p ==> m / p == 0
    ensures m >= p ==> m / p == 1 + (m - p) / p
  {
    if m >= p {
      var q := (m - p) / p;
      Divided(m - p, p);
      assert (q + 1) * p == q * p + p;
      Quotient(m, p, q + 1);
    } else {
      Quotient(m, p, 0);
    }
  }

  lemma Divided(m: nat, p: int)
    requires p > 0
    ensures m / p * p <= m < m / p * p + p
  {
    assert m == m / p * p + m % p;
  }

  lemma {:induction false} Larger(a: int, b: int, p: int)
    requires a < b && p > 0
    ensures a * p + p <= b * p
    decreases b - a
  {
    assert (a + 1) * p == a * p + p;
    if a + 1 < b { Larger(a + 1, b, p); }
  }

  lemma Quotient(m: nat, p: int, q: nat)
    requires p > 0 && q * p <= m < q * p + p
    ensures m / p == q
  {
    Divided(m, p);
    if m / p < q { Larger(m / p, q, p); } else if m / p > q { Larger(q, m / p, p); }
  }

  /** The pages of a value have room for its bytes, and one page less would not. */
  lemma PagesExact(v: Value)
    ensures (PagesOf(v) - 1) * PAGE_SIZE < |v.image| <= PagesOf(v) * PAGE_SIZE
  {
    hide Whole;
    var n, m := PagesOf(v), |v.image| + (PAGE_SIZE - 1);
    Divided(m, PAGE_SIZE);
    Larger(n - 1, n, PAGE_SIZE);
  }

  // ---------------------------------------------------------------- bytes and pages

  /** The bytes of consecutive pages. */
  function Join(pages: seq<Page>): Str { if pages == [] then [] else pages[0] + Join(pages[1..]) }

  lemma {:induction false} JoinConcat(a: seq<Page>, b: seq<Page>)
    ensures Join(a + b) == Join(a) + Join(b)
    decreases |a|
  {
    if a == [] {
      assert a + b == b;
    } else {
      assert (a + b)[1..] == a[1..] + b;
      JoinConcat(a[1..], b);
    }
  }

  /** The pages after writing bytes from the start of the first one on; what is behind them stays. */
  function Overwritten(image: Str, pages: seq<Page>): (r: seq<Page>)
    requires image != [] && PagesFor(|image|) == |pages|
    ensures |r| == |pages|
    decreases |image|
  {
    OnePageMore(|image|);
    if |image| <= PAGE_SIZE then [image + pages[0][|image|..]]
    else [image[..PAGE_SIZE]] + Overwritten(image[PAGE_SIZE..], pages[1..])
  }

  lemma {:induction false} OverwrittenStarts(image: Str, pages: seq<Page>)
    requires image != [] && PagesFor(|image|) == |pages|
    ensures image <= Join(Overwritten(image, pages))
    decreases |image|
  {
    OnePageMore(|image|);
    var r := Overwritten(image, pages);
    if |image| > PAGE_SIZE {
      OverwrittenStarts(image[PAGE_SIZE..], pages[1..]);
      assert r[1..] == Overwritten(image[PAGE_SIZE..], pages[1..]);
      assert image == image[..PAGE_SIZE] + image[PAGE_SIZE..];
    } else {
      assert r[1..] == [] && Join(r) == r[0] + [];
    }
  }

  /** Bytes at the start of some pages are inside the first pages that they fill. */
  lemma {:induction false} InFirstPages(image: Str, pages: seq<Page>)
    requires image != [] && image <= Join(pages)
    ensures PagesFor(|image|) <= |pages| && image <= Join(pages[..PagesFor(|image|)])
    decreases |image|
  {
    OnePageMore(|image|);
    var n := PagesFor(|image|);
    if |image| <= PAGE_SIZE {
      var one := pages[..1];
      assert one[1..] == [] && Join(one) == pages[0] + [];
      assert image == Join(pages)[..|image|] == pages[0][..|image|];
    } else {
      var rest := image[PAGE_SIZE..];
      assert Join(pages) == pages[0] + Join(pages[1..]);
      assert rest == Join(pages)[..|image|][PAGE_SIZE..] == Join(pages[1..])[..|rest|];
      InFirstPages(rest, pages[1..]);
      var front := pages[..n];
      assert front[1..] == pages[1..][..n - 1];
      assert image == image[..PAGE_SIZE] + rest && image[..PAGE_SIZE] == pages[0];
    }
  }

  // ---------------------------------------------------------------- values in the file

  /** vmWriteObjectOnSwap. A value without room is not written; no job is one of those. */
  function WriteValue(file: seq<Page>, page: nat, v: Value): (r: seq<Page>)
    ensures |r| == |file|
  {
    var n := PagesOf(v);
    if page + n > |file| then file
    else file[..page] + Overwritten(v.image, file[page..page + n]) + file[page + n..]
  }

  predicate InRange(p: int, page: int, n: int) { page <= p < page + n }

  /** Writing touches the pages of the value and no others. */
  lemma WriteElsewhere(file: seq<Page>, page: nat, v: Value, i: nat)
    requires i < |file| && !InRange(i, page, PagesOf(v))
    ensures WriteValue(file, page, v)[i] == file[i]
  {
    hide PagesOf, Overwritten;
  }

  /** The bytes of `v` are in the file from `page` on. */
  predicate Holds(file: seq<Page>, page: nat, v: Value) {
    page + PagesOf(v) <= |file| && v.image <= Join(file[page..page + PagesOf(v)])
  }

  /** The object that the bytes from `page` on begin with; None when rdbLoadObject fails there. */
  function Read(file: seq<Page>, page: nat, vtype: byte): Option<Value> {
    if page >= |file| then None
    else
      var b := Join(file[page..]);
      var r := RdbFormat.LoadObject(vtype, b);
      if r.Eof? then None
      else
        ObjectExact(vtype, b, []);
        assert Taken(b, r.rest) + [] == Taken(b, r.rest);
        Some(Object(vtype, Taken(b, r.rest)))
  }

  /** What is read is in the pages that its size asks for. */
  lemma ReadInside(file: seq<Page>, p: nat, t: byte)
    requires Read(file, p, t).Some?
    ensures var v := Read(file, p, t).value; v.vtype == t && p + PagesOf(v) <= |file| && Holds(file, p, v)
  {
    var v, b := Read(file, p, t).value, Join(file[p..]);
    assert v.image == b[..|v.image|];
    InFirstPages(v.image, file[p..]);
    assert file[p..][..PagesOf(v)] == file[p..p + PagesOf(v)];
  }

  /** Where the bytes of a value are, it is read, whatever is behind them. */
  lemma HeldIsRead(file: seq<Page>, page: nat, v: Value)
    requires Holds(file, page, v)
    ensures Read(file, page, v.vtype) == Some(v)
  {
    hide PagesOf, RdbFormat.LoadObject, Join;
    var n := PagesOf(v);
    var own, more := file[page..page + n], file[page + n..];
    assert file[page..] == own + more;
    JoinConcat(own, more);
    var b := Join(file[page..]);
    var t := b[|v.image|..];
    assert b == v.image + t;
    ObjectExact(v.vtype, v.image, t);
    assert Taken(v.image, []) == v.image && Taken(b, t) == v.image;
  }

  /** What is written is read back. */
  lemma WriteThenRead(file: seq<Page>, page: nat, v: Value)
    requires page + PagesOf(v) <= |file|
    ensures Holds(WriteValue(file, page, v), page, v)
    ensures Read(WriteValue(file, page, v), page, v.vtype) == Some(v)
  {
    hide Overwritten, Join, Read;
    var n, r := PagesOf(v), WriteValue(file, page, v);
    OverwrittenStarts(v.image, file[page..page + n]);
    assert r[page..page + n] == Overwritten(v.image, file[page..page + n]);
    HeldIsRead(r, page, v);
  }

  lemma HoldsAgrees(file: seq<Page>, file': seq<Page>, p: nat, v: Value)
    requires Holds(file, p, v) && |file'| == |file|
    requires forall i :: p <= i < p + PagesOf(v) && i < |file| ==> file'[i] == file[i]
    ensures Holds(file', p, v)
  {
    hide PagesOf, Join, Whole;
    var n := PagesOf(v);
    assert file'[p..p + n] == file[p..p + n];
  }

  /** A value is read alike as long as its own pages stay the same. */
  lemma ReadAgrees(file: seq<Page>, file': seq<Page>, p: nat, t: byte)
    requires Read(file, p, t).Some? && |file'| == |file|
    requires forall i :: p <= i < p + PagesOf(Read(file, p, t).value) && i < |file| ==> file'[i] == file[i]
    ensures Read(file', p, t) == Read(file, p, t)
  {
    hide PagesOf, Read, Holds, Whole;
    var v := Read(file, p, t).value;
    ReadInside(file, p, t);
    HoldsAgrees(file, file', p, v);
    HeldIsRead(file', p, v);
  }
}
