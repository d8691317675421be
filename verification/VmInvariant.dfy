/** Invariants of the virtual-memory state machine and their preservation. */
module VmInvariant {
  import opened Bytes
  import opened SwapFile
  import opened VmModel

  /** Everything the shared state says about one key: its storage and its live jobs. */
  datatype View = View(st: Option<Storage>, jobs: seq<Job>)

  function ViewOf(s: State, k: Key): View {
    View(if k in s.keys then Some(s.keys[k]) else None, Live(s, k))
  }

  /** A swap job that is not canceled, with what its progress implies. */
  predicate SwapJobOk(file: seq<Page>, j: Job, v: Value) {
    && j.val == Some(v) && j.vtype == v.vtype
    && match j.kind
       case Load => false
       case PrepareSwap => j.done ==> j.pages == PagesOf(v)
       case DoSwap => j.pages == PagesOf(v) && (j.done ==> Holds(file, j.page, v))
  }

  predicate OnDisk(file: seq<Page>, p: nat, n: nat, t: byte) {
    Read(file, p, t).Some? && n == PagesOf(Read(file, p, t).value)
  }

  /** SWAPPING means exactly one live PREPARE_SWAP or DO_SWAP job holding the value in memory;
      LOADING exactly one live LOAD job of the key's own pages; otherwise no live job. */
  predicate KeyOk(file: seq<Page>, w: View) {
    match w.st
    case None => w.jobs == []
    case Some(Memory(_)) => w.jobs == []
    case Some(Swapping(v)) => |w.jobs| == 1 && SwapJobOk(file, w.jobs[0], v)
    case Some(Swapped(p, n, t)) => w.jobs == [] && OnDisk(file, p, n, t)
    case Some(Loading(p, n, t)) =>
      && OnDisk(file, p, n, t)
      && |w.jobs| == 1 && w.jobs[0].kind == Load && w.jobs[0].page == p && w.jobs[0].vtype == t
      && (w.jobs[0].done ==> w.jobs[0].val == Read(file, p, t))
  }

  /** First page and number of pages that belong to a key: those of its value on disk, or
      those reserved by its DO_SWAP job. */
  function RangeOf(w: View): (int, int) {
    match w.st
    case Some(Swapped(p, n, _)) => (p, n)
    case Some(Loading(p, n, _)) => (p, n)
    case Some(Swapping(_)) =>
      if w.jobs != [] && w.jobs[0].kind == DoSwap then (w.jobs[0].page, w.jobs[0].pages) else (0, 0)
    case _ => (0, 0)
  }

  predicate Covers(w: View, p: int) {
    InRange(p, RangeOf(w).0, RangeOf(w).1)
  }

  ghost predicate KeysOk(s: State) {
    forall k :: KeyOk(s.file, ViewOf(s, k))
  }

  /** Each used page belongs to exactly one key. */
  ghost predicate PagesOk(s: State) {
    && |s.file| == |s.bitmap|
    && (forall k, p {:trigger Covers(ViewOf(s, k), p)} ::
          Covers(ViewOf(s, k), p) ==> 0 <= p < |s.bitmap| && s.bitmap[p])
    && (forall k, k', p {:trigger Covers(ViewOf(s, k), p), Covers(ViewOf(s, k'), p)} ::
          Covers(ViewOf(s, k), p) && Covers(ViewOf(s, k'), p) ==> k == k')
    && (forall p :: 0 <= p < |s.bitmap| && s.bitmap[p] ==> exists k :: Covers(ViewOf(s, k), p))
  }

  predicate QueuesOk(s: State) {
    && (forall j :: j in s.newjobs ==> !j.canceled && !j.done)
    && (forall j :: j in s.processing ==> !j.canceled)
    && (forall j :: j in s.processed ==> j.canceled || j.done)
  }

  function DiskKeys(keys: map<Key, Storage>): set<Key> {
    set k | k in keys && (keys[k].Swapped? || keys[k].Loading?)
  }

  predicate StatsOk(s: State) {
    s.usedPages == CountUsed(s.bitmap) && s.swappedObjects == |DiskKeys(s.keys)|
  }

  predicate ChildOk(file: seq<Page>, c: Option<Child>) {
    c.Some? ==> forall k :: k in c.value.keys ==>
      k in c.value.content && ValueOf(file, c.value.keys[k]) == Some(c.value.content[k])
  }

  predicate NoDoSwap(q: seq<Job>) {
    forall j :: j in q ==> j.kind != DoSwap
  }

  /** A child reads what was there when it was forked, and no write to the file is pending. */
  predicate ChildrenOk(s: State) {
    && ChildOk(s.file, s.bgsave) && ChildOk(s.file, s.bgrewrite)
    && (!CanSwapOut(s) ==> NoDoSwap(s.newjobs) && NoDoSwap(s.processing))
  }

  ghost predicate Inv(s: State) {
    KeysOk(s) && PagesOk(s) && QueuesOk(s) && StatsOk(s) && ChildrenOk(s)
  }

  // ---------------------------------------------------------------- queues

  lemma {:induction false} JobsOfConcat(a: seq<Job>, b: seq<Job>, k: Key)
    ensures JobsOf(a + b, k) == JobsOf(a, k) + JobsOf(b, k)
    decreases |a|
  {
    if a == [] {
      assert a + b == b;
    } else {
      assert (a + b)[1..] == a[1..] + b;
      JobsOfConcat(a[1..], b, k);
    }
  }

  lemma JobsOfOne(j: Job, k: Key)
    ensures JobsOf([j], k) == if !j.canceled && j.key == k then [j] else []
  {
    assert [j][1..] == [];
  }

  lemma JobsOfAppend(q: seq<Job>, j: Job, k: Key)
    ensures JobsOf(q + [j], k) == JobsOf(q, k) + if !j.canceled && j.key == k then [j] else []
  {
    JobsOfConcat(q, [j], k);
    JobsOfOne(j, k);
  }

  /** A queue split at one of its jobs. */
  lemma JobsOfSplit(q: seq<Job>, i: nat, k: Key)
    requires i < |q|
    ensures JobsOf(q, k) ==
      JobsOf(q[..i], k) + (if !q[i].canceled && q[i].key == k then [q[i]] else []) + JobsOf(q[i + 1..], k)
    ensures JobsOf(Remove(q, i), k) == JobsOf(q[..i], k) + JobsOf(q[i + 1..], k)
  {
    assert q == q[..i] + [q[i]] + q[i + 1..];
    JobsOfConcat(q[..i] + [q[i]], q[i + 1..], k);
    JobsOfAppend(q[..i], q[i], k);
    JobsOfConcat(q[..i], q[i + 1..], k);
  }

  lemma JobsOfUpdate(q: seq<Job>, i: nat, j: Job, k: Key)
    requires i < |q|
    ensures JobsOf(q[i := j], k) ==
      JobsOf(q[..i], k) + (if !j.canceled && j.key == k then [j] else []) + JobsOf(q[i + 1..], k)
  {
    JobsOfSplit(q[i := j], i, k);
    assert q[i := j][..i] == q[..i] && q[i := j][i + 1..] == q[i + 1..];
  }

  lemma {:induction false} FindJobSpec(q: seq<Job>, k: Key)
    ensures FindJob(q, k) == |q| <==> JobsOf(q, k) == []
    ensures FindJob(q, k) < |q| ==> JobsOf(q, k) != [] && JobsOf(q, k)[0] == q[FindJob(q, k)]
    ensures forall j :: j in JobsOf(q, k) ==> j in q
    decreases |q|
  {
    if q != [] {
      FindJobSpec(q[1..], k);
    }
  }

  // ---------------------------------------------------------------- counting

  lemma {:induction false} CountSet(bits: seq<bool>, page: nat, n: nat, b: bool)
    requires if b then FreeRange(bits, page, n) else UsedRange(bits, page, n)
    ensures CountUsed(SetRange(bits, page, n, b)) == CountUsed(bits) as int + if b then n else -(n as int)
    decreases |bits|
  {
    if bits == [] {
    } else if page > 0 || n == 0 {
      var p := if page > 0 then page - 1 else 0;
      assert SetRange(bits, page, n, b)[1..] == SetRange(bits[1..], p, n, b);
      assert forall i {:trigger bits[1..][i]} :: p <= i < p + n ==> bits[1..][i] == bits[i + 1];
      CountSet(bits[1..], p, n, b);
    } else {
      assert SetRange(bits, page, n, b)[1..] == SetRange(bits[1..], 0, n - 1, b);
      CountSet(bits[1..], 0, n - 1, b);
    }
  }

  lemma DiskKeysUpdate(keys: map<Key, Storage>, k: Key, st: Storage)
    ensures
      var now := st.Swapped? || st.Loading?;
      var was := k in keys && (keys[k].Swapped? || keys[k].Loading?);
      |DiskKeys(keys[k := st])| == |DiskKeys(keys)| + (if now then 1 else 0) - if was then 1 else 0
  {
    if st.Swapped? || st.Loading? {
      assert DiskKeys(keys[k := st]) == DiskKeys(keys) + {k};
    } else {
      assert DiskKeys(keys[k := st]) == DiskKeys(keys) - {k};
    }
  }

  lemma DiskKeysRemove(keys: map<Key, Storage>, k: Key)
    ensures |DiskKeys(keys - {k})| ==
      |DiskKeys(keys)| - if k in keys && (keys[k].Swapped? || keys[k].Loading?) then 1 else 0
  {
    assert DiskKeys(keys - {k}) == DiskKeys(keys) - {k};
  }

  // ---------------------------------------------------------------- frame

  /** A key's condition depends on the file only through the key's own pages. */
  lemma KeyOkAgrees(file: seq<Page>, file': seq<Page>, w: View)
    requires KeyOk(file, w) && |file'| == |file|
    requires forall p :: 0 <= p < |file| && Covers(w, p) ==> file'[p] == file[p]
    ensures KeyOk(file', w)
    ensures w.st.Some? ==> ValueOf(file', w.st.value) == ValueOf(file, w.st.value)
  {
    hide PagesOf, Read, Holds, Whole;
    match w.st
    case Some(Swapped(p, n, t)) =>
      ReadInside(file, p, t);
      forall i | p <= i < p + n ensures file'[i] == file[i] {
        assert Covers(w, i);
      }
      ReadAgrees(file, file', p, t);
    case Some(Loading(p, n, t)) =>
      ReadInside(file, p, t);
      forall i | p <= i < p + n ensures file'[i] == file[i] {
        assert Covers(w, i);
      }
      ReadAgrees(file, file', p, t);
    case Some(Swapping(v)) =>
      var j := w.jobs[0];
      if j.kind == DoSwap && j.done {
        forall i | j.page <= i < j.page + j.pages && i < |file| ensures file'[i] == file[i] {
          assert Covers(w, i);
        }
        HoldsAgrees(file, file', j.page, v);
      }
    case _ =>
  }

  /** How the bitmap must follow the pages of the one key that changed. */
  ghost predicate BitmapFollows(bits: seq<bool>, bits': seq<bool>, was: View, now: View) {
    && |bits'| == |bits|
    && (forall p {:trigger Covers(now, p)} :: Covers(now, p) ==> 0 <= p < |bits| && (Covers(was, p) || !bits[p]))
    && (forall p :: 0 <= p < |bits| ==> bits'[p] == (Covers(now, p) || (bits[p] && !Covers(was, p))))
  }

  /** Only key `k0` changed, and the file only in pages it now owns. */
  ghost predicate OnlyKey(s: State, s': State, k0: Key) {
    && (forall k :: k != k0 ==> ViewOf(s', k) == ViewOf(s, k))
    && |s'.file| == |s.file|
    && (forall p :: 0 <= p < |s.file| && !Covers(ViewOf(s', k0), p) ==> s'.file[p] == s.file[p])
    && BitmapFollows(s.bitmap, s'.bitmap, ViewOf(s, k0), ViewOf(s', k0))
  }

  lemma OtherKeyKeeps(s: State, s': State, k0: Key, k: Key)
    requires KeysOk(s) && PagesOk(s) && OnlyKey(s, s', k0) && k != k0
    ensures KeyOk(s'.file, ViewOf(s', k))
    ensures k in s.keys ==> ValueOf(s'.file, s.keys[k]) == ValueOf(s.file, s.keys[k])
  {
    hide KeyOk, RangeOf, ValueOf, Live, Whole;
    var w := ViewOf(s, k);
    assert ViewOf(s', k) == w;
    forall p | 0 <= p < |s.file| && Covers(w, p)
      ensures s'.file[p] == s.file[p]
    {
      assert s.bitmap[p] && !Covers(ViewOf(s, k0), p);
    }
    KeyOkAgrees(s.file, s'.file, w);
  }

  /** Changing one key consistently with the bitmap keeps all keys and pages consistent. */
  lemma Frame(s: State, s': State, k0: Key)
    requires KeysOk(s) && PagesOk(s) && OnlyKey(s, s', k0)
    requires KeyOk(s'.file, ViewOf(s', k0))
    ensures KeysOk(s') && PagesOk(s')
  {
    hide KeyOk, RangeOf, ViewOf, Covers, Whole;
    forall k ensures KeyOk(s'.file, ViewOf(s', k)) {
      if k != k0 { OtherKeyKeeps(s, s', k0, k); }
    }
    FramePages(s, s', k0);
  }

  lemma FramePages(s: State, s': State, k0: Key)
    requires PagesOk(s) && OnlyKey(s, s', k0)
    ensures PagesOk(s')
  {
    hide KeyOk, RangeOf, Whole;
    forall p | 0 <= p < |s'.bitmap| && s'.bitmap[p]
      ensures exists k :: Covers(ViewOf(s', k), p)
    {
      if !Covers(ViewOf(s', k0), p) {
        var k :| Covers(ViewOf(s, k), p);
        assert k != k0 && ViewOf(s', k) == ViewOf(s, k);
      }
    }
    forall k, k', p | Covers(ViewOf(s', k), p) && Covers(ViewOf(s', k'), p)
      ensures k == k'
    {
      if k != k0 { assert Covers(ViewOf(s, k), p); }
      if k' != k0 { assert Covers(ViewOf(s, k'), p); }
    }
    forall k, p | Covers(ViewOf(s', k), p)
      ensures 0 <= p < |s'.bitmap| && s'.bitmap[p]
    {
      if k != k0 {
        assert Covers(ViewOf(s, k), p);
        assert !Covers(ViewOf(s, k0), p);
      }
    }
  }
}
