/** The virtual-memory functions of redis-1.3.6/redis.c on the server's own fields. Each method
    performs one step of the state machine in VmModel. */
module VmServer {
  import opened Bytes
  import opened SwapFile
  import opened VmModel
  import opened VmInvariant
  import opened VmSteps
  import opened VmTheorems
  import opened VmDrain
  import opened VmEffects

  const VM_MAX_NEAR_PAGES := 65536
  const VM_MAX_RANDOM_JUMP := 4096

  // ---------------------------------------------------------------- searching the bitmap

  /** The `numfree` pages before `p` are free. */
  ghost predicate FreeBefore(bits: seq<bool>, p: int, numfree: nat) {
    numfree <= p <= |bits| && forall i :: p - numfree <= i < p ==> !bits[i]
  }

  /** Behind the last page of a scan of `offset` pages that starts at `base` and wraps around. */
  function Position(base: nat, offset: nat, pages: nat): int {
    if base + offset <= pages then base + offset else base + offset - pages
  }

  /** Where the part of the scan began that is in hand: at `base`, or at page zero. */
  function Began(base: nat, offset: nat, pages: nat): nat { if base + offset <= pages then base else 0 }

  /** The pages from `f` on are adjacent in the scan and among its first `limit` pages. */
  predicate Scanned(f: nat, n: nat, base: nat, pages: nat, limit: nat) {
    (f >= base && f - base + n <= limit) || (f + n <= base && f - base + pages + n <= limit)
  }

  /** No `n` adjacent pages of the first `limit` of the scan are free. */
  ghost predicate NoneScanned(bits: seq<bool>, n: nat, base: nat, limit: nat) {
    forall f: nat :: FreeRange(bits, f, n) ==> !Scanned(f, n, base, |bits|, limit)
  }

  /** The pages looked at before any jump. */
  function Near(pages: nat): nat { if pages <= VM_MAX_RANDOM_JUMP / 4 then pages else VM_MAX_RANDOM_JUMP / 4 }

  /** As many pages before the position are free as there can be. */
  ghost predicate Longest(bits: seq<bool>, base: nat, offset: nat, numfree: nat)
    requires base <= |bits| && offset <= |bits|
  {
    var p, b := Position(base, offset, |bits|), Began(base, offset, |bits|);
    FreeBefore(bits, p, numfree) && numfree <= p - b && (numfree < p - b ==> bits[p - numfree - 1])
  }

  lemma NothingScanned(bits: seq<bool>, n: nat, base: nat)
    requires n > 0 && base <= |bits|
    ensures NoneScanned(bits, n, base, 0) && Longest(bits, base, 0, 0)
  {
  }

  /** The free pages that the scan has in hand after one more page. */
  lemma NextLongest(bits: seq<bool>, base: nat, offset: nat, numfree: nat, page: nat)
    requires base <= |bits| && offset < |bits| && Longest(bits, base, offset, numfree)
    requires page == if base + offset >= |bits| then base + offset - |bits| else base + offset
    ensures var n := if base + offset == |bits| then 0 else numfree;
      Longest(bits, base, offset + 1, if bits[page] then 0 else n + 1)
  {
  }

  lemma FewerScanned(bits: seq<bool>, n: nat, base: nat, offset: nat, limit: nat)
    requires NoneScanned(bits, n, base, offset) && limit <= offset
    ensures NoneScanned(bits, n, base, limit)
  {
  }

  lemma FoundRange(bits: seq<bool>, page: nat, n: nat)
    requires n > 0 && FreeBefore(bits, page + 1, n)
    ensures page >= n - 1 && FreeRange(bits, page - (n - 1), n)
  {
  }

  /** One page more: a free range of the scan that ends with it would have been found. */
  lemma OneScanned(bits: seq<bool>, n: nat, base: nat, offset: nat, numfree: nat)
    requires base <= |bits| && offset < |bits| && numfree < n && NoneScanned(bits, n, base, offset)
    requires Longest(bits, base, offset + 1, numfree)
    ensures NoneScanned(bits, n, base, offset + 1)
  {
    forall f: nat | FreeRange(bits, f, n) ensures !Scanned(f, n, base, |bits|, offset + 1) {
      assert !Scanned(f, n, base, |bits|, offset);
      var q := Position(base, offset + 1, |bits|) - numfree - 1;
      assert 0 <= q < |bits| && bits[q] ==> !(f <= q < f + n);
    }
  }

  /** With few pages there is no jump: a search fails exactly when no free range is left but those
      that the starting page cuts in two. */
  lemma FewPages(bits: seq<bool>, n: nat, base: nat)
    requires |bits| <= VM_MAX_RANDOM_JUMP / 4 && base <= |bits|
    ensures NoneScanned(bits, n, base, Near(|bits|)) <==>
      forall f: nat :: FreeRange(bits, f, n) ==> f < base < f + n
  {
  }

  /** Two pages, both free, and a search for two that starts at the second: it fails. */
  lemma CutInTwo()
    ensures FreeRange([false, false], 0, 2) && NoneScanned([false, false], 2, 1, Near(2))
  {
    FewPages([false, false], 2, 1);
  }

  class Server {
    var keys: map<Key, Storage>
    var newjobs: seq<Job>
    var processing: seq<Job>
    var processed: seq<Job>
    const bitmap: array<bool>
    var usedPages: int
    var swappedObjects: int
    var file: seq<Page>
    var bgsave: Option<Child>
    var bgrewrite: Option<Child>
    var nextPage: nat
    var nearPages: nat

    function St(): State
      reads this, bitmap
    {
      State(keys, newjobs, processing, processed, bitmap[..], usedPages, swappedObjects, file, bgsave, bgrewrite)
    }

    ghost predicate Valid()
      reads this, bitmap
    {
      Inv(St()) && nextPage <= bitmap.Length
    }

    constructor (vmPages: nat)
      ensures Valid() && St() == Init(vmPages) && fresh(bitmap)
    {
      keys := map[];
      newjobs, processing, processed := [], [], [];
      bitmap := new bool[vmPages](_ => false);
      usedPages, swappedObjects := 0, 0;
      file := seq(vmPages, _ => ZEROS);
      bgsave, bgrewrite := None, None;
      nextPage, nearPages := 0, 0;
      new;
      assert bitmap[..] == seq(vmPages, _ => false);
      InitOk(vmPages);
    }

    // ------------------------------------------------------------ pages

    method MarkPagesUsed(page: nat, count: nat)
      requires FreeRange(bitmap[..], page, count)
      modifies this`usedPages, bitmap
      ensures St() == MarkUsed(old(St()), page, count)
    {
      for j := 0 to count
        invariant bitmap[..] == SetRange(old(bitmap[..]), page, j, true) && usedPages == old(usedPages)
      {
        assert !bitmap[..][page + j];
        assert !bitmap[page + j];
        bitmap[page + j] := true;
      }
      usedPages := usedPages + count;
    }

    method MarkPagesFree(page: nat, count: nat)
      requires UsedRange(bitmap[..], page, count)
      modifies this`usedPages, bitmap
      ensures St() == MarkFree(old(St()), page, count)
    {
      for j := 0 to count
        invariant bitmap[..] == SetRange(old(bitmap[..]), page, j, false) && usedPages == old(usedPages)
      {
        assert bitmap[..][page + j];
        assert bitmap[page + j];
        bitmap[page + j] := false;
      }
      usedPages := usedPages - count;
    }

    /** Where the next search starts. */
    ghost function SearchBase(): nat
      reads this
    {
      if nearPages == VM_MAX_NEAR_PAGES then 0 else nextPage
    }

    /** The loop of vmFindContiguousPages: looks for `n` adjacent free pages from `base` on, jumping
        ahead a random distance, possibly zero, out of crowded regions. */
    method Scan(n: nat, base: nat) returns (ok: bool, first: nat)
      requires n > 0 && base <= bitmap.Length
      ensures ok ==> FreeRange(bitmap[..], first, n)
      ensures !ok ==> NoneScanned(bitmap[..], n, base, Near(bitmap.Length))
    {
      hide NoneScanned, FreeRange, Longest;
      var offset, sinceJump, numfree := 0, 0, 0;
      first := 0;
      ghost var jumped, bits := false, bitmap[..];
      NothingScanned(bits, n, base);
      while offset < bitmap.Length
        invariant 0 <= offset && 0 <= sinceJump && 0 <= numfree < n
        invariant numfree > 0 ==> FreeBefore(bits, Position(base, offset, bitmap.Length), numfree)
        invariant !jumped ==> offset == sinceJump <= bitmap.Length
        invariant !jumped ==> Longest(bits, base, offset, numfree) && NoneScanned(bits, n, base, offset)
        invariant jumped ==> NoneScanned(bits, n, base, Near(bitmap.Length))
        decreases bitmap.Length - offset, sinceJump
      {
        var page := base + offset;
        ghost var before := numfree;
        if page >= bitmap.Length {
          page := page - bitmap.Length;
          if page == 0 { numfree := 0; }
        }
        if !bitmap[page] {
          numfree := numfree + 1;
          if numfree == n {
            first := page - (n - 1);
            FoundRange(bits, page, n);
            return true, first;
          }
        } else {
          numfree := 0;
        }
        if !jumped {
          NextLongest(bits, base, offset, before, page);
          OneScanned(bits, n, base, offset, numfree);
        }
        sinceJump := sinceJump + 1;
        if numfree == 0 && sinceJump >= VM_MAX_RANDOM_JUMP / 4 {
          if !jumped { FewerScanned(bits, n, base, offset + 1, Near(bitmap.Length)); }
          jumped := true;
          var jump: nat :| jump < VM_MAX_RANDOM_JUMP;
          offset := offset + jump;
          sinceJump := 0;
        } else {
          offset := offset + 1;
        }
      }
      if !jumped { FewerScanned(bits, n, base, offset, Near(bitmap.Length)); }
      ok := false;
    }

    /** vmFindContiguousPages: the search restarts at page zero every VM_MAX_NEAR_PAGES calls. It
        does not fail when there are such pages among the first that it looks at. */
    method FindContiguousPages(n: nat) returns (ok: bool, first: nat)
      requires n > 0 && nextPage <= bitmap.Length
      modifies this`nextPage, this`nearPages
      ensures nextPage <= bitmap.Length
      ensures nearPages == (if old(nearPages) == VM_MAX_NEAR_PAGES then 0 else old(nearPages)) + 1
      ensures ok ==> FreeRange(bitmap[..], first, n) && nextPage == first + n
      ensures !ok ==> nextPage == old(SearchBase())
      ensures !ok ==> NoneScanned(bitmap[..], n, old(SearchBase()), Near(bitmap.Length))
    {
      hide NoneScanned;
      if nearPages == VM_MAX_NEAR_PAGES {
        nearPages := 0;
        nextPage := 0;
      }
      nearPages := nearPages + 1;
      ok, first := Scan(n, nextPage);
      if ok { nextPage := first + n; }
    }

    // ------------------------------------------------------------ jobs

    /** Position of the first job in a queue that is not canceled and names `k`. */
    static method SearchQueue(q: seq<Job>, k: Key) returns (i: nat)
      ensures i == FindJob(q, k)
    {
      i := 0;
      assert q[0..] == q;
      while i < |q| && (q[i].canceled || q[i].key != k)
        invariant i <= |q| && FindJob(q, k) == i + FindJob(q[i..], k)
      {
        assert q[i..][1..] == q[i + 1..];
        i := i + 1;
      }
    }

    /** vmCancelThreadedIOJob, one pass over the three queues. `again` means that a thread
        holds the job: the caller releases the lock, waits and tries again. */
    method CancelThreadedIOJob(k: Key) returns (again: bool)
      requires Valid() && k in keys && (keys[k].Loading? || keys[k].Swapping?)
      modifies this`keys, this`newjobs, this`processed, this`usedPages, bitmap
      ensures again <==> FindJob(old(processing), k) < |old(processing)|
      ensures again ==> St() == old(St())
      ensures !again ==> CanCancel(old(St()), k) && St() == Cancel(old(St()), k)
    {
      hide Inv, FindJob, Undo, Whole;
      CancelNeverFallsThrough(St(), k);
      var i := SearchQueue(newjobs, k);
      if i < |newjobs| {
        NotTwice(St(), k);
        var job := newjobs[i];
        if job.kind == DoSwap {
          JobPagesUsed(St(), job);
          MarkPagesFree(job.page, job.pages);
        }
        newjobs := Remove(newjobs, i);
        keys := keys[k := Undo(keys[k])];
        return false;
      }
      i := SearchQueue(processing, k);
      if i < |processing| {
        return true;
      }
      i := SearchQueue(processed, k);
      assert i < |processed|;
      var job := processed[i];
      if job.kind == DoSwap {
        JobPagesUsed(St(), job);
        MarkPagesFree(job.page, job.pages);
      }
      processed := processed[i := job.(canceled := true)];
      keys := keys[k := Undo(keys[k])];
      return false;
    }

    // ------------------------------------------------------------ I/O threads

    /** A thread takes the oldest new job. */
    method TakeJob()
      requires Valid() && newjobs != []
      modifies this`newjobs, this`processing
      ensures Valid() && St() == Next(old(St()), StTake)
      ensures newjobs == old(newjobs)[1..] && processing == old(processing) + [old(newjobs)[0]]
    {
      hide Inv, Whole;
      TakeKeeps(St());
      processing := processing + [newjobs[0]];
      newjobs := newjobs[1..];
    }

    /** A thread does the I/O of a job it holds. */
    method PerformJob(i: nat)
      requires Valid() && i < |processing| && !processing[i].done
      modifies this`processing, this`file
      ensures Valid() && St() == Next(old(St()), StPerform(i))
      ensures var j := processing[i];
        && j.done && j.val.Some? && (j.kind == PrepareSwap ==> j.pages == PagesOf(j.val.value))
        && (j.kind != PrepareSwap ==> Read(file, j.page, j.vtype) == j.val)
    {
      hide Inv, Whole, Read, WriteValue, PagesOf;
      PerformKeeps(St(), i);
      ghost var s0 := St();
      var j := processing[i];
      match j.kind {
        case Load => j := j.(val := Read(file, j.page, j.vtype));
        case PrepareSwap => j := j.(pages := if j.val.Some? then PagesOf(j.val.value) else 0);
        case DoSwap => if j.val.Some? { file := WriteValue(file, j.page, j.val.value); }
      }
      processing := processing[i := j.(done := true)];
      PerformWrites(s0, i);
    }

    method FinishJob(i: nat)
      requires Valid() && i < |processing| && processing[i].done
      modifies this`processing, this`processed
      ensures Valid() && St() == Next(old(St()), StFinish(i))
      ensures processed == old(processed) + [old(processing)[i]]
      ensures processing == old(processing)[..i] + old(processing)[i + 1..]
    {
      hide Inv, Whole;
      FinishKeeps(St(), i);
      processed := processed + [processing[i]];
      processing := Remove(processing, i);
    }

    /** A LOAD job completed: the value comes home and the pages are given back. */
    method CompletedLoad()
      requires Valid() && processed != [] && !processed[0].canceled && processed[0].kind == Load
      modifies this, bitmap
      ensures nextPage == old(nextPage) && St() == Complete(old(St()), None)
    {
      hide Inv, UsedRange, SetRange, Live, Read, Whole;
      InvKeys(St());
      CompletedJob(St());
      var j := processed[0];
      KeyPagesUsed(St(), j.key);
      var st := keys[j.key];
      processed := processed[1..];
      keys := keys[j.key := Memory(j.val.value)];
      MarkPagesFree(st.page, st.pages);
      swappedObjects := swappedObjects - 1;
    }

    /** A PREPARE_SWAP job completed: queue the write, or undo the swap when a child is saving
        or no space was found. */
    method CompletedPrepare() returns (found: Option<nat>)
      requires Valid() && processed != [] && !processed[0].canceled && processed[0].kind == PrepareSwap
      modifies this, bitmap
      ensures nextPage <= bitmap.Length
      ensures found.Some? ==> FreeRange(old(bitmap[..]), found.value, old(processed[0].pages))
      ensures found.None? && CanSwapOut(old(St())) ==>
        NoneScanned(old(bitmap[..]), old(processed[0].pages), old(SearchBase()), Near(bitmap.Length))
      ensures St() == Complete(old(St()), found)
    {
      hide Inv, FreeRange, SetRange, Live, Read, NoneScanned, Whole;
      InvKeys(St());
      CompletedJob(St());
      var j := processed[0];
      processed := processed[1..];
      found := None;
      if bgsave.None? && bgrewrite.None? {
        var ok, first := FindContiguousPages(j.pages);
        found := if ok then Some(first) else None;
      }
      if found.None? {
        keys := keys[j.key := Undo(keys[j.key])];
      } else {
        MarkPagesUsed(found.value, j.pages);
        newjobs := newjobs + [j.(kind := DoSwap, page := found.value, done := false)];
      }
    }

    /** A DO_SWAP job completed: only now is the key swapped out. */
    method CompletedSwap()
      requires Valid() && processed != [] && !processed[0].canceled && processed[0].kind == DoSwap
      modifies this
      ensures nextPage == old(nextPage) && St() == Complete(old(St()), None)
    {
      hide Inv, Live, Whole;
      InvKeys(St());
      CompletedJob(St());
      var j := processed[0];
      processed := processed[1..];
      assert keys[j.key].Swapping?;
      keys := keys[j.key := Swapped(j.page, j.pages, j.vtype)];
      swappedObjects := swappedObjects + 1;
    }

    /** vmThreadedIOCompletedJob for one job. */
    method ProcessCompletedJob()
      requires Valid() && processed != []
      modifies this, bitmap
      ensures Valid()
      ensures exists found :: Enabled(old(St()), StComplete(found)) && St() == Next(old(St()), StComplete(found))
      ensures var j := old(processed[0]);
        !j.canceled && j.kind == PrepareSwap && CanSwapOut(old(St())) && St() == Complete(old(St()), None) ==>
          NoneScanned(old(bitmap[..]), j.pages, old(SearchBase()), Near(bitmap.Length))
    {
      hide Inv, FreeRange, SetRange, Complete, NoneScanned, Whole;
      ghost var s0 := St();
      var found: Option<nat> := None;
      if processed[0].canceled {
        DropCanceled();
      } else {
        match processed[0].kind {
          case Load => CompletedLoad();
          case PrepareSwap =>
            found := CompletedPrepare();
            if found.Some? && CanSwapOut(s0) { PagesMatter(s0, found.value); }
          case DoSwap => CompletedSwap();
        }
      }
      CompleteKeeps(s0, found);
      assert Enabled(s0, StComplete(found)) && St() == Next(s0, StComplete(found));
    }

    method DropCanceled()
      requires processed != [] && processed[0].canceled
      modifies this`processed
      ensures St() == Complete(old(St()), None)
    {
      processed := processed[1..];
    }

    // ------------------------------------------------------------ main thread

    /** vmSwapObjectThreaded, from a caller that checked vmCanSwapOut. */
    method SwapObjectThreaded(k: Key)
      requires Valid() && Enabled(St(), StSwapOut(k))
      modifies this`keys, this`newjobs
      ensures Valid() && St() == SwapOut(old(St()), k)
      ensures keys == old(keys)[k := Swapping(old(keys)[k].val)] && |Live(St(), k)| == 1
    {
      hide Inv, Whole;
      SwapOutKeeps(St(), k);
      SwapOutStarts(St(), k);
      var v := keys[k].val;
      keys := keys[k := Swapping(v)];
      newjobs := newjobs + [Job(PrepareSwap, k, Some(v), v.vtype, 0, 0, false, false)];
    }

    /** vmSwapObjectBlocking, from a caller that checked vmCanSwapOut. */
    method SwapObjectBlocking(k: Key) returns (ok: bool)
      requires Valid() && Enabled(St(), StSwapOut(k))
      modifies this, bitmap
      ensures Valid() && (!ok ==> St() == old(St()))
      ensures !ok ==>
        NoneScanned(old(bitmap[..]), PagesOf(old(keys)[k].val), old(SearchBase()), Near(bitmap.Length))
      ensures ok ==> exists page ::
        Enabled(old(St()), StSwapOutBlocking(k, page)) && St() == SwapOutBlocking(old(St()), k, page)
    {
      hide Inv, SetRange, WriteValue, FreeRange, NoneScanned, PagesOf, Whole;
      ghost var s0 := St();
      var v := keys[k].val;
      var page;
      ok, page := FindContiguousPages(PagesOf(v));
      if !ok { return; }
      SwapOutBlockingKeeps(s0, k, page);
      file := WriteValue(file, page, v);
      keys := keys[k := Swapped(page, PagesOf(v), v.vtype)];
      MarkPagesUsed(page, PagesOf(v));
      swappedObjects := swappedObjects + 1;
      assert Enabled(s0, StSwapOutBlocking(k, page)) && St() == SwapOutBlocking(s0, k, page);
    }

    /** lookupKey. `again` means the main thread must first wait for an I/O thread. */
    method LookupKey(k: Key) returns (again: bool, v: Option<Value>)
      requires Valid()
      modifies this, bitmap
      ensures Valid() && (again ==> St() == old(St()))
      ensures !again ==> Reachable(old(St()), k) && St() == Lookup(old(St()), k)
      ensures !again ==> v == if k in Content(old(St())) then Some(Content(old(St()))[k]) else None
    {
      hide Inv, Cancel, CanCancel, Content, UsedRange, SetRange, Whole;
      ghost var s0 := St();
      again, v := false, None;
      if k in keys && (keys[k].Loading? || keys[k].Swapping?) {
        again := CancelThreadedIOJob(k);
        if again { return; }
      }
      SettleKeeps(s0, k);
      LookupKeeps(s0, k);
      LoadIfSwapped(k);
      v := if k in keys then Some(keys[k].val) else None;
    }

    /** vmGenericLoadObject for a key that has no job. */
    method LoadIfSwapped(k: Key)
      requires Valid() && (k in keys ==> keys[k].Swapped? || keys[k].Memory?)
      modifies this`keys, this`usedPages, this`swappedObjects, bitmap
      ensures St() == if k in old(keys) && old(keys)[k].Swapped? then BringIn(old(St()), k) else old(St())
    {
      hide Inv, UsedRange, SetRange, KeyStep, Read, Whole;
      if k in keys && keys[k].Swapped? {
        BringInStep(St(), k);
        KeyPagesUsed(St(), k);
        var st := keys[k];
        keys := keys[k := Memory(Read(file, st.page, st.vtype).value)];
        MarkPagesFree(st.page, st.pages);
        swappedObjects := swappedObjects - 1;
      }
    }

    /** deleteKey. */
    method DeleteKey(k: Key) returns (again: bool)
      requires Valid()
      modifies this, bitmap
      ensures Valid() && (again ==> St() == old(St()))
      ensures !again ==> Reachable(old(St()), k) && St() == Delete(old(St()), k)
      ensures !again ==> keys == old(keys) - {k} && Live(St(), k) == []
    {
      hide Inv, Cancel, CanCancel, UsedRange, SetRange, Live, Whole;
      ghost var s0 := St();
      again := false;
      if k in keys && (keys[k].Loading? || keys[k].Swapping?) {
        again := CancelThreadedIOJob(k);
        if again { return; }
      }
      SettleKeeps(s0, k);
      DeleteKeeps(s0, k);
      DeleteRemoves(s0, k);
      if k in keys && keys[k].Swapped? {
        KeyPagesUsed(St(), k);
        MarkPagesFree(keys[k].page, keys[k].pages);
        swappedObjects := swappedObjects - 1;
      }
      keys := keys - {k};
    }

    /** SET. */
    method SetKey(k: Key, v: Value) returns (again: bool)
      requires Valid()
      modifies this, bitmap
      ensures Valid() && (again ==> St() == old(St()))
      ensures !again ==> Reachable(old(St()), k) && St() == Store(old(St()), k, v)
      ensures !again ==> Content(St()) == Content(old(St()))[k := v]
    {
      hide Inv, Delete, CanCancel, Content, Whole;
      ghost var s0 := St();
      again := false;
      if k in keys && !keys[k].Memory? {
        again := DeleteKey(k);
        if again { return; }
      }
      StoreKeeps(s0, k, v);
      keys := keys[k := Memory(v)];
    }

    /** waitForSwappedKey; `wait` tells whether the client has to block. */
    method WaitForSwappedKey(k: Key) returns (again: bool, wait: bool)
      requires Valid()
      modifies this, bitmap
      ensures Valid() && (again ==> St() == old(St()))
      ensures !again ==> Enabled(old(St()), StWaitFor(k)) && St() == WaitFor(old(St()), k)
      ensures !again ==> (wait <==> k in keys && keys[k].Loading?)
      ensures !again ==> (wait <==> k in old(keys) && (old(keys)[k].Swapped? || old(keys)[k].Loading?))
      ensures !again && k in old(keys) && old(keys)[k].Swapped? ==>
        var st := old(keys)[k];
        && keys == old(keys)[k := Loading(st.page, st.pages, st.vtype)]
        && Live(St(), k) == [Job(Load, k, None, st.vtype, st.page, 0, false, false)]
    {
      hide Inv, Cancel, CanCancel, Live, Whole;
      again, wait := false, false;
      if k !in keys || keys[k].Memory? { return; }
      ghost var s0 := St();
      if keys[k].Swapping? {
        again := CancelThreadedIOJob(k);
        if !again {
          WaitForKeeps(s0, k);
          CancelKeeps(s0, k);
          CanceledIsMemory(s0, k);
        }
        return;
      }
      WaitForKeeps(s0, k);
      wait := true;
      if keys[k].Swapped? {
        WaitForLoads(s0, k);
        var st := keys[k];
        keys := keys[k := Loading(st.page, st.pages, st.vtype)];
        newjobs := newjobs + [Job(Load, k, None, st.vtype, st.page, 0, false, false)];
      }
    }

    /** waitEmptyIOJobsQueue: completes processed jobs while the threads work off the others, in
        any order. */
    method WaitEmptyIOJobsQueue()
      requires Valid()
      modifies this, bitmap
      ensures Valid() && newjobs == [] && processing == [] && Content(St()) == old(Content(St()))
      ensures bgsave == old(bgsave) && bgrewrite == old(bgrewrite)
    {
      hide Inv, Content, Work, Complete, Perform, Take, Finish, Whole;
      while newjobs != [] || processing != []
        invariant Valid() && Content(St()) == old(Content(St())) && bgsave == old(bgsave) && bgrewrite == old(bgrewrite)
        decreases Work(St())
      {
        DrainStep();
      }
    }

    /** A completion by the main thread, or a step of some thread. */
    method DrainStep()
      requires Valid() && (newjobs != [] || processing != [])
      modifies this, bitmap
      ensures Valid() && Content(St()) == old(Content(St())) && Work(St()) < old(Work(St()))
      ensures bgsave == old(bgsave) && bgrewrite == old(bgrewrite)
    {
      hide Inv, Content, Work, Complete, Perform, Take, Finish, FreeRange, Whole;
      ghost var s := St();
      if {
        case processed != [] =>
          ProcessCompletedJob();
          ghost var found :| Enabled(s, StComplete(found)) && St() == Next(s, StComplete(found));
          StepKeeps(s, StComplete(found));
          CompleteLess(s, found);
          SameChildren(s, found);
        case newjobs != [] =>
          StepKeeps(s, StTake);
          TakeLess(s);
          TakeJob();
        case processing != [] =>
          var i: nat :| i < |processing|;
          if processing[i].done {
            StepKeeps(s, StFinish(i));
            FinishLess(s, i);
            FinishJob(i);
          } else {
            StepKeeps(s, StPerform(i));
            PerformLess(s, i);
            PerformJob(i);
          }
      }
    }

    /** rdbSaveBackground: the child gets the key table once the queues are drained; refused while
        a saving child is alive. */
    method ForkSave() returns (ok: bool)
      requires Valid()
      modifies this, bitmap
      ensures Valid() && ok == old(bgsave.None?) && Content(St()) == old(Content(St()))
      ensures !ok ==> St() == old(St())
      ensures ok ==> newjobs == [] && processing == [] && bgsave == Some(Child(keys, old(Content(St()))))
      ensures bgrewrite == old(bgrewrite)
    {
      hide Inv, Content, ChildOk, Whole;
      if bgsave.Some? { return false; }
      WaitEmptyIOJobsQueue();
      ghost var s := St();
      ForkKeeps(s);
      StepKeeps(s, StForkSave);
      bgsave := Some(Child(keys, Content(St())));
      ok := true;
    }

    /** rewriteAppendOnlyFileBackground, likewise. */
    method ForkRewrite() returns (ok: bool)
      requires Valid()
      modifies this, bitmap
      ensures Valid() && ok == old(bgrewrite.None?) && Content(St()) == old(Content(St()))
      ensures !ok ==> St() == old(St())
      ensures ok ==> newjobs == [] && processing == [] && bgrewrite == Some(Child(keys, old(Content(St()))))
      ensures bgsave == old(bgsave)
    {
      hide Inv, Content, ChildOk, Whole;
      if bgrewrite.Some? { return false; }
      WaitEmptyIOJobsQueue();
      ghost var s := St();
      ForkKeeps(s);
      StepKeeps(s, StForkRewrite);
      bgrewrite := Some(Child(keys, Content(St())));
      ok := true;
    }
  }

  lemma SameChildren(s: State, found: Option<nat>)
    requires s.processed != []
    ensures Complete(s, found).bgsave == s.bgsave && Complete(s, found).bgrewrite == s.bgrewrite
  {
  }

  lemma CanceledIsMemory(s: State, k: Key)
    requires CanCancel(s, k) && s.keys[k].Swapping?
    ensures k in Cancel(s, k).keys && Cancel(s, k).keys[k].Memory?
  {
    hide FindJob, SetRange, Whole;
  }

  /** A live DO_SWAP job's pages are marked used. */
  lemma JobPagesUsed(s: State, j: Job)
    requires Inv(s) && !j.canceled && j.kind == DoSwap
    requires j in s.newjobs || j in s.processed
    ensures UsedRange(s.bitmap, j.page, j.pages)
  {
    hide UsedRange, Live, PagesOf, Whole;
    OneLiveJob(s, j);
    assert KeyOk(s.file, ViewOf(s, j.key));
    RangeIsUsed(s, j.key);
  }

  lemma KeyPagesUsed(s: State, k: Key)
    requires Inv(s) && k in s.keys && (s.keys[k].Swapped? || s.keys[k].Loading?)
    ensures UsedRange(s.bitmap, s.keys[k].page, s.keys[k].pages)
  {
    hide UsedRange, Live, Read, Whole;
    assert KeyOk(s.file, ViewOf(s, k));
    RangeIsUsed(s, k);
  }

  /** A job found in the new queue is not held by a thread. */
  /** Whether pages were found shows in the state. */
  lemma PagesMatter(s: State, first: nat)
    requires Inv(s) && s.processed != [] && !s.processed[0].canceled && s.processed[0].kind == PrepareSwap
    requires CanSwapOut(s) && FreeRange(s.bitmap, first, s.processed[0].pages)
    ensures Complete(s, Some(first)) != Complete(s, None)
  {
    hide Inv, Complete, FreeRange, SetRange, Live, Whole;
    PreparedGoesOn(s, Some(first));
    PreparedGoesOn(s, None);
  }
}
