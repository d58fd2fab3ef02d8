/**
 The memory pool on top of the page cache.  The pool takes all its memory from spans of pages
 and never gives one back, so every span it asks for is memory that it does not have yet.
 */
module PoolOverPages {
  import opened SizeClass
  import opened PoolMachine
  import opened PoolInvariant
  import opened PoolTheorems
  import M = MemoryPool
  import P = PageCache
  import opened Wrappers

  /** The bytes from a on lie in the n pages from page b on. */
  ghost predicate Inside(a: Addr, bytes: nat, b: nat, n: nat) {
    b * PAGE_SIZE <= a && a + bytes <= (b + n) * PAGE_SIZE
  }

  ghost predicate InLiveSpan(live: map<nat, nat>, a: Addr, bytes: nat) {
    exists b :: b in live && Inside(a, bytes, b, live[b])
  }

  /** Every carved block lies in a live span of the page cache. */
  ghost predicate Backed(s: State, live: map<nat, nat>) {
    forall a :: a in s.extent ==> InLiveSpan(live, a, s.extent[a])
  }

  /** `fetchFromPageCache`: eight pages for blocks up to 32 KB, and as many as needed beyond. */
  function PagesFor(size: nat): (n: nat)
    requires size > 0
    ensures n > 0
  {
    if size <= SPAN_BYTES then SPAN_PAGES else (size + PAGE_SIZE - 1) / PAGE_SIZE
  }

  /** Eight pages, or for larger blocks the least number that holds one. */
  lemma PagesAreLeast(size: nat)
    requires size > 0
    ensures size <= 32768 ==> PagesFor(size) == 8
    ensures size > 32768 ==> size <= 4096 * PagesFor(size) && forall n: nat :: n < PagesFor(size) ==> n * 4096 < size
  {
  }

  lemma PagesHoldBlocks(i: nat)
    ensures CarvedBytes(i) <= PagesFor(BlockBytes(i)) * PAGE_SIZE
  {
    var size := BlockBytes(i);
    SpanFits(i, size, SPAN_BYTES / size);
    FloorFits(size, SPAN_BYTES / size, SPAN_BYTES % size);
  }

  lemma FloorFits(size: nat, total: nat, rest: nat)
    requires SPAN_BYTES == total * size + rest
    ensures total * size <= SPAN_PAGES * PAGE_SIZE
  {
  }

  /** Two spans without a common page have no common byte. */
  lemma RangesApart(live: map<nat, nat>, b: nat, r: nat, n: nat)
    requires P.Apart(live, r, n) && b in live && live[b] > 0 && n > 0
    ensures b + live[b] <= r || r + n <= b
  {
    var p := if r < b then b else r;
    assert P.Covers(P.Extent(b, live[b]), p) ==> P.CoveredBy(live, b, p);
    assert !(P.Covers(P.Extent(b, live[b]), p) && P.Covers(P.Extent(r, n), p));
  }

  lemma BytesApart(a: Addr, m: nat, b: nat, k: nat, r: nat, n: nat, bytes: nat)
    requires Inside(a, m, b, k) && bytes <= n * PAGE_SIZE && (b + k <= r || r + n <= b)
    ensures Disjoint(a, m, r * PAGE_SIZE, bytes)
  {
    if b + k <= r {
      assert (b + k) * PAGE_SIZE <= r * PAGE_SIZE;
    } else {
      assert (r + n) * PAGE_SIZE <= b * PAGE_SIZE;
    }
  }

  /** What the page cache grants is memory that the pool has not carved. */
  lemma GrantIsFresh(s: State, live: map<nat, nat>, r: nat, i: nat)
    requires Backed(s, live) && (forall b :: b in live ==> live[b] > 0)
    requires r > 0 && P.Apart(live, r, PagesFor(BlockBytes(i)))
    ensures FreshSpan(s, r * PAGE_SIZE, CarvedBytes(i))
  {
    hide P.Apart, CarvedBytes, PagesFor;
    var n := PagesFor(BlockBytes(i));
    PagesHoldBlocks(i);
    forall a | a in s.extent
      ensures Disjoint(a, s.extent[a], r * PAGE_SIZE, CarvedBytes(i))
    {
      assert InLiveSpan(live, a, s.extent[a]);
      var b :| b in live && Inside(a, s.extent[a], b, live[b]);
      RangesApart(live, b, r, n);
      BytesApart(a, s.extent[a], b, live[b], r, n, CarvedBytes(i));
    }
  }

  /** An extent of s' is one of s, or that of one of the blocks. */
  ghost predicate Grows(s: State, s': State, blocks: seq<Addr>, bytes: nat) {
    forall a :: a in s'.extent ==>
      (a in s.extent && s'.extent[a] == s.extent[a]) || (a in blocks && s'.extent[a] == bytes)
  }

  lemma CarveGrows(s: State, t: Tid, i: nat, n: nat, blocks: seq<Addr>)
    ensures Grows(s, Carve(s, t, i, n, blocks), blocks, BlockBytes(i))
  {
    var k := Min(n, |blocks|);
    assert blocks == blocks[..k] + blocks[k..];
    assert forall b :: b in blocks[..k] || b in blocks[k..] ==> b in blocks;
  }

  lemma DoFetchGrows(s: State, t: Tid, i: nat, n: nat, span: Addr, blocks: seq<Addr>, bytes: nat)
    ensures
      var s' := DoFetch(s, t, i, n, span, blocks, bytes);
      if ListAt(s, Central(i)) != [] || span == 0 then s'.extent == s.extent
      else if blocks != [] then Grows(s, s', blocks, BlockBytes(i))
      else Grows(s, s', [span], bytes)
  {
    CarveGrows(s, t, i, n, blocks);
    hide Carve;
  }

  /** The blocks that a fetch adds lie in the span. */
  lemma FetchAdds(s: State, t: Tid, i: nat, span: Addr)
    requires ListAt(s, Central(i)) == [] && span != 0 ==> FreshSpan(s, span, CarvedBytes(i))
    ensures
      var s' := FetchClass(s, t, i, span);
      forall a :: a in s'.extent ==>
        || (a in s.extent && s'.extent[a] == s.extent[a])
        || (span != 0 && ListAt(s, Central(i)) == [] && span <= a && a + s'.extent[a] <= span + CarvedBytes(i))
  {
    hide Blocks, CarvedBytes, DoFetch, FreshSpan, SpanBlocks, GetBatchNum;
    DoFetchGrows(s, t, i, GetBatchNum(BlockBytes(i)), span, SpanBlocks(span, i), CarvedBytes(i));
    if ListAt(s, Central(i)) == [] && span != 0 {
      FreshSpanIsGood(s, i, span);
    }
  }

  /** No other step carves anything. */
  lemma OnlyFetchCarves(s: State, step: Step)
    requires !step.Fetch?
    ensures Apply(s, step).extent == s.extent
  {
  }

  lemma StaysBacked(s: State, s': State, live: map<nat, nat>)
    requires Backed(s, live) && forall a :: a in s'.extent ==> a in s.extent && s'.extent[a] == s.extent[a]
    ensures Backed(s', live)
  {
    forall a | a in s'.extent
      ensures InLiveSpan(live, a, s'.extent[a])
    {
      assert InLiveSpan(live, a, s.extent[a]);
    }
  }

  lemma NewSpanBacks(s: State, s': State, live: map<nat, nat>, r: nat, n: nat, bytes: nat)
    requires Backed(s, live) && r !in live && bytes <= n * PAGE_SIZE
    requires forall a :: a in s'.extent ==>
      || (a in s.extent && s'.extent[a] == s.extent[a])
      || (r * PAGE_SIZE <= a && a + s'.extent[a] <= r * PAGE_SIZE + bytes)
    ensures Backed(s', live[r := n])
  {
    var live' := live[r := n];
    forall a | a in s'.extent
      ensures InLiveSpan(live', a, s'.extent[a])
    {
      if a in s.extent && s'.extent[a] == s.extent[a] {
        assert InLiveSpan(live, a, s.extent[a]);
        var b :| b in live && Inside(a, s.extent[a], b, live[b]);
        assert Inside(a, s'.extent[a], b, live'[b]);
      } else {
        assert Inside(a, s'.extent[a], r, live'[r]);
      }
    }
  }

  lemma LiveNotEmpty(spans: P.Spans, owner: map<nat, P.Id>, taken: set<P.Id>)
    requires P.Tiled(spans, owner)
    ensures forall b :: b in P.Part(spans, owner, taken) ==> P.Part(spans, owner, taken)[b] > 0
  {
  }

  lemma NotLiveYet(live: map<nat, nat>, r: nat, n: nat)
    requires P.Apart(live, r, n) && n > 0 && forall b :: b in live ==> live[b] > 0
    ensures r !in live
  {
    assert r in live ==> P.CoveredBy(live, r, r);
    assert P.Covers(P.Extent(r, n), r);
  }

  class PoolOverPages {
    const pool: M.MemoryPool
    const cache: P.PageCache

    ghost predicate Valid()
      reads this, pool, cache
    {
      && pool.Valid() && cache.Valid()
      && cache.lists == map[] && 0 !in cache.owner && Backed(pool.machine, cache.Live())
    }

    constructor ()
      ensures Valid() && fresh(pool) && fresh(cache) && pool.machine == EMPTY
    {
      hide P.Kept, P.Tiled, P.Registered, P.Part, P.Covers, M.Represents;
      pool := new M.MemoryPool();
      cache := new P.PageCache();
    }

    /** What the system may answer: no memory, or pages that it has not granted before, never page 0. */
    ghost predicate FromSystem(memory: Option<nat>, n: nat)
      reads cache
    {
      memory.Some? ==>
        memory.value > 0 &&
        forall p: nat :: P.Covers(P.Extent(memory.value, n), p) ==> p !in cache.owner && p != 0
    }

    /** `fetchFromPageCache`: fresh memory; the page cache never meets an empty bucket here. */
    method FetchFromPageCache(index: nat, memory: Option<nat>) returns (span: Addr, ghost page: nat)
      requires Valid() && FromSystem(memory, PagesFor(BlockBytes(index)))
      modifies cache
      ensures cache.Valid() && cache.lists == map[] && 0 !in cache.owner && span == page * PAGE_SIZE
      ensures if span == 0 then memory == None && cache.Live() == old(cache.Live())
              else page !in old(cache.Live()) && cache.Live() == old(cache.Live())[page := PagesFor(BlockBytes(index))]
      ensures span != 0 ==> FreshSpan(pool.machine, span, CarvedBytes(index))
    {
      hide P.Kept, P.Tiled, P.Registered, P.Part, P.Apart, Backed, CarvedBytes, PagesFor;
      ghost var live := cache.Live();
      P.NoBuckets(cache.Value());
      var n := PagesFor(BlockBytes(index));
      LiveNotEmpty(cache.spans, cache.owner, cache.taken);
      var r, crashed := cache.AllocateSpan(n, memory);
      assert !crashed;
      if r.Some? {
        span, page := r.value * PAGE_SIZE, r.value;
        GrantIsFresh(pool.machine, live, page, index);
        NotLiveYet(live, page, n);
      } else {
        span, page := 0, 0;
      }
    }

    /** `fetchRange` with its call of the page cache. */
    method FetchRange(t: Tid, index: nat, memory: Option<nat>) returns (start: Addr)
      requires Valid() && index < FREE_LIST_SIZE && ReadyToFetch(pool.machine, t, index)
      requires FromSystem(memory, PagesFor(BlockBytes(index)))
      modifies pool, cache
      ensures Valid() && KeepsLive(old(pool.machine), pool.machine)
      ensures if start == 0 then pool.machine == old(pool.machine) && memory == None
              else PhaseAt(pool.machine, t).Fetched? && PhaseAt(pool.machine, t).index == index
    {
      hide P.Kept, P.Tiled, P.Registered, P.Part, P.Covers, Backed, CarvedBytes, PagesFor, FetchClass, FreshSpan,
        M.Represents, ReadyToFetch, KeepsLive, GetIndex, M.GetOr;
      ghost var s, live := pool.machine, cache.Live();
      var span := 0;
      ghost var page := 0;
      HeadOfCentral(index);
      if M.GetOr(pool.centralFreeList, index) == 0 {
        span, page := FetchFromPageCache(index, memory);
      }
      FetchAdds(s, t, index, span);
      start := pool.FetchRange(t, index, span);
      if span != 0 {
        PagesHoldBlocks(index);
        NewSpanBacks(s, pool.machine, live, page, PagesFor(BlockBytes(index)), CarvedBytes(index));
      } else {
        StaysBacked(s, pool.machine, live);
      }
    }

    /** `allocate` from the thread's own list. */
    method AllocateLocal(t: Tid, size: nat) returns (ptr: Addr)
      requires Valid() && Enabled(pool.machine, Pop(t, size))
      modifies pool
      ensures Valid() && M.HandedOut(old(pool.machine), pool.machine, ptr, GetIndex(size))
    {
      hide M.Represents, Backed, P.Kept, P.Tiled, P.Registered, DoPop, M.HandedOut;
      ghost var s := pool.machine;
      OnlyFetchCarves(s, Pop(t, size));
      ptr := pool.AllocateLocal(t, size);
      StaysBacked(s, pool.machine, cache.Live());
    }

    /** The end of an `allocate` that had to fetch. */
    method FinishFetch(t: Tid, index: nat) returns (ptr: Addr)
      requires PhaseAt(pool.machine, t).Fetched? && PhaseAt(pool.machine, t).index == index
      requires Valid()
      modifies pool
      ensures Valid() && M.HandedOut(old(pool.machine), pool.machine, ptr, index)
    {
      hide M.Represents, Backed, P.Kept, P.Tiled, P.Registered, DoFinish, M.HandedOut;
      ghost var s := pool.machine;
      OnlyFetchCarves(s, Finish(t));
      ptr := pool.FinishFetch(t);
      StaysBacked(s, pool.machine, cache.Live());
    }

    method Deallocate(t: Tid, ptr: Addr, size: nat)
      requires Valid() && Enabled(pool.machine, Free(t, ptr, size))
      modifies pool
      ensures Valid() && pool.machine == DoFree(old(pool.machine), t, ptr, size)
    {
      hide M.Represents, Backed, P.Kept, P.Tiled, P.Registered, DoFree;
      ghost var s := pool.machine;
      OnlyFetchCarves(s, Free(t, ptr, size));
      pool.Deallocate(t, ptr, size);
      StaysBacked(s, pool.machine, cache.Live());
    }

    method ReturnRange(t: Tid)
      requires Valid() && Enabled(pool.machine, Return(t))
      modifies pool
      ensures Valid() && pool.machine == DoReturn(old(pool.machine), t)
    {
      hide M.Represents, Backed, P.Kept, P.Tiled, P.Registered, DoReturn;
      ghost var s := pool.machine;
      OnlyFetchCarves(s, Return(t));
      pool.ReturnRange(t);
      StaysBacked(s, pool.machine, cache.Live());
    }

    lemma HeadOfCentral(index: nat)
      requires pool.Valid()
      ensures M.GetOr(pool.centralFreeList, index) == 0 <==> ListAt(pool.machine, Central(index)) == []
    {
      M.HeadIsNull(pool.next, pool.freeList, pool.centralFreeList, pool.chain, pool.machine, Central(index));
    }
  }
}
