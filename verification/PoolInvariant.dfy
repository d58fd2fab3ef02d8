/**
 What every step of the pool machine keeps, and what therefore holds over every
 interleaving of any number of threads.
 */
module PoolInvariant {
  import opened SizeClass
  import opened PoolMachine

  ghost predicate CounterOk(s: State, t: Tid, i: nat) {
    && CountAt(s, t, i) < SIZE_T
    && (i < SMALL_CLASSES ==> CountAt(s, t, i) == |ListAt(s, Local(t, i))| <= 64)
  }

  /** Batch sizes as `GetBatchNum` makes them: more than one block only in the classes up to 1 KB. */
  ghost predicate GoodBatch(i: nat, n: nat) {
    i < FREE_LIST_SIZE && 1 <= n <= 64 && (n > 1 ==> i < 128)
  }

  ghost predicate FetchedOk(s: State, t: Tid, i: nat, n: nat) {
    && (forall j :: j != i ==> ListAt(s, Flight(t, j)) == [])
    && PhaseAt(s, t).Fetched? && PhaseAt(s, t).index == i && PhaseAt(s, t).batchNum == n
    && ListAt(s, Flight(t, i)) != [] && ListAt(s, Local(t, i)) == []
    && |ListAt(s, Flight(t, i))| <= n && PhaseAt(s, t).realIncrease <= n
    && (i < SMALL_CLASSES ==> PhaseAt(s, t).realIncrease == |ListAt(s, Flight(t, i))|)
  }

  /** A thread has a chain in flight exactly while it is between two atomic steps. */
  ghost predicate FlightOk(s: State, t: Tid) {
    match PhaseAt(s, t)
    case Idle =>
      forall i :: ListAt(s, Flight(t, i)) == []
    case Fetched(i, n, inc) =>
      GoodBatch(i, n) && FetchedOk(s, t, i, n)
    case Returning(i, size, ret) =>
      var xs := ListAt(s, Flight(t, i));
      && (forall j :: j != i ==> ListAt(s, Flight(t, j)) == [])
      && size <= MAX_BYTE && i == GetIndex(size)
      && xs != [] && (i < SMALL_CLASSES ==> ret == |xs| == 49)
  }

  ghost predicate Inv(s: State) {
    && Consistent(s)
    && (forall t, i :: CounterOk(s, t, i))
    && (forall t :: FlightOk(s, t))
  }

  lemma InvIsConsistent(s: State)
    requires Inv(s)
    ensures Consistent(s)
  {
  }

  lemma EmptyInv()
    ensures Inv(EMPTY)
  {
    forall p: Place ensures ListOk(EMPTY, p) {
    }
  }

  /** Counters and phases do not matter to where the blocks are. */
  lemma ConsistentFrame(s: State, s': State)
    requires Consistent(s) && s'.extent == s.extent && s'.place == s.place && s'.lists == s.lists
    ensures Consistent(s')
  {
    forall p: Place ensures ListOk(s', p) {
      assert ListOk(s, p);
    }
    forall a | a in s'.place ensures Listed(s', a) && Sized(s', a) {
      assert Listed(s, a) && Sized(s, a);
    }
  }

  /** A step of thread t that touches only its own lists of class i, its phase and central lists. */
  ghost predicate StepOf(s: State, s': State, t: Tid, i: nat) {
    && (forall u, j :: u != t || j != i ==> ListAt(s', Local(u, j)) == ListAt(s, Local(u, j)))
    && (forall u, j :: u != t || j != i ==> CountAt(s', u, j) == CountAt(s, u, j))
    && (forall u, j :: u != t || j != i ==> ListAt(s', Flight(u, j)) == ListAt(s, Flight(u, j)))
    && (forall u :: u != t ==> PhaseAt(s', u) == PhaseAt(s, u))
  }

  lemma OthersKeepInv(s: State, s': State, t: Tid, i: nat)
    requires Inv(s) && Consistent(s')
    requires StepOf(s, s', t, i)
    requires CounterOk(s', t, i) && FlightOk(s', t)
    ensures Inv(s')
  {
    forall u, j ensures CounterOk(s', u, j) {
      assert CounterOk(s, u, j);
    }
    forall u ensures FlightOk(s', u) {
      assert FlightOk(s, u);
    }
  }

  lemma PopKeepsInv(s: State, t: Tid, i: nat)
    requires Inv(s) && PhaseAt(s, t).Idle? && ListAt(s, Local(t, i)) != []
    ensures Inv(DoPop(s, t, i))
  {
    var xs := ListAt(s, Local(t, i));
    assert xs == xs[..1] + xs[1..];
    assert CounterOk(s, t, i) && FlightOk(s, t);
    MoveConsistent(s, Local(t, i), xs[1..], Live(i), xs[..1]);
    var s1 := Move(s, Local(t, i), xs[1..], Live(i), xs[..1]);
    var s' := DoPop(s, t, i);
    ConsistentFrame(s1, s');
    OthersKeepInv(s, s', t, i);
  }

  lemma {:induction false} BlocksApart(start: Addr, size: nat, n: nat)
    requires size > 0 && start > 0
    ensures NoDup(Blocks(start, size, n)) && 0 !in Blocks(start, size, n)
    ensures forall a :: a in Blocks(start, size, n) ==> start <= a && a + size <= start + n * size
    ensures forall a, b :: a in Blocks(start, size, n) && b in Blocks(start, size, n) && a != b ==>
        Disjoint(a, size, b, size)
    decreases n
  {
    if n > 0 {
      var bs := Blocks(start + size, size, n - 1);
      BlocksApart(start + size, size, n - 1);
      assert (n - 1) * size + size == n * size;
      assert 0 <= (n - 1) * size;
      NoDupConcat([start], bs);
    }
  }

  lemma FreshIsNew(s: State, span: Addr, bytes: nat)
    requires Consistent(s) && FreshSpan(s, span, bytes)
    ensures forall b: Addr :: span <= b < span + bytes ==> b !in s.place
  {
    assert forall b :: b in s.place ==> Sized(s, b);
    assert forall b :: b in s.extent ==> Disjoint(b, s.extent[b], span, bytes);
  }

  lemma AddTwoConsistent(s: State, p: Place, xs: seq<Addr>, q: Place, ys: seq<Addr>, bytes: nat)
    requires Consistent(s) && CanAdd(s, p, xs + ys, bytes) && CanAdd(s, q, xs + ys, bytes)
    ensures Consistent(Add(Add(s, p, xs, bytes), q, ys, bytes))
  {
    NoDupSplit(xs, ys);
    assert forall a :: a in xs ==> a in xs + ys;
    assert forall a :: a in ys ==> a in xs + ys;
    AddConsistent(s, p, xs, bytes);
    var s1 := Add(s, p, xs, bytes);
    AddConsistent(s1, q, ys, bytes);
  }

  ghost predicate ReadyToFetch(s: State, t: Tid, i: nat) {
    PhaseAt(s, t).Idle? && ListAt(s, Local(t, i)) == []
  }

  lemma TakeIsStep(s: State, t: Tid, i: nat, n: nat)
    requires FlightOk(s, t) && ReadyToFetch(s, t, i) && ListAt(s, Central(i)) != [] && n > 0
    ensures StepOf(s, TakeFromCentral(s, t, i, n), t, i)
    ensures CountAt(TakeFromCentral(s, t, i, n), t, i) == CountAt(s, t, i)
    ensures FetchedOk(TakeFromCentral(s, t, i, n), t, i, n)
  {
  }

  lemma TakeConsistent(s: State, t: Tid, i: nat, n: nat)
    requires Consistent(s) && FlightOk(s, t) && ReadyToFetch(s, t, i)
    ensures Consistent(TakeFromCentral(s, t, i, n))
  {
    var c := ListAt(s, Central(i));
    var k := Min(n, |c|);
    assert c == c[..k] + c[k..];
    MoveConsistent(s, Central(i), c[k..], Flight(t, i), c[..k]);
    ConsistentFrame(Move(s, Central(i), c[k..], Flight(t, i), c[..k]), TakeFromCentral(s, t, i, n));
  }

  lemma CarveLists(s: State, t: Tid, i: nat, n: nat, blocks: seq<Addr>)
    ensures
      var s' := Carve(s, t, i, n, blocks);
      var k := Min(n, |blocks|);
      && ListAt(s', Flight(t, i)) == blocks[..k] + ListAt(s, Flight(t, i))
      && ListAt(s', Central(i)) == blocks[k..] + ListAt(s, Central(i))
      && (forall p: Place :: p != Flight(t, i) && p != Central(i) ==> ListAt(s', p) == ListAt(s, p))
      && s'.count == s.count && s'.phase == s.phase[t := Fetched(i, n, k)]
  {
  }

  lemma CarveIsStep(s: State, t: Tid, i: nat, n: nat, blocks: seq<Addr>)
    requires FlightOk(s, t) && ReadyToFetch(s, t, i) && n > 0 && blocks != []
    ensures StepOf(s, Carve(s, t, i, n, blocks), t, i)
    ensures CountAt(Carve(s, t, i, n, blocks), t, i) == CountAt(s, t, i)
    ensures FetchedOk(Carve(s, t, i, n, blocks), t, i, n)
  {
    hide Carve;
    CarveLists(s, t, i, n, blocks);
  }

  /** What a span granted for class i gives: blocks for a small class, itself for a large one. */
  ghost predicate GoodSpan(s: State, i: nat, span: Addr, blocks: seq<Addr>, bytes: nat) {
    && span != 0 && FreshSpan(s, span, bytes) && BlockBytes(i) <= bytes
    && (blocks == [] <==> SMALL_CLASSES <= i)
    && (i < 128 ==> 1 < |blocks|)
    && NoDup(blocks) && 0 !in blocks
    && (blocks != [] ==> blocks[0] == span)
    && (forall b :: b in blocks ==> span <= b && b + BlockBytes(i) <= span + bytes)
    && (forall a, b :: a in blocks && b in blocks && a != b ==> Disjoint(a, BlockBytes(i), b, BlockBytes(i)))
  }

  lemma PagesFit(size: nat, pages: nat)
    requires pages == (size + PAGE_SIZE - 1) / PAGE_SIZE
    ensures size <= pages * PAGE_SIZE
  {
  }

  lemma Multiple(size: nat, total: nat)
    ensures total > 0 ==> size <= total * size
    ensures total <= 1 ==> total * size <= size
  {
    if total > 0 { assert total * size == (total - 1) * size + size; }
  }

  lemma BlocksInSpan(size: nat, total: nat, rest: nat)
    requires SPAN_BYTES == total * size + rest && rest < size
    ensures total == 0 <==> SPAN_BYTES < size
    ensures size <= 1024 ==> 1 < total
    ensures total > 0 ==> size <= total * size
  {
    Multiple(size, total);
  }

  /** How many blocks a span gives, and that they fit. */
  lemma SpanFits(i: nat, size: nat, total: nat)
    requires size == BlockBytes(i) && total == SPAN_BYTES / size
    ensures size <= CarvedBytes(i) && (total == 0 <==> SMALL_CLASSES <= i) && (i < 128 ==> 1 < total)
    ensures total > 0 ==> total * size == CarvedBytes(i)
  {
    BlocksInSpan(size, total, SPAN_BYTES % size);
    PagesFit(size, (size + PAGE_SIZE - 1) / PAGE_SIZE);
  }

  lemma FirstBlock(span: Addr, size: nat, total: nat)
    requires total > 0
    ensures Blocks(span, size, total)[0] == span
  {
  }

  lemma FreshSpanIsGood(s: State, i: nat, span: Addr)
    requires span != 0 && FreshSpan(s, span, CarvedBytes(i))
    ensures GoodSpan(s, i, span, SpanBlocks(span, i), CarvedBytes(i))
  {
    hide Blocks, CarvedBytes, FreshSpan;
    var size := BlockBytes(i);
    var total := SPAN_BYTES / size;
    SpanFits(i, size, total);
    BlocksApart(span, size, total);
    if total > 0 { FirstBlock(span, size, total); }
  }

  lemma BatchIsGood(i: nat)
    requires i < FREE_LIST_SIZE
    ensures GoodBatch(i, GetBatchNum(BlockBytes(i)))
  {
  }

  lemma GoodSpanCanAdd(s: State, i: nat, span: Addr, bs: seq<Addr>, bytes: nat, to: Place)
    requires GoodSpan(s, i, span, bs, bytes) && IsList(to) && ClassOf(to) == i
    ensures CanAdd(s, to, bs, BlockBytes(i))
  {
    forall a, b | a in s.extent && b in bs ensures Disjoint(a, s.extent[a], b, BlockBytes(i)) {
      assert Disjoint(a, s.extent[a], span, bytes);
    }
  }

  lemma CarveConsistent(s: State, t: Tid, i: nat, n: nat, span: Addr, bs: seq<Addr>, bytes: nat)
    requires Consistent(s) && GoodSpan(s, i, span, bs, bytes)
    ensures Consistent(Carve(s, t, i, n, bs))
  {
    var size := BlockBytes(i);
    var k := Min(n, |bs|);
    assert bs == bs[..k] + bs[k..];
    GoodSpanCanAdd(s, i, span, bs, bytes, Flight(t, i));
    GoodSpanCanAdd(s, i, span, bs, bytes, Central(i));
    AddTwoConsistent(s, Flight(t, i), bs[..k], Central(i), bs[k..], size);
    ConsistentFrame(Add(Add(s, Flight(t, i), bs[..k], size), Central(i), bs[k..], size), Carve(s, t, i, n, bs));
  }

  lemma LargeIsStep(s: State, t: Tid, i: nat, n: nat, span: Addr, bytes: nat)
    requires Consistent(s) && FlightOk(s, t) && ReadyToFetch(s, t, i) && n > 0
    requires SMALL_CLASSES <= i && FreshSpan(s, span, bytes) && BlockBytes(i) <= bytes
    ensures
      var s' := SetPhase(Add(s, Flight(t, i), [span], bytes), t, Fetched(i, n, 0));
      && Consistent(s') && StepOf(s, s', t, i) && CountAt(s', t, i) == CountAt(s, t, i) && FetchedOk(s', t, i, n)
  {
    AddConsistent(s, Flight(t, i), [span], bytes);
    var s1 := Add(s, Flight(t, i), [span], bytes);
    ConsistentFrame(s1, SetPhase(s1, t, Fetched(i, n, 0)));
  }

  lemma FetchKeepsInv(s: State, t: Tid, i: nat, n: nat, span: Addr, blocks: seq<Addr>, bytes: nat)
    requires Inv(s) && ReadyToFetch(s, t, i) && GoodBatch(i, n)
    requires ListAt(s, Central(i)) == [] && span != 0 ==> GoodSpan(s, i, span, blocks, bytes)
    ensures Inv(DoFetch(s, t, i, n, span, blocks, bytes))
  {
    assert FlightOk(s, t) && CounterOk(s, t, i);
    var s' := DoFetch(s, t, i, n, span, blocks, bytes);
    if ListAt(s, Central(i)) != [] {
      TakeConsistent(s, t, i, n);
      TakeIsStep(s, t, i, n);
      OthersKeepInv(s, s', t, i);
    } else if span != 0 {
      if blocks != [] {
        CarveConsistent(s, t, i, n, span, blocks, bytes);
        CarveIsStep(s, t, i, n, blocks);
      } else {
        LargeIsStep(s, t, i, n, span, bytes);
      }
      OthersKeepInv(s, s', t, i);
    }
  }

  lemma FinishConsistent(s: State, t: Tid)
    requires Consistent(s) && PhaseAt(s, t).Fetched?
    ensures Consistent(DoFinish(s, t))
  {
    var i := PhaseAt(s, t).index;
    var xs := ListAt(s, Flight(t, i));
    if xs != [] {
      assert xs == xs[..1] + xs[1..];
      MoveConsistent(s, Flight(t, i), xs[1..], Live(i), xs[..1]);
      var s1 := Move(s, Flight(t, i), xs[1..], Live(i), xs[..1]);
      MoveConsistent(s1, Flight(t, i), [], Local(t, i), xs[1..]);
      ConsistentFrame(Move(s1, Flight(t, i), [], Local(t, i), xs[1..]), DoFinish(s, t));
    }
  }

  /** What a finish does to the lists, the counter and the phase. */
  lemma FinishLists(s: State, t: Tid, i: nat)
    requires PhaseAt(s, t).Fetched? && PhaseAt(s, t).index == i && ListAt(s, Flight(t, i)) != []
    ensures
      var s', xs := DoFinish(s, t), ListAt(s, Flight(t, i));
      && ListAt(s', Flight(t, i)) == [] && ListAt(s', Local(t, i)) == xs[1..] + ListAt(s, Local(t, i))
      && (forall p: Place :: p != Local(t, i) && p != Flight(t, i) ==> ListAt(s', p) == ListAt(s, p))
      && s'.count == s.count[(t, i) := CountAfterFetch(CountAt(s, t, i), PhaseAt(s, t).realIncrease)]
      && s'.phase == s.phase[t := Idle]
  {
  }

  lemma FinishIsStep(s: State, t: Tid, i: nat, n: nat)
    requires FetchedOk(s, t, i, n) && n <= 64 && CounterOk(s, t, i)
    ensures StepOf(s, DoFinish(s, t), t, i)
    ensures FlightOk(DoFinish(s, t), t) && CounterOk(DoFinish(s, t), t, i)
  {
    hide FinishChain, DoFinish;
    FinishLists(s, t, i);
  }

  lemma FinishKeepsInv(s: State, t: Tid)
    requires Inv(s) && PhaseAt(s, t).Fetched?
    ensures Inv(DoFinish(s, t))
  {
    var i := PhaseAt(s, t).index;
    assert FlightOk(s, t) && CounterOk(s, t, i);
    FinishConsistent(s, t);
    FinishIsStep(s, t, i, PhaseAt(s, t).batchNum);
    OthersKeepInv(s, DoFinish(s, t), t, i);
  }

  /** The list of class i after the freed block has been pushed, before it is cut. */
  function Pushed(s: State, t: Tid, p: Addr, i: nat): State
    requires p in s.place
  {
    SetCount(Move(s, s.place[p], [], Local(t, i), [p]), t, i, Wrap(CountAt(s, t, i) + 1))
  }

  lemma PushedConsistent(s: State, t: Tid, p: Addr, i: nat)
    requires Consistent(s) && p in s.place && s.place[p].Live? && i <= s.place[p].index
    ensures Consistent(Pushed(s, t, p, i))
  {
    MoveConsistent(s, s.place[p], [], Local(t, i), [p]);
    ConsistentFrame(Move(s, s.place[p], [], Local(t, i), [p]), Pushed(s, t, p, i));
  }

  /** What the push does to the lists, the counter, the phase and the place of the block. */
  lemma PushedLists(s: State, t: Tid, p: Addr, i: nat)
    requires p in s.place && s.place[p].Live?
    ensures
      var s' := Pushed(s, t, p, i);
      && ListAt(s', Local(t, i)) == [p] + ListAt(s, Local(t, i))
      && (forall q: Place :: q != Local(t, i) ==> ListAt(s', q) == ListAt(s, q))
      && s'.count == s.count[(t, i) := Wrap(CountAt(s, t, i) + 1)] && s'.phase == s.phase
      && s'.place == s.place[p := Local(t, i)]
  {
  }

  lemma PushedIsStep(s: State, t: Tid, p: Addr, i: nat)
    requires CounterOk(s, t, i) && FlightOk(s, t) && PhaseAt(s, t).Idle?
    requires p in s.place && s.place[p].Live?
    ensures StepOf(s, Pushed(s, t, p, i), t, i)
    ensures FlightOk(Pushed(s, t, p, i), t) && PhaseAt(Pushed(s, t, p, i), t).Idle?
    ensures CountAt(Pushed(s, t, p, i), t, i) < SIZE_T
    ensures i < SMALL_CLASSES ==>
              CountAt(Pushed(s, t, p, i), t, i) == |ListAt(Pushed(s, t, p, i), Local(t, i))| <= 65
  {
  }

  lemma TrimConsistent(s: State, t: Tid, i: nat, size: nat)
    requires Consistent(s) && FlightOk(s, t) && PhaseAt(s, t).Idle?
    ensures Consistent(DoTrim(s, t, i, size))
  {
    var xs := ListAt(s, Local(t, i));
    var keep := KeepNum(CountAt(s, t, i));
    if 64 < CountAt(s, t, i) && keep <= |xs| {
      assert xs == xs[..keep] + xs[keep..];
      MoveConsistent(s, Local(t, i), xs[..keep], Flight(t, i), xs[keep..]);
      ConsistentFrame(Move(s, Local(t, i), xs[..keep], Flight(t, i), xs[keep..]), DoTrim(s, t, i, size));
    }
  }

  /** What the cut of a long list does to the lists, the counter and the phase. */
  lemma TrimLists(s: State, t: Tid, i: nat, size: nat)
    requires 64 < CountAt(s, t, i) && KeepNum(CountAt(s, t, i)) <= |ListAt(s, Local(t, i))|
    ensures
      var keep := KeepNum(CountAt(s, t, i));
      var xs := ListAt(s, Local(t, i));
      var s' := DoTrim(s, t, i, size);
      && ListAt(s', Local(t, i)) == xs[..keep]
      && ListAt(s', Flight(t, i)) == xs[keep..] + ListAt(s, Flight(t, i))
      && (forall q: Place :: q != Local(t, i) && q != Flight(t, i) ==> ListAt(s', q) == ListAt(s, q))
      && s'.count == s.count[(t, i) := keep]
      && s'.phase == if xs[keep..] == [] then s.phase else s.phase[t := Returning(i, size, CountAt(s, t, i) - keep)]
  {
  }

  lemma TrimIsStep(s: State, t: Tid, i: nat, size: nat)
    requires FlightOk(s, t) && PhaseAt(s, t).Idle? && size <= MAX_BYTE && i == GetIndex(size)
    requires CountAt(s, t, i) < SIZE_T
    requires i < SMALL_CLASSES ==> CountAt(s, t, i) == |ListAt(s, Local(t, i))| <= 65
    ensures StepOf(s, DoTrim(s, t, i, size), t, i)
    ensures FlightOk(DoTrim(s, t, i, size), t) && CounterOk(DoTrim(s, t, i, size), t, i)
  {
    hide GetIndex;
    if 64 < CountAt(s, t, i) && KeepNum(CountAt(s, t, i)) <= |ListAt(s, Local(t, i))| {
      TrimLists(s, t, i, size);
      hide DoTrim;
    } else {
      assert DoTrim(s, t, i, size) == s;
    }
  }

  lemma StepOfTwice(s: State, s1: State, s2: State, t: Tid, i: nat)
    requires StepOf(s, s1, t, i) && StepOf(s1, s2, t, i)
    ensures StepOf(s, s2, t, i)
  {
  }

  lemma FreeKeepsInv(s: State, t: Tid, p: Addr, size: nat)
    requires Inv(s) && size <= MAX_BYTE && PhaseAt(s, t).Idle?
    requires p in s.place && s.place[p].Live? && GetIndex(size) <= s.place[p].index
    ensures Inv(DoFree(s, t, p, size))
  {
    var i := GetIndex(size);
    assert FlightOk(s, t) && CounterOk(s, t, i);
    PushedConsistent(s, t, p, i);
    PushedIsStep(s, t, p, i);
    var s1 := Pushed(s, t, p, i);
    TrimConsistent(s1, t, i, size);
    TrimIsStep(s1, t, i, size);
    StepOfTwice(s, s1, DoFree(s, t, p, size), t, i);
    OthersKeepInv(s, DoFree(s, t, p, size), t, i);
  }

  lemma ReturnConsistent(s: State, t: Tid)
    requires Consistent(s) && PhaseAt(s, t).Returning?
    ensures Consistent(DoReturn(s, t))
  {
    var Returning(i, size, ret) := PhaseAt(s, t);
    var xs := ListAt(s, Flight(t, i));
    var m := Spliced(|xs|, ReturnBound(size, ret));
    if xs != [] {
      assert xs == xs[..m] + xs[m..];
      MoveConsistent(s, Flight(t, i), xs[..m], Lost, xs[m..]);
      var s1 := Move(s, Flight(t, i), xs[..m], Lost, xs[m..]);
      MoveConsistent(s1, Flight(t, i), [], Central(i), xs[..m]);
      ConsistentFrame(Move(s1, Flight(t, i), [], Central(i), xs[..m]), DoReturn(s, t));
    }
  }

  lemma ReturnLists(s: State, t: Tid, i: nat, m: nat)
    requires 0 < m <= |ListAt(s, Flight(t, i))|
    ensures
      var xs := ListAt(s, Flight(t, i));
      var s' := ReturnChain(s, t, i, m);
      && ListAt(s', Central(i)) == xs[..m] + ListAt(s, Central(i))
      && ListAt(s', Flight(t, i)) == []
      && (forall p: Place :: p != Central(i) && p != Flight(t, i) ==> ListAt(s', p) == ListAt(s, p))
      && s'.count == s.count && s'.phase == s.phase[t := Idle]
  {
  }

  /** How many blocks a return splices. */
  lemma SplicedBlocks(s: State, t: Tid, i: nat) returns (m: nat)
    requires PhaseAt(s, t).Returning? && PhaseAt(s, t).index == i && ListAt(s, Flight(t, i)) != []
    ensures 0 < m <= |ListAt(s, Flight(t, i))| && DoReturn(s, t) == ReturnChain(s, t, i, m)
  {
    hide ReturnChain;
    var Returning(_, size, ret) := PhaseAt(s, t);
    m := Spliced(|ListAt(s, Flight(t, i))|, ReturnBound(size, ret));
  }

  lemma ReturnIsStep(s: State, t: Tid, i: nat)
    requires PhaseAt(s, t).Returning? && PhaseAt(s, t).index == i && FlightOk(s, t) && CounterOk(s, t, i)
    ensures StepOf(s, DoReturn(s, t), t, i)
    ensures FlightOk(DoReturn(s, t), t) && CounterOk(DoReturn(s, t), t, i)
  {
    hide ReturnChain, DoReturn;
    var m := SplicedBlocks(s, t, i);
    ReturnLists(s, t, i, m);
  }

  lemma ReturnKeepsInv(s: State, t: Tid)
    requires Inv(s) && PhaseAt(s, t).Returning?
    ensures Inv(DoReturn(s, t))
  {
    var i := PhaseAt(s, t).index;
    assert FlightOk(s, t) && CounterOk(s, t, i);
    ReturnConsistent(s, t);
    ReturnIsStep(s, t, i);
    OthersKeepInv(s, DoReturn(s, t), t, i);
  }

  lemma StepKeepsInv(s: State, step: Step)
    requires Inv(s) && Enabled(s, step)
    ensures Inv(Apply(s, step))
  {
    match step
    case Pop(t, size) => PopKeepsInv(s, t, GetIndex(size));
    case Fetch(t, size, span) =>
      GetIndexIsBestFit(size);
      var i := GetIndex(size);
      BatchIsGood(i);
      if ListAt(s, Central(i)) == [] && span != 0 { FreshSpanIsGood(s, i, span); }
      FetchKeepsInv(s, t, i, GetBatchNum(BlockBytes(i)), span, SpanBlocks(span, i), CarvedBytes(i));
    case Finish(t) => FinishKeepsInv(s, t);
    case Free(t, p, size) => FreeKeepsInv(s, t, p, size);
    case Return(t) => ReturnKeepsInv(s, t);
  }
}
