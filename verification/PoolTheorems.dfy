/** The promises of the memory pool over every run of every number of threads. */
module PoolTheorems {
  import opened SizeClass
  import opened PoolMachine
  import opened PoolInvariant

  function Run(s: State, steps: seq<Step>): State
    decreases |steps|
  {
    if steps == [] then s else Run(Apply(s, steps[0]), steps[1..])
  }

  ghost predicate AllEnabled(s: State, steps: seq<Step>)
    decreases |steps|
  {
    steps == [] || (Enabled(s, steps[0]) && AllEnabled(Apply(s, steps[0]), steps[1..]))
  }

  lemma {:induction false} RunKeepsInv(s: State, steps: seq<Step>)
    requires Inv(s) && AllEnabled(s, steps)
    ensures Inv(Run(s, steps))
    decreases |steps|
  {
    if steps != [] {
      StepKeepsInv(s, steps[0]);
      RunKeepsInv(Apply(s, steps[0]), steps[1..]);
    }
  }

  // ----- Who owns a block -----

  ghost predicate IsLive(s: State, a: Addr) {
    a in s.place && s.place[a].Live?
  }

  ghost predicate OnList(s: State, a: Addr, p: Place) {
    a in ListAt(s, p)
  }

  /** A carved block is live, lost, or on one list, once; and no other address is on a list. */
  lemma ExclusiveOwnership(s: State)
    requires Inv(s)
    ensures forall a :: a in s.extent ==>
                          (exists p :: OnList(s, a, p)) || IsLive(s, a) || s.place[a] == Lost
    ensures forall a, p :: OnList(s, a, p) ==> a in s.extent && !IsLive(s, a) && s.place[a] != Lost
    ensures forall a, p, q :: OnList(s, a, p) && OnList(s, a, q) ==> p == q
    ensures forall p :: NoDup(ListAt(s, p))
  {
    forall a | a in s.extent ensures (exists p :: OnList(s, a, p)) || IsLive(s, a) || s.place[a] == Lost {
      assert Listed(s, a);
      if IsList(s.place[a]) { assert OnList(s, a, s.place[a]); }
    }
    forall a, p | OnList(s, a, p) ensures a in s.extent && s.place[a] == p && IsList(p) {
      assert ListOk(s, p);
    }
    forall p ensures NoDup(ListAt(s, p)) {
      assert ListOk(s, p);
    }
  }

  /** No two live blocks share a byte, and none is shorter than its class promises. */
  lemma LiveBlocksDisjoint(s: State, a: Addr, b: Addr)
    requires Inv(s) && IsLive(s, a) && IsLive(s, b) && a != b
    ensures BlockBytes(s.place[a].index) <= s.extent[a]
    ensures Disjoint(a, BlockBytes(s.place[a].index), b, BlockBytes(s.place[b].index))
  {
    assert Sized(s, a) && Sized(s, b);
    assert Disjoint(a, s.extent[a], b, s.extent[b]);
  }

  lemma PoolIsSafe(steps: seq<Step>, a: Addr, b: Addr)
    requires AllEnabled(EMPTY, steps)
    requires IsLive(Run(EMPTY, steps), a) && IsLive(Run(EMPTY, steps), b) && a != b
    ensures
      var s := Run(EMPTY, steps);
      Disjoint(a, BlockBytes(s.place[a].index), b, BlockBytes(s.place[b].index))
  {
    EmptyInv();
    RunKeepsInv(EMPTY, steps);
    LiveBlocksDisjoint(Run(EMPTY, steps), a, b);
  }

  /** What `allocate` returns: a block that was nobody's, long enough for the request. */
  lemma HandsOutUnownedBlock(s: State, step: Step)
    requires Inv(s) && Enabled(s, step) && (step.Pop? || step.Finish?)
    ensures
      var i := if step.Pop? then GetIndex(step.size) else PhaseAt(s, step.tid).index;
      exists a :: && a in s.extent && IsLive(Apply(s, step), a) && !IsLive(s, a)
                  && Apply(s, step).place[a] == Live(i) && BlockBytes(i) <= s.extent[a]
                  && (forall b :: b != a ==> IsLive(Apply(s, step), b) == IsLive(s, b))
  {
    var t := step.tid;
    assert FlightOk(s, t);
    var i := if step.Pop? then GetIndex(step.size) else PhaseAt(s, t).index;
    var from := if step.Pop? then Local(t, i) else Flight(t, i);
    var a := ListAt(s, from)[0];
    assert ListOk(s, from) && a in ListAt(s, from) && Sized(s, a);
    OnlyNewLive(s, step, from, a);
  }

  lemma OnlyNewLive(s: State, step: Step, from: Place, a: Addr)
    requires ListOk(s, from) && ListAt(s, from) != [] && a == ListAt(s, from)[0]
    requires if step.Pop? then from == Local(step.tid, GetIndex(step.size))
             else step.Finish? && PhaseAt(s, step.tid).Fetched? && from == Flight(step.tid, PhaseAt(s, step.tid).index)
    ensures IsLive(Apply(s, step), a) && Apply(s, step).place[a] == Live(ClassOf(from))
    ensures forall b :: b != a ==> IsLive(Apply(s, step), b) == IsLive(s, b)
  {
    hide GetIndex, CountAfterFetch, Wrap;
    assert NoDup(ListAt(s, from));
    var xs := ListAt(s, from);
    assert a !in xs[1..];
  }

  /** List counters in classes up to 32 KB are exact and at most 64 between a thread's calls and steps. */
  lemma CountersAreExact(steps: seq<Step>, t: Tid, i: nat)
    requires AllEnabled(EMPTY, steps) && i < SMALL_CLASSES
    ensures
      var s := Run(EMPTY, steps);
      CountAt(s, t, i) == |ListAt(s, Local(t, i))| <= 64
  {
    EmptyInv();
    RunKeepsInv(EMPTY, steps);
    assert CounterOk(Run(EMPTY, steps), t, i);
  }

  /** The cut of a list that has become too long never meets its end early: 16 blocks stay, 49 go. */
  lemma CutNeverEndsEarly(s: State, t: Tid, p: Addr, size: nat)
    requires Inv(s) && Enabled(s, Free(t, p, size)) && size <= SPAN_BYTES
    requires CountAt(s, t, GetIndex(size)) == 64
    ensures
      var s' := Apply(s, Free(t, p, size));
      var i := GetIndex(size);
      && |ListAt(s, Local(t, i))| == 64
      && ListAt(s', Local(t, i)) == ([p] + ListAt(s, Local(t, i)))[..16]
      && ListAt(s', Flight(t, i)) == ([p] + ListAt(s, Local(t, i)))[16..]
      && PhaseAt(s', t) == Returning(i, size, 49)
  {
    var i := GetIndex(size);
    GetIndexIsBestFit(size);
    assert CounterOk(s, t, i) && FlightOk(s, t);
    CutAtSixtyFive(Pushed(s, t, p, i), t, i, size);
  }

  lemma CutAtSixtyFive(s: State, t: Tid, i: nat, size: nat)
    requires CountAt(s, t, i) == 65 == |ListAt(s, Local(t, i))| && ListAt(s, Flight(t, i)) == []
    ensures
      var s' := DoTrim(s, t, i, size);
      var xs := ListAt(s, Local(t, i));
      && ListAt(s', Local(t, i)) == xs[..16] && ListAt(s', Flight(t, i)) == xs[16..]
      && PhaseAt(s', t) == Returning(i, size, 49)
  {
  }

  // ----- No block is lost -----

  function LostBlocks(s: State): set<Addr> {
    set a | a in s.place && s.place[a] == Lost
  }

  /** While frees name sizes up to 32 KB, chains are returned for small classes only. */
  ghost predicate SmallReturns(s: State) {
    forall t :: PhaseAt(s, t).Returning? ==> PhaseAt(s, t).index < SMALL_CLASSES
  }

  /** The central cache is handed a chain with a bound of zero bytes. */
  ghost predicate ReturnsWithZeroBound(s: State, step: Step) {
    step.Return? && PhaseAt(s, step.tid).Returning? && PhaseAt(s, step.tid).size == 0
  }

  lemma BoundOfFortyNine(size: nat)
    requires size <= SPAN_BYTES
    ensures if size == 0 then ReturnBound(size, 49) == 0 else 49 <= ReturnBound(size, 49)
  {
    hide GetIndex;
    GetIndexIsBestFit(size);
    if size > 0 {
      assert 49 <= 49 * RoundUp(size) < SIZE_T;
    }
  }

  /** In classes up to 32 KB the byte bound never cuts a chain short, unless it is zero. */
  lemma BoundCoversChain(s: State, t: Tid)
    requires Inv(s) && PhaseAt(s, t).Returning? && PhaseAt(s, t).index < SMALL_CLASSES
    ensures
      var Returning(i, size, ret) := PhaseAt(s, t);
      var n := |ListAt(s, Flight(t, i))|;
      n == 49 && Spliced(n, ReturnBound(size, ret)) == if size == 0 then 1 else n
  {
    hide ReturnBound;
    assert FlightOk(s, t);
    var size := PhaseAt(s, t).size;
    GetIndexIsBestFit(size);
    BoundOfFortyNine(size);
  }

  lemma ReturnLoses(s: State, t: Tid)
    requires Inv(s) && PhaseAt(s, t).Returning? && PhaseAt(s, t).index < SMALL_CLASSES
    ensures
      var xs := ListAt(s, Flight(t, PhaseAt(s, t).index));
      if PhaseAt(s, t).size == 0
      then |xs| == 49 && LostBlocks(Apply(s, Return(t))) == LostBlocks(s) + Elements(xs[1..])
      else LostBlocks(Apply(s, Return(t))) == LostBlocks(s)
  {
    BoundCoversChain(s, t);
    var i := PhaseAt(s, t).index;
    var xs := ListAt(s, Flight(t, i));
    assert ListOk(s, Flight(t, i));
    SplicedPlaces(s, t, i, xs, if PhaseAt(s, t).size == 0 then 1 else |xs|);
  }

  function Elements(xs: seq<Addr>): set<Addr> {
    set a | a in xs
  }

  lemma MoveLost(s: State, from: Place, rest: seq<Addr>, to: Place, moved: seq<Addr>)
    requires forall a :: a in moved ==> a in s.place && s.place[a] != Lost
    ensures LostBlocks(Move(s, from, rest, to, moved)) == LostBlocks(s) + if to == Lost then Elements(moved) else {}
  {
  }

  lemma AddLost(s: State, to: Place, blocks: seq<Addr>, bytes: nat)
    requires forall a :: a in blocks ==> a !in s.place
    requires to != Lost
    ensures LostBlocks(Add(s, to, blocks, bytes)) == LostBlocks(s)
  {
  }

  lemma TwoMovesLost(s: State, from: Place, kept: seq<Addr>, dropped: seq<Addr>, to: Place)
    requires IsList(from) && ListAt(s, from) == kept + dropped && ListOk(s, from) && to != Lost
    ensures LostBlocks(Move(Move(s, from, kept, Lost, dropped), from, [], to, kept)) ==
        LostBlocks(s) + Elements(dropped)
  {
    NoDupSplit(kept, dropped);
    assert forall a :: a in kept ==> a in ListAt(s, from);
    assert forall a :: a in dropped ==> a in ListAt(s, from);
    MoveLost(s, from, kept, Lost, dropped);
    MoveLost(Move(s, from, kept, Lost, dropped), from, [], to, kept);
  }

  lemma SplicedPlaces(s: State, t: Tid, i: nat, xs: seq<Addr>, m: nat)
    requires PhaseAt(s, t).Returning? && PhaseAt(s, t).index == i
    requires xs == ListAt(s, Flight(t, i)) && xs != [] && ListOk(s, Flight(t, i))
    requires m == Spliced(|xs|, ReturnBound(PhaseAt(s, t).size, PhaseAt(s, t).returnNum))
    ensures LostBlocks(Apply(s, Return(t))) == LostBlocks(s) + Elements(xs[m..])
  {
    assert xs == xs[..m] + xs[m..];
    TwoMovesLost(s, Flight(t, i), xs[..m], xs[m..], Central(i));
  }

  lemma PopLosesNothing(s: State, t: Tid, i: nat)
    requires ListOk(s, Local(t, i))
    ensures LostBlocks(DoPop(s, t, i)) == LostBlocks(s)
  {
    var xs := ListAt(s, Local(t, i));
    if xs != [] {
      MoveLost(s, Local(t, i), xs[1..], Live(i), xs[..1]);
    }
  }

  lemma FreeLosesNothing(s: State, t: Tid, p: Addr, size: nat)
    requires Inv(s) && Enabled(s, Free(t, p, size))
    ensures LostBlocks(DoFree(s, t, p, size)) == LostBlocks(s)
  {
    var i := GetIndex(size);
    assert CounterOk(s, t, i) && FlightOk(s, t);
    PushedConsistent(s, t, p, i);
    MoveLost(s, s.place[p], [], Local(t, i), [p]);
    TrimLosesNothing(Pushed(s, t, p, i), t, i, size);
  }

  lemma TrimLosesNothing(s: State, t: Tid, i: nat, size: nat)
    requires Consistent(s)
    ensures LostBlocks(DoTrim(s, t, i, size)) == LostBlocks(s)
  {
    var xs := ListAt(s, Local(t, i));
    var keep := KeepNum(CountAt(s, t, i));
    assert ListOk(s, Local(t, i));
    if keep <= |xs| {
      assert forall a :: a in xs[keep..] ==> a in xs;
      MoveLost(s, Local(t, i), xs[..keep], Flight(t, i), xs[keep..]);
    }
  }

  lemma TakeLosesNothing(s: State, t: Tid, i: nat, n: nat)
    requires ListOk(s, Central(i))
    ensures LostBlocks(TakeFromCentral(s, t, i, n)) == LostBlocks(s)
  {
    var c := ListAt(s, Central(i));
    var k := Min(n, |c|);
    assert forall a :: a in c[..k] ==> a in c;
    MoveLost(s, Central(i), c[k..], Flight(t, i), c[..k]);
  }

  lemma CarveLosesNothing(s: State, t: Tid, i: nat, n: nat, blocks: seq<Addr>)
    requires NoDup(blocks) && forall a :: a in blocks ==> a !in s.place
    ensures LostBlocks(Carve(s, t, i, n, blocks)) == LostBlocks(s)
  {
    var k := Min(n, |blocks|);
    assert blocks == blocks[..k] + blocks[k..];
    NoDupSplit(blocks[..k], blocks[k..]);
    assert forall a :: a in blocks[..k] ==> a in blocks;
    assert forall a :: a in blocks[k..] ==> a in blocks;
    AddLost(s, Flight(t, i), blocks[..k], BlockBytes(i));
    AddLost(Add(s, Flight(t, i), blocks[..k], BlockBytes(i)), Central(i), blocks[k..], BlockBytes(i));
  }

  lemma FetchLosesNothing(s: State, t: Tid, i: nat, n: nat, span: Addr, blocks: seq<Addr>, bytes: nat)
    requires Consistent(s)
    requires ListAt(s, Central(i)) == [] && span != 0 ==> GoodSpan(s, i, span, blocks, bytes)
    ensures LostBlocks(DoFetch(s, t, i, n, span, blocks, bytes)) == LostBlocks(s)
  {
    if ListAt(s, Central(i)) != [] {
      assert ListOk(s, Central(i));
      TakeLosesNothing(s, t, i, n);
    } else if span != 0 {
      FreshIsNew(s, span, bytes);
      if blocks != [] {
        CarveLosesNothing(s, t, i, n, blocks);
      } else {
        AddLost(s, Flight(t, i), [span], bytes);
      }
    }
  }

  lemma FinishLosesNothing(s: State, t: Tid)
    requires Consistent(s) && PhaseAt(s, t).Fetched?
    ensures LostBlocks(DoFinish(s, t)) == LostBlocks(s)
  {
    var i := PhaseAt(s, t).index;
    var xs := ListAt(s, Flight(t, i));
    assert ListOk(s, Flight(t, i));
    if xs != [] {
      assert xs == xs[..1] + xs[1..];
      NoDupSplit(xs[..1], xs[1..]);
      MoveLost(s, Flight(t, i), xs[1..], Live(i), xs[..1]);
      MoveLost(Move(s, Flight(t, i), xs[1..], Live(i), xs[..1]), Flight(t, i), [], Local(t, i), xs[1..]);
    }
  }

  /** No other step loses a block. */
  lemma OthersLoseNothing(s: State, step: Step)
    requires Inv(s) && Enabled(s, step) && !step.Return?
    ensures LostBlocks(Apply(s, step)) == LostBlocks(s)
  {
    match step
    case Pop(t, size) =>
      assert ListOk(s, Local(t, GetIndex(size)));
      PopLosesNothing(s, t, GetIndex(size));
    case Fetch(t, size, span) =>
      var i := GetIndex(size);
      if ListAt(s, Central(i)) == [] && span != 0 { FreshSpanIsGood(s, i, span); }
      FetchLosesNothing(s, t, i, GetBatchNum(BlockBytes(i)), span, SpanBlocks(span, i), CarvedBytes(i));
    case Finish(t) => FinishLosesNothing(s, t);
    case Free(t, p, size) => FreeLosesNothing(s, t, p, size);
  }

  ghost predicate SmallFree(step: Step) {
    step.Free? ==> step.size <= SPAN_BYTES
  }

  lemma FreePhase(s: State, t: Tid, p: Addr, size: nat, u: Tid)
    ensures var ph := PhaseAt(DoFree(s, t, p, size), u);
            ph == PhaseAt(s, u) || (ph.Returning? && ph.index == GetIndex(size))
  {
  }

  lemma StepKeepsSmallReturns(s: State, step: Step)
    requires Enabled(s, step) && SmallReturns(s) && SmallFree(step)
    ensures SmallReturns(Apply(s, step))
  {
    forall u | PhaseAt(Apply(s, step), u).Returning? ensures PhaseAt(Apply(s, step), u).index < SMALL_CLASSES {
      if step.Free? {
        GetIndexIsBestFit(step.size);
        FreePhase(s, step.tid, step.ptr, step.size, u);
      }
      assert PhaseAt(s, u).Returning? ==> PhaseAt(s, u).index < SMALL_CLASSES;
    }
  }

  /** Some step of the run returns a chain with a bound of zero bytes. */
  ghost predicate EverReturnsWithZeroBound(s: State, steps: seq<Step>)
    decreases |steps|
  {
    steps != [] && (ReturnsWithZeroBound(s, steps[0]) || EverReturnsWithZeroBound(Apply(s, steps[0]), steps[1..]))
  }

  lemma StepLosesIff(s: State, step: Step)
    requires Inv(s) && Enabled(s, step) && SmallReturns(s)
    ensures LostBlocks(s) <= LostBlocks(Apply(s, step))
    ensures LostBlocks(Apply(s, step)) == LostBlocks(s) <==> !ReturnsWithZeroBound(s, step)
  {
    if step.Return? {
      var t := step.tid;
      var xs := ListAt(s, Flight(t, PhaseAt(s, t).index));
      ReturnLoses(s, t);
      if PhaseAt(s, t).size == 0 {
        assert ListOk(s, Flight(t, PhaseAt(s, t).index));
        assert xs[1] in xs && xs[1] in xs[1..];
        assert xs[1] !in LostBlocks(s);
      }
    } else {
      OthersLoseNothing(s, step);
    }
  }

  /** Frees of at most 32 KB: a run loses a block exactly if it ever returns a chain freed with size 0. */
  lemma {:induction false} RunLosesIff(s: State, steps: seq<Step>)
    requires Inv(s) && SmallReturns(s) && AllEnabled(s, steps)
    requires forall k :: 0 <= k < |steps| ==> SmallFree(steps[k])
    ensures LostBlocks(s) <= LostBlocks(Run(s, steps))
    ensures LostBlocks(Run(s, steps)) == LostBlocks(s) <==> !EverReturnsWithZeroBound(s, steps)
    decreases |steps|
  {
    if steps != [] {
      assert SmallFree(steps[0]);
      StepLosesIff(s, steps[0]);
      StepKeepsInv(s, steps[0]);
      StepKeepsSmallReturns(s, steps[0]);
      RunLosesIff(Apply(s, steps[0]), steps[1..]);
    }
  }

  // ----- The same in terms of the calls -----

  /** The size of each thread's last free: the one that a return of the thread has in hand. */
  function LastFreed(last: map<Tid, nat>, step: Step): map<Tid, nat> {
    if step.Free? then last[step.tid := step.size] else last
  }

  /** A thread returns a chain to the central cache, and its last free was with size 0. */
  predicate ReturnsZeroFree(last: map<Tid, nat>, steps: seq<Step>)
    decreases |steps|
  {
    steps != [] &&
    ((steps[0].Return? && steps[0].tid in last && last[steps[0].tid] == 0) ||
     ReturnsZeroFree(LastFreed(last, steps[0]), steps[1..]))
  }

  /** A chain in flight knows the size of the free that cut it. */
  ghost predicate Remembered(s: State, last: map<Tid, nat>) {
    forall t :: PhaseAt(s, t).Returning? ==> t in last && last[t] == PhaseAt(s, t).size
  }

  lemma PhaseAfterFree(s: State, t: Tid, p: Addr, size: nat, u: Tid)
    requires PhaseAt(s, t).Idle?
    ensures var ph := PhaseAt(DoFree(s, t, p, size), u);
            if u != t then ph == PhaseAt(s, u) else ph.Returning? ==> ph.size == size
  {
  }

  lemma PhaseAfterOther(s: State, step: Step, u: Tid)
    requires !step.Free? && PhaseAt(Apply(s, step), u).Returning?
    ensures PhaseAt(Apply(s, step), u) == PhaseAt(s, u)
  {
  }

  lemma StepRemembers(s: State, step: Step, last: map<Tid, nat>)
    requires Enabled(s, step) && Remembered(s, last)
    ensures Remembered(Apply(s, step), LastFreed(last, step))
  {
    hide DoFree;
    forall u | PhaseAt(Apply(s, step), u).Returning?
      ensures u in LastFreed(last, step) && LastFreed(last, step)[u] == PhaseAt(Apply(s, step), u).size
    {
      if step.Free? {
        PhaseAfterFree(s, step.tid, step.ptr, step.size, u);
      } else {
        PhaseAfterOther(s, step, u);
      }
    }
  }

  lemma {:induction false} ZeroBoundIff(s: State, steps: seq<Step>, last: map<Tid, nat>)
    requires AllEnabled(s, steps) && Remembered(s, last)
    ensures EverReturnsWithZeroBound(s, steps) <==> ReturnsZeroFree(last, steps)
    decreases |steps|
  {
    if steps != [] {
      StepRemembers(s, steps[0], last);
      hide Apply;
      ZeroBoundIff(Apply(s, steps[0]), steps[1..], LastFreed(last, steps[0]));
    }
  }

  /**
   Frees of at most 32 KB: a run loses no block exactly if no thread ever returns a chain
   after a free with size 0.
   */
  lemma NoBlockIsLostIff(steps: seq<Step>)
    requires AllEnabled(EMPTY, steps) && forall k :: 0 <= k < |steps| ==> SmallFree(steps[k])
    ensures LostBlocks(Run(EMPTY, steps)) == {} <==> !ReturnsZeroFree(map[], steps)
  {
    EmptyInv();
    RunLosesIff(EMPTY, steps);
    ZeroBoundIff(EMPTY, steps, map[]);
  }

  lemma {:induction false} NoZeroFree(last: map<Tid, nat>, steps: seq<Step>)
    requires forall t :: t in last ==> last[t] > 0
    requires forall k :: 0 <= k < |steps| && steps[k].Free? ==> steps[k].size > 0
    ensures !ReturnsZeroFree(last, steps)
    decreases |steps|
  {
    if steps != [] {
      NoZeroFree(LastFreed(last, steps[0]), steps[1..]);
    }
  }

  /** Frees of 1 to 32768 bytes lose nothing, whatever the threads do. */
  lemma RealFreesLoseNothing(steps: seq<Step>)
    requires AllEnabled(EMPTY, steps)
    requires forall k :: 0 <= k < |steps| && steps[k].Free? ==> 0 < steps[k].size <= SPAN_BYTES
    ensures LostBlocks(Run(EMPTY, steps)) == {}
  {
    assert forall k :: 0 <= k < |steps| ==> SmallFree(steps[k]);
    NoZeroFree(map[], steps);
    NoBlockIsLostIff(steps);
  }

  // ----- A concrete run that loses blocks -----

  lemma {:induction false} RunSnoc(s: State, steps: seq<Step>, step: Step)
    ensures Run(s, steps + [step]) == Apply(Run(s, steps), step)
    ensures AllEnabled(s, steps + [step]) <==> AllEnabled(s, steps) && Enabled(Run(s, steps), step)
    decreases |steps|
  {
    if steps == [] {
      assert steps + [step] == [step];
    } else {
      assert (steps + [step])[1..] == steps[1..] + [step];
      RunSnoc(Apply(s, steps[0]), steps[1..], step);
    }
  }

  lemma {:induction false} ElementsCount(xs: seq<Addr>)
    requires NoDup(xs)
    ensures |Elements(xs)| == |xs|
  {
    if xs != [] {
      assert xs == [xs[0]] + xs[1..];
      NoDupSplit([xs[0]], xs[1..]);
      ElementsCount(xs[1..]);
      assert Elements(xs) == {xs[0]} + Elements(xs[1..]);
    }
  }

  /** A reachable state in which nothing has been lost. */
  ghost predicate Reached(s: State, steps: seq<Step>) {
    AllEnabled(EMPTY, steps) && s == Run(EMPTY, steps) && Inv(s) && LostBlocks(s) == {}
  }

  lemma Reach(s: State, steps: seq<Step>, step: Step) returns (s': State, steps': seq<Step>)
    requires Reached(s, steps) && Enabled(s, step) && !step.Return?
    ensures s' == Apply(s, step) && steps' == steps + [step] && Reached(s', steps')
  {
    s', steps' := Apply(s, step), steps + [step];
    RunSnoc(EMPTY, steps, step);
    StepKeepsInv(s, step);
    OthersLoseNothing(s, step);
  }

  ghost predicate KeepsLive(s: State, s': State) {
    forall b :: IsLive(s, b) ==> IsLive(s', b) && s'.place[b] == s.place[b]
  }

  lemma AddKeepsLive(s: State, to: Place, blocks: seq<Addr>, bytes: nat)
    requires forall b :: b in blocks ==> b !in s.place
    ensures KeepsLive(s, Add(s, to, blocks, bytes))
  {
  }

  lemma MoveKeepsLive(s: State, from: Place, rest: seq<Addr>, to: Place, moved: seq<Addr>)
    requires forall a :: a in moved ==> a in s.place && (!IsLive(s, a) || s.place[a] == to)
    ensures KeepsLive(s, Move(s, from, rest, to, moved))
  {
  }

  lemma CarveKeepsLive(s: State, t: Tid, i: nat, n: nat, blocks: seq<Addr>)
    requires NoDup(blocks) && forall b :: b in blocks ==> b !in s.place
    ensures KeepsLive(s, Carve(s, t, i, n, blocks))
  {
    var k := Min(n, |blocks|);
    assert blocks == blocks[..k] + blocks[k..];
    NoDupSplit(blocks[..k], blocks[k..]);
    assert forall a :: a in blocks[..k] ==> a in blocks;
    assert forall a :: a in blocks[k..] ==> a in blocks;
    var s1 := Add(s, Flight(t, i), blocks[..k], BlockBytes(i));
    AddKeepsLive(s, Flight(t, i), blocks[..k], BlockBytes(i));
    AddKeepsLive(s1, Central(i), blocks[k..], BlockBytes(i));
  }

  lemma TakeKeepsLive(s: State, t: Tid, i: nat, n: nat)
    requires ListOk(s, Central(i))
    ensures KeepsLive(s, TakeFromCentral(s, t, i, n))
  {
    var c := ListAt(s, Central(i));
    assert forall a :: a in c[..Min(n, |c|)] ==> a in c;
    MoveKeepsLive(s, Central(i), c[Min(n, |c|)..], Flight(t, i), c[..Min(n, |c|)]);
  }

  /** Fetching a batch leaves every live block live. */
  lemma FetchKeepsLive(s: State, t: Tid, i: nat, span: Addr)
    requires Inv(s)
    requires ListAt(s, Central(i)) == [] && span != 0 ==> FreshSpan(s, span, CarvedBytes(i))
    ensures KeepsLive(s, FetchClass(s, t, i, span))
  {
    var n := GetBatchNum(BlockBytes(i));
    assert ListOk(s, Central(i));
    TakeKeepsLive(s, t, i, n);
    if ListAt(s, Central(i)) == [] && span != 0 {
      FreshSpanIsGood(s, i, span);
      FreshIsNew(s, span, CarvedBytes(i));
      CarveKeepsLive(s, t, i, n, SpanBlocks(span, i));
      AddKeepsLive(s, Flight(t, i), [span], CarvedBytes(i));
    }
  }

  lemma CarveFacts(s: State, t: Tid, i: nat, n: nat, blocks: seq<Addr>)
    requires ListAt(s, Central(i)) == [] && n <= |blocks| && forall b :: b in blocks ==> b !in s.place
    requires NoDup(blocks)
    ensures |ListAt(Carve(s, t, i, n, blocks), Central(i))| == |blocks| - n
    ensures PhaseAt(Carve(s, t, i, n, blocks), t) == Fetched(i, n, n)
    ensures KeepsLive(s, Carve(s, t, i, n, blocks))
  {
    CarveKeepsLive(s, t, i, n, blocks);
  }

  lemma TakeFacts(s: State, t: Tid, i: nat, n: nat)
    requires ListOk(s, Central(i)) && n <= |ListAt(s, Central(i))|
    ensures PhaseAt(TakeFromCentral(s, t, i, n), t) == Fetched(i, n, n)
    ensures KeepsLive(s, TakeFromCentral(s, t, i, n))
  {
    TakeKeepsLive(s, t, i, n);
  }

  lemma CarveEight(s: State, t: Tid, span: Addr)
    requires Consistent(s) && ListAt(s, Central(0)) == [] && FreshSpan(s, span, CarvedBytes(0))
    requires FlightOk(s, t) && ReadyToFetch(s, t, 0)
    ensures
      var s' := FetchClass(s, t, 0, span);
      && StepOf(s, s', t, 0) && CountAt(s', t, 0) == CountAt(s, t, 0)
      && PhaseAt(s', t) == Fetched(0, 64, 64) && KeepsLive(s, s') && 64 <= |ListAt(s', Central(0))|
  {
    assert GetBatchNum(BlockBytes(0)) == 64;
    var total := SPAN_BYTES / BlockBytes(0);
    var bs := Blocks(span, BlockBytes(0), total);
    assert total == 4096;
    BlocksApart(span, BlockBytes(0), total);
    FreshIsNew(s, span, CarvedBytes(0));
    CarveIsStep(s, t, 0, 64, bs);
    CarveFacts(s, t, 0, 64, bs);
  }

  lemma TakeEight(s: State, t: Tid, span: Addr)
    requires Consistent(s) && 64 <= |ListAt(s, Central(0))|
    requires FlightOk(s, t) && ReadyToFetch(s, t, 0)
    ensures
      var s' := FetchClass(s, t, 0, span);
      && StepOf(s, s', t, 0) && CountAt(s', t, 0) == CountAt(s, t, 0)
      && PhaseAt(s', t) == Fetched(0, 64, 64) && KeepsLive(s, s')
  {
    assert GetBatchNum(BlockBytes(0)) == 64;
    assert ListOk(s, Central(0));
    TakeIsStep(s, t, 0, 64);
    TakeFacts(s, t, 0, 64);
  }

  /** One trip to the central cache for an 8-byte block, and what the thread has then. */
  lemma FetchBatch(s: State, steps: seq<Step>, t: Tid, span: Addr) returns (s': State, steps': seq<Step>, a: Addr)
    requires Reached(s, steps) && Enabled(s, Fetch(t, 8, span))
    requires if ListAt(s, Central(0)) == [] then span != 0 else 64 <= |ListAt(s, Central(0))|
    ensures Reached(s', steps') && a in s'.place && s'.place[a] == Live(0) && !IsLive(s, a)
    ensures KeepsLive(s, s')
    ensures CountAt(s', t, 0) == 63 && PhaseAt(s', t).Idle?
    ensures StepOf(s, s', t, 0)
    ensures ListAt(s, Central(0)) == [] ==> 64 <= |ListAt(s', Central(0))|
  {
    assert CounterOk(s, t, 0);
    assert FlightOk(s, t);
    if ListAt(s, Central(0)) == [] { CarveEight(s, t, span); } else { TakeEight(s, t, span); }
    var s1, steps1 := Reach(s, steps, Fetch(t, 8, span));
    assert FlightOk(s1, t);
    s', steps', a := FinishBatch(s1, steps1, t);
    StepOfTwice(s, s1, s', t, 0);
  }

  lemma FinishBatch(s: State, steps: seq<Step>, t: Tid) returns (s': State, steps': seq<Step>, a: Addr)
    requires Reached(s, steps) && PhaseAt(s, t) == Fetched(0, 64, 64) && CountAt(s, t, 0) == 0
    ensures Reached(s', steps') && a in s'.place && s'.place[a] == Live(0) && !IsLive(s, a)
    ensures KeepsLive(s, s')
    ensures CountAt(s', t, 0) == 63 && PhaseAt(s', t).Idle? && StepOf(s, s', t, 0)
    ensures ListAt(s', Central(0)) == ListAt(s, Central(0))
  {
    assert FlightOk(s, t) && CounterOk(s, t, 0) && ListOk(s, Flight(t, 0));
    var xs := ListAt(s, Flight(t, 0));
    a := xs[0];
    FinishIsStep(s, t, 0, 64);
    s', steps' := Reach(s, steps, Finish(t));
    FinishOthers(s, t, 0, xs);
  }

  lemma FinishMoves(s: State, p: Place, x: Addr, rest: seq<Addr>, i: nat, q: Place)
    requires IsList(p) && IsList(q) && p != q && x !in rest && x in s.place && s.place[x] == p
    requires forall a :: a in rest ==> a in s.place && s.place[a] == p
    ensures
      var s2 := Move(Move(s, p, rest, Live(i), [x]), p, [], q, rest);
      && KeepsLive(s, s2) && x in s2.place && s2.place[x] == Live(i)
      && forall r: Place :: r != p && r != q ==> ListAt(s2, r) == ListAt(s, r)
  {
    MoveKeepsLive(s, p, rest, Live(i), [x]);
    MoveKeepsLive(Move(s, p, rest, Live(i), [x]), p, [], q, rest);
  }

  lemma FinishOthers(s: State, t: Tid, i: nat, xs: seq<Addr>)
    requires PhaseAt(s, t).Fetched? && PhaseAt(s, t).index == i
    requires ListOk(s, Flight(t, i)) && xs == ListAt(s, Flight(t, i)) && xs != []
    ensures KeepsLive(s, DoFinish(s, t))
    ensures xs[0] in DoFinish(s, t).place && DoFinish(s, t).place[xs[0]] == Live(i)
    ensures ListAt(DoFinish(s, t), Central(i)) == ListAt(s, Central(i))
  {
    hide KeepsLive, DoFinish, Move, ListOk;
    var s2 := Move(Move(s, Flight(t, i), xs[1..], Live(i), [xs[0]]), Flight(t, i), [], Local(t, i), xs[1..]);
    HeadAndTail(s, Flight(t, i));
    FinishMoves(s, Flight(t, i), xs[0], xs[1..], i, Local(t, i));
    FinishIsMoves(s, t, i, xs);
    KeepsLiveFrame(s, s2, DoFinish(s, t));
  }

  lemma HeadAndTail(s: State, p: Place)
    requires ListOk(s, p) && ListAt(s, p) != []
    ensures
      var xs := ListAt(s, p);
      && xs[0] !in xs[1..] && xs[0] in s.place && s.place[xs[0]] == p
      && forall a :: a in xs[1..] ==> a in s.place && s.place[a] == p
  {
    var xs := ListAt(s, p);
    assert xs == [xs[0]] + xs[1..];
    NoDupSplit([xs[0]], xs[1..]);
    assert forall a :: a in xs[1..] ==> a in xs;
  }

  lemma FinishIsMoves(s: State, t: Tid, i: nat, xs: seq<Addr>)
    requires PhaseAt(s, t).Fetched? && PhaseAt(s, t).index == i && xs == ListAt(s, Flight(t, i)) && xs != []
    ensures
      var s2 := Move(Move(s, Flight(t, i), xs[1..], Live(i), [xs[0]]), Flight(t, i), [], Local(t, i), xs[1..]);
      DoFinish(s, t).place == s2.place && DoFinish(s, t).lists == s2.lists
  {
    hide Move;
    assert xs[..1] == [xs[0]];
  }

  lemma KeepsLiveFrame(s: State, s2: State, s3: State)
    requires KeepsLive(s, s2) && s3.place == s2.place
    ensures KeepsLive(s, s3)
  {
  }

  /** A free with size 0 onto a list of 63 blocks: the list has 64. */
  lemma FreeOntoSixtyThree(s: State, t: Tid, p: Addr)
    requires PhaseAt(s, t).Idle? && IsLive(s, p) && CountAt(s, t, 0) == 63
    ensures
      var s' := DoFree(s, t, p, 0);
      && PhaseAt(s', t).Idle? && CountAt(s', t, 0) == 64
      && forall b :: IsLive(s, b) && b != p ==> IsLive(s', b) && s'.place[b] == s.place[b]
  {
    hide Pushed, DoFree, DoTrim;
    PushedLists(s, t, p, 0);
    PushedIs(s, t, p, 0);
    ShortStays(Pushed(s, t, p, 0), t, 0, 0);
  }

  /** The next one cuts it. */
  lemma FreeOntoSixtyFour(s: State, t: Tid, p: Addr)
    requires PhaseAt(s, t).Idle? && IsLive(s, p) && CountAt(s, t, 0) == 64 == |ListAt(s, Local(t, 0))|
    ensures PhaseAt(DoFree(s, t, p, 0), t) == Returning(0, 0, 49)
  {
    hide Pushed, DoFree, DoTrim;
    var s1 := Pushed(s, t, p, 0);
    PushedLists(s, t, p, 0);
    PushedIs(s, t, p, 0);
    assert CountAt(s1, t, 0) == 65 == |ListAt(s1, Local(t, 0))|;
    TrimLists(s1, t, 0, 0);
  }

  lemma ShortStays(s: State, t: Tid, i: nat, size: nat)
    requires CountAt(s, t, i) <= 64
    ensures DoTrim(s, t, i, size) == s
  {
  }

  lemma PushedIs(s: State, t: Tid, p: Addr, size: nat)
    requires p in s.place
    ensures DoFree(s, t, p, size) == DoTrim(Pushed(s, t, p, GetIndex(size)), t, GetIndex(size), size)
  {
    hide DoTrim;
  }

  lemma TwoFrees(s: State, steps: seq<Step>, a: Addr, b: Addr) returns (s': State, steps': seq<Step>)
    requires Reached(s, steps) && IsLive(s, a) && IsLive(s, b) && a != b
    requires PhaseAt(s, 0).Idle? && CountAt(s, 0, 0) == 63
    ensures Reached(s', steps') && PhaseAt(s', 0) == Returning(0, 0, 49)
  {
    assert CounterOk(s, 0, 0) && FlightOk(s, 0);
    FreeOntoSixtyThree(s, 0, a);
    var s1, steps1 := Reach(s, steps, Free(0, a, 0));
    assert CounterOk(s1, 0, 0) && FlightOk(s1, 0);
    FreeOntoSixtyFour(s1, 0, b);
    s', steps' := Reach(s1, steps1, Free(0, b, 0));
  }

  lemma LosesOnReturn(s: State, steps: seq<Step>)
    requires Reached(s, steps) && PhaseAt(s, 0) == Returning(0, 0, 49)
    ensures AllEnabled(EMPTY, steps + [Return(0)])
    ensures |LostBlocks(Run(EMPTY, steps + [Return(0)]))| == 48
  {
    ReturnLoses(s, 0);
    RunSnoc(EMPTY, steps, Return(0));
    var xs := ListAt(s, Flight(0, 0));
    assert ListOk(s, Flight(0, 0));
    ElementsCount(xs[1..]);
  }

  /** Two threads, two 8-byte blocks, and two frees with size 0. */
  lemma ZeroSizeFreesLoseBlocks()
    ensures exists steps :: AllEnabled(EMPTY, steps) && |LostBlocks(Run(EMPTY, steps))| == 48
  {
    EmptyInv();
    var s1, steps1, a := FetchBatch(EMPTY, [], 0, 4096);
    var s2, steps2, b := FetchBatch(s1, steps1, 1, 0);
    var s, steps := TwoFrees(s2, steps2, a, b);
    LosesOnReturn(s, steps);
  }
}
