/**
 What each step of the pool does to the lists, case by case: the blocks that move, where they
 go and in which order, the counter, and that every other list stays as it is.
 */
module PoolSteps {
  import opened SizeClass
  import opened PoolMachine
  import opened PoolInvariant
  import opened PoolTheorems

  ghost predicate OthersKeep(s: State, s': State, changed: set<Place>) {
    forall p: Place :: p !in changed ==> ListAt(s', p) == ListAt(s, p)
  }

  /** `allocate` takes the head of the local list. */
  lemma PopTakesHead(s: State, t: Tid, size: nat)
    requires Inv(s) && Enabled(s, Pop(t, size))
    ensures
      var i, s' := GetIndex(size), Apply(s, Pop(t, size));
      var xs := ListAt(s, Local(t, i));
      && ListAt(s', Local(t, i)) == xs[1..] && s'.place == s.place[xs[0] := Live(i)]
      && OthersKeep(s, s', {Local(t, i)}) && s'.phase == s.phase && s'.extent == s.extent
      && (i < 4096 ==> CountAt(s', t, i) == CountAt(s, t, i) - 1)
  {
    hide GetIndex;
    var i := GetIndex(size);
    assert CounterOk(s, t, i);
  }

  /**
   `deallocate` puts the block in front of the local list of its size.  Nothing is returned if
   the counter is then at most 64, or if it is so wrong that a quarter of it is more than the
   list holds, as it can be in classes over 32 KB, where fetched blocks are not counted.
   */
  lemma FreePutsInFront(s: State, t: Tid, p: Addr, size: nat)
    requires Inv(s) && Enabled(s, Free(t, p, size))
    requires
      var i := GetIndex(size);
      var n := (CountAt(s, t, i) + 1) % 0x1_0000_0000_0000_0000;
      n <= 64 || |ListAt(s, Local(t, i))| + 1 < n / 4
    ensures
      var i, s' := GetIndex(size), Apply(s, Free(t, p, size));
      && ListAt(s', Local(t, i)) == [p] + ListAt(s, Local(t, i)) && s'.place == s.place[p := Local(t, i)]
      && OthersKeep(s, s', {Local(t, i)}) && PhaseAt(s', t) == Idle && s'.extent == s.extent
      && CountAt(s', t, i) == (CountAt(s, t, i) + 1) % 0x1_0000_0000_0000_0000
  {
    hide GetIndex, Inv, Move;
    PushedLists(s, t, p, GetIndex(size));
  }

  lemma PushedLists(s: State, t: Tid, p: Addr, i: nat)
    requires p in s.place && s.place[p].Live?
    ensures
      var s' := Pushed(s, t, p, i);
      && ListAt(s', Local(t, i)) == [p] + ListAt(s, Local(t, i)) && s'.place == s.place[p := Local(t, i)]
      && OthersKeep(s, s', {Local(t, i)}) && s'.phase == s.phase && s'.extent == s.extent
      && CountAt(s', t, i) == Wrap(CountAt(s, t, i) + 1)
  {
  }

  /** With 64 blocks on the list, 16 stay and the 49 behind them are about to be returned. */
  lemma FreeCutsLongList(s: State, t: Tid, p: Addr, size: nat)
    requires Inv(s) && Enabled(s, Free(t, p, size)) && size <= 32768 && CountAt(s, t, GetIndex(size)) == 64
    ensures
      var i, s' := GetIndex(size), Apply(s, Free(t, p, size));
      var xs := [p] + ListAt(s, Local(t, i));
      && |xs| == 65 && ListAt(s', Local(t, i)) == xs[..16] && ListAt(s', Flight(t, i)) == xs[16..]
      && OthersKeep(s, s', {Local(t, i), Flight(t, i)}) && PhaseAt(s', t) == Returning(i, size, 49)
      && CountAt(s', t, i) == 16 && s'.extent == s.extent
  {
    CutNeverEndsEarly(s, t, p, size);
    hide GetIndex;
  }

  /** A fetch takes a batch off the front of the central list, or all of it. */
  lemma FetchTakesBatch(s: State, t: Tid, size: nat, span: Addr)
    requires Inv(s) && Enabled(s, Fetch(t, size, span)) && ListAt(s, Central(GetIndex(size))) != []
    ensures
      var i, s' := GetIndex(size), Apply(s, Fetch(t, size, span));
      var c, n := ListAt(s, Central(i)), GetBatchNum(8 * (i + 1));
      var k := if n <= |c| then n else |c|;
      && ListAt(s', Flight(t, i)) == c[..k] && ListAt(s', Central(i)) == c[k..]
      && OthersKeep(s, s', {Flight(t, i), Central(i)}) && PhaseAt(s', t) == Fetched(i, n, k)
      && s'.extent == s.extent && s'.count == s.count
  {
    hide GetIndex, GetBatchNum, Blocks, CarvedBytes;
    assert FlightOk(s, t);
  }

  lemma {:induction false} BlocksAt(start: Addr, size: nat, n: nat, j: nat)
    requires j < n
    ensures Blocks(start, size, n)[j] == start + j * size
    decreases n
  {
    if j > 0 {
      BlocksAt(start + size, size, n - 1, j - 1);
      assert (j - 1) * size + size == j * size;
    }
  }

  /** The blocks at xs[j] start every `size` bytes from the first on. */
  ghost predicate InRow(xs: seq<Addr>, first: nat, size: nat) {
    forall j :: 0 <= j < |xs| ==> xs[j] == first + j * size
  }

  lemma RowSplit(start: Addr, size: nat, n: nat, k: nat)
    requires k <= n
    ensures InRow(Blocks(start, size, n)[..k], start, size)
    ensures InRow(Blocks(start, size, n)[k..], start + k * size, size)
  {
    var bs := Blocks(start, size, n);
    forall j | 0 <= j < n ensures bs[j] == start + j * size {
      BlocksAt(start, size, n, j);
    }
    forall j | 0 <= j < n - k ensures bs[k..][j] == start + k * size + j * size {
      assert (k + j) * size == k * size + j * size;
    }
  }

  /** The span is cut into blocks of 8 * (i + 1) bytes: first a batch for the thread, then the central list. */
  ghost predicate Carved(s: State, s': State, t: Tid, i: nat, span: Addr) {
    var bytes := 8 * (i + 1);
    var n, all := GetBatchNum(bytes), 32768 / bytes;
    var k := if n <= all then n else all;
    var flight, central := ListAt(s', Flight(t, i)), ListAt(s', Central(i));
    && |flight| == k && InRow(flight, span, bytes) && |central| == all - k && InRow(central, span + k * bytes, bytes)
    && OthersKeep(s, s', {Flight(t, i), Central(i)}) && PhaseAt(s', t) == Fetched(i, n, k)
    && (forall a :: a in flight || a in central ==> a in s'.extent && s'.extent[a] == bytes)
  }

  /** Without blocks on the central list a fresh span is cut: a batch for the thread, the rest for the list. */
  lemma FetchCarvesSpan(s: State, t: Tid, size: nat, span: Addr)
    requires Inv(s) && Enabled(s, Fetch(t, size, span)) && span != 0 && ListAt(s, Central(GetIndex(size))) == []
    requires GetIndex(size) < 4096
    ensures Carved(s, Apply(s, Fetch(t, size, span)), t, GetIndex(size), span)
  {
    hide GetIndex, GetBatchNum, CarvedBytes, Carve, Blocks, InRow, OthersKeep, FreshSpan;
    var i := GetIndex(size);
    var bytes := BlockBytes(i);
    var n, all := GetBatchNum(bytes), SPAN_BYTES / bytes;
    assert FlightOk(s, t);
    SpanFits(i, bytes, all);
    RowSplit(span, bytes, all, Min(n, all));
    CarvedLists(s, t, i, n, Blocks(span, bytes, all));
  }

  lemma AddedLists(s: State, to: Place, blocks: seq<Addr>, bytes: nat)
    requires IsList(to)
    ensures
      var s' := Add(s, to, blocks, bytes);
      && ListAt(s', to) == blocks + ListAt(s, to) && OthersKeep(s, s', {to}) && s'.phase == s.phase
      && (forall a :: a in s'.extent <==> a in s.extent || a in blocks)
      && (forall a :: a in s'.extent ==> s'.extent[a] == if a in blocks then bytes else s.extent[a])
  {
  }

  lemma CarvedLists(s: State, t: Tid, i: nat, n: nat, blocks: seq<Addr>)
    requires ListAt(s, Central(i)) == [] && ListAt(s, Flight(t, i)) == []
    ensures
      var s', k := Carve(s, t, i, n, blocks), Min(n, |blocks|);
      && ListAt(s', Flight(t, i)) == blocks[..k] && ListAt(s', Central(i)) == blocks[k..]
      && OthersKeep(s, s', {Flight(t, i), Central(i)}) && PhaseAt(s', t) == Fetched(i, n, k)
      && (forall a :: a in blocks[..k] || a in blocks[k..] ==> a in s'.extent && s'.extent[a] == BlockBytes(i))
  {
    hide Add;
    var k := Min(n, |blocks|);
    var s1 := Add(s, Flight(t, i), blocks[..k], BlockBytes(i));
    AddedLists(s, Flight(t, i), blocks[..k], BlockBytes(i));
    AddedLists(s1, Central(i), blocks[k..], BlockBytes(i));
  }

  /** A span for a class over 32 KB is one block, which is not counted. */
  lemma FetchOfLargeBlock(s: State, t: Tid, size: nat, span: Addr)
    requires Inv(s) && Enabled(s, Fetch(t, size, span)) && span != 0 && ListAt(s, Central(GetIndex(size))) == []
    requires GetIndex(size) >= 4096
    ensures
      var i, s' := GetIndex(size), Apply(s, Fetch(t, size, span));
      && ListAt(s', Flight(t, i)) == [span] && OthersKeep(s, s', {Flight(t, i)}) && PhaseAt(s', t) == Fetched(i, 1, 0)
      && span in s'.extent && 8 * (i + 1) <= s'.extent[span] < 8 * (i + 1) + 4096
  {
    hide GetIndex, GetBatchNum;
    var i := GetIndex(size);
    var bytes := BlockBytes(i);
    assert FlightOk(s, t);
    SpanFits(i, bytes, SPAN_BYTES / bytes);
    BatchTable(bytes);
  }

  lemma FetchWithoutMemory(s: State, t: Tid, size: nat)
    requires Enabled(s, Fetch(t, size, 0)) && ListAt(s, Central(GetIndex(size))) == []
    ensures Apply(s, Fetch(t, size, 0)) == s
  {
  }

  /** The first block of a fetched chain goes to the caller, the others become the local list. */
  lemma FinishHandsOutFirst(s: State, t: Tid)
    requires Inv(s) && Enabled(s, Finish(t))
    ensures
      var i, s' := PhaseAt(s, t).index, Apply(s, Finish(t));
      var xs := ListAt(s, Flight(t, i));
      && xs != [] && xs[0] in s'.place && s'.place[xs[0]] == Live(i)
      && ListAt(s', Local(t, i)) == xs[1..] && ListAt(s', Flight(t, i)) == []
      && OthersKeep(s, s', {Local(t, i), Flight(t, i)}) && PhaseAt(s', t) == Idle && s'.extent == s.extent
      && (i < 4096 ==> CountAt(s', t, i) == |xs| - 1)
  {
    hide Move;
    assert FlightOk(s, t);
    var i := PhaseAt(s, t).index;
    assert CounterOk(s, t, i) && ListOk(s, Flight(t, i));
    HeadAndTail(s, Flight(t, i));
    FinishedLists(s, t, i, ListAt(s, Flight(t, i)), PhaseAt(s, t).realIncrease);
  }

  lemma FinishedLists(s: State, t: Tid, i: nat, xs: seq<Addr>, inc: nat)
    requires xs == ListAt(s, Flight(t, i)) && xs != [] && xs[0] !in xs[1..] && ListAt(s, Local(t, i)) == []
    ensures
      var s' := FinishChain(s, t, i, inc);
      && xs[0] in s'.place && s'.place[xs[0]] == Live(i)
      && ListAt(s', Local(t, i)) == xs[1..] && ListAt(s', Flight(t, i)) == []
      && OthersKeep(s, s', {Local(t, i), Flight(t, i)}) && PhaseAt(s', t) == Idle && s'.extent == s.extent
      && CountAt(s', t, i) == CountAfterFetch(CountAt(s, t, i), inc)
  {
    hide CountAfterFetch;
  }

  /** A returned chain goes in front of the central list, all of it unless the bound is zero. */
  lemma ReturnPutsInFront(s: State, t: Tid)
    requires Inv(s) && Enabled(s, Return(t)) && PhaseAt(s, t).index < 4096
    ensures
      var i, s' := PhaseAt(s, t).index, Apply(s, Return(t));
      var xs := ListAt(s, Flight(t, i));
      var kept := if PhaseAt(s, t).size == 0 then 1 else 49;
      && |xs| == 49 && ListAt(s', Central(i)) == xs[..kept] + ListAt(s, Central(i)) && ListAt(s', Flight(t, i)) == []
      && OthersKeep(s, s', {Central(i), Flight(t, i)}) && PhaseAt(s', t) == Idle
      && s'.extent == s.extent && s'.count == s.count
  {
    hide GetIndex, ReturnBound, Spliced;
    BoundCoversChain(s, t);
  }
}
