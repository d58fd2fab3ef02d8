/**
 The memory pool as a machine whose atomic steps are the thread-local parts and the
 lock-protected parts of allocate and deallocate.  Any number of threads take steps in
 any order.  Lists are sequences of block addresses here; `MemoryPool` shows that the
 pointer-linked lists of the program follow this machine step by step.
 */
module PoolMachine {
  import opened SizeClass

  type Addr = nat   // 0 is the null pointer
  type Tid = nat

  /** Where a carved block is. */
  datatype Place =
    | Local(tid: Tid, index: nat)    // on a thread's free list
    | Central(index: nat)            // on the central list of a class
    | Flight(tid: Tid, index: nat)   // on a chain between a thread and the central cache
    | Live(index: nat)               // handed out to the program for class index
    | Lost                           // on no list any more

  predicate IsList(p: Place) {
    p.Local? || p.Central? || p.Flight?
  }

  function ClassOf(p: Place): nat {
    match p
    case Local(_, i) => i
    case Central(i) => i
    case Flight(_, i) => i
    case Live(i) => i
    case Lost => 0
  }

  /** What a thread is in the middle of. */
  datatype Phase =
    | Idle
    | Fetched(index: nat, batchNum: nat, realIncrease: nat)
    | Returning(index: nat, size: nat, returnNum: nat)

  datatype State = State(
    extent: map<Addr, nat>,            // carved blocks and their length in bytes
    place: map<Addr, Place>,
    lists: map<Place, seq<Addr>>,
    count: map<(Tid, nat), nat>,       // freeListSize_
    phase: map<Tid, Phase>)

  const EMPTY := State(map[], map[], map[], map[], map[])

  function ListAt(s: State, p: Place): seq<Addr> {
    if p in s.lists then s.lists[p] else []
  }

  function CountAt(s: State, t: Tid, i: nat): nat {
    if (t, i) in s.count then s.count[(t, i)] else 0
  }

  function PhaseAt(s: State, t: Tid): Phase {
    if t in s.phase then s.phase[t] else Idle
  }

  // ----- Single moves between places -----

  function SetList(lists: map<Place, seq<Addr>>, p: Place, xs: seq<Addr>): map<Place, seq<Addr>> {
    if IsList(p) then lists[p := xs] else lists
  }

  /** The blocks `moved` leave `from`, whose list becomes `rest`, and go to the front of `to`. */
  function Move(s: State, from: Place, rest: seq<Addr>, to: Place, moved: seq<Addr>): State {
    s.(place := s.place + map a | a in moved :: to,
       lists := SetList(SetList(s.lists, from, rest), to, moved + ListAt(s, to)))
  }

  /** Fresh blocks of the same length appear at the front of the list at `to`. */
  function Add(s: State, to: Place, blocks: seq<Addr>, bytes: nat): State {
    s.(extent := s.extent + map a | a in blocks :: bytes,
       place := s.place + map a | a in blocks :: to,
       lists := SetList(s.lists, to, blocks + ListAt(s, to)))
  }

  function SetCount(s: State, t: Tid, i: nat, n: nat): State {
    s.(count := s.count[(t, i) := n])
  }

  function SetPhase(s: State, t: Tid, ph: Phase): State {
    s.(phase := s.phase[t := ph])
  }

  /** n blocks of `size` bytes, one after the other from `start`. */
  function Blocks(start: Addr, size: nat, n: nat): (bs: seq<Addr>)
    ensures |bs| == n
    decreases n
  {
    if n == 0 then [] else [start] + Blocks(start + size, size, n - 1)
  }

  // ----- The steps -----

  datatype Step =
    | Pop(tid: Tid, size: nat)                  // allocate, local list not empty
    | Fetch(tid: Tid, size: nat, span: Addr)    // allocate, under the lock of the class
    | Finish(tid: Tid)                          // allocate, after the fetch
    | Free(tid: Tid, ptr: Addr, size: nat)      // deallocate, with the cut of a long list
    | Return(tid: Tid)                          // deallocate, under the lock of the class

  function CarvedBytes(index: nat): nat {
    if index < SMALL_CLASSES then SPAN_BYTES / BlockBytes(index) * BlockBytes(index)
    else (BlockBytes(index) + PAGE_SIZE - 1) / PAGE_SIZE * PAGE_SIZE
  }

  /** What the page cache promises: a non-null address of memory not granted before. */
  ghost predicate FreshSpan(s: State, span: Addr, bytes: nat) {
    span != 0 && forall a :: a in s.extent ==> Disjoint(a, s.extent[a], span, bytes)
  }

  ghost predicate Enabled(s: State, step: Step) {
    match step
    case Pop(t, size) =>
      size <= MAX_BYTE && PhaseAt(s, t).Idle? && ListAt(s, Local(t, GetIndex(size))) != []
    case Fetch(t, size, span) =>
      var i := GetIndex(size);
      && size <= MAX_BYTE && PhaseAt(s, t).Idle? && ListAt(s, Local(t, i)) == []
      && (ListAt(s, Central(i)) == [] && span != 0 ==> FreshSpan(s, span, CarvedBytes(i)))
    case Finish(t) =>
      PhaseAt(s, t).Fetched?
    case Free(t, p, size) =>
      && size <= MAX_BYTE && PhaseAt(s, t).Idle?
      && p in s.place && s.place[p].Live? && GetIndex(size) <= s.place[p].index
    case Return(t) =>
      PhaseAt(s, t).Returning?
  }

  function DoPop(s: State, t: Tid, i: nat): State {
    var xs := ListAt(s, Local(t, i));
    if xs == [] then s else
      SetCount(Move(s, Local(t, i), xs[1..], Live(i), xs[..1]), t, i, Wrap(CountAt(s, t, i) - 1))
  }

  function Min(a: nat, b: nat): nat {
    if a < b then a else b
  }

  /** The first n blocks of the central list, or all of them, go to the thread. */
  function TakeFromCentral(s: State, t: Tid, i: nat, n: nat): State {
    var c := ListAt(s, Central(i));
    var k := Min(n, |c|);
    SetPhase(Move(s, Central(i), c[k..], Flight(t, i), c[..k]), t, Fetched(i, n, k))
  }

  /** A span is cut into blocks; the thread gets the first n, the central list the others. */
  function Carve(s: State, t: Tid, i: nat, n: nat, blocks: seq<Addr>): State {
    var k := Min(n, |blocks|);
    var s1 := Add(s, Flight(t, i), blocks[..k], BlockBytes(i));
    SetPhase(Add(s1, Central(i), blocks[k..], BlockBytes(i)), t, Fetched(i, n, k))
  }

  /** The blocks a fresh span is cut into: none if the class is too large for the fixed span. */
  function SpanBlocks(span: Addr, i: nat): seq<Addr> {
    Blocks(span, BlockBytes(i), SPAN_BYTES / BlockBytes(i))
  }

  function DoFetch(s: State, t: Tid, i: nat, n: nat, span: Addr, blocks: seq<Addr>, bytes: nat): State {
    if ListAt(s, Central(i)) != [] then TakeFromCentral(s, t, i, n)
    else if span == 0 then s
    else if blocks != [] then Carve(s, t, i, n, blocks)
    else SetPhase(Add(s, Flight(t, i), [span], bytes), t, Fetched(i, n, 0))
  }

  function FetchClass(s: State, t: Tid, i: nat, span: Addr): State {
    DoFetch(s, t, i, GetBatchNum(BlockBytes(i)), span, SpanBlocks(span, i), CarvedBytes(i))
  }

  /** The list counter once a fetched chain is in: one of its blocks goes to the caller. */
  function CountAfterFetch(count: nat, realIncrease: nat): nat {
    Wrap(count + (realIncrease - 1))
  }

  /** One fetched block goes to the caller, the others become the local list. */
  function FinishChain(s: State, t: Tid, i: nat, inc: nat): State {
    var xs := ListAt(s, Flight(t, i));
    if xs == [] then s else
      var s1 := Move(s, Flight(t, i), xs[1..], Live(i), xs[..1]);
      var s2 := Move(s1, Flight(t, i), [], Local(t, i), xs[1..]);
      SetPhase(SetCount(s2, t, i, CountAfterFetch(CountAt(s, t, i), inc)), t, Idle)
  }

  function DoFinish(s: State, t: Tid): State {
    match PhaseAt(s, t)
    case Fetched(i, _, inc) => FinishChain(s, t, i, inc)
    case _ => s
  }

  /** How much of a list of (counted) length n stays with the thread. */
  function KeepNum(n: nat): nat {
    if n / 4 > 1 then n / 4 else 1
  }

  function DoTrim(s: State, t: Tid, i: nat, size: nat): State {
    var n := CountAt(s, t, i);
    var xs := ListAt(s, Local(t, i));
    var keep := KeepNum(n);
    if n <= 64 || |xs| < keep then s
    else
      var s1 := SetCount(Move(s, Local(t, i), xs[..keep], Flight(t, i), xs[keep..]), t, i, keep);
      if |xs| == keep then s1 else SetPhase(s1, t, Returning(i, size, n - keep))
  }

  function DoFree(s: State, t: Tid, p: Addr, size: nat): State {
    if p !in s.place then s else
      var i := GetIndex(size);
      var s1 := Move(s, s.place[p], [], Local(t, i), [p]);
      DoTrim(SetCount(s1, t, i, Wrap(CountAt(s, t, i) + 1)), t, i, size)
  }

  /** The bound given to `returnRange`: a number of bytes where it counts blocks. */
  function ReturnBound(size: nat, returnNum: nat): nat {
    Wrap(returnNum * RoundUp(size))
  }

  /** How many blocks of a returned chain the central cache links in. */
  function Spliced(length: nat, bound: nat): nat {
    if length <= bound then length else if 1 < bound then bound else 1
  }

  /** The first m blocks of a returned chain go to the central list; the rest is cut off. */
  function ReturnChain(s: State, t: Tid, i: nat, m: nat): State {
    var xs := ListAt(s, Flight(t, i));
    if |xs| < m || m == 0 then s else
      var s1 := Move(s, Flight(t, i), xs[..m], Lost, xs[m..]);
      SetPhase(Move(s1, Flight(t, i), [], Central(i), xs[..m]), t, Idle)
  }

  function DoReturn(s: State, t: Tid): State {
    match PhaseAt(s, t)
    case Returning(i, size, ret) =>
      ReturnChain(s, t, i, Spliced(|ListAt(s, Flight(t, i))|, ReturnBound(size, ret)))
    case _ => s
  }

  function Apply(s: State, step: Step): State {
    match step
    case Pop(t, size) => DoPop(s, t, GetIndex(size))
    case Fetch(t, size, span) => FetchClass(s, t, GetIndex(size), span)
    case Finish(t) => DoFinish(s, t)
    case Free(t, p, size) => DoFree(s, t, p, size)
    case Return(t) => DoReturn(s, t)
  }

  // ----- Consistency: every block is in exactly one place -----

  ghost predicate NoDup(xs: seq<Addr>) {
    forall i, j :: 0 <= i < j < |xs| ==> xs[i] != xs[j]
  }

  ghost predicate Disjoint(a: Addr, m: nat, b: Addr, n: nat) {
    a + m <= b || b + n <= a
  }

  ghost predicate ListOk(s: State, p: Place) {
    && NoDup(ListAt(s, p))
    && (forall a :: a in ListAt(s, p) ==> a in s.place && s.place[a] == p)
    && (!IsList(p) ==> ListAt(s, p) == [])
  }

  ghost predicate Listed(s: State, a: Addr) {
    a in s.place && (IsList(s.place[a]) ==> a in ListAt(s, s.place[a]))
  }

  ghost predicate Sized(s: State, a: Addr) {
    a in s.place && a in s.extent && a != 0 && BlockBytes(ClassOf(s.place[a])) <= s.extent[a]
  }

  ghost predicate ExtentsDisjoint(extent: map<Addr, nat>) {
    forall a, b {:trigger Disjoint(a, extent[a], b, extent[b])} ::
      a in extent && b in extent && a != b ==> Disjoint(a, extent[a], b, extent[b])
  }

  ghost predicate Consistent(s: State) {
    && s.extent.Keys == s.place.Keys
    && ExtentsDisjoint(s.extent)
    && (forall p: Place :: ListOk(s, p))
    && (forall a {:trigger Listed(s, a)} :: a in s.place ==> Listed(s, a))
    && (forall a {:trigger Sized(s, a)} :: a in s.place ==> Sized(s, a))
  }

  lemma NoDupConcat(xs: seq<Addr>, ys: seq<Addr>)
    requires NoDup(xs) && NoDup(ys) && forall a :: a in xs ==> a !in ys
    ensures NoDup(xs + ys)
  {
    var zs := xs + ys;
    forall i, j | 0 <= i < j < |zs| ensures zs[i] != zs[j] {
      if i < |xs| <= j {
        assert xs[i] in xs && ys[j - |xs|] in ys;
      }
    }
  }

  lemma NoDupSplit(xs: seq<Addr>, ys: seq<Addr>)
    requires NoDup(xs + ys)
    ensures NoDup(xs) && NoDup(ys) && forall a :: a in xs ==> a !in ys
  {
    var zs := xs + ys;
    assert forall i :: 0 <= i < |xs| ==> zs[i] == xs[i];
    assert forall i :: 0 <= i < |ys| ==> zs[|xs| + i] == ys[i];
  }

  /** `moved` and `rest` together are the list at `from`; places that are no lists lose `moved` only. */
  ghost predicate CanMove(s: State, from: Place, rest: seq<Addr>, to: Place, moved: seq<Addr>) {
    && from != to
    && ClassOf(to) <= ClassOf(from)
    && if IsList(from) then ListAt(s, from) == rest + moved || ListAt(s, from) == moved + rest
       else NoDup(moved) && forall a :: a in moved ==> a in s.place && s.place[a] == from
  }

  lemma MovePieces(s: State, from: Place, rest: seq<Addr>, to: Place, moved: seq<Addr>)
    requires ListOk(s, from) && CanMove(s, from, rest, to, moved)
    ensures NoDup(moved) && forall a :: a in moved ==> a in s.place && s.place[a] == from
    ensures IsList(from) ==> NoDup(rest) && forall a :: a in rest ==> a !in moved && a in s.place && s.place[a] == from
    ensures IsList(from) ==> forall a :: a in ListAt(s, from) ==> a in rest || a in moved
  {
    if IsList(from) {
      if ListAt(s, from) == rest + moved { NoDupSplit(rest, moved); } else { NoDupSplit(moved, rest); }
    }
  }

  lemma MovedLists(s: State, from: Place, rest: seq<Addr>, to: Place, moved: seq<Addr>, p: Place)
    requires from != to
    ensures ListAt(Move(s, from, rest, to, moved), p) ==
      if !IsList(p) || (p != from && p != to) then ListAt(s, p) else if p == from then rest else moved + ListAt(s, to)
    ensures forall a :: a in s.place || a in moved <==> a in Move(s, from, rest, to, moved).place
    ensures forall a :: a in Move(s, from, rest, to, moved).place ==>
      Move(s, from, rest, to, moved).place[a] == if a in moved then to else s.place[a]
  {
  }

  lemma MoveListOk(s: State, from: Place, rest: seq<Addr>, to: Place, moved: seq<Addr>, p: Place)
    requires ListOk(s, from) && ListOk(s, to) && ListOk(s, p) && CanMove(s, from, rest, to, moved)
    ensures ListOk(Move(s, from, rest, to, moved), p)
  {
    hide NoDup;
    MovePieces(s, from, rest, to, moved);
    if p == to {
      NoDupConcat(moved, ListAt(s, to));
    }
    MovedLists(s, from, rest, to, moved, p);
    hide Move, CanMove;
  }

  lemma MoveListed(s: State, from: Place, rest: seq<Addr>, to: Place, moved: seq<Addr>, a: Addr)
    requires ListOk(s, from) && CanMove(s, from, rest, to, moved) && Listed(s, a)
    ensures Listed(Move(s, from, rest, to, moved), a)
  {
    MovePieces(s, from, rest, to, moved);
  }

  lemma MoveConsistent(s: State, from: Place, rest: seq<Addr>, to: Place, moved: seq<Addr>)
    requires Consistent(s) && CanMove(s, from, rest, to, moved)
    ensures Consistent(Move(s, from, rest, to, moved))
  {
    var s' := Move(s, from, rest, to, moved);
    assert ListOk(s, from) && ListOk(s, to);
    MovePieces(s, from, rest, to, moved);
    assert s'.place.Keys == s.place.Keys;
    forall p: Place ensures ListOk(s', p) {
      assert ListOk(s, p);
      MoveListOk(s, from, rest, to, moved, p);
    }
    forall a | a in s'.place ensures Listed(s', a) {
      assert Listed(s, a);
      MoveListed(s, from, rest, to, moved, a);
    }
    forall a | a in s'.place ensures Sized(s', a) {
      assert Sized(s, a);
    }
  }

  ghost predicate CanAdd(s: State, to: Place, blocks: seq<Addr>, bytes: nat) {
    && IsList(to) && BlockBytes(ClassOf(to)) <= bytes
    && NoDup(blocks) && 0 !in blocks
    && (forall a, b :: a in s.extent && b in blocks ==> Disjoint(a, s.extent[a], b, bytes))
    && (forall a, b :: a in blocks && b in blocks && a != b ==> Disjoint(a, bytes, b, bytes))
  }

  lemma AddListOk(s: State, to: Place, blocks: seq<Addr>, bytes: nat, p: Place)
    requires ListOk(s, p) && IsList(to) && NoDup(blocks)
    requires forall b :: b in blocks ==> b !in s.place
    ensures ListOk(Add(s, to, blocks, bytes), p)
  {
    if p == to {
      NoDupConcat(blocks, ListAt(s, to));
    }
  }

  lemma AddExtents(s: State, to: Place, blocks: seq<Addr>, bytes: nat)
    requires ExtentsDisjoint(s.extent) && CanAdd(s, to, blocks, bytes)
    requires forall b :: b in blocks ==> b !in s.extent
    ensures ExtentsDisjoint(Add(s, to, blocks, bytes).extent)
  {
    var e := Add(s, to, blocks, bytes).extent;
    forall a, b | a in e && b in e && a != b ensures Disjoint(a, e[a], b, e[b]) {
      if a in s.extent && b in s.extent {
        assert Disjoint(a, s.extent[a], b, s.extent[b]);
      } else if b in s.extent {
        assert Disjoint(b, s.extent[b], a, bytes);
      }
    }
  }

  lemma AddListed(s: State, to: Place, blocks: seq<Addr>, bytes: nat, a: Addr)
    requires CanAdd(s, to, blocks, bytes)
    requires forall b :: b in blocks ==> b !in s.place
    requires a in blocks || (Listed(s, a) && Sized(s, a))
    ensures Listed(Add(s, to, blocks, bytes), a) && Sized(Add(s, to, blocks, bytes), a)
  {
  }

  lemma AddConsistent(s: State, to: Place, blocks: seq<Addr>, bytes: nat)
    requires Consistent(s) && CanAdd(s, to, blocks, bytes)
    ensures Consistent(Add(s, to, blocks, bytes))
  {
    var s' := Add(s, to, blocks, bytes);
    assert forall a :: a in s.place ==> Sized(s, a);
    assert forall b :: b in blocks && b in s.extent ==> Disjoint(b, s.extent[b], b, bytes);
    AddExtents(s, to, blocks, bytes);
    forall p: Place ensures ListOk(s', p) {
      assert ListOk(s, p);
      AddListOk(s, to, blocks, bytes, p);
    }
    forall a | a in s'.place ensures Listed(s', a) && Sized(s', a) {
      if a !in blocks { assert Listed(s, a) && Sized(s, a); }
      AddListed(s, to, blocks, bytes, a);
    }
  }
}
