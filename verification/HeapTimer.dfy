/**
 The timer queue: a binary heap of nodes by expiry, and an index from each id to the place of
 its node.  Whatever is done to the queue, the heap stays a heap and the index stays exact.
 */
module HeapTimer {

  /** Expiry in nanoseconds of the clock; a callback is known by a number. */
  datatype TimerNode = TimerNode(id: int, expires: int, cb: int)

  datatype Entry = Entry(expires: int, cb: int)

  type Index = map<int, nat>

  const NANOS_PER_MS: int := 1_000_000

  // ----- Heap order -----

  function Parent(k: nat): (p: nat)
    requires k > 0
    ensures p < k && (k == 2 * p + 1 || k == 2 * p + 2)
  {
    (k - 1) / 2
  }

  predicate Ordered(h: seq<TimerNode>, k: nat)
    requires 0 < k < |h|
  {
    h[Parent(k)].expires <= h[k].expires
  }

  /** The first n nodes are a min-heap. */
  ghost predicate IsHeap(h: seq<TimerNode>, n: nat)
    requires n <= |h|
  {
    forall k {:trigger Ordered(h, k)} :: 0 < k < n ==> Ordered(h, k)
  }

  /** The node above i is not later than any node below i. */
  ghost predicate Bridged(h: seq<TimerNode>, n: nat, i: nat)
    requires i < n <= |h|
  {
    i > 0 ==> forall c {:trigger Parent(c)} :: 0 < c < n && Parent(c) == i ==> h[Parent(i)].expires <= h[c].expires
  }

  /** A heap but for the order of node i and its parent. */
  ghost predicate HeapButUp(h: seq<TimerNode>, n: nat, i: nat)
    requires i < n <= |h|
  {
    Bridged(h, n, i) && forall k {:trigger Ordered(h, k)} :: 0 < k < n && k != i ==> Ordered(h, k)
  }

  /** A heap but for the order of node i and its neighbours. */
  ghost predicate HeapBut(h: seq<TimerNode>, n: nat, i: nat)
    requires i < n <= |h|
  {
    Bridged(h, n, i) && forall k {:trigger Ordered(h, k)} :: 0 < k < n && k != i && Parent(k) != i ==> Ordered(h, k)
  }

  function Swapped(h: seq<TimerNode>, i: nat, j: nat): seq<TimerNode>
    requires i < |h| && j < |h|
  {
    h[i := h[j]][j := h[i]]
  }

  /** Any change of one node of a heap leaves a heap but for that node. */
  lemma ChangeOne(h: seq<TimerNode>, n: nat, i: nat, node: TimerNode)
    requires i < n <= |h| && IsHeap(h, n)
    ensures HeapBut(h[i := node], n, i)
  {
    var g := h[i := node];
    forall c | 0 < c < n && Parent(c) == i && i > 0
      ensures g[Parent(i)].expires <= g[c].expires
    {
      assert Ordered(h, i) && Ordered(h, c);
    }
    forall k | 0 < k < n && k != i && Parent(k) != i
      ensures Ordered(g, k)
    {
      assert Ordered(h, k);
    }
  }

  lemma SwapUp(h: seq<TimerNode>, n: nat, i: nat)
    requires 0 < i < n <= |h| && HeapButUp(h, n, i) && h[i].expires <= h[Parent(i)].expires
    ensures HeapButUp(Swapped(h, i, Parent(i)), n, Parent(i))
  {
    var j := Parent(i);
    var g := Swapped(h, i, j);
    forall k | 0 < k < n && k != j
      ensures Ordered(g, k)
    {
      if k != i { assert Ordered(h, k); }
    }
    if j > 0 {
      assert Ordered(h, j);
      forall c | 0 < c < n && Parent(c) == j
        ensures g[Parent(j)].expires <= g[c].expires
      {
        if c != i { assert Ordered(h, c); }
      }
    }
  }

  predicate IsLeastChild(h: seq<TimerNode>, n: nat, i: nat, j: nat)
    requires n <= |h|
  {
    && 0 < j < n && Parent(j) == i
    && (2 * i + 1 < n ==> h[j].expires <= h[2 * i + 1].expires)
    && (2 * i + 2 < n ==> h[j].expires <= h[2 * i + 2].expires)
  }

  lemma SwapDown(h: seq<TimerNode>, n: nat, i: nat, j: nat)
    requires i < n <= |h| && HeapBut(h, n, i) && IsLeastChild(h, n, i, j) && h[j].expires <= h[i].expires
    ensures HeapBut(Swapped(h, i, j), n, j) && Ordered(Swapped(h, i, j), j)
  {
    var g := Swapped(h, i, j);
    forall k | 0 < k < n && k != j && Parent(k) != j
      ensures Ordered(g, k)
    {
      if k != i && Parent(k) != i { assert Ordered(h, k); }
    }
    forall c | 0 < c < n && Parent(c) == j
      ensures g[Parent(j)].expires <= g[c].expires
    {
      assert Ordered(h, c);
    }
  }

  predicate HasEarlierChild(h: seq<TimerNode>, n: nat, i: nat)
    requires i < n <= |h|
  {
    exists c :: 0 < c < n && Parent(c) == i && h[c].expires <= h[i].expires
  }

  /** Nothing below i is earlier. */
  lemma StopDown(h: seq<TimerNode>, n: nat, i: nat)
    requires i < n <= |h| && HeapBut(h, n, i)
    requires forall c :: 0 < c < n && Parent(c) == i ==> h[i].expires <= h[c].expires
    ensures HeapButUp(h, n, i)
    ensures i == 0 || Ordered(h, i) ==> IsHeap(h, n)
  {
    forall k | 0 < k < n && k != i
      ensures Ordered(h, k)
    {
    }
  }

  /** The root of a heap expires first. */
  lemma {:induction false} RootIsFirst(h: seq<TimerNode>, n: nat, k: nat)
    requires k < n <= |h| && IsHeap(h, n)
    ensures h[0].expires <= h[k].expires
  {
    if k > 0 {
      assert Ordered(h, k);
      RootIsFirst(h, n, Parent(k));
    }
  }

  /** Above an open place too, nothing is earlier than the root. */
  lemma {:induction false} RootBefore(h: seq<TimerNode>, n: nat, i: nat, k: nat)
    requires k < i < n <= |h| && HeapButUp(h, n, i)
    ensures h[0].expires <= h[k].expires
    decreases k
  {
    if k > 0 {
      assert Ordered(h, k);
      RootBefore(h, n, i, Parent(k));
    }
  }

  // ----- The index -----

  /** The index is exactly the inverse of the placement of ids. */
  ghost predicate Indexed(h: seq<TimerNode>, ref: Index) {
    && (forall k :: 0 <= k < |h| ==> h[k].id in ref && ref[h[k].id] == k)
    && (forall id :: id in ref ==> ref[id] < |h| && h[ref[id]].id == id)
  }

  /** The timers that the queue holds: what an id stands for. */
  ghost function TimersOf(h: seq<TimerNode>, ref: Index): (timers: map<int, Entry>)
    requires Indexed(h, ref)
    ensures forall id :: id in timers <==> id in ref
  {
    map id | id in ref :: Entry(h[ref[id]].expires, h[ref[id]].cb)
  }

  lemma SwapIsIndexed(h: seq<TimerNode>, ref: Index, i: nat, j: nat)
    requires Indexed(h, ref) && i < |h| && j < |h|
    ensures Indexed(Swapped(h, i, j), ref[h[j].id := i][h[i].id := j])
  {
  }

  lemma SwapIndexed(h: seq<TimerNode>, ref: Index, i: nat, j: nat)
    requires Indexed(h, ref) && i < |h| && j < |h|
    ensures
      var g, ref' := Swapped(h, i, j), ref[h[j].id := i][h[i].id := j];
      Indexed(g, ref') && TimersOf(g, ref') == TimersOf(h, ref)
  {
    SwapIsIndexed(h, ref, i, j);
    var g, ref' := Swapped(h, i, j), ref[h[j].id := i][h[i].id := j];
    var t, t' := TimersOf(h, ref), TimersOf(g, ref');
    assert forall id :: id in t ==> id in t' && t'[id] == t[id];
    assert t' == t;
  }

  lemma AppendIndexed(h: seq<TimerNode>, ref: Index, node: TimerNode)
    requires Indexed(h, ref) && node.id !in ref
    ensures
      var g, ref' := h + [node], ref[node.id := |h|];
      Indexed(g, ref') && TimersOf(g, ref') == TimersOf(h, ref)[node.id := Entry(node.expires, node.cb)]
  {
    var g, ref' := h + [node], ref[node.id := |h|];
    var t, t' := TimersOf(h, ref)[node.id := Entry(node.expires, node.cb)], TimersOf(g, ref');
    assert forall id :: id in t ==> id in t' && t'[id] == t[id];
    assert t' == t;
  }

  lemma UpdateIndexed(h: seq<TimerNode>, ref: Index, node: TimerNode)
    requires Indexed(h, ref) && node.id in ref
    ensures
      var g := h[ref[node.id] := node];
      Indexed(g, ref) && TimersOf(g, ref) == TimersOf(h, ref)[node.id := Entry(node.expires, node.cb)]
  {
    var g := h[ref[node.id] := node];
    var t, t' := TimersOf(h, ref)[node.id := Entry(node.expires, node.cb)], TimersOf(g, ref);
    assert forall id :: id in t ==> id in t' && t'[id] == t[id];
    assert t' == t;
  }

  lemma DropLastIndexed(h: seq<TimerNode>, ref: Index)
    requires Indexed(h, ref) && h != []
    ensures
      var n, ref' := |h| - 1, ref - {h[|h| - 1].id};
      Indexed(h[..n], ref') && TimersOf(h[..n], ref') == TimersOf(h, ref) - {h[n].id}
  {
    var n, ref' := |h| - 1, ref - {h[|h| - 1].id};
    var t, t' := TimersOf(h, ref) - {h[n].id}, TimersOf(h[..n], ref');
    assert forall id :: id in t ==> id in t' && t'[id] == t[id];
    assert t' == t;
  }

  /** The root decides whether some timer is earlier than a given time. */
  lemma RootIsEarliest(h: seq<TimerNode>, ref: Index, time: int)
    requires Indexed(h, ref) && IsHeap(h, |h|)
    ensures (forall id :: id in TimersOf(h, ref) ==> TimersOf(h, ref)[id].expires >= time) <==>
            h == [] || h[0].expires >= time
  {
    hide IsHeap;
    var timers := TimersOf(h, ref);
    forall id | id in timers
      ensures h[0].expires <= timers[id].expires
    {
      RootIsFirst(h, |h|, ref[id]);
    }
    assert h != [] ==> h[0].id in timers && timers[h[0].id].expires == h[0].expires;
  }

  /** Less than one millisecond is left, or the expiry has passed. */
  predicate IsDue(expires: int, now: int) {
    expires - now < NANOS_PER_MS
  }

  function Later(timers: map<int, Entry>, now: int): map<int, Entry> {
    map id | id in timers && !IsDue(timers[id].expires, now) :: timers[id]
  }

  /** Fired nodes: due timers, in the order of expiry, none twice. */
  ghost predicate InOrder(fired: seq<TimerNode>, timers: map<int, Entry>, now: int) {
    && (forall k :: 0 <= k < |fired| ==>
         && fired[k].id in timers && IsDue(fired[k].expires, now)
         && timers[fired[k].id] == Entry(fired[k].expires, fired[k].cb))
    && (forall j, k :: 0 <= j < k < |fired| ==> fired[j].id != fired[k].id && fired[j].expires <= fired[k].expires)
  }

  ghost predicate WasFired(fired: seq<TimerNode>, id: int) {
    exists k :: 0 <= k < |fired| && fired[k].id == id
  }

  /** All due timers and no others were fired. */
  ghost predicate IsFiring(fired: seq<TimerNode>, timers: map<int, Entry>, now: int) {
    && InOrder(fired, timers, now)
    && forall id :: id in timers && IsDue(timers[id].expires, now) ==> WasFired(fired, id)
  }

  /** In between: what was not fired is still there, and not earlier than what was. */
  ghost predicate FiredSoFar(fired: seq<TimerNode>, before: map<int, Entry>, timers: map<int, Entry>, now: int) {
    && InOrder(fired, before, now)
    && (forall id :: id in before && id !in timers ==> WasFired(fired, id))
    && (forall id :: id in timers ==> id in before && timers[id] == before[id] && !WasFired(fired, id))
    && (forall id, k :: id in timers && 0 <= k < |fired| ==> fired[k].expires <= timers[id].expires)
  }

  lemma FireRoot(h: seq<TimerNode>, ref: Index, fired: seq<TimerNode>, before: map<int, Entry>, now: int)
    requires Indexed(h, ref) && IsHeap(h, |h|) && h != [] && IsDue(h[0].expires, now)
    requires FiredSoFar(fired, before, TimersOf(h, ref), now)
    ensures FiredSoFar(fired + [h[0]], before, TimersOf(h, ref) - {h[0].id}, now)
  {
    hide IsHeap;
    var node, timers, fired' := h[0], TimersOf(h, ref), fired + [h[0]];
    assert node.id in timers && timers[node.id] == Entry(node.expires, node.cb);
    forall k | 0 <= k < |fired|
      ensures fired[k].id != node.id && fired[k].expires <= node.expires
    {
      assert WasFired(fired, fired[k].id);
    }
    forall id | WasFired(fired, id) || id == node.id
      ensures WasFired(fired', id)
    {
      if id == node.id {
        assert fired'[|fired|].id == id;
      } else {
        var k :| 0 <= k < |fired| && fired[k].id == id;
        assert fired'[k].id == id;
      }
    }
    forall id | id in timers
      ensures node.expires <= timers[id].expires
    {
      RootIsFirst(h, |h|, ref[id]);
    }
  }

  lemma AllFired(h: seq<TimerNode>, ref: Index, fired: seq<TimerNode>, before: map<int, Entry>, now: int)
    requires Indexed(h, ref) && IsHeap(h, |h|)
    requires h == [] || !IsDue(h[0].expires, now)
    requires FiredSoFar(fired, before, TimersOf(h, ref), now)
    ensures IsFiring(fired, before, now) && TimersOf(h, ref) == Later(before, now)
  {
    hide IsHeap;
    var timers := TimersOf(h, ref);
    forall id | id in timers
      ensures !IsDue(timers[id].expires, now)
    {
      RootIsFirst(h, |h|, ref[id]);
    }
    forall id | id in before && id !in timers
      ensures IsDue(before[id].expires, now)
    {
      assert WasFired(fired, id);
    }
    var later := Later(before, now);
    assert forall id :: id in timers ==> id in later && later[id] == timers[id];
    assert timers == later;
  }

  class HeapTimer {
    var heap: seq<TimerNode>
    var ref: Index

    ghost predicate Valid()
      reads this
    {
      Indexed(heap, ref) && IsHeap(heap, |heap|)
    }

    ghost function Timers(): map<int, Entry>
      reads this
      requires Indexed(heap, ref)
    {
      TimersOf(heap, ref)
    }

    constructor ()
      ensures Valid() && Timers() == map[]
    {
      heap, ref := [], map[];
    }

    method SwapNode(i: nat, j: nat)
      requires Indexed(heap, ref) && i < |heap| && j < |heap|
      modifies this
      ensures Indexed(heap, ref) && heap == Swapped(old(heap), i, j) && Timers() == old(Timers())
    {
      SwapIndexed(heap, ref, i, j);
      heap := heap[i := heap[j]][j := heap[i]];
      ref := ref[heap[i].id := i];
      ref := ref[heap[j].id := j];
    }

    /**
     `siftup_`, stopping at the root; equal expiries are swapped.  `atRoot` says that it came to
     the root, where the guard of the program does not stop it: exactly if the first timer was
     not strictly earlier.
     */
    method SiftUp(start: nat, ghost n: nat) returns (atRoot: bool)
      requires Indexed(heap, ref) && start < n <= |heap| && HeapButUp(heap, n, start)
      modifies this
      ensures |heap| == old(|heap|) && heap[n..] == old(heap[n..])
      ensures Indexed(heap, ref) && IsHeap(heap, n) && Timers() == old(Timers())
      ensures atRoot <==> !(old(heap)[0].expires < old(heap)[start].expires)
    {
      hide TimersOf, Indexed;
      var i: nat := start;
      while i > 0
        invariant i < n <= |heap| == old(|heap|) && heap[n..] == old(heap[n..])
        invariant Indexed(heap, ref) && HeapButUp(heap, n, i) && Timers() == old(Timers())
        invariant heap[i].expires == old(heap)[start].expires
        invariant if i > 0 then heap[0] == old(heap)[0] else old(heap)[0].expires >= heap[0].expires
      {
        var j := (i - 1) / 2;
        if heap[j].expires < heap[i].expires {
          assert Ordered(heap, i);
          RootBefore(heap, n, i, j);
          break;
        }
        SwapUp(heap, n, i);
        SwapNode(i, j);
        i := j;
      }
      atRoot := i == 0;
    }

    /** `siftdown_` over the first n nodes; says whether the node has moved. */
    method SiftDown(index: nat, n: nat) returns (moved: bool)
      requires Indexed(heap, ref) && index < n <= |heap| && HeapBut(heap, n, index)
      modifies this
      ensures |heap| == old(|heap|) && heap[n..] == old(heap[n..])
      ensures Indexed(heap, ref) && Timers() == old(Timers())
      ensures if moved then IsHeap(heap, n) else heap == old(heap) && HeapButUp(heap, n, index)
      ensures moved ==> HasEarlierChild(old(heap), n, index)
    {
      hide TimersOf, Bridged, Indexed;
      var i := index;
      var j := i * 2 + 1;
      while j < n
        invariant index <= i < n <= |heap| == old(|heap|) && heap[n..] == old(heap[n..]) && j == i * 2 + 1
        invariant Indexed(heap, ref) && HeapBut(heap, n, i) && Timers() == old(Timers())
        invariant if i > index then Ordered(heap, i) && HasEarlierChild(old(heap), n, index) else heap == old(heap)
        decreases n - i
      {
        if j + 1 < n && heap[j + 1].expires < heap[j].expires { j := j + 1; }
        if heap[i].expires < heap[j].expires {
          assert forall c :: 0 < c < n && Parent(c) == i ==> heap[i].expires <= heap[c].expires;
          break;
        }
        SwapDown(heap, n, i, j);
        SwapNode(i, j);
        i := j;
        j := i * 2 + 1;
      }
      StopDown(heap, n, i);
      moved := i > index;
    }

    /** The repair after node i was changed: sift down, else sift up. */
    method Repair(i: nat, n: nat) returns (atRoot: bool)
      requires Indexed(heap, ref) && i < n <= |heap| && HeapBut(heap, n, i)
      modifies this
      ensures |heap| == old(|heap|) && heap[n..] == old(heap[n..])
      ensures Indexed(heap, ref) && IsHeap(heap, n) && Timers() == old(Timers())
      ensures atRoot ==> !(old(heap)[0].expires < old(heap)[i].expires)
    {
      hide *;
      var moved := SiftDown(i, n);
      atRoot := false;
      if !moved { atRoot := SiftUp(i, n); }
    }

    /**
     `add`: a new timer, or a new expiry and callback for a known id.  A new timer comes to the
     root exactly if there is none that is strictly earlier.
     */
    method Add(id: int, timeout: int, cb: int, now: int) returns (atRoot: bool)
      requires Valid() && id >= 0
      modifies this
      ensures Valid() && Timers() == old(Timers())[id := Entry(now + timeout * 1_000_000, cb)]
      ensures id !in old(Timers()) ==>
        (atRoot <==> forall i :: i in old(Timers()) ==> old(Timers())[i].expires >= now + timeout * 1_000_000)
    {
      hide IsHeap, HeapBut, HeapButUp, TimersOf;
      var node := TimerNode(id, now + timeout * NANOS_PER_MS, cb);
      var n := |heap|;
      if id !in ref {
        RootIsEarliest(heap, ref, node.expires);
        AppendIndexed(heap, ref, node);
        AppendOne(heap, node);
        ref := ref[id := n];
        heap := heap + [node];
        atRoot := SiftUp(n, n + 1);
      } else {
        var i := ref[id];
        ChangeOne(heap, n, i, node);
        UpdateIndexed(heap, ref, node);
        heap := heap[i := node];
        atRoot := Repair(i, n);
      }
    }

    /** `del_`: the node at a position is removed, the last one takes its place. */
    method Delete(index: nat)
      requires Valid() && index < |heap|
      modifies this
      ensures Valid() && Timers() == old(Timers()) - {old(heap[index].id)} && |heap| == old(|heap|) - 1
    {
      hide IsHeap, HeapBut, TimersOf;
      var n := |heap| - 1;
      if index < n {
        ghost var h := heap;
        SwapNode(index, n);
        ReplaceByLast(h, index);
        var atRoot := Repair(index, n);
        assert heap[n] == heap[n..][0];
      } else {
        HeapShrinks(heap, n);
      }
      DropLastIndexed(heap, ref);
      DropLastHeap(heap);
      ref := ref - {heap[n].id};
      heap := heap[..n];
    }

    /** `doWork`: the timer of an id is fired now and removed; an unknown id is ignored. */
    method DoWork(id: int) returns (fired: seq<TimerNode>)
      requires Valid()
      modifies this
      ensures Valid() && Timers() == old(Timers()) - {id}
      ensures fired == if id in old(Timers())
                       then [TimerNode(id, old(Timers())[id].expires, old(Timers())[id].cb)] else []
    {
      if heap == [] || id !in ref { return []; }
      var i := ref[id];
      fired := [heap[i]];
      Delete(i);
    }

    /**
     `adjust`: the node only ever moves down, so the heap survives exactly if the new expiry
     is not before that of the parent.
     */
    method Adjust(id: int, timeout: int, now: int)
      requires Valid() && id in Timers()
      modifies this
      ensures Indexed(heap, ref)
      ensures Timers() == old(Timers())[id := Entry(now + timeout * 1_000_000, old(Timers())[id].cb)]
      ensures
        var i := old(ref)[id];
        Valid() <==> i == 0 || old(heap)[Parent(i)].expires <= now + timeout * 1_000_000
    {
      var i := ref[id];
      var node := heap[i].(expires := now + timeout * NANOS_PER_MS);
      ChangeOne(heap, |heap|, i, node);
      UpdateIndexed(heap, ref, node);
      ghost var h := heap;
      heap := heap[i := node];
      var moved := SiftDown(i, |heap|);
      AdjustedIsHeap(h, heap, i, node, moved);
    }

    method Pop()
      requires Valid() && heap != []
      modifies this
      ensures Valid() && Timers() == old(Timers()) - {old(heap[0].id)} && |heap| == old(|heap|) - 1
    {
      Delete(0);
    }

    /**
     `tick` at a fixed time: what is due is fired once each, in the order of expiry, and what
     is not due stays.
     */
    method Tick(now: int) returns (fired: seq<TimerNode>)
      requires Valid()
      modifies this
      ensures Valid() && Timers() == Later(old(Timers()), now)
      ensures IsFiring(fired, old(Timers()), now)
      ensures forall id :: id in Timers() <==> id in old(Timers()) && old(Timers())[id].expires >= now + 1_000_000
      ensures forall k :: 0 <= k < |fired| ==> fired[k].expires < now + 1_000_000
    {
      fired := [];
      ghost var before := Timers();
      while heap != []
        invariant Valid() && FiredSoFar(fired, before, Timers(), now)
        decreases |heap|
      {
        var node := heap[0];
        if node.expires - now >= NANOS_PER_MS { break; }
        FireRoot(heap, ref, fired, before, now);
        fired := fired + [node];
        Pop();
      }
      AllFired(heap, ref, fired, before, now);
    }
  }

  lemma AppendOne(h: seq<TimerNode>, node: TimerNode)
    requires IsHeap(h, |h|)
    ensures HeapButUp(h + [node], |h| + 1, |h|)
  {
    var g := h + [node];
    forall k | 0 < k < |h| + 1 && k != |h|
      ensures Ordered(g, k)
    {
      assert Ordered(h, k);
    }
  }

  lemma ReplaceByLast(h: seq<TimerNode>, i: nat)
    requires h != [] && i < |h| - 1 && IsHeap(h, |h|)
    ensures HeapBut(Swapped(h, i, |h| - 1), |h| - 1, i)
  {
    var n := |h| - 1;
    ChangeOne(h, n, i, h[n]);
    var f, g := h[i := h[n]], Swapped(h, i, n);
    forall k | 0 < k < n && k != i && Parent(k) != i
      ensures Ordered(g, k)
    {
      assert Ordered(f, k);
    }
  }

  lemma HeapShrinks(h: seq<TimerNode>, n: nat)
    requires n <= |h| && IsHeap(h, |h|)
    ensures IsHeap(h, n)
  {
  }

  lemma DropLastHeap(h: seq<TimerNode>)
    requires h != [] && IsHeap(h, |h| - 1)
    ensures IsHeap(h[..|h| - 1], |h| - 1)
  {
    var g := h[..|h| - 1];
    forall k | 0 < k < |g|
      ensures Ordered(g, k)
    {
      assert Ordered(h, k);
    }
  }

  lemma AdjustedIsHeap(h: seq<TimerNode>, g: seq<TimerNode>, i: nat, node: TimerNode, moved: bool)
    requires i < |h| == |g| && IsHeap(h, |h|)
    requires if moved then IsHeap(g, |g|) else g == h[i := node] && HeapButUp(g, |g|, i)
    requires moved ==> HasEarlierChild(h[i := node], |h|, i)
    ensures IsHeap(g, |g|) <==> i == 0 || h[Parent(i)].expires <= node.expires
  {
    if moved {
      if i > 0 {
        var c :| 0 < c < |h| && Parent(c) == i && h[c].expires <= node.expires;
        assert Ordered(h, c) && Ordered(h, i);
      }
    } else if i > 0 {
      assert Ordered(g, i) <==> h[Parent(i)].expires <= node.expires;
    }
  }
}
