/**
 The memory pool as the program keeps it: block lists are linked through the first word of
 each free block, with null-terminated heads per thread and class and per class.  Each
 method is one atomic step and follows the step of `PoolMachine` that its contract names.
 */
module MemoryPool {
  import opened SizeClass
  import opened PoolMachine
  import opened PoolInvariant
  import opened PoolTheorems

  function GetOr<K>(m: map<K, nat>, k: K): nat {
    if k in m then m[k] else 0
  }

  /** The first word of block xs[k] holds the address of the block after it, or null at the end. */
  ghost predicate LinkAt(next: map<Addr, Addr>, xs: seq<Addr>, k: nat) {
    k < |xs| ==> xs[k] in next && next[xs[k]] == if k + 1 < |xs| then xs[k + 1] else 0
  }

  /** The addresses xs, linked in this order from head to null. */
  ghost predicate Linked(next: map<Addr, Addr>, head: Addr, xs: seq<Addr>) {
    head == (if xs == [] then 0 else xs[0]) && forall k :: LinkAt(next, xs, k)
  }

  function Head(freeList: map<(Tid, nat), Addr>, central: map<nat, Addr>, chain: map<(Tid, nat), Addr>,
                p: Place): Addr {
    match p
    case Local(t, i) => GetOr(freeList, (t, i))
    case Central(i) => GetOr(central, i)
    case Flight(t, i) => GetOr(chain, (t, i))
    case _ => 0
  }

  /** A batch of one block is handed on without its link ever being written or read. */
  ghost predicate SingleFetch(s: State, p: Place) {
    p.Flight? && PhaseAt(s, p.tid).Fetched? && PhaseAt(s, p.tid).batchNum == 1
  }

  ghost predicate ListLinked(next: map<Addr, Addr>, head: Addr, s: State, p: Place) {
    var xs := ListAt(s, p);
    if p.Flight? && xs == [] then true
    else if SingleFetch(s, p) then xs == [head]
    else Linked(next, head, xs)
  }

  /** The heads and links of the program represent the lists of the machine. */
  ghost predicate Rep(next: map<Addr, Addr>, freeList: map<(Tid, nat), Addr>, central: map<nat, Addr>,
                      chain: map<(Tid, nat), Addr>, s: State) {
    forall p: Place :: IsList(p) ==> ListLinked(next, Head(freeList, central, chain, p), s, p)
  }

  ghost predicate Represents(next: map<Addr, Addr>, freeList: map<(Tid, nat), Addr>, size: map<(Tid, nat), nat>,
                             central: map<nat, Addr>, chain: map<(Tid, nat), Addr>, phase: map<Tid, Phase>, s: State) {
    Inv(s) && s.count == size && s.phase == phase && Rep(next, freeList, central, chain, s)
  }

  lemma LinkedFrame(next: map<Addr, Addr>, next': map<Addr, Addr>, head: Addr, xs: seq<Addr>)
    requires Linked(next, head, xs)
    requires forall a :: a in xs && a in next ==> a in next' && next'[a] == next[a]
    ensures Linked(next', head, xs)
  {
    forall k ensures LinkAt(next', xs, k) {
      assert LinkAt(next, xs, k);
    }
  }

  lemma LinkedTail(next: map<Addr, Addr>, head: Addr, xs: seq<Addr>)
    requires Linked(next, head, xs) && xs != []
    ensures head in next && Linked(next, next[head], xs[1..])
  {
    assert LinkAt(next, xs, 0);
    forall k: nat ensures LinkAt(next, xs[1..], k) {
      assert LinkAt(next, xs, k + 1);
    }
  }

  /** Dropping the link after the first k blocks leaves two linked lists. */
  lemma LinkedCut(next: map<Addr, Addr>, head: Addr, xs: seq<Addr>, k: nat)
    requires Linked(next, head, xs) && NoDup(xs) && 0 < k <= |xs|
    ensures xs[k - 1] in next
    ensures Linked(next[xs[k - 1] := 0], head, xs[..k])
    ensures Linked(next[xs[k - 1] := 0], next[xs[k - 1]], xs[k..])
  {
    var next' := next[xs[k - 1] := 0];
    assert LinkAt(next, xs, k - 1);
    forall j: nat ensures LinkAt(next', xs[..k], j) {
      assert LinkAt(next, xs, j);
    }
    forall j: nat ensures LinkAt(next', xs[k..], j) {
      assert LinkAt(next, xs, k + j);
    }
  }

  /** Writing the head of ys into the last block of xs links the two lists. */
  lemma LinkedSplice(next: map<Addr, Addr>, head: Addr, xs: seq<Addr>, head2: Addr, ys: seq<Addr>)
    requires Linked(next, head, xs) && Linked(next, head2, ys) && xs != [] && NoDup(xs + ys)
    ensures Linked(next[xs[|xs| - 1] := head2], head, xs + ys)
  {
    NoDupSplit(xs, ys);
    var zs := xs + ys;
    var next' := next[xs[|xs| - 1] := head2];
    forall k: nat ensures LinkAt(next', zs, k) {
      if k < |xs| {
        assert LinkAt(next, xs, k);
      } else if k < |zs| {
        assert LinkAt(next, ys, k - |xs|);
        assert ys[k - |xs|] in ys && xs[|xs| - 1] in xs;
      }
    }
  }

  lemma {:induction false} BlockAt(start: Addr, size: nat, n: nat, k: nat)
    requires k < n
    ensures Blocks(start, size, n)[k] == start + k * size
    decreases n
  {
    if k > 0 {
      BlockAt(start + size, size, n - 1, k - 1);
      assert size + (k - 1) * size == k * size;
    }
  }

  /** A write into a block of list p does not touch the links of another list. */
  lemma OtherListLinked(next: map<Addr, Addr>, a: Addr, v: Addr, head: Addr, s: State, p: Place, q: Place)
    requires ListLinked(next, head, s, q) && ListOk(s, q)
    requires p != q && (a in s.place ==> s.place[a] == p)
    ensures ListLinked(next[a := v], head, s, q)
  {
    if !SingleFetch(s, q) && (q.Flight? ==> ListAt(s, q) != []) {
      LinkedFrame(next, next[a := v], head, ListAt(s, q));
    }
  }

  /** A word inside a live block is no block of any list. */
  lemma InsideLive(s: State, a: Addr, x: Addr, p: Place)
    requires Consistent(s) && IsLive(s, a) && a in s.extent && a <= x < a + s.extent[a]
    ensures x !in ListAt(s, p)
  {
    assert ListOk(s, p) && Sized(s, a);
    forall b | b in ListAt(s, p)
      ensures b < a || a + s.extent[a] <= b
    {
      assert Sized(s, b) && s.place[b] == p;
      assert Disjoint(a, s.extent[a], b, s.extent[b]);
    }
  }

  /** The program may write anything to its own blocks: the lists of the pool stay what they are. */
  lemma LiveWord(next: map<Addr, Addr>, freeList: map<(Tid, nat), Addr>, size: map<(Tid, nat), nat>,
                 central: map<nat, Addr>, chain: map<(Tid, nat), Addr>, phase: map<Tid, Phase>, s: State,
                 a: Addr, x: Addr, v: Addr)
    requires Represents(next, freeList, size, central, chain, phase, s)
    requires IsLive(s, a) && a in s.extent && a <= x < a + s.extent[a]
    ensures Represents(next[x := v], freeList, size, central, chain, phase, s)
  {
    hide Linked;
    forall p: Place | IsList(p)
      ensures ListLinked(next[x := v], Head(freeList, central, chain, p), s, p)
    {
      var head, xs := Head(freeList, central, chain, p), ListAt(s, p);
      InsideLive(s, a, x, p);
      assert ListLinked(next, head, s, p);
      if !(p.Flight? && xs == []) && !SingleFetch(s, p) {
        LinkedFrame(next, next[x := v], head, xs);
      }
    }
  }

  lemma PopRep(next: map<Addr, Addr>, freeList: map<(Tid, nat), Addr>, central: map<nat, Addr>,
               chain: map<(Tid, nat), Addr>, s: State, t: Tid, i: nat)
    requires Rep(next, freeList, central, chain, s) && ListAt(s, Local(t, i)) != []
    ensures GetOr(freeList, (t, i)) in next && GetOr(freeList, (t, i)) == ListAt(s, Local(t, i))[0]
    ensures Rep(next, freeList[(t, i) := next[GetOr(freeList, (t, i))]], central, chain, DoPop(s, t, i))
  {
    var p := Local(t, i);
    var ptr := GetOr(freeList, (t, i));
    assert ListLinked(next, Head(freeList, central, chain, p), s, p);
    LinkedTail(next, ptr, ListAt(s, p));
    var freeList', s' := freeList[(t, i) := next[ptr]], DoPop(s, t, i);
    forall q: Place | IsList(q) ensures ListLinked(next, Head(freeList', central, chain, q), s', q) {
      assert ListLinked(next, Head(freeList, central, chain, q), s, q);
    }
  }

  lemma FinishRepAt(next: map<Addr, Addr>, h: Addr, start: Addr, s: State, t: Tid, i: nat, n: nat, q: Place)
    requires FetchedOk(s, t, i, n) && IsList(q)
    requires ListLinked(next, h, s, q) && ListLinked(next, start, s, Flight(t, i))
    requires n > 1 ==> start in next && Linked(next, next[start], ListAt(s, Flight(t, i))[1..])
    ensures ListLinked(next, if n > 1 && q == Local(t, i) then next[start] else h, DoFinish(s, t), q)
  {
    FinishLists(s, t, i);
    hide DoFinish;
    assert ListAt(DoFinish(s, t), Local(t, i)) == ListAt(s, Flight(t, i))[1..];
    if q == Local(t, i) && n <= 1 {
      assert ListAt(s, Flight(t, i))[1..] == [];
      assert ListAt(DoFinish(s, t), q) == ListAt(s, q);
    }
  }

  lemma FinishRep(next: map<Addr, Addr>, freeList: map<(Tid, nat), Addr>, central: map<nat, Addr>,
                  chain: map<(Tid, nat), Addr>, s: State, t: Tid, i: nat, n: nat)
    requires Rep(next, freeList, central, chain, s) && FetchedOk(s, t, i, n) && n > 0
    ensures
      var start := GetOr(chain, (t, i));
      && start == ListAt(s, Flight(t, i))[0]
      && if n > 1
         then start in next && Rep(next, freeList[(t, i) := next[start]], central, chain, DoFinish(s, t))
         else Rep(next, freeList, central, chain, DoFinish(s, t))
  {
    var start := GetOr(chain, (t, i));
    assert ListLinked(next, Head(freeList, central, chain, Flight(t, i)), s, Flight(t, i));
    if n > 1 { LinkedTail(next, start, ListAt(s, Flight(t, i))); }
    var freeList' := if n > 1 then freeList[(t, i) := next[start]] else freeList;
    forall q: Place | IsList(q) ensures ListLinked(next, Head(freeList', central, chain, q), DoFinish(s, t), q) {
      assert ListLinked(next, Head(freeList, central, chain, q), s, q);
      FinishRepAt(next, Head(freeList, central, chain, q), start, s, t, i, n, q);
    }
  }

  lemma FinishNeeds(s: State, t: Tid, i: nat, n: nat)
    requires Inv(s) && PhaseAt(s, t).Fetched? && PhaseAt(s, t).index == i && PhaseAt(s, t).batchNum == n
    ensures FetchedOk(s, t, i, n) && n > 0
  {
    assert FlightOk(s, t);
  }

  /** The block p, nobody's before and long enough, is live now; other live blocks stay what they are. */
  ghost predicate HandedOut(s: State, s': State, p: Addr, i: nat) {
    && p != 0 && p in s.place && !IsLive(s, p)
    && p in s'.place && s'.place[p] == Live(i) && KeepsLive(s, s')
  }

  lemma PopHandsOut(s: State, t: Tid, i: nat)
    requires Consistent(s) && ListAt(s, Local(t, i)) != []
    ensures HandedOut(s, DoPop(s, t, i), ListAt(s, Local(t, i))[0], i)
  {
    var xs := ListAt(s, Local(t, i));
    assert ListOk(s, Local(t, i)) && xs[0] in xs && Sized(s, xs[0]);
    MoveKeepsLive(s, Local(t, i), xs[1..], Live(i), xs[..1]);
  }

  lemma FinishHandsOut(s: State, t: Tid, i: nat)
    requires Consistent(s) && PhaseAt(s, t).Fetched? && PhaseAt(s, t).index == i && ListAt(s, Flight(t, i)) != []
    ensures HandedOut(s, DoFinish(s, t), ListAt(s, Flight(t, i))[0], i)
  {
    var xs := ListAt(s, Flight(t, i));
    assert ListOk(s, Flight(t, i)) && xs[0] in xs && Sized(s, xs[0]);
    FinishOthers(s, t, i, xs);
  }

  lemma FinishStep(next: map<Addr, Addr>, freeList: map<(Tid, nat), Addr>, size: map<(Tid, nat), nat>,
                   central: map<nat, Addr>,
                   chain: map<(Tid, nat), Addr>, phase: map<Tid, Phase>, s: State, t: Tid, i: nat, n: nat, inc: nat)
    requires Represents(next, freeList, size, central, chain, phase, s) && PhaseAt(s, t) == Fetched(i, n, inc)
    ensures
      var start := GetOr(chain, (t, i));
      && ListAt(s, Flight(t, i)) != [] && start == ListAt(s, Flight(t, i))[0]
      && (n > 1 ==> start in next)
      && HandedOut(s, DoFinish(s, t), start, i)
      && Represents(next, if n > 1 then freeList[(t, i) := next[start]] else freeList,
                    size[(t, i) := CountAfterFetch(GetOr(size, (t, i)), inc)], central, chain, phase[t := Idle],
                    DoFinish(s, t))
  {
    FinishNeeds(s, t, i, n);
    FinishRep(next, freeList, central, chain, s, t, i, n);
    FinishKeepsInv(s, t);
    FinishHandsOut(s, t, i);
    FinishLists(s, t, i);
  }

  /** A list in use can be walked: it is linked and holds no null. */
  lemma CanWalk(next: map<Addr, Addr>, freeList: map<(Tid, nat), Addr>, central: map<nat, Addr>,
                chain: map<(Tid, nat), Addr>, s: State, p: Place)
    requires Consistent(s) && Rep(next, freeList, central, chain, s)
    requires IsList(p) && ListAt(s, p) != [] && !SingleFetch(s, p)
    ensures Linked(next, Head(freeList, central, chain, p), ListAt(s, p)) && 0 !in ListAt(s, p)
  {
    assert ListLinked(next, Head(freeList, central, chain, p), s, p) && ListOk(s, p);
    assert forall a :: a in ListAt(s, p) ==> Sized(s, a);
  }

  lemma HeadIsNull(next: map<Addr, Addr>, freeList: map<(Tid, nat), Addr>, central: map<nat, Addr>,
                   chain: map<(Tid, nat), Addr>, s: State, p: Place)
    requires Consistent(s) && Rep(next, freeList, central, chain, s) && (p.Local? || p.Central?)
    ensures Head(freeList, central, chain, p) == 0 <==> ListAt(s, p) == []
  {
    assert ListLinked(next, Head(freeList, central, chain, p), s, p) && ListOk(s, p);
    if ListAt(s, p) != [] {
      assert ListAt(s, p)[0] in ListAt(s, p) && Sized(s, ListAt(s, p)[0]);
    }
  }

  lemma ReturningHasChain(s: State, t: Tid)
    requires Inv(s) && PhaseAt(s, t).Returning?
    ensures ListAt(s, Flight(t, PhaseAt(s, t).index)) != []
    ensures forall j :: j != PhaseAt(s, t).index ==> ListAt(s, Flight(t, j)) == []
  {
    assert FlightOk(s, t);
  }

  lemma ReturnStep(next: map<Addr, Addr>, freeList: map<(Tid, nat), Addr>, count: map<(Tid, nat), nat>,
                   central: map<nat, Addr>,
                   chain: map<(Tid, nat), Addr>, phase: map<Tid, Phase>, s: State, t: Tid, i: nat, bound: nat,
                   end: Addr)
    requires Represents(next, freeList, count, central, chain, phase, s)
    requires PhaseAt(s, t).Returning? && PhaseAt(s, t).index == i
    requires bound == ReturnBound(PhaseAt(s, t).size, PhaseAt(s, t).returnNum)
    requires var xs := ListAt(s, Flight(t, i)); xs != [] && end == xs[Spliced(|xs|, bound) - 1]
    ensures Represents(next[end := GetOr(central, i)], freeList, count, central[i := GetOr(chain, (t, i))], chain,
                       phase[t := Idle], DoReturn(s, t))
  {
    ReturnKeepsInv(s, t);
    ReturningHasChain(s, t);
    var m := Spliced(|ListAt(s, Flight(t, i))|, bound);
    ReturnLists(s, t, i, m);
    ReturnRep(next, freeList, central, chain, s, DoReturn(s, t), t, i, m);
  }

  lemma ReturnRep(next: map<Addr, Addr>, freeList: map<(Tid, nat), Addr>, central: map<nat, Addr>,
                  chain: map<(Tid, nat), Addr>, s: State, s': State, t: Tid, i: nat, m: nat)
    requires Rep(next, freeList, central, chain, s) && (forall p: Place :: ListOk(s, p))
    requires PhaseAt(s, t).Returning? && s'.phase == s.phase[t := Idle]
    requires 0 < m <= |ListAt(s, Flight(t, i))|
    requires ListAt(s', Central(i)) == ListAt(s, Flight(t, i))[..m] + ListAt(s, Central(i))
    requires ListAt(s', Flight(t, i)) == [] && forall j :: j != i ==> ListAt(s, Flight(t, j)) == []
    requires forall q: Place :: q != Central(i) && q != Flight(t, i) ==> ListAt(s', q) == ListAt(s, q)
    ensures Rep(next[ListAt(s, Flight(t, i))[m - 1] := GetOr(central, i)], freeList,
                central[i := GetOr(chain, (t, i))], chain, s')
  {
    var p, c := Flight(t, i), Central(i);
    var xs, ys := ListAt(s, p), ListAt(s, c);
    var start, end, top := GetOr(chain, (t, i)), xs[m - 1], GetOr(central, i);
    var next', central' := next[end := top], central[i := start];
    assert ListOk(s, p) && ListOk(s, c);
    assert end in xs;
    forall q: Place | IsList(q) ensures ListLinked(next', Head(freeList, central', chain, q), s', q) {
      assert ListLinked(next, Head(freeList, central, chain, q), s, q) && ListOk(s, q);
      if q == c {
        assert ListLinked(next, Head(freeList, central, chain, p), s, p);
        LinkedCut(next, start, xs, m);
        OtherListLinked(next, end, 0, top, s, p, c);
        assert xs == xs[..m] + xs[m..];
        NoDupSplit(xs[..m], xs[m..]);
        assert forall a :: a in xs[..m] ==> a in xs;
        NoDupConcat(xs[..m], ys);
        LinkedSplice(next[end := 0], start, xs[..m], top, ys);
        assert next[end := 0][end := top] == next';
      } else if q != p {
        OtherListLinked(next, end, top, Head(freeList, central, chain, q), s, p, q);
      }
    }
  }

  // ----- Fetching -----

  lemma TakeStep(next: map<Addr, Addr>, freeList: map<(Tid, nat), Addr>, count: map<(Tid, nat), nat>,
                 central: map<nat, Addr>,
                 chain: map<(Tid, nat), Addr>, phase: map<Tid, Phase>, s: State, t: Tid, i: nat, n: nat,
                 prev: Addr, current: Addr, k: nat)
    requires Represents(next, freeList, count, central, chain, phase, s) && ReadyToFetch(s, t, i) && GoodBatch(i, n)
    requires var c := ListAt(s, Central(i));
             c != [] && k == Min(n, |c|) && prev == c[k - 1] && current == if k < |c| then c[k] else 0
    ensures Represents(next[prev := 0], freeList, count, central[i := current],
                       chain[(t, i) := GetOr(central, i)], phase[t := Fetched(i, n, k)], TakeFromCentral(s, t, i, n))
  {
    FetchKeepsInv(s, t, i, n, 0, [], 0);
    assert FlightOk(s, t);
    TakeLists(s, t, i, n);
    TakeRep(next, freeList, central, chain, s, TakeFromCentral(s, t, i, n), t, i, n, prev, current, k);
  }

  lemma TakeLists(s: State, t: Tid, i: nat, n: nat)
    ensures
      var c := ListAt(s, Central(i));
      var s' := TakeFromCentral(s, t, i, n);
      && ListAt(s', Central(i)) == c[Min(n, |c|)..]
      && ListAt(s', Flight(t, i)) == c[..Min(n, |c|)] + ListAt(s, Flight(t, i))
      && (forall q: Place :: q != Central(i) && q != Flight(t, i) ==> ListAt(s', q) == ListAt(s, q))
      && s'.count == s.count && s'.phase == s.phase[t := Fetched(i, n, Min(n, |c|))]
  {
  }

  lemma TakeRep(next: map<Addr, Addr>, freeList: map<(Tid, nat), Addr>, central: map<nat, Addr>,
                chain: map<(Tid, nat), Addr>, s: State, s': State, t: Tid, i: nat, n: nat, prev: Addr,
                current: Addr, k: nat)
    requires Rep(next, freeList, central, chain, s) && Consistent(s)
    requires forall j :: ListAt(s, Flight(t, j)) == []
    requires var c := ListAt(s, Central(i));
             0 < k <= |c| && k <= n && prev == c[k - 1] && current == if k < |c| then c[k] else 0
    requires ListAt(s', Central(i)) == ListAt(s, Central(i))[k..]
    requires ListAt(s', Flight(t, i)) == ListAt(s, Central(i))[..k] + ListAt(s, Flight(t, i))
    requires forall q: Place :: q != Central(i) && q != Flight(t, i) ==> ListAt(s', q) == ListAt(s, q)
    requires s'.phase == s.phase[t := Fetched(i, n, k)]
    ensures Rep(next[prev := 0], freeList, central[i := current], chain[(t, i) := GetOr(central, i)], s')
  {
    var c := ListAt(s, Central(i));
    var start := GetOr(central, i);
    var next', central', chain' := next[prev := 0], central[i := current], chain[(t, i) := start];
    CanWalk(next, freeList, central, chain, s, Central(i));
    assert prev in c && ListOk(s, Central(i));
    assert LinkAt(next, c, k - 1);
    LinkedCut(next, start, c, k);
    assert ListAt(s', Flight(t, i)) == c[..k];
    forall q: Place | IsList(q) ensures ListLinked(next', Head(freeList, central', chain', q), s', q) {
      if q != Central(i) && q != Flight(t, i) {
        assert ListLinked(next, Head(freeList, central, chain, q), s, q) && ListOk(s, q);
        OtherListLinked(next, prev, 0, Head(freeList, central, chain, q), s, Central(i), q);
      }
    }
  }

  ghost predicate RunLinkAt(next: map<Addr, Addr>, bs: seq<Addr>, hi: nat, k: nat)
    requires k < hi <= |bs|
  {
    bs[k] in next && next[bs[k]] == if k + 1 < hi then bs[k + 1] else 0
  }

  /** Blocks lo .. j - 1 are linked to their successors in a run that ends before hi. */
  ghost predicate LinkedUpTo(next: map<Addr, Addr>, bs: seq<Addr>, lo: nat, hi: nat, j: nat)
    requires j <= hi <= |bs|
  {
    forall k :: lo <= k < j ==> RunLinkAt(next, bs, hi, k)
  }

  ghost predicate RunLinked(next: map<Addr, Addr>, bs: seq<Addr>, lo: nat, hi: nat)
    requires lo <= hi <= |bs|
  {
    LinkedUpTo(next, bs, lo, hi, hi)
  }

  /** Only words of the blocks bs have been written. */
  ghost predicate SameElsewhere(next: map<Addr, Addr>, next': map<Addr, Addr>, bs: seq<Addr>) {
    forall a :: a in next && a !in bs ==> a in next' && next'[a] == next[a]
  }

  lemma WriteLink(next: map<Addr, Addr>, bs: seq<Addr>, lo: nat, hi: nat, j: nat, v: Addr)
    requires NoDup(bs) && lo <= j < hi <= |bs| && v == if j + 1 < hi then bs[j + 1] else 0
    requires LinkedUpTo(next, bs, lo, hi, j)
    ensures LinkedUpTo(next[bs[j] := v], bs, lo, hi, j + 1)
  {
    var next' := next[bs[j] := v];
    forall k | lo <= k < j + 1 ensures RunLinkAt(next', bs, hi, k) {
      if k < j { assert RunLinkAt(next, bs, hi, k); }
    }
  }

  lemma RunFrame(next: map<Addr, Addr>, next': map<Addr, Addr>, bs: seq<Addr>, lo: nat, hi: nat)
    requires NoDup(bs) && lo <= hi <= |bs| && RunLinked(next, bs, lo, hi)
    requires SameElsewhere(next, next', bs[hi..])
    ensures RunLinked(next', bs, lo, hi)
  {
    assert bs == bs[..hi] + bs[hi..];
    NoDupSplit(bs[..hi], bs[hi..]);
    forall k | lo <= k < hi ensures RunLinkAt(next', bs, hi, k) {
      assert RunLinkAt(next, bs, hi, k);
      assert bs[k] == bs[..hi][k];
    }
  }

  lemma RunIsLinked(next: map<Addr, Addr>, bs: seq<Addr>, lo: nat, hi: nat)
    requires lo < hi <= |bs| && RunLinked(next, bs, lo, hi)
    ensures Linked(next, bs[lo], bs[lo..hi])
  {
    forall k: nat ensures LinkAt(next, bs[lo..hi], k) {
      if k < hi - lo { assert RunLinkAt(next, bs, hi, lo + k); }
    }
  }

  lemma NewListLinked(next: map<Addr, Addr>, next': map<Addr, Addr>, bs: seq<Addr>, head: Addr, s: State, q: Place)
    requires ListLinked(next, head, s, q) && ListOk(s, q)
    requires SameElsewhere(next, next', bs) && forall b :: b in bs ==> b !in s.place
    ensures ListLinked(next', head, s, q)
  {
    if !SingleFetch(s, q) && (q.Flight? ==> ListAt(s, q) != []) {
      LinkedFrame(next, next', head, ListAt(s, q));
    }
  }

  lemma CarveRep(next: map<Addr, Addr>, next': map<Addr, Addr>, freeList: map<(Tid, nat), Addr>,
                 central: map<nat, Addr>,
                 chain: map<(Tid, nat), Addr>, s: State, s': State, t: Tid, i: nat, n: nat, bs: seq<Addr>, k: nat)
    requires Rep(next, freeList, central, chain, s) && Consistent(s)
    requires (forall j :: ListAt(s, Flight(t, j)) == []) && ListAt(s, Central(i)) == []
    requires bs != [] && k == Min(n, |bs|) && n > 0
    requires SameElsewhere(next, next', bs) && forall b :: b in bs ==> b !in s.place
    requires n > 1 ==> RunLinked(next', bs, 0, k)
    requires k < |bs| ==> RunLinked(next', bs, k, |bs|)
    requires ListAt(s', Flight(t, i)) == bs[..k] + ListAt(s, Flight(t, i))
    requires ListAt(s', Central(i)) == bs[k..] + ListAt(s, Central(i))
    requires forall q: Place :: q != Central(i) && q != Flight(t, i) ==> ListAt(s', q) == ListAt(s, q)
    requires s'.phase == s.phase[t := Fetched(i, n, k)]
    ensures Rep(next', freeList, if k < |bs| then central[i := bs[k]] else central, chain[(t, i) := bs[0]], s')
  {
    hide RunLinked, Linked, SameElsewhere;
    var central', chain' := if k < |bs| then central[i := bs[k]] else central, chain[(t, i) := bs[0]];
    assert ListAt(s', Flight(t, i)) == bs[0..k] && ListAt(s', Central(i)) == bs[k..|bs|];
    if n > 1 { RunIsLinked(next', bs, 0, k); }
    if k < |bs| { RunIsLinked(next', bs, k, |bs|); }
    forall q: Place | IsList(q) ensures ListLinked(next', Head(freeList, central', chain', q), s', q) {
      assert ListLinked(next, Head(freeList, central, chain, q), s, q) && ListOk(s, q);
      NewListLinked(next, next', bs, Head(freeList, central, chain, q), s, q);
    }
  }

  lemma LargeRep(next: map<Addr, Addr>, next': map<Addr, Addr>, freeList: map<(Tid, nat), Addr>,
                 central: map<nat, Addr>,
                 chain: map<(Tid, nat), Addr>, s: State, s': State, t: Tid, i: nat, span: Addr)
    requires Rep(next, freeList, central, chain, s) && (forall p: Place :: ListOk(s, p))
    requires SameElsewhere(next, next', []) && ListAt(s, Flight(t, i)) == []
    requires forall j :: ListAt(s, Flight(t, j)) == []
    requires ListAt(s', Flight(t, i)) == [span] + ListAt(s, Flight(t, i))
    requires forall q: Place :: q != Flight(t, i) ==> ListAt(s', q) == ListAt(s, q)
    requires s'.phase == s.phase[t := Fetched(i, 1, 0)]
    ensures Rep(next', freeList, central, chain[(t, i) := span], s')
  {
    var chain' := chain[(t, i) := span];
    forall q: Place | IsList(q) ensures ListLinked(next', Head(freeList, central, chain', q), s', q) {
      assert ListLinked(next, Head(freeList, central, chain, q), s, q) && ListOk(s, q);
      NewListLinked(next, next', [], Head(freeList, central, chain, q), s, q);
    }
  }

  /** What the carving of a span has written. */
  ghost predicate SpanLinked(next: map<Addr, Addr>, next': map<Addr, Addr>, bs: seq<Addr>, k: nat) {
    && k <= |bs| && SameElsewhere(next, next', bs)
    && (k > 1 ==> RunLinked(next', bs, 0, k))
    && (k < |bs| ==> RunLinked(next', bs, k, |bs|))
  }

  lemma SpanStep(next: map<Addr, Addr>, next': map<Addr, Addr>, freeList: map<(Tid, nat), Addr>,
                 count: map<(Tid, nat), nat>,
                 central: map<nat, Addr>, chain: map<(Tid, nat), Addr>, phase: map<Tid, Phase>, s: State,
                 t: Tid, i: nat, n: nat, span: Addr, bs: seq<Addr>, bytes: nat, k: nat)
    requires Represents(next, freeList, count, central, chain, phase, s) && ReadyToFetch(s, t, i) && GoodBatch(i, n)
    requires ListAt(s, Central(i)) == [] && GoodSpan(s, i, span, bs, bytes) && k == Min(n, |bs|)
    requires SpanLinked(next, next', bs, k)
    ensures Represents(next', freeList, count, if k < |bs| then central[i := bs[k]] else central,
                       chain[(t, i) := span], phase[t := Fetched(i, n, k)], DoFetch(s, t, i, n, span, bs, bytes))
  {
    FetchKeepsInv(s, t, i, n, span, bs, bytes);
    assert FlightOk(s, t);
    if bs != [] {
      FreshIsNew(s, span, bytes);
      CarveLists(s, t, i, n, bs);
      CarveRep(next, next', freeList, central, chain, s, Carve(s, t, i, n, bs), t, i, n, bs, k);
    } else {
      LargeRep(next, next', freeList, central, chain, s, DoFetch(s, t, i, n, span, bs, bytes), t, i, span);
    }
  }

  // ----- Freeing -----

  lemma PushRep(next: map<Addr, Addr>, freeList: map<(Tid, nat), Addr>, central: map<nat, Addr>,
                chain: map<(Tid, nat), Addr>, s: State, t: Tid, ptr: Addr, i: nat)
    requires Rep(next, freeList, central, chain, s) && (forall p: Place :: ListOk(s, p))
    requires ptr in s.place && s.place[ptr].Live?
    ensures Rep(next[ptr := GetOr(freeList, (t, i))], freeList[(t, i) := ptr], central, chain, Pushed(s, t, ptr, i))
  {
    var p, s' := Local(t, i), Pushed(s, t, ptr, i);
    var head, xs := GetOr(freeList, (t, i)), ListAt(s, Local(t, i));
    var next', freeList' := next[ptr := head], freeList[(t, i) := ptr];
    assert ListAt(s', p) == [ptr] + xs;
    assert ListLinked(next, Head(freeList, central, chain, p), s, p) && ListOk(s, p);
    forall k: nat ensures LinkAt(next', [ptr] + xs, k) {
      if k > 0 { assert LinkAt(next, xs, k - 1); }
    }
    forall q: Place | IsList(q) ensures ListLinked(next', Head(freeList', central, chain, q), s', q) {
      assert ListLinked(next, Head(freeList, central, chain, q), s, q) && ListOk(s, q);
      if q != p {
        OtherListLinked(next, ptr, head, Head(freeList, central, chain, q), s, s.place[ptr], q);
      }
    }
  }

  lemma TrimRep(next: map<Addr, Addr>, freeList: map<(Tid, nat), Addr>, central: map<nat, Addr>,
                chain: map<(Tid, nat), Addr>, s: State, s': State, t: Tid, i: nat, k: nat, split: Addr)
    requires Rep(next, freeList, central, chain, s) && (forall p: Place :: ListOk(s, p))
    requires forall j :: ListAt(s, Flight(t, j)) == []
    requires 0 < k <= |ListAt(s, Local(t, i))| && split == ListAt(s, Local(t, i))[k - 1]
    requires ListAt(s', Local(t, i)) == ListAt(s, Local(t, i))[..k]
    requires ListAt(s', Flight(t, i)) == ListAt(s, Local(t, i))[k..] + ListAt(s, Flight(t, i))
    requires forall q: Place :: q != Local(t, i) && q != Flight(t, i) ==> ListAt(s', q) == ListAt(s, q)
    requires forall u :: u != t ==> PhaseAt(s', u) == PhaseAt(s, u)
    requires !PhaseAt(s', t).Fetched?
    ensures split in next
    ensures Rep(next[split := 0], freeList, central, chain[(t, i) := next[split]], s')
  {
    var p := Local(t, i);
    var xs := ListAt(s, p);
    assert ListOk(s, p) && split in xs;
    assert ListLinked(next, Head(freeList, central, chain, p), s, p);
    LinkedCut(next, Head(freeList, central, chain, p), xs, k);
    var next', chain' := next[split := 0], chain[(t, i) := next[split]];
    assert ListAt(s', Flight(t, i)) == xs[k..];
    forall q: Place | IsList(q) ensures ListLinked(next', Head(freeList, central, chain', q), s', q) {
      assert ListLinked(next, Head(freeList, central, chain, q), s, q) && ListOk(s, q);
      if q != p {
        OtherListLinked(next, split, 0, Head(freeList, central, chain, q), s, p, q);
      }
    }
  }

  /** After the push, before the list is checked: all of `Represents` except that the list may have 65 blocks. */
  ghost predicate PushedRepresents(next: map<Addr, Addr>, freeList: map<(Tid, nat), Addr>, size: map<(Tid, nat), nat>,
                                   central: map<nat, Addr>, chain: map<(Tid, nat), Addr>, phase: map<Tid, Phase>,
                                   s: State, t: Tid) {
    && Consistent(s) && FlightOk(s, t) && PhaseAt(s, t).Idle?
    && s.count == size && s.phase == phase && Rep(next, freeList, central, chain, s)
  }

  lemma PushStep(next: map<Addr, Addr>, freeList: map<(Tid, nat), Addr>, count: map<(Tid, nat), nat>,
                 central: map<nat, Addr>,
                 chain: map<(Tid, nat), Addr>, phase: map<Tid, Phase>, s: State, t: Tid, ptr: Addr, i: nat)
    requires Represents(next, freeList, count, central, chain, phase, s) && PhaseAt(s, t).Idle?
    requires ptr in s.place && s.place[ptr].Live? && i <= s.place[ptr].index
    ensures PushedRepresents(next[ptr := GetOr(freeList, (t, i))], freeList[(t, i) := ptr],
                             count[(t, i) := Wrap(GetOr(count, (t, i)) + 1)], central, chain, phase,
                             Pushed(s, t, ptr, i), t)
  {
    assert FlightOk(s, t) && CounterOk(s, t, i);
    PushedConsistent(s, t, ptr, i);
    PushedIsStep(s, t, ptr, i);
    PushRep(next, freeList, central, chain, s, t, ptr, i);
  }

  lemma TrimStep(next: map<Addr, Addr>, freeList: map<(Tid, nat), Addr>, count: map<(Tid, nat), nat>,
                 central: map<nat, Addr>,
                 chain: map<(Tid, nat), Addr>, phase: map<Tid, Phase>, s: State, t: Tid, i: nat, size: nat, k: nat,
                 split: Addr)
    requires PushedRepresents(next, freeList, count, central, chain, phase, s, t)
    requires 64 < CountAt(s, t, i) && k == KeepNum(CountAt(s, t, i)) <= |ListAt(s, Local(t, i))|
    requires split == ListAt(s, Local(t, i))[k - 1]
    ensures
      var s' := DoTrim(s, t, i, size);
      && split in next
      && (next[split] == 0 <==> k == |ListAt(s, Local(t, i))|)
      && s'.count == count[(t, i) := k]
      && s'.phase == (if next[split] == 0 then phase else phase[t := Returning(i, size, CountAt(s, t, i) - k)])
      && Rep(next[split := 0], freeList, central, chain[(t, i) := next[split]], s')
  {
    var xs := ListAt(s, Local(t, i));
    CanWalk(next, freeList, central, chain, s, Local(t, i));
    assert LinkAt(next, xs, k - 1);
    TrimLists(s, t, i, size);
    TrimRep(next, freeList, central, chain, s, DoTrim(s, t, i, size), t, i, k, split);
  }

  class MemoryPool {
    var next: map<Addr, Addr>                  // first word of each block
    var freeList: map<(Tid, nat), Addr>        // threadcache: heads of the local lists
    var freeListSize: map<(Tid, nat), nat>     // threadcache: their counted lengths
    var centralFreeList: map<nat, Addr>        // centralCache: head per class
    var chain: map<(Tid, nat), Addr>           // head of the chain a call has in hand
    var phase: map<Tid, Phase>                 // where each thread is in its call
    ghost var machine: State

    ghost predicate Valid()
      reads this
    {
      Represents(next, freeList, freeListSize, centralFreeList, chain, phase, machine)
    }

    constructor ()
      ensures Valid() && machine == EMPTY
    {
      next, freeList, freeListSize, centralFreeList, chain, phase := map[], map[], map[], map[], map[], map[];
      machine := EMPTY;
      new;
      EmptyInv();
    }

    /** `allocate` when the local list of the class has a block. */
    method AllocateLocal(t: Tid, size: nat) returns (ptr: Addr)
      requires Valid() && size <= MAX_BYTE && PhaseAt(machine, t).Idle?
      requires ListAt(machine, Local(t, GetIndex(size))) != []
      modifies this
      ensures Valid() && machine == DoPop(old(machine), t, GetIndex(size)) && PhaseAt(machine, t).Idle?
      ensures ptr == old(ListAt(machine, Local(t, GetIndex(size)))[0])
      ensures HandedOut(old(machine), machine, ptr, GetIndex(size))
    {
      var index := GetIndex(size);
      PopRep(next, freeList, centralFreeList, chain, machine, t, index);
      PopKeepsInv(machine, t, index);
      PopHandsOut(machine, t, index);
      ptr := GetOr(freeList, (t, index));
      freeList := freeList[(t, index) := next[ptr]];
      freeListSize := freeListSize[(t, index) := Wrap(GetOr(freeListSize, (t, index)) - 1)];
      machine := DoPop(machine, t, index);
    }

    /** `allocate` after the fetch: one block is returned, the others become the local list. */
    method FinishFetch(t: Tid) returns (ptr: Addr)
      requires Valid() && PhaseAt(machine, t).Fetched?
      modifies this
      ensures Valid() && machine == DoFinish(old(machine), t)
      ensures old(ListAt(machine, Flight(t, PhaseAt(machine, t).index))) != []
      ensures ptr == old(ListAt(machine, Flight(t, PhaseAt(machine, t).index)))[0]
      ensures HandedOut(old(machine), machine, ptr, old(PhaseAt(machine, t).index)) && PhaseAt(machine, t).Idle?
    {
      hide Inv, Rep, DoFinish, CountAfterFetch, HandedOut;
      var Fetched(index, batchNum, realIncrease) := phase[t];
      FinishStep(next, freeList, freeListSize, centralFreeList, chain, phase, machine, t, index, batchNum,
                 realIncrease);
      ptr := GetOr(chain, (t, index));
      freeListSize := freeListSize[(t, index) := CountAfterFetch(GetOr(freeListSize, (t, index)), realIncrease)];
      freeList := if batchNum > 1 then freeList[(t, index) := next[ptr]] else freeList;
      phase := phase[t := Idle];
      machine := DoFinish(machine, t);
    }

    // ----- centralCache::returnRange -----

    /** The loop of `returnRange`: the last block of the chain, or of its first `bound` blocks. */
    method LastOfChain(start: Addr, bound: nat, ghost xs: seq<Addr>) returns (end: Addr)
      requires Linked(next, start, xs) && xs != [] && 0 !in xs
      ensures end == xs[Spliced(|xs|, bound) - 1]
    {
      end := start;
      var count := 1;
      assert LinkAt(next, xs, 0);
      while next[end] != 0 && count < bound
        invariant 1 <= count <= |xs| && end == xs[count - 1] && LinkAt(next, xs, count - 1)
        invariant count <= bound || count == 1
        decreases |xs| - count
      {
        end := next[end];
        count := count + 1;
        assert LinkAt(next, xs, count - 1);
      }
    }

    /** `returnRange`, under the lock of the class. */
    method ReturnRange(t: Tid)
      requires Valid() && PhaseAt(machine, t).Returning?
      modifies this
      ensures Valid() && machine == DoReturn(old(machine), t)
    {
      hide Inv, Rep, Consistent, DoReturn, ReturnBound, Spliced, Linked;
      InvIsConsistent(machine);
      var Returning(index, size, returnNum) := phase[t];
      var bound := ReturnBound(size, returnNum);
      var start := GetOr(chain, (t, index));
      ReturningHasChain(machine, t);
      CanWalk(next, freeList, centralFreeList, chain, machine, Flight(t, index));
      var end := LastOfChain(start, bound, ListAt(machine, Flight(t, index)));
      ReturnStep(next, freeList, freeListSize, centralFreeList, chain, phase, machine, t, index, bound, end);
      next := next[end := GetOr(centralFreeList, index)];
      centralFreeList := centralFreeList[index := start];
      phase := phase[t := Idle];
      machine := DoReturn(machine, t);
    }

    // ----- centralCache::fetchRange -----

    /** The loop of `fetchRange` on a central list: how many blocks are taken, the last of them and the one after it. */
    method SplitPoint(start: Addr, batchNum: nat, ghost xs: seq<Addr>) returns (prev: Addr, current: Addr, count: nat)
      requires Linked(next, start, xs) && xs != [] && 0 !in xs && batchNum > 0
      ensures count == Min(batchNum, |xs|) && prev == xs[count - 1]
      ensures current == if count < |xs| then xs[count] else 0
    {
      prev, current, count := 0, start, 0;
      while current != 0 && count < batchNum
        invariant count <= |xs| && count <= batchNum
        invariant current == if count < |xs| then xs[count] else 0
        invariant count > 0 ==> prev == xs[count - 1]
        decreases |xs| - count
      {
        assert LinkAt(next, xs, count);
        prev := current;
        current := next[current];
        count := count + 1;
      }
    }

    /** `fetchRange` when the central list of the class has blocks. */
    method FetchFromCentral(t: Tid, index: nat, batchNum: nat)
      requires Valid() && ReadyToFetch(machine, t, index) && GoodBatch(index, batchNum)
      requires ListAt(machine, Central(index)) != []
      modifies this
      ensures Valid() && machine == TakeFromCentral(old(machine), t, index, batchNum)
    {
      hide Inv, Rep, Consistent, TakeFromCentral, Linked;
      InvIsConsistent(machine);
      var result := GetOr(centralFreeList, index);
      CanWalk(next, freeList, centralFreeList, chain, machine, Central(index));
      var prev, current, count := SplitPoint(result, batchNum, ListAt(machine, Central(index)));
      TakeStep(next, freeList, freeListSize, centralFreeList, chain, phase, machine, t, index, batchNum, prev,
               current, count);
      next := next[prev := 0];
      centralFreeList := centralFreeList[index := current];
      chain := chain[(t, index) := result];
      phase := phase[t := Fetched(index, batchNum, count)];
      machine := TakeFromCentral(machine, t, index, batchNum);
    }

    /** The loop that links the blocks lo .. hi - 1 of a span and ends the chain with null. */
    method LinkRun(start: Addr, size: nat, lo: nat, hi: nat, ghost bs: seq<Addr>)
      requires lo < hi <= |bs| && bs == Blocks(start, size, |bs|) && NoDup(bs)
      modifies this`next
      ensures RunLinked(next, bs, lo, hi)
      ensures SameElsewhere(old(next), next, bs[lo..hi])
    {
      var i := lo + 1;
      while i < hi
        invariant lo < i <= hi
        invariant LinkedUpTo(next, bs, lo, hi, i - 1)
        invariant SameElsewhere(old(next), next, bs[lo..hi])
      {
        var current := start + (i - 1) * size;
        var following := start + i * size;
        BlockAt(start, size, |bs|, i - 1);
        BlockAt(start, size, |bs|, i);
        WriteLink(next, bs, lo, hi, i - 1, following);
        assert current == bs[lo..hi][i - 1 - lo];
        next := next[current := following];
        i := i + 1;
      }
      var last := start + (hi - 1) * size;
      BlockAt(start, size, |bs|, hi - 1);
      WriteLink(next, bs, lo, hi, hi - 1, 0);
      assert last == bs[lo..hi][hi - 1 - lo];
      next := next[last := 0];
    }

    /** Links the blocks of a span into the chain for the thread and the list that stays behind. */
    method LinkSpan(span: Addr, size: nat, totalBlocks: nat, allocBlocks: nat, ghost bs: seq<Addr>)
      requires bs == Blocks(span, size, totalBlocks) && NoDup(bs) && allocBlocks <= totalBlocks
      modifies this`next
      ensures SameElsewhere(old(next), next, bs)
      ensures allocBlocks > 1 ==> RunLinked(next, bs, 0, allocBlocks)
      ensures allocBlocks < totalBlocks ==> RunLinked(next, bs, allocBlocks, totalBlocks)
    {
      if allocBlocks > 1 {
        LinkRun(span, size, 0, allocBlocks, bs);
      }
      ghost var middle := next;
      if totalBlocks > allocBlocks {
        LinkRun(span, size, allocBlocks, totalBlocks, bs);
        assert bs[allocBlocks..totalBlocks] == bs[allocBlocks..];
        if allocBlocks > 1 { RunFrame(middle, next, bs, 0, allocBlocks); }
      }
    }

    /** The blocks of a fresh span: their links, and the head of those that stay with the central cache. */
    method CarveSpan(span: Addr, size: nat, batchNum: nat, ghost bs: seq<Addr>)
      returns (allocBlocks: nat, remainStart: Addr)
      requires size > 0 && bs == Blocks(span, size, SPAN_BYTES / size) && NoDup(bs)
      modifies this`next
      ensures allocBlocks == Min(batchNum, |bs|) && SpanLinked(old(next), next, bs, allocBlocks)
      ensures remainStart == if allocBlocks < |bs| then bs[allocBlocks] else 0
    {
      var totalBlocks := SPAN_BYTES / size;
      allocBlocks := Min(batchNum, totalBlocks);
      LinkSpan(span, size, totalBlocks, allocBlocks, bs);
      remainStart := 0;
      if totalBlocks > allocBlocks {
        BlockAt(span, size, totalBlocks, allocBlocks);
        remainStart := span + allocBlocks * size;
      }
    }

    /** `fetchRange` on an empty central list, with the span the page cache has granted. */
    method FetchFromSpan(t: Tid, index: nat, batchNum: nat, span: Addr, ghost bs: seq<Addr>, ghost bytes: nat)
      requires Valid() && ReadyToFetch(machine, t, index) && GoodBatch(index, batchNum)
      requires ListAt(machine, Central(index)) == [] && GoodSpan(machine, index, span, bs, bytes)
      requires bs == SpanBlocks(span, index)
      modifies this
      ensures Valid() && machine == DoFetch(old(machine), t, index, batchNum, span, bs, bytes)
    {
      hide Inv, Rep, Consistent, DoFetch, FreshSpan, Blocks, SpanLinked;
      ghost var before := next;
      var allocBlocks, remainStart := CarveSpan(span, BlockBytes(index), batchNum, bs);
      SpanStep(before, next, freeList, freeListSize, centralFreeList, chain, phase, machine,
               t, index, batchNum, span, bs, bytes, allocBlocks);
      assert allocBlocks < |bs| ==> bs[allocBlocks] in bs;
      centralFreeList := if remainStart != 0 then centralFreeList[index := remainStart] else centralFreeList;
      chain := chain[(t, index) := span];
      phase := phase[t := Fetched(index, batchNum, allocBlocks)];
      machine := DoFetch(machine, t, index, batchNum, span, bs, bytes);
    }

    /** `fetchRange`, under the lock of the class; `span` is the page cache's answer (0: no memory). */
    method FetchRange(t: Tid, index: nat, span: Addr) returns (start: Addr)
      requires Valid() && index < FREE_LIST_SIZE && ReadyToFetch(machine, t, index)
      requires ListAt(machine, Central(index)) == [] && span != 0 ==> FreshSpan(machine, span, CarvedBytes(index))
      modifies this
      ensures Valid() && machine == FetchClass(old(machine), t, index, span)
      ensures KeepsLive(old(machine), machine)
      ensures if start == 0 then machine == old(machine) && span == 0 && ListAt(machine, Central(index)) == []
              else PhaseAt(machine, t).Fetched? && PhaseAt(machine, t).index == index
    {
      var batchNum := GetBatchNum(BlockBytes(index));
      BatchIsGood(index);
      FetchKeepsLive(machine, t, index, span);
      HeadIsNull(next, freeList, centralFreeList, chain, machine, Central(index));
      start := GetOr(centralFreeList, index);
      if start != 0 {
        FetchFromCentral(t, index, batchNum);
      } else if span != 0 {
        start := span;
        FreshSpanIsGood(machine, index, span);
        FetchFromSpan(t, index, batchNum, span, SpanBlocks(span, index), CarvedBytes(index));
      }
    }

    /** What the program does with its own block, `x` an address in it, is nothing to the pool. */
    method WriteLive(a: Addr, x: Addr, v: Addr)
      requires Valid() && IsLive(machine, a) && a <= x < a + machine.extent[a]
      modifies this`next
      ensures Valid() && next == old(next)[x := v]
    {
      LiveWord(next, freeList, freeListSize, centralFreeList, chain, phase, machine, a, x, v);
      next := next[x := v];
    }

    // ----- threadcache::deallocate -----

    /** The walk of `returnToCentralCache` to the last block that stays, with its early end. */
    method SplitNode(start: Addr, batchNum: nat, keepNum: nat, ghost xs: seq<Addr>)
      returns (splitNode: Addr, returnNum: nat)
      requires Linked(next, start, xs) && xs != [] && 0 !in xs && 0 < keepNum <= batchNum
      ensures if keepNum <= |xs| then splitNode == xs[keepNum - 1] && returnNum == batchNum - keepNum
              else splitNode == 0
    {
      splitNode, returnNum := start, batchNum - keepNum;
      var i := 0;
      while i < keepNum - 1
        invariant 0 <= i <= keepNum - 1 && i < |xs| && splitNode == xs[i]
        invariant returnNum == batchNum - keepNum
      {
        assert LinkAt(next, xs, i);
        splitNode := next[splitNode];
        if splitNode == 0 {
          returnNum := batchNum - (i + 1);
          return;
        }
        i := i + 1;
      }
    }

    /** `returnToCentralCache` up to the call of `returnRange`. */
    method CutLocalList(t: Tid, index: nat, size: nat)
      requires PushedRepresents(next, freeList, freeListSize, centralFreeList, chain, phase, machine, t)
      requires 64 < CountAt(machine, t, index) && ListAt(machine, Local(t, index)) != []
      modifies this
      ensures machine == DoTrim(old(machine), t, index, size)
      ensures machine.count == freeListSize && machine.phase == phase
      ensures Rep(next, freeList, centralFreeList, chain, machine)
    {
      hide Linked, Inv;
      ghost var xs := ListAt(machine, Local(t, index));
      var start := GetOr(freeList, (t, index));
      var batchNum := GetOr(freeListSize, (t, index));
      var keepNum := KeepNum(batchNum);
      CanWalk(next, freeList, centralFreeList, chain, machine, Local(t, index));
      var splitNode, returnNum := SplitNode(start, batchNum, keepNum, xs);
      ghost var s' := DoTrim(machine, t, index, size);
      if splitNode != 0 {
        TrimStep(next, freeList, freeListSize, centralFreeList, chain, phase, machine, t, index, size, keepNum,
                 splitNode);
        var nextNode := next[splitNode];
        next := next[splitNode := 0];
        freeListSize := freeListSize[(t, index) := keepNum];
        chain := chain[(t, index) := nextNode];
        if returnNum > 0 && nextNode != 0 {
          phase := phase[t := Returning(index, size, returnNum)];
        }
      }
      machine := s';
    }

    /** `deallocate` up to the call of `returnRange`: the push, and the cut once the list is too long. */
    method Deallocate(t: Tid, ptr: Addr, size: nat)
      requires Valid() && Enabled(machine, Free(t, ptr, size))
      modifies this
      ensures Valid() && machine == DoFree(old(machine), t, ptr, size)
    {
      hide Inv, Rep;
      var index := GetIndex(size);
      FreeKeepsInv(machine, t, ptr, size);
      PushStep(next, freeList, freeListSize, centralFreeList, chain, phase, machine, t, ptr, index);
      ghost var s' := DoFree(machine, t, ptr, size);
      next := next[ptr := GetOr(freeList, (t, index))];
      freeList := freeList[(t, index) := ptr];
      freeListSize := freeListSize[(t, index) := Wrap(GetOr(freeListSize, (t, index)) + 1)];
      machine := Pushed(machine, t, ptr, index);
      assert s' == DoTrim(machine, t, index, size);
      if GetOr(freeListSize, (t, index)) > 64 {
        CutLocalList(t, index, size);
      }
    }

    /** A whole call of `allocate` that no other thread interrupts; null if there is no memory. */
    method Allocate(t: Tid, size: nat, span: Addr) returns (ptr: Addr)
      requires Valid() && size <= MAX_BYTE && PhaseAt(machine, t).Idle?
      requires ListAt(machine, Local(t, GetIndex(size))) == [] ==> Enabled(machine, Fetch(t, size, span))
      modifies this
      ensures Valid() && PhaseAt(machine, t).Idle? && KeepsLive(old(machine), machine)
      ensures if ptr == 0 then machine == old(machine) && span == 0
              else ptr in machine.place && machine.place[ptr] == Live(GetIndex(size)) && !IsLive(old(machine), ptr)
    {
      var index := GetIndex(size);
      GetIndexIsBestFit(size);
      HeadIsNull(next, freeList, centralFreeList, chain, machine, Local(t, index));
      if GetOr(freeList, (t, index)) != 0 {
        ptr := AllocateLocal(t, size);
      } else {
        ptr := FetchRange(t, index, span);
        if ptr != 0 {
          ptr := FinishFetch(t);
        }
      }
    }
  }
}
