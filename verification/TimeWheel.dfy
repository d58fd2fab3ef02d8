/**
 The hashed timing wheel: slot lists of nodes with a rotation count, and an index from
 descriptor to node.  It is shown to behave as a plain map from descriptor to the number
 of ticks left.
 */
module TimeWheel {

  type Fd = int
  type ConnId = nat

  /** What a timer is to its user: the ticks left before the one that fires it, and its connection. */
  datatype Timer = Timer(left: nat, conn: ConnId)

  /** A list node; `id` is its identity, which is what an iterator into the list refers to. */
  datatype TimerNode = TimerNode(id: nat, fd: Fd, rotation: nat, slot: nat, conn: ConnId)

  /** An iterator: the node `id` in the list of `slot`. */
  datatype Iterator = Iterator(slot: nat, id: nat)

  type Wheel = seq<seq<TimerNode>>
  type Index = map<Fd, Iterator>

  /** Ticks from `current` until the wheel stands at `slot`. */
  function Distance(current: nat, slot: nat, slots: nat): nat
    requires current < slots && slot < slots
  {
    if current <= slot then slot - current else slot + slots - current
  }

  /** The measure of a node: full turns, then the way to its slot. */
  function Left(rotation: nat, current: nat, slot: nat, slots: nat): nat
    requires current < slots && slot < slots
  {
    rotation * slots + Distance(current, slot, slots)
  }

  ghost predicate NoDup(list: seq<TimerNode>) {
    forall j, k :: 0 <= j < k < |list| ==> list[j].id != list[k].id
  }

  ghost predicate Points(wheel: Wheel, fd: Fd, it: Iterator) {
    it.slot < |wheel| && exists n :: n in wheel[it.slot] && n.fd == fd && n.id == it.id
  }

  /** Every index entry refers to a node of its descriptor that is in the wheel. */
  ghost predicate IndexSound(wheel: Wheel, index: Index) {
    forall fd :: fd in index ==> Points(wheel, fd, index[fd])
  }

  /** The node n stands in list s, is the one the index has, and agrees with the plain map. */
  ghost predicate NodeOk(n: TimerNode, s: nat, current: nat, slots: nat, index: Index, timers: map<Fd, Timer>)
    requires current < slots && s < slots
  {
    && n.slot == s
    && n.fd in index && index[n.fd] == Iterator(s, n.id)
    && n.fd in timers && timers[n.fd] == Timer(Left(n.rotation, current, s, slots), n.conn)
  }

  ghost predicate Agrees(wheel: Wheel, current: nat, index: Index, timers: map<Fd, Timer>)
    requires current < |wheel|
  {
    forall s, n :: 0 <= s < |wheel| && n in wheel[s] ==> NodeOk(n, s, current, |wheel|, index, timers)
  }

  ghost predicate ListsOk(wheel: Wheel, nextId: nat) {
    forall s :: 0 <= s < |wheel| ==> NoDup(wheel[s]) && forall n :: n in wheel[s] ==> n.id < nextId && n.slot == s
  }

  lemma NewNodeLeft(ticks: nat, current: nat, slots: nat)
    requires current < slots
    ensures (current + ticks % slots) % slots < slots
    ensures Left(ticks / slots, current, (current + ticks % slots) % slots, slots) == ticks
  {
    var r := ticks % slots;
    assert ticks == ticks / slots * slots + r;
    if current + r < slots {
      assert (current + r) % slots == current + r;
    } else {
      assert (current + r) % slots == current + r - slots by {
        assert current + r == slots + (current + r - slots);
        ModOnce(current + r - slots, slots);
      }
    }
  }

  lemma ModOnce(x: nat, m: nat)
    requires x < m
    ensures (m + x) % m == x
  {
    assert m + x == 1 * m + x;
  }

  lemma AddKeepsIndex(wheel: Wheel, current: nat, index: Index, timers: map<Fd, Timer>, node: TimerNode)
    requires current < |wheel| && ListsOk(wheel, node.id) && IndexSound(wheel, index) && node.slot < |wheel|
    requires Agrees(wheel, current, index, timers)
    ensures
      var wheel' := wheel[node.slot := [node] + wheel[node.slot]];
      var index' := index[node.fd := Iterator(node.slot, node.id)];
      var timers' := timers[node.fd := Timer(Left(node.rotation, current, node.slot, |wheel|), node.conn)];
      && ListsOk(wheel', node.id + 1) && IndexSound(wheel', index')
      && (Agrees(wheel', current, index', timers') <==> node.fd !in index)
  {
    var wheel' := wheel[node.slot := [node] + wheel[node.slot]];
    var index' := index[node.fd := Iterator(node.slot, node.id)];
    var timers' := timers[node.fd := Timer(Left(node.rotation, current, node.slot, |wheel|), node.conn)];
    forall fd | fd in index' ensures Points(wheel', fd, index'[fd]) {
      if fd == node.fd {
        assert node in wheel'[node.slot];
      } else {
        var it := index[fd];
        var n :| n in wheel[it.slot] && n.fd == fd && n.id == it.id;
        assert n in wheel'[it.slot];
      }
    }
    if node.fd in index {
      var it := index[node.fd];
      assert Points(wheel, node.fd, it);
      var n :| n in wheel[it.slot] && n.fd == node.fd && n.id == it.id;
      assert n in wheel'[it.slot] && !NodeOk(n, it.slot, current, |wheel|, index', timers');
    } else {
      forall s, n | 0 <= s < |wheel'| && n in wheel'[s] ensures NodeOk(n, s, current, |wheel|, index', timers') {
        if n != node { assert n in wheel[s] && NodeOk(n, s, current, |wheel|, index, timers); }
      }
    }
  }

  /** The list without its node `id`. */
  function Erase(list: seq<TimerNode>, id: nat): seq<TimerNode> {
    if list == [] then []
    else if list[0].id == id then list[1..]
    else [list[0]] + Erase(list[1..], id)
  }

  lemma {:induction false} EraseIsExact(list: seq<TimerNode>, id: nat)
    requires NoDup(list)
    ensures NoDup(Erase(list, id))
    ensures forall m :: m in Erase(list, id) <==> m in list && m.id != id
  {
    if list != [] {
      assert list == [list[0]] + list[1..];
      EraseIsExact(list[1..], id);
    }
  }

  lemma EraseKeepsIndex(wheel: Wheel, current: nat, index: Index, timers: map<Fd, Timer>, nextId: nat, fd: Fd)
    requires current < |wheel| && ListsOk(wheel, nextId) && IndexSound(wheel, index)
    requires Agrees(wheel, current, index, timers) && fd in index
    ensures index[fd].slot < |wheel|
    ensures
      var it := index[fd];
      var wheel' := wheel[it.slot := Erase(wheel[it.slot], it.id)];
      && ListsOk(wheel', nextId) && IndexSound(wheel', index - {fd})
      && Agrees(wheel', current, index - {fd}, timers - {fd})
  {
    var it := index[fd];
    assert Points(wheel, fd, it);
    var wheel' := wheel[it.slot := Erase(wheel[it.slot], it.id)];
    EraseIsExact(wheel[it.slot], it.id);
    assert wheel'[it.slot] == Erase(wheel[it.slot], it.id);
    var gone :| gone in wheel[it.slot] && gone.fd == fd && gone.id == it.id;
    forall s, n | 0 <= s < |wheel'| && n in wheel'[s]
      ensures NodeOk(n, s, current, |wheel|, index - {fd}, timers - {fd})
    {
      assert n in wheel[s] && NodeOk(n, s, current, |wheel|, index, timers);
    }
    forall fd' | fd' in index - {fd} ensures Points(wheel', fd', index[fd']) {
      assert Points(wheel, fd', index[fd']);
      var n :| n in wheel[index[fd'].slot] && n.fd == fd' && n.id == index[fd'].id;
      assert NodeOk(gone, it.slot, current, |wheel|, index, timers);
      if index[fd'] == it { OneNodePerId(wheel, nextId, n, gone); }
      assert n in wheel'[index[fd'].slot];
    }
  }

  lemma OneNodePerId(wheel: Wheel, nextId: nat, m: TimerNode, n: TimerNode)
    requires ListsOk(wheel, nextId) && m.slot == n.slot < |wheel| && m.id == n.id
    requires m in wheel[m.slot] && n in wheel[n.slot]
    ensures m == n
  {
    assert NoDup(wheel[m.slot]);
  }

  function Fds(nodes: seq<TimerNode>): set<Fd> {
    set n | n in nodes :: n.fd
  }

  /** The node with one turn less, and with one turn more. */
  function Down(n: TimerNode): TimerNode {
    if n.rotation > 0 then n.(rotation := n.rotation - 1) else n
  }

  function Up(n: TimerNode): TimerNode {
    n.(rotation := n.rotation + 1)
  }

  /** What stays of a slot list when the wheel stands at it, one turn less each. */
  function Kept(list: seq<TimerNode>): seq<TimerNode> {
    if list == [] then []
    else
      var n := list[|list| - 1];
      Kept(list[..|list| - 1]) + if n.rotation > 0 then [Down(n)] else []
  }

  /** What is taken out of it. */
  function Gone(list: seq<TimerNode>): seq<TimerNode> {
    if list == [] then []
    else
      var n := list[|list| - 1];
      Gone(list[..|list| - 1]) + if n.rotation > 0 then [] else [n]
  }

  /** The connections to close for the nodes taken out: those that still exist, in list order. */
  function Due(nodes: seq<TimerNode>, alive: set<ConnId>): seq<(Fd, ConnId)> {
    if nodes == [] then []
    else
      var n := nodes[|nodes| - 1];
      Due(nodes[..|nodes| - 1], alive) + if n.conn in alive then [(n.fd, n.conn)] else []
  }

  lemma SweepLooksAt(list: seq<TimerNode>, p: nat, current: seq<TimerNode>, it: nat)
    requires p <= |list| && current == Kept(list[..p]) + list[p..] && it == |Kept(list[..p])| && it < |current|
    ensures p < |list| && current[it] == list[p] && list[..p + 1][..p] == list[..p] && list[..p + 1][p] == list[p]
    ensures current[it := Down(list[p])] == Kept(list[..p]) + [Down(list[p])] + list[p + 1..]
    ensures current[..it] + current[it + 1..] == Kept(list[..p]) + list[p + 1..]
  {
  }

  lemma KeepNext(list: seq<TimerNode>, p: nat, current: seq<TimerNode>, it: nat)
    requires p < |list| && current == Kept(list[..p]) + list[p..] && it == |Kept(list[..p])|
    requires it < |current| && list[p].rotation > 0
    ensures Gone(list[..p + 1]) == Gone(list[..p]) && it + 1 == |Kept(list[..p + 1])|
    ensures current[it := list[p].(rotation := list[p].rotation - 1)] == Kept(list[..p + 1]) + list[p + 1..]
  {
    SweepLooksAt(list, p, current, it);
  }

  lemma DropNext(list: seq<TimerNode>, p: nat, current: seq<TimerNode>, it: nat, alive: set<ConnId>)
    requires p < |list| && current == Kept(list[..p]) + list[p..] && it == |Kept(list[..p])|
    requires it < |current| && list[p].rotation == 0
    ensures it == |Kept(list[..p + 1])| && current[..it] + current[it + 1..] == Kept(list[..p + 1]) + list[p + 1..]
    ensures
      var n, gone, gone' := list[p], Gone(list[..p]), Gone(list[..p + 1]);
      && Due(gone', alive) == (if n.conn in alive then Due(gone, alive) + [(n.fd, n.conn)] else Due(gone, alive))
      && Fds(gone') == Fds(gone) + {n.fd}
  {
    SweepLooksAt(list, p, current, it);
    var gone := Gone(list[..p]);
    assert (gone + [list[p]])[..|gone|] == gone;
  }

  lemma EraseTwice(index: Index, gone: set<Fd>, fd: Fd)
    ensures (index - gone) - {fd} == index - (gone + {fd})
  {
  }

  // ----- The plain map -----

  function Ticked(timers: map<Fd, Timer>): map<Fd, Timer> {
    map fd | fd in timers && timers[fd].left > 0 :: Timer(timers[fd].left - 1, timers[fd].conn)
  }

  /** Exactly the timers without ticks left whose connection exists, each once. */
  ghost predicate IsDue(fired: seq<(Fd, ConnId)>, timers: map<Fd, Timer>, alive: set<ConnId>) {
    && (forall j, k :: 0 <= j < k < |fired| ==> fired[j].0 != fired[k].0)
    && (forall fd, c :: (fd, c) in fired <==> fd in timers && timers[fd] == Timer(0, c) && c in alive)
  }

  lemma LeftStep(rotation: nat, current: nat, slot: nat, slots: nat)
    requires current < slots && slot < slots
    ensures Left(rotation, current, slot, slots) == 0 <==> rotation == 0 && slot == current
    ensures slot != current ==>
              Left(rotation, (current + 1) % slots, slot, slots) == Left(rotation, current, slot, slots) - 1
    ensures slot == current && rotation > 0 ==>
              Left(rotation - 1, (current + 1) % slots, slot, slots) == Left(rotation, current, slot, slots) - 1
  {
    if rotation > 0 { assert rotation * slots == (rotation - 1) * slots + slots && (rotation - 1) * slots >= 0; }
    if current + 1 == slots { ModOnce(0, slots); }
  }

  lemma {:induction false} KeptAndGone(list: seq<TimerNode>)
    ensures forall n :: n in Gone(list) <==> n in list && n.rotation == 0
    ensures forall n :: n in Kept(list) ==> Up(n) in list
    ensures forall n {:trigger Down(n)} :: n in list && n.rotation > 0 ==> Down(n) in Kept(list)
  {
    if list != [] {
      var init, last := list[..|list| - 1], list[|list| - 1];
      assert list == init + [last];
      KeptAndGone(init);
      assert Kept(list) == Kept(init) + if last.rotation > 0 then [Down(last)] else [];
      assert last.rotation > 0 ==> Up(Down(last)) == last;
    }
  }

  lemma {:induction false} KeptNoDup(list: seq<TimerNode>)
    requires NoDup(list)
    ensures NoDup(Kept(list)) && NoDup(Gone(list))
  {
    if list != [] {
      var init, last := list[..|list| - 1], list[|list| - 1];
      KeptNoDup(init);
      KeptAndGone(init);
      forall n | n in Kept(init) ensures n.id != last.id {
        assert Up(n) in init;
      }
    }
  }

  lemma TickedNode(n: TimerNode, s: nat, current: nat, slots: nat, index: Index, timers: map<Fd, Timer>)
    requires current < slots && s < slots && NodeOk(n, s, current, slots, index, timers)
    requires s == current ==> n.rotation > 0
    ensures
      var n' := if s == current then Down(n) else n;
      NodeOk(n', s, (current + 1) % slots, slots, index, Ticked(timers))
  {
    LeftStep(n.rotation, current, s, slots);
  }

  lemma SweepKeepsIndex(wheel: Wheel, current: nat, index: Index, timers: map<Fd, Timer>, nextId: nat)
    requires current < |wheel| && ListsOk(wheel, nextId) && IndexSound(wheel, index)
    requires timers.Keys == index.Keys && Agrees(wheel, current, index, timers)
    ensures
      var wheel' := wheel[current := Kept(wheel[current])];
      var index' := index - Fds(Gone(wheel[current]));
      && ListsOk(wheel', nextId) && IndexSound(wheel', index')
      && Ticked(timers).Keys == index'.Keys && Agrees(wheel', (current + 1) % |wheel|, index', Ticked(timers))
  {
    hide Left, Kept, Gone;
    var list := wheel[current];
    var wheel', index' := wheel[current := Kept(list)], index - Fds(Gone(list));
    KeptAndGone(list);
    KeptNoDup(list);
    assert wheel'[current] == Kept(list);
    forall s, n | 0 <= s < |wheel'| && n in wheel'[s]
      ensures NodeOk(n, s, (current + 1) % |wheel|, |wheel|, index', Ticked(timers)) {
      var m := if s == current then Up(n) else n;
      assert m in wheel[s] && NodeOk(m, s, current, |wheel|, index, timers);
      TickedNode(m, s, current, |wheel|, index, timers);
      NotGone(wheel, current, index, timers, nextId, m, s);
    }
    forall fd | fd in index ensures fd in index' <==> timers[fd].left > 0 {
      StaysIff(wheel, current, index, timers, nextId, fd);
    }
    forall fd | fd in index' ensures Points(wheel', fd, index'[fd]) {
      assert Points(wheel, fd, index[fd]);
      var it := index[fd];
      var n :| n in wheel[it.slot] && n.fd == fd && n.id == it.id;
      if it.slot == current {
        assert n !in Gone(list);
        assert Down(n) in wheel'[current];
      } else {
        assert n in wheel'[it.slot];
      }
    }
  }

  /** A node that is not taken out is not taken from the index either. */
  lemma NotGone(wheel: Wheel, current: nat, index: Index, timers: map<Fd, Timer>, nextId: nat, m: TimerNode, s: nat)
    requires current < |wheel| && ListsOk(wheel, nextId) && Agrees(wheel, current, index, timers)
    requires s < |wheel| && m in wheel[s] && (s == current ==> m.rotation > 0)
    ensures m.fd !in Fds(Gone(wheel[current]))
  {
    KeptAndGone(wheel[current]);
    assert NodeOk(m, s, current, |wheel|, index, timers);
    forall g | g in Gone(wheel[current]) ensures g.fd != m.fd {
      assert g in wheel[current] && NodeOk(g, current, current, |wheel|, index, timers);
      if g.fd == m.fd { OneNodePerId(wheel, nextId, m, g); }
    }
  }

  lemma StaysIff(wheel: Wheel, current: nat, index: Index, timers: map<Fd, Timer>, nextId: nat, fd: Fd)
    requires current < |wheel| && ListsOk(wheel, nextId) && IndexSound(wheel, index)
    requires timers.Keys == index.Keys && Agrees(wheel, current, index, timers) && fd in index
    ensures fd in Fds(Gone(wheel[current])) <==> timers[fd].left == 0
  {
    var it := index[fd];
    assert Points(wheel, fd, it);
    var n :| n in wheel[it.slot] && n.fd == fd && n.id == it.id;
    assert NodeOk(n, it.slot, current, |wheel|, index, timers);
    LeftStep(n.rotation, current, it.slot, |wheel|);
    KeptAndGone(wheel[current]);
    if it.slot == current && n.rotation == 0 {
      assert n in Gone(wheel[current]);
    } else {
      NotGone(wheel, current, index, timers, nextId, n, it.slot);
    }
  }

  lemma {:induction false} DueIsExact(nodes: seq<TimerNode>, alive: set<ConnId>)
    requires forall j, k :: 0 <= j < k < |nodes| ==> nodes[j].fd != nodes[k].fd
    ensures forall fd, c :: (fd, c) in Due(nodes, alive) <==>
      c in alive && exists n :: n in nodes && n.fd == fd && n.conn == c
    ensures forall j, k :: 0 <= j < k < |Due(nodes, alive)| ==> Due(nodes, alive)[j].0 != Due(nodes, alive)[k].0
  {
    if nodes != [] {
      var init, last := nodes[..|nodes| - 1], nodes[|nodes| - 1];
      assert nodes == init + [last];
      DueIsExact(init, alive);
      forall x | x in Due(init, alive) ensures x.0 != last.fd {
        assert (x.0, x.1) in Due(init, alive);
      }
    }
  }

  lemma SweepIsDue(wheel: Wheel, current: nat, index: Index, timers: map<Fd, Timer>, nextId: nat, alive: set<ConnId>)
    requires current < |wheel| && ListsOk(wheel, nextId) && IndexSound(wheel, index)
    requires timers.Keys == index.Keys && Agrees(wheel, current, index, timers)
    ensures IsDue(Due(Gone(wheel[current]), alive), timers, alive)
  {
    var gone := Gone(wheel[current]);
    KeptAndGone(wheel[current]);
    KeptNoDup(wheel[current]);
    forall n | n in gone
      ensures NodeOk(n, current, current, |wheel|, index, timers) && timers[n.fd] == Timer(0, n.conn) {
      assert n in wheel[current] && NodeOk(n, current, current, |wheel|, index, timers);
      LeftStep(n.rotation, current, current, |wheel|);
    }
    assert forall j, k :: 0 <= j < k < |gone| ==> gone[j] in gone && gone[k] in gone && gone[j].fd != gone[k].fd;
    DueIsExact(gone, alive);
    forall fd, c | fd in timers && timers[fd] == Timer(0, c) && c in alive ensures (fd, c) in Due(gone, alive) {
      StaysIff(wheel, current, index, timers, nextId, fd);
      var n :| n in gone && n.fd == fd;
    }
  }

  /** The loop of `tick` over the current list, with the index it erases from and the connections it collects. */
  method Sweep(list: seq<TimerNode>, index: Index, alive: set<ConnId>)
    returns (currentList: seq<TimerNode>, timerMap: Index, weakConns: seq<(Fd, ConnId)>)
    ensures currentList == Kept(list)
    ensures timerMap == index - Fds(Gone(list))
    ensures weakConns == Due(Gone(list), alive)
  {
    currentList, timerMap, weakConns := list, index, [];
    var it := 0;
    ghost var p := 0;
    assert list[0..] == list && list[..0] == [];
    while it < |currentList|
      invariant p <= |list|
      invariant it == |Kept(list[..p])| && currentList == Kept(list[..p]) + list[p..]
      invariant timerMap == index - Fds(Gone(list[..p]))
      invariant weakConns == Due(Gone(list[..p]), alive)
      decreases |list| - p
    {
      var node := currentList[it];
      SweepLooksAt(list, p, currentList, it);
      if node.rotation > 0 {
        KeepNext(list, p, currentList, it);
        currentList := currentList[it := node.(rotation := node.rotation - 1)];
        it := it + 1;
      } else {
        DropNext(list, p, currentList, it, alive);
        EraseTwice(index, Fds(Gone(list[..p])), node.fd);
        if node.conn in alive {
          weakConns := weakConns + [(node.fd, node.conn)];
        }
        timerMap := timerMap - {node.fd};
        currentList := currentList[..it] + currentList[it + 1..];
      }
      p := p + 1;
    }
    assert list[..p] == list && currentList == Kept(list);
  }

  class TimeWheel {
    const slotInterval: nat
    const slots: nat
    var currentSlot: nat
    var wheel: Wheel
    var timerMap: Index
    var nextId: nat
    ghost var timers: map<Fd, Timer>   // the plain map

    /** The iterators of the index are good, whatever has been added. */
    ghost predicate Sound()
      reads this
    {
      && 0 < slotInterval && currentSlot < slots == |wheel|
      && ListsOk(wheel, nextId) && IndexSound(wheel, timerMap)
    }

    ghost predicate Valid()
      reads this
    {
      Sound() && timers.Keys == timerMap.Keys && Agrees(wheel, currentSlot, timerMap, timers)
    }

    constructor (slotInterval: nat, slots: nat)
      requires 0 < slotInterval && 0 < slots
      ensures Valid() && timers == map[]
      ensures this.slotInterval == slotInterval && this.slots == slots && currentSlot == 0
    {
      this.slotInterval, this.slots, this.currentSlot := slotInterval, slots, 0;
      wheel := seq(slots, _ => []);
      timerMap, timers, nextId := map[], map[], 0;
    }

    /** `add_connection_unsafe`; the wheel stays a map exactly if the descriptor has no timer yet. */
    method AddConnection(fd: Fd, conn: ConnId, timeout: nat)
      requires Valid()
      modifies this
      ensures Sound() && timers == old(timers)[fd := Timer(timeout / slotInterval, conn)]
      ensures Valid() <==> fd !in old(timers)
    {
      hide ListsOk, IndexSound, Agrees, Left;
      var ticks := timeout / slotInterval;
      var rotation := ticks / slots;
      var slot := (currentSlot + ticks % slots) % slots;
      NewNodeLeft(ticks, currentSlot, slots);
      var node := TimerNode(nextId, fd, rotation, slot, conn);
      AddKeepsIndex(wheel, currentSlot, timerMap, timers, node);
      nextId := nextId + 1;
      wheel := wheel[slot := [node] + wheel[slot]];
      timerMap := timerMap[fd := Iterator(slot, node.id)];
      timers := timers[fd := Timer(ticks, conn)];
    }

    /** `remove_connection_unsafe`. */
    method RemoveConnection(fd: Fd)
      requires Valid()
      modifies this
      ensures Valid() && timers == old(timers) - {fd} && currentSlot == old(currentSlot)
    {
      hide ListsOk, IndexSound, Agrees;
      if fd in timerMap {
        var it := timerMap[fd];
        EraseKeepsIndex(wheel, currentSlot, timerMap, timers, nextId, fd);
        wheel := wheel[it.slot := Erase(wheel[it.slot], it.id)];
        timerMap := timerMap - {fd};
        timers := timers - {fd};
      }
    }

    /** `update_connection`: only a descriptor that still has a timer gets a new one, of 360 seconds. */
    method UpdateConnection(fd: Fd, conn: ConnId)
      requires Valid()
      modifies this
      ensures Valid()
      ensures timers == if fd in old(timers) then old(timers)[fd := Timer(360 / slotInterval, conn)] else old(timers)
    {
      hide ListsOk, IndexSound, Agrees;
      if fd in timerMap {
        RemoveConnection(fd);
        AddConnection(fd, conn, 360);
      }
    }

    // ----- tick, under the lock of the wheel -----

    /** `tick`: what is due is unlinked, everything else comes one tick closer; returns what is to be closed. */
    method Tick(alive: set<ConnId>) returns (weakConns: seq<(Fd, ConnId)>)
      requires Valid()
      modifies this
      ensures Valid() && timers == Ticked(old(timers))
      ensures IsDue(weakConns, old(timers), alive)
    {
      hide ListsOk, IndexSound, Agrees, Ticked, IsDue, Due, Kept, Gone;
      SweepKeepsIndex(wheel, currentSlot, timerMap, timers, nextId);
      SweepIsDue(wheel, currentSlot, timerMap, timers, nextId, alive);
      var currentList, index, fired := Sweep(wheel[currentSlot], timerMap, alive);
      weakConns := fired;
      wheel, timerMap := wheel[currentSlot := currentList], index;
      currentSlot := (currentSlot + 1) % slots;
      timers := Ticked(timers);
    }
  }

  // ----- Runs of the plain map, which the methods above follow step by step -----

  datatype Op =
    | Add(fd: Fd, conn: ConnId, ticks: nat)      // AddConnection, of a descriptor without a timer
    | Update(fd: Fd, conn: ConnId, ticks: nat)   // UpdateConnection
    | Remove(fd: Fd)
    | Tick

  function ApplyOp(timers: map<Fd, Timer>, op: Op): map<Fd, Timer> {
    match op
    case Add(fd, c, n) => timers[fd := Timer(n, c)]
    case Update(fd, c, n) => if fd in timers then timers[fd := Timer(n, c)] else timers
    case Remove(fd) => timers - {fd}
    case Tick => Ticked(timers)
  }

  function Run(timers: map<Fd, Timer>, ops: seq<Op>): map<Fd, Timer>
    decreases |ops|
  {
    if ops == [] then timers else Run(ApplyOp(timers, ops[0]), ops[1..])
  }

  /** The descriptors fired by each tick of a run, tick by tick. */
  function Fired(timers: map<Fd, Timer>, ops: seq<Op>): seq<set<Fd>>
    decreases |ops|
  {
    if ops == [] then []
    else (if ops[0].Tick? then [set fd | fd in timers && timers[fd].left == 0] else [])
         + Fired(ApplyOp(timers, ops[0]), ops[1..])
  }

  predicate Touches(op: Op, fd: Fd) {
    !op.Tick? && op.fd == fd
  }

  lemma {:induction false} AbsentNeverFires(timers: map<Fd, Timer>, ops: seq<Op>, fd: Fd)
    requires fd !in timers && forall k :: 0 <= k < |ops| ==> !Touches(ops[k], fd)
    ensures forall k :: 0 <= k < |Fired(timers, ops)| ==> fd !in Fired(timers, ops)[k]
    ensures fd !in Run(timers, ops)
    decreases |ops|
  {
    if ops != [] {
      assert !Touches(ops[0], fd);
      AbsentNeverFires(ApplyOp(timers, ops[0]), ops[1..], fd);
    }
  }

  /**
   A timer with d ticks left that nobody touches fires on the (d + 1)-th later tick, on no
   other one, and until then has exactly one tick less after each tick.
   */
  lemma {:induction false} FiresOnTimeOnce(timers: map<Fd, Timer>, ops: seq<Op>, fd: Fd)
    requires fd in timers && forall k :: 0 <= k < |ops| ==> !Touches(ops[k], fd)
    ensures forall k :: 0 <= k < |Fired(timers, ops)| ==> (fd in Fired(timers, ops)[k] <==> k == timers[fd].left)
    ensures var n := |Fired(timers, ops)|;
            if n <= timers[fd].left
            then fd in Run(timers, ops) && Run(timers, ops)[fd] == Timer(timers[fd].left - n, timers[fd].conn)
            else fd !in Run(timers, ops)
    decreases |ops|
  {
    if ops != [] {
      assert !Touches(ops[0], fd);
      var timers' := ApplyOp(timers, ops[0]);
      if fd in timers' {
        FiresOnTimeOnce(timers', ops[1..], fd);
      } else {
        AbsentNeverFires(timers', ops[1..], fd);
      }
    }
  }

  /** The same for a connection as it is added with a timeout in seconds. */
  lemma AddedFiresAfterTimeout(timers: map<Fd, Timer>, fd: Fd, conn: ConnId, timeout: nat, slotInterval: nat,
                               ops: seq<Op>)
    requires 0 < slotInterval && fd !in timers && forall k :: 0 <= k < |ops| ==> !Touches(ops[k], fd)
    ensures
      var fired := Fired(timers, [Add(fd, conn, timeout / slotInterval)] + ops);
      forall k :: 0 <= k < |fired| ==> (fd in fired[k] <==> k == timeout / slotInterval)
  {
    var op := Add(fd, conn, timeout / slotInterval);
    assert ([op] + ops)[1..] == ops;
    assert Fired(timers, [op] + ops) == Fired(ApplyOp(timers, op), ops);
    FiresOnTimeOnce(ApplyOp(timers, op), ops, fd);
  }
}
