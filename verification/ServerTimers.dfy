/**
 The server's table of connections and its timing wheel, used by many threads.  Each step is
 one region under a lock; between two steps any other thread may take its own.
 */
module ServerTimers {

  import opened TimeWheel

  type ThreadId = nat

  /** A thread that holds a connection: in a handler, or between the steps of closing it. */
  datatype Phase = Handling | Closing | Unlinked

  datatype User = User(conn: ConnId, phase: Phase)

  /**
   `conns` is the table, `timers` what the wheel holds, `pending` what the current tick has
   unlinked and not yet locked.  Every connection ever made has its descriptor in `fdOf`.
   */
  datatype State = State(conns: map<Fd, ConnId>, timers: map<Fd, Timer>, pending: set<ConnId>,
                         users: map<ThreadId, User>, fdOf: map<ConnId, Fd>)

  datatype Step =
    | New(fd: Fd, conn: ConnId, ticks: nat)
    | Enter(thread: ThreadId, conn: ConnId)
    | Refresh(thread: ThreadId, ticks: nat)
    | Leave(thread: ThreadId)
    | Close(thread: ThreadId)
    | RemoveTimer(thread: ThreadId)
    | EraseConn(thread: ThreadId)
    | TickUnlink
    | TickLock(thread: ThreadId, conn: ConnId)

  predicate InTable(s: State, c: ConnId) {
    c in s.fdOf && s.fdOf[c] in s.conns && s.conns[s.fdOf[c]] == c
  }

  /** Somebody holds a strong reference: the table or a thread. */
  ghost predicate Alive(s: State, c: ConnId) {
    || InTable(s, c)
    || exists t :: t in s.users && s.users[t].conn == c
  }

  /** The descriptor of a live connection is open, so that no new connection can have it. */
  ghost predicate Possible(s: State, step: Step) {
    match step
    case New(fd, c, _) => c !in s.fdOf && forall d :: d in s.fdOf && Alive(s, d) ==> s.fdOf[d] != fd
    case Enter(t, c) => t !in s.users && c in s.fdOf && Alive(s, c)
    case Refresh(t, _) => t in s.users && s.users[t].phase == Handling && s.users[t].conn in s.fdOf
    case Leave(t) => t in s.users && s.users[t].phase == Handling
    case Close(t) => t in s.users && s.users[t].phase == Handling
    case RemoveTimer(t) => t in s.users && s.users[t].phase == Closing && s.users[t].conn in s.fdOf
    case EraseConn(t) => t in s.users && s.users[t].phase == Unlinked && s.users[t].conn in s.fdOf
    case TickUnlink => s.pending == {}
    case TickLock(t, c) => t !in s.users && c in s.pending
  }

  /** The connections whose timers have run out. */
  function Expired(timers: map<Fd, Timer>): set<ConnId> {
    set fd | fd in timers && timers[fd].left == 0 :: timers[fd].conn
  }

  ghost function After(s: State, step: Step): State
    requires Possible(s, step)
  {
    match step
    case New(fd, c, ticks) =>
      s.(timers := s.timers[fd := Timer(ticks, c)], conns := s.conns[fd := c], fdOf := s.fdOf[c := fd])
    case Enter(t, c) => s.(users := s.users[t := User(c, Handling)])
    case Refresh(t, ticks) =>
      var c := s.users[t].conn;
      var fd := s.fdOf[c];
      s.(timers := if fd in s.timers then s.timers[fd := Timer(ticks, c)] else s.timers)
    case Leave(t) => s.(users := s.users - {t})
    case Close(t) => s.(users := s.users[t := User(s.users[t].conn, Closing)])
    case RemoveTimer(t) =>
      var c := s.users[t].conn;
      s.(timers := s.timers - {s.fdOf[c]}, users := s.users[t := User(c, Unlinked)])
    case EraseConn(t) =>
      s.(conns := s.conns - {s.fdOf[s.users[t].conn]}, users := s.users - {t})
    case TickUnlink => s.(timers := Ticked(s.timers), pending := set c | c in Expired(s.timers) && Alive(s, c))
    case TickLock(t, c) =>
      var s' := s.(pending := s.pending - {c});
      if Alive(s, c) then s'.(users := s.users[t := User(c, Closing)]) else s'
  }

  // ----- What every step keeps -----

  /** The connection has a timer in the wheel. */
  predicate Armed(s: State, c: ConnId) {
    c in s.fdOf && s.fdOf[c] in s.timers && s.timers[s.fdOf[c]].conn == c
  }

  ghost predicate BeingClosed(s: State, c: ConnId) {
    exists t :: t in s.users && s.users[t].conn == c && s.users[t].phase != Handling
  }

  /** The entry of the table is its connection, and somebody is going to close it. */
  ghost predicate EntryOk(s: State, fd: Fd)
    requires fd in s.conns
  {
    var c := s.conns[fd];
    c in s.fdOf && s.fdOf[c] == fd && (fd in s.timers || c in s.pending || BeingClosed(s, c))
  }

  ghost predicate UserOk(s: State, u: User) {
    && u.conn in s.fdOf
    && (s.fdOf[u.conn] in s.conns ==> s.conns[s.fdOf[u.conn]] == u.conn)
    && (u.phase == Unlinked ==> s.fdOf[u.conn] !in s.timers)
  }

  ghost predicate Inv(s: State) {
    && (forall fd :: fd in s.timers ==> fd in s.conns && s.conns[fd] == s.timers[fd].conn)
    && (forall fd :: fd in s.conns ==> EntryOk(s, fd))
    && (forall t :: t in s.users ==> UserOk(s, s.users[t]))
    && (forall c :: c in s.pending ==> c in s.fdOf && !Armed(s, c))
  }

  /** The condition under which the wheel stays a map: a new connection has no timer yet. */
  lemma NewDescriptorHasNoTimer(s: State, fd: Fd, c: ConnId, ticks: nat)
    requires Inv(s) && Possible(s, New(fd, c, ticks))
    ensures fd !in s.timers && fd !in s.conns
  {
    if fd in s.conns {
      assert EntryOk(s, fd) && Alive(s, s.conns[fd]);
    }
  }

  lemma StepKeepsInv(s: State, step: Step)
    requires Inv(s) && Possible(s, step)
    ensures Inv(After(s, step))
  {
    match step {
      case New(fd, c, ticks) => NewKeepsInv(s, fd, c, ticks);
      case Enter(t, c) => EnterKeepsInv(s, t, c);
      case Refresh(t, ticks) => RefreshKeepsInv(s, t, ticks);
      case Leave(t) => LeaveKeepsInv(s, t);
      case Close(t) => CloseKeepsInv(s, t);
      case RemoveTimer(t) => RemoveTimerKeepsInv(s, t);
      case EraseConn(t) => EraseConnKeepsInv(s, t);
      case TickUnlink => UnlinkKeepsInv(s);
      case TickLock(t, c) => LockKeepsInv(s, t, c);
    }
  }

  lemma NewKeepsInv(s: State, fd: Fd, c: ConnId, ticks: nat)
    requires Inv(s) && Possible(s, New(fd, c, ticks))
    ensures Inv(After(s, New(fd, c, ticks)))
  {
    var s' := After(s, New(fd, c, ticks));
    NewDescriptorHasNoTimer(s, fd, c, ticks);
    forall g | g in s'.conns
      ensures EntryOk(s', g)
    {
      if g != fd { EntryKept(s, s', g); }
    }
    forall t | t in s'.users
      ensures UserOk(s', s'.users[t])
    {
      assert UserOk(s, s.users[t]) && Alive(s, s.users[t].conn);
    }
  }

  /** An entry stays good while its descriptor and its way to be closed stay. */
  lemma EntryKept(s: State, s': State, fd: Fd)
    requires fd in s.conns && EntryOk(s, fd)
    requires fd in s'.conns && s'.conns[fd] == s.conns[fd] && s.conns[fd] in s'.fdOf && s'.fdOf[s.conns[fd]] == fd
    requires fd in s.timers ==> fd in s'.timers || s.conns[fd] in s'.pending || BeingClosed(s', s.conns[fd])
    requires s.conns[fd] in s.pending ==> s.conns[fd] in s'.pending || BeingClosed(s', s.conns[fd])
    requires BeingClosed(s, s.conns[fd]) ==> BeingClosed(s', s.conns[fd])
    ensures EntryOk(s', fd)
  {
  }

  lemma AliveOwnsDescriptor(s: State, c: ConnId)
    requires Inv(s) && Alive(s, c)
    ensures c in s.fdOf && (s.fdOf[c] in s.conns ==> s.conns[s.fdOf[c]] == c)
  {
    if t :| t in s.users && s.users[t].conn == c {
      assert UserOk(s, s.users[t]);
    }
  }

  /** Closing threads other than t are still there. */
  lemma CloserKept(s: State, s': State, t: ThreadId, c: ConnId)
    requires t in s.users && s.users[t].conn == c && s.users[t].phase != Handling ==>
      t in s'.users && s'.users[t].conn == c && s'.users[t].phase != Handling
    requires forall r :: r in s.users && r != t ==> r in s'.users && s'.users[r] == s.users[r]
    ensures BeingClosed(s, c) ==> BeingClosed(s', c)
  {
    if r :| r in s.users && s.users[r].conn == c && s.users[r].phase != Handling {
      assert r in s'.users && s'.users[r].conn == c && s'.users[r].phase != Handling;
    }
  }

  lemma EnterKeepsInv(s: State, t: ThreadId, c: ConnId)
    requires Inv(s) && Possible(s, Enter(t, c))
    ensures Inv(After(s, Enter(t, c)))
  {
    var s' := After(s, Enter(t, c));
    AliveOwnsDescriptor(s, c);
    forall fd | fd in s'.conns
      ensures EntryOk(s', fd)
    {
      CloserKept(s, s', t, s.conns[fd]);
      EntryKept(s, s', fd);
    }
    forall r | r in s'.users
      ensures UserOk(s', s'.users[r])
    {
      if r != t { assert UserOk(s, s.users[r]); }
    }
  }

  lemma RefreshKeepsInv(s: State, t: ThreadId, ticks: nat)
    requires Inv(s) && Possible(s, Refresh(t, ticks))
    ensures Inv(After(s, Refresh(t, ticks)))
  {
    var s' := After(s, Refresh(t, ticks));
    assert UserOk(s, s.users[t]);
    forall fd | fd in s'.conns
      ensures EntryOk(s', fd)
    {
      assert EntryOk(s, fd);
    }
    forall r | r in s'.users
      ensures UserOk(s', s'.users[r])
    {
      assert UserOk(s, s.users[r]);
    }
  }

  lemma LeaveKeepsInv(s: State, t: ThreadId)
    requires Inv(s) && Possible(s, Leave(t))
    ensures Inv(After(s, Leave(t)))
  {
    var s' := After(s, Leave(t));
    forall fd | fd in s'.conns
      ensures EntryOk(s', fd)
    {
      CloserKept(s, s', t, s.conns[fd]);
      EntryKept(s, s', fd);
    }
    forall r | r in s'.users
      ensures UserOk(s', s'.users[r])
    {
      assert UserOk(s, s.users[r]);
    }
  }

  lemma CloseKeepsInv(s: State, t: ThreadId)
    requires Inv(s) && Possible(s, Close(t))
    ensures Inv(After(s, Close(t)))
  {
    var s' := After(s, Close(t));
    assert UserOk(s, s.users[t]);
    forall fd | fd in s'.conns
      ensures EntryOk(s', fd)
    {
      CloserKept(s, s', t, s.conns[fd]);
      EntryKept(s, s', fd);
    }
    forall r | r in s'.users
      ensures UserOk(s', s'.users[r])
    {
      if r != t { assert UserOk(s, s.users[r]); }
    }
  }

  lemma RemoveTimerKeepsInv(s: State, t: ThreadId)
    requires Inv(s) && Possible(s, RemoveTimer(t))
    ensures Inv(After(s, RemoveTimer(t)))
  {
    var s' := After(s, RemoveTimer(t));
    assert UserOk(s, s.users[t]);
    assert s'.users[t].phase != Handling;
    forall fd | fd in s'.conns
      ensures EntryOk(s', fd)
    {
      assert EntryOk(s, fd);
      CloserKept(s, s', t, s.conns[fd]);
      EntryKept(s, s', fd);
    }
    forall r | r in s'.users
      ensures UserOk(s', s'.users[r])
    {
      if r != t { assert UserOk(s, s.users[r]); }
    }
  }

  lemma EraseConnKeepsInv(s: State, t: ThreadId)
    requires Inv(s) && Possible(s, EraseConn(t))
    ensures Inv(After(s, EraseConn(t)))
  {
    var s' := After(s, EraseConn(t));
    assert UserOk(s, s.users[t]);
    forall fd | fd in s'.conns
      ensures EntryOk(s', fd)
    {
      assert EntryOk(s, fd);
      CloserKept(s, s', t, s.conns[fd]);
      EntryKept(s, s', fd);
    }
    forall r | r in s'.users
      ensures UserOk(s', s'.users[r])
    {
      assert UserOk(s, s.users[r]);
    }
  }

  lemma UnlinkKeepsInv(s: State)
    requires Inv(s) && Possible(s, TickUnlink)
    ensures Inv(After(s, TickUnlink))
  {
    var s' := After(s, TickUnlink);
    forall fd | fd in s'.conns
      ensures EntryOk(s', fd)
    {
      assert EntryOk(s, fd);
      if fd in s.timers && s.timers[fd].left == 0 {
        assert s.conns[fd] in Expired(s.timers) && Alive(s, s.conns[fd]);
      }
    }
    forall r | r in s'.users
      ensures UserOk(s', s'.users[r])
    {
      assert UserOk(s, s.users[r]);
    }
    forall c | c in s'.pending
      ensures c in s'.fdOf && !Armed(s', c)
    {
      var fd :| fd in s.timers && s.timers[fd].left == 0 && s.timers[fd].conn == c;
      assert EntryOk(s, fd);
    }
  }

  lemma LockKeepsInv(s: State, t: ThreadId, c: ConnId)
    requires Inv(s) && Possible(s, TickLock(t, c))
    ensures Inv(After(s, TickLock(t, c)))
  {
    var s' := After(s, TickLock(t, c));
    if Alive(s, c) {
      AliveOwnsDescriptor(s, c);
      assert s'.users[t].conn == c;
    }
    forall fd | fd in s'.conns
      ensures EntryOk(s', fd)
    {
      assert EntryOk(s, fd);
      if s.conns[fd] == c { assert Alive(s, c); }
      CloserKept(s, s', t, s.conns[fd]);
      EntryKept(s, s', fd);
    }
    forall r | r in s'.users
      ensures UserOk(s', s'.users[r])
    {
      if r in s.users { assert UserOk(s, s.users[r]); }
    }
  }

  /** A connection without a timer never gets one again: an update after the tick comes too late. */
  lemma NeverRearmed(s: State, step: Step, c: ConnId)
    requires Inv(s) && Possible(s, step) && c in s.fdOf && !Armed(s, c)
    ensures c in After(s, step).fdOf && !Armed(After(s, step), c)
  {
    if step.Refresh? {
      assert UserOk(s, s.users[step.thread]);
    }
  }

  // ----- Runs -----

  const EMPTY := State(map[], map[], {}, map[], map[])

  ghost predicate AllPossible(s: State, steps: seq<Step>)
    decreases |steps|
  {
    steps == [] || (Possible(s, steps[0]) && AllPossible(After(s, steps[0]), steps[1..]))
  }

  ghost function Run(s: State, steps: seq<Step>): State
    requires AllPossible(s, steps)
    decreases |steps|
  {
    if steps == [] then s else Run(After(s, steps[0]), steps[1..])
  }

  lemma {:induction false} RunKeepsInv(s: State, steps: seq<Step>)
    requires Inv(s) && AllPossible(s, steps)
    ensures Inv(Run(s, steps))
    decreases |steps|
  {
    hide Inv;
    if steps != [] {
      StepKeepsInv(s, steps[0]);
      RunKeepsInv(After(s, steps[0]), steps[1..]);
    }
  }

  /** Table and wheel agree after any run; what has no timer is about to be closed. */
  lemma TableAndWheelAgree(steps: seq<Step>)
    requires AllPossible(EMPTY, steps)
    ensures
      var s := Run(EMPTY, steps);
      && (forall fd :: fd in s.timers ==> fd in s.conns && s.conns[fd] == s.timers[fd].conn)
      && (forall fd :: fd in s.conns ==> fd in s.timers || s.conns[fd] in s.pending || BeingClosed(s, s.conns[fd]))
      && (s.pending == {} && (forall t :: t in s.users ==> s.users[t].phase == Handling) ==>
           s.conns.Keys == s.timers.Keys)
  {
    RunKeepsInv(EMPTY, steps);
    var s := Run(EMPTY, steps);
    assert forall fd :: fd in s.conns ==> EntryOk(s, fd);
  }

  /** In every reachable state the condition holds under which the wheel takes a new connection. */
  lemma AddConditionAlwaysHolds(steps: seq<Step>, fd: Fd, c: ConnId, ticks: nat)
    requires AllPossible(EMPTY, steps) && Possible(Run(EMPTY, steps), New(fd, c, ticks))
    ensures fd !in Run(EMPTY, steps).timers
  {
    RunKeepsInv(EMPTY, steps);
    NewDescriptorHasNoTimer(Run(EMPTY, steps), fd, c, ticks);
  }

  /** Once the tick or a close has taken the timer of a connection, no later step brings it back. */
  lemma {:induction false} NeverRearmedInRun(s: State, steps: seq<Step>, c: ConnId)
    requires Inv(s) && AllPossible(s, steps) && c in s.fdOf && !Armed(s, c)
    ensures c in Run(s, steps).fdOf && !Armed(Run(s, steps), c)
    decreases |steps|
  {
    hide Inv, Armed;
    if steps != [] {
      StepKeepsInv(s, steps[0]);
      NeverRearmed(s, steps[0], c);
      NeverRearmedInRun(After(s, steps[0]), steps[1..], c);
    }
  }

  /** A user of the connection refreshes or removes its timer. */
  predicate Touches(s: State, step: Step, c: ConnId) {
    (step.Refresh? || step.RemoveTimer?) && step.thread in s.users && s.users[step.thread].conn == c
  }

  /** Nobody does in a whole run: the connection is idle and nobody closes it. */
  ghost predicate LeftAlone(s: State, steps: seq<Step>, c: ConnId)
    requires AllPossible(s, steps)
    decreases |steps|
  {
    steps == [] || (!Touches(s, steps[0], c) && LeftAlone(After(s, steps[0]), steps[1..], c))
  }

  function Ticks(steps: seq<Step>): nat {
    if steps == [] then 0 else (if steps[0].TickUnlink? then 1 else 0) + Ticks(steps[1..])
  }

  predicate LeftIs(s: State, c: ConnId, left: nat) {
    Armed(s, c) && s.timers[s.fdOf[c]] == Timer(left, c)
  }

  lemma StepCountsDown(s: State, step: Step, c: ConnId, left: nat)
    requires Inv(s) && Possible(s, step) && !Touches(s, step, c) && LeftIs(s, c, left)
    ensures
      var s' := After(s, step);
      if !step.TickUnlink? then LeftIs(s', c, left)
      else if left > 0 then LeftIs(s', c, left - 1)
      else !Armed(s', c) && c in s'.pending
  {
    var fd := s.fdOf[c];
    assert EntryOk(s, fd) && Alive(s, c);
    match step {
      case New(g, d, ticks) => NewDescriptorHasNoTimer(s, g, d, ticks);
      case Refresh(t, _) => assert UserOk(s, s.users[t]);
      case RemoveTimer(t) => assert UserOk(s, s.users[t]);
      case TickUnlink => assert left == 0 ==> c in Expired(s.timers);
      case _ =>
    }
  }

  /**
   An idle connection with d ticks left keeps its timer for d ticks, one less after each; after
   one more it is about to be closed, being closed, or out of the table.
   */
  lemma {:induction false} IdleConnectionIsClosed(s: State, steps: seq<Step>, c: ConnId, left: nat)
    requires Inv(s) && AllPossible(s, steps) && LeftAlone(s, steps, c) && LeftIs(s, c, left)
    ensures
      var s', m := Run(s, steps), Ticks(steps);
      if m <= left then LeftIs(s', c, left - m)
      else !Armed(s', c) && (InTable(s', c) ==> c in s'.pending || BeingClosed(s', c))
    decreases |steps|
  {
    hide Inv, Armed, LeftIs, BeingClosed, Touches, InTable;
    if steps != [] {
      var next := After(s, steps[0]);
      StepKeepsInv(s, steps[0]);
      StepCountsDown(s, steps[0], c, left);
      LeftIsArmed(s, c, left);
      if !steps[0].TickUnlink? {
        IdleConnectionIsClosed(next, steps[1..], c, left);
      } else if left > 0 {
        IdleConnectionIsClosed(next, steps[1..], c, left - 1);
      } else {
        StepKeepsKnown(s, steps[0], c);
        NeverRearmedInRun(next, steps[1..], c);
        RunKeepsInv(next, steps[1..]);
        UnarmedIsClosing(Run(next, steps[1..]), c);
      }
    }
  }

  lemma LeftIsArmed(s: State, c: ConnId, left: nat)
    requires LeftIs(s, c, left)
    ensures c in s.fdOf
  {
  }

  lemma StepKeepsKnown(s: State, step: Step, c: ConnId)
    requires Possible(s, step) && c in s.fdOf
    ensures c in After(s, step).fdOf
  {
  }

  lemma UnarmedIsClosing(s: State, c: ConnId)
    requires Inv(s) && !Armed(s, c)
    ensures InTable(s, c) ==> c in s.pending || BeingClosed(s, c)
  {
    if InTable(s, c) {
      assert EntryOk(s, s.fdOf[c]);
    }
  }

  /** A refresh gives a connection that has a timer the full time again, and nobody else another one. */
  lemma RefreshRearms(s: State, t: ThreadId, n: nat)
    requires Inv(s) && Possible(s, Refresh(t, n)) && Armed(s, s.users[t].conn)
    ensures
      var s', c := After(s, Refresh(t, n)), s.users[t].conn;
      && LeftIs(s', c, n)
      && s'.timers == s.timers[s.fdOf[c] := Timer(n, c)] && s'.conns == s.conns && s'.pending == s.pending
      && s'.users == s.users && s'.fdOf == s.fdOf
  {
  }

  /** A connection that has lost its timer stays without. */
  lemma RefreshTooLate(s: State, t: ThreadId, n: nat)
    requires Inv(s) && Possible(s, Refresh(t, n)) && !Armed(s, s.users[t].conn)
    ensures After(s, Refresh(t, n)) == s
  {
    assert UserOk(s, s.users[t]);
  }

  /** A new connection has its full time, and its entry in the table. */
  lemma NewIsArmed(s: State, fd: Fd, c: ConnId, n: nat)
    requires Inv(s) && Possible(s, New(fd, c, n))
    ensures
      var s' := After(s, New(fd, c, n));
      && LeftIs(s', c, n) && InTable(s', c) && s'.fdOf[c] == fd
      && (forall g :: g in s.timers ==> g in s'.timers && s'.timers[g] == s.timers[g])
      && (forall g :: g in s.conns ==> g in s'.conns && s'.conns[g] == s.conns[g])
  {
    NewDescriptorHasNoTimer(s, fd, c, n);
  }

  /** After a refresh, a connection that is left alone has its time less the ticks of the run. */
  lemma RefreshedLasts(s: State, t: ThreadId, n: nat, steps: seq<Step>)
    requires Inv(s) && Possible(s, Refresh(t, n)) && Armed(s, s.users[t].conn)
    requires AllPossible(After(s, Refresh(t, n)), steps)
    requires LeftAlone(After(s, Refresh(t, n)), steps, s.users[t].conn) && Ticks(steps) <= n
    ensures LeftIs(Run(After(s, Refresh(t, n)), steps), s.users[t].conn, n - Ticks(steps))
  {
    hide Inv;
    StepKeepsInv(s, Refresh(t, n));
    RefreshRearms(s, t, n);
    IdleConnectionIsClosed(After(s, Refresh(t, n)), steps, s.users[t].conn, n);
  }

  /** The same for a new connection. */
  lemma NewLasts(s: State, fd: Fd, c: ConnId, n: nat, steps: seq<Step>)
    requires Inv(s) && Possible(s, New(fd, c, n)) && AllPossible(After(s, New(fd, c, n)), steps)
    requires LeftAlone(After(s, New(fd, c, n)), steps, c) && Ticks(steps) <= n
    ensures LeftIs(Run(After(s, New(fd, c, n)), steps), c, n - Ticks(steps))
  {
    hide Inv;
    StepKeepsInv(s, New(fd, c, n));
    NewIsArmed(s, fd, c, n);
    IdleConnectionIsClosed(After(s, New(fd, c, n)), steps, c, n);
  }

  /** A close that is through leaves the connection to whoever else still holds it. */
  lemma ClosedIsForgotten(s: State, t: ThreadId)
    requires Inv(s) && Possible(s, EraseConn(t))
    ensures
      var s', c := After(s, EraseConn(t)), s.users[t].conn;
      && !InTable(s', c) && !Armed(s', c) && t !in s'.users
      && (Alive(s', c) <==> exists u :: u != t && u in s.users && s.users[u].conn == c)
  {
    assert UserOk(s, s.users[t]);
    var s' := After(s, EraseConn(t));
    assert forall u :: u in s'.users <==> u != t && u in s.users;
  }

  /** A handler that is done lets go of its connection. */
  lemma LeftIsReleased(s: State, t: ThreadId)
    requires Possible(s, Leave(t))
    ensures
      var s' := After(s, Leave(t));
      && t !in s'.users && (forall u :: u in s.users && u != t ==> u in s'.users && s'.users[u] == s.users[u])
      && s'.conns == s.conns && s'.timers == s.timers && s'.pending == s.pending
  {
  }

  /** A close that starts can be carried through, and takes the timer and the entry of its connection only. */
  lemma CloseGoesThrough(s: State, t: ThreadId)
    requires Inv(s) && Possible(s, Close(t))
    ensures
      var s1, c := After(s, Close(t)), s.users[t].conn;
      && Possible(s1, RemoveTimer(t))
      && var s2 := After(s1, RemoveTimer(t));
         && Possible(s2, EraseConn(t))
         && var s3 := After(s2, EraseConn(t));
            && s3.timers == s.timers - {s.fdOf[c]} && s3.conns == s.conns - {s.fdOf[c]}
            && s3.users == s.users - {t} && s3.pending == s.pending && s3.fdOf == s.fdOf
  {
    assert UserOk(s, s.users[t]);
    var c := s.users[t].conn;
    var u := s.users[t := User(c, Closing)];
    var v := u[t := User(c, Unlinked)];
    assert v - {t} == s.users - {t};
  }

  /** What a tick hands over is closed if it still exists, and forgotten if not. */
  lemma PendingIsTaken(s: State, t: ThreadId, c: ConnId)
    requires Inv(s) && Possible(s, TickLock(t, c))
    ensures
      var s' := After(s, TickLock(t, c));
      && c !in s'.pending && s'.pending + {c} == s.pending
      && (if Alive(s, c) then s'.users == s.users[t := User(c, Closing)] else s'.users == s.users)
      && s'.timers == s.timers && s'.conns == s.conns
  {
    hide Inv;
  }

  /** A tick takes the timers without ticks left and counts the others down; connections that exist are pending. */
  lemma TickTakesExpired(s: State)
    requires Inv(s) && Possible(s, TickUnlink)
    ensures
      var s' := After(s, TickUnlink);
      && (forall fd :: fd in s'.timers <==> fd in s.timers && s.timers[fd].left > 0)
      && (forall fd :: fd in s'.timers ==> s'.timers[fd] == Timer(s.timers[fd].left - 1, s.timers[fd].conn))
      && (forall fd :: fd in s.timers && s.timers[fd].left == 0 && Alive(s, s.timers[fd].conn) ==>
           s.timers[fd].conn in s'.pending)
      && (forall c :: c in s'.pending ==> Alive(s, c) && Armed(s, c) && !Armed(s', c))
      && s'.users == s.users && s'.conns == s.conns
  {
    forall c | c in After(s, TickUnlink).pending ensures Armed(s, c) && !Armed(After(s, TickUnlink), c) {
      var fd :| fd in s.timers && s.timers[fd].left == 0 && s.timers[fd].conn == c;
      assert s.fdOf[c] == fd;
    }
  }

  // ----- Two closes of one connection -----

  ghost predicate IsCloser(s: State, t: ThreadId, c: ConnId) {
    t in s.users && s.users[t].conn == c && s.users[t].phase != Handling
  }

  /** Two threads are closing the same connection, the second of which finds its channel removed. */
  ghost predicate TwoClosers(s: State, c: ConnId) {
    exists t, u :: t != u && IsCloser(s, t, c) && IsCloser(s, u, c)
  }

  predicate StartsClose(s: State, step: Step, c: ConnId) {
    (step.Close? && step.thread in s.users && s.users[step.thread].conn == c) || (step.TickLock? && step.conn == c)
  }

  /** They meet exactly when a close starts while another one is under way. */
  lemma TwoClosersIff(s: State, step: Step, c: ConnId)
    requires Possible(s, step) && !TwoClosers(s, c)
    ensures TwoClosers(After(s, step), c) <==> BeingClosed(s, c) && StartsClose(s, step, c)
  {
    var s' := After(s, step);
    if BeingClosed(s, c) && StartsClose(s, step, c) {
      var r :| r in s.users && s.users[r].conn == c && s.users[r].phase != Handling;
      assert r != step.thread && Alive(s, c);
      assert IsCloser(s', r, c) && IsCloser(s', step.thread, c);
    }
    if TwoClosers(s', c) {
      var t, u :| t != u && IsCloser(s', t, c) && IsCloser(s', u, c);
      assert !(IsCloser(s, t, c) && IsCloser(s, u, c));
      if !IsCloser(s, t, c) {
        assert IsCloser(s, u, c);
      } else {
        assert BeingClosed(s, c);
      }
    }
  }

  /** The server does not keep them apart: a handler closes what the tick is closing. */
  lemma TwoClosersCanMeet(fd: Fd, c: ConnId)
    ensures
      var steps := [New(fd, c, 0), Enter(1, c), TickUnlink, TickLock(2, c), Close(1)];
      AllPossible(EMPTY, steps) && TwoClosers(Run(EMPTY, steps), c)
  {
    var s1 := After(EMPTY, New(fd, c, 0));
    assert Alive(s1, c);
    var s2 := After(s1, Enter(1, c));
    assert InTable(s2, c) && fd in s2.timers;
    var s3 := After(s2, TickUnlink);
    assert c in Expired(s2.timers) && c in s3.pending;
    assert InTable(s3, c) && Alive(s3, c);
    var s4 := After(s3, TickLock(2, c));
    var s5 := After(s4, Close(1));
    assert IsCloser(s5, 1, c) && IsCloser(s5, 2, c);
    RunOfFive(EMPTY, New(fd, c, 0), Enter(1, c), TickUnlink, TickLock(2, c), Close(1));
  }

  lemma RunOfFive(s: State, a: Step, b: Step, c: Step, d: Step, e: Step)
    requires Possible(s, a) && Possible(After(s, a), b) && Possible(After(After(s, a), b), c)
    requires Possible(After(After(After(s, a), b), c), d)
    requires Possible(After(After(After(After(s, a), b), c), d), e)
    ensures AllPossible(s, [a, b, c, d, e])
    ensures Run(s, [a, b, c, d, e]) == After(After(After(After(After(s, a), b), c), d), e)
  {
    hide Possible, After;
    var s1, s2, s3, s4 := After(s, a), After(After(s, a), b), After(After(After(s, a), b), c),
      After(After(After(After(s, a), b), c), d);
    assert [a, b, c, d, e][1..] == [b, c, d, e] && [b, c, d, e][1..] == [c, d, e] && [c, d, e][1..] == [d, e];
    assert [d, e][1..] == [e] && [e][1..] == [];
    assert AllPossible(s4, [e]) && Run(s4, [e]) == After(s4, e);
    assert AllPossible(s3, [d, e]) && Run(s3, [d, e]) == Run(s4, [e]);
    assert AllPossible(s2, [c, d, e]) && Run(s2, [c, d, e]) == Run(s3, [d, e]);
    assert AllPossible(s1, [b, c, d, e]) && Run(s1, [b, c, d, e]) == Run(s2, [c, d, e]);
  }

  // ----- The regions as the server runs them -----

  class TcpServer {
    const wheel: TimeWheel
    const timeout: nat
    var conns: map<Fd, ConnId>
    ghost var pending: set<ConnId>
    ghost var users: map<ThreadId, User>
    ghost var fdOf: map<ConnId, Fd>

    ghost function Value(): State
      reads this, wheel
    {
      State(conns, wheel.timers, pending, users, fdOf)
    }

    ghost predicate Valid()
      reads this, wheel
    {
      wheel.Valid() && Inv(Value())
    }

    constructor (slotInterval: nat, slots: nat, timeout: nat)
      requires 0 < slotInterval && 0 < slots
      ensures Valid() && Value() == EMPTY && fresh(wheel)
    {
      wheel := new TimeWheel(slotInterval, slots);
      this.timeout := timeout;
      conns, pending, users, fdOf := map[], {}, map[], map[];
    }

    /** `newconnection`, as one step. */
    method NewConnection(fd: Fd, c: ConnId)
      requires Valid() && Possible(Value(), New(fd, c, timeout / wheel.slotInterval))
      modifies this, wheel
      ensures Valid() && Value() == After(old(Value()), New(fd, c, timeout / wheel.slotInterval))
      ensures wheel.timers == old(wheel.timers)[fd := Timer(timeout / wheel.slotInterval, c)]
      ensures fd !in old(wheel.timers) && conns == old(conns)[fd := c]
    {
      hide Inv, Possible;
      NewDescriptorHasNoTimer(Value(), fd, c, timeout / wheel.slotInterval);
      StepKeepsInv(Value(), New(fd, c, timeout / wheel.slotInterval));
      wheel.AddConnection(fd, c, timeout);
      conns := conns[fd := c];
      fdOf := fdOf[c := fd];
    }

    /** `update_conn_timeout_time`, called by a thread that holds the connection. */
    method UpdateConnTimeoutTime(ghost t: ThreadId, fd: Fd, c: ConnId)
      requires Valid() && Possible(Value(), Refresh(t, 360 / wheel.slotInterval))
      requires c == users[t].conn && fd == fdOf[c]
      modifies wheel
      ensures Valid() && Value() == After(old(Value()), Refresh(t, 360 / wheel.slotInterval))
      ensures fd in old(wheel.timers) ==> wheel.timers == old(wheel.timers)[fd := Timer(360 / wheel.slotInterval, c)]
      ensures fd !in old(wheel.timers) ==> wheel.timers == old(wheel.timers)
    {
      hide Inv;
      StepKeepsInv(Value(), Refresh(t, 360 / wheel.slotInterval));
      wheel.UpdateConnection(fd, c);
    }

    /** The first half of `closeconnection` and `errorconnection`. */
    method CloseTimer(ghost t: ThreadId, fd: Fd)
      requires Valid() && Possible(Value(), RemoveTimer(t)) && fd == fdOf[users[t].conn]
      modifies wheel, this`users
      ensures Valid() && Value() == After(old(Value()), RemoveTimer(t))
      ensures wheel.timers == old(wheel.timers) - {fd} && users == old(users)[t := User(old(users)[t].conn, Unlinked)]
    {
      hide Inv;
      StepKeepsInv(Value(), RemoveTimer(t));
      wheel.RemoveConnection(fd);
      users := users[t := User(users[t].conn, Unlinked)];
    }

    /** The second half, under the lock of the table. */
    method CloseEntry(ghost t: ThreadId, fd: Fd)
      requires Valid() && Possible(Value(), EraseConn(t)) && fd == fdOf[users[t].conn]
      modifies this`conns, this`users
      ensures Valid() && Value() == After(old(Value()), EraseConn(t))
      ensures conns == old(conns) - {fd} && users == old(users) - {t}
    {
      hide Inv;
      StepKeepsInv(Value(), EraseConn(t));
      conns := conns - {fd};
      users := users - {t};
    }

    /** `tick` under the lock of the wheel; `alive` answers for the weak pointers. */
    method Tick(alive: set<ConnId>) returns (weakConns: seq<(Fd, ConnId)>)
      requires Valid() && Possible(Value(), TickUnlink)
      requires forall c :: c in alive <==> Alive(Value(), c)
      modifies wheel, this`pending
      ensures Valid() && Value() == After(old(Value()), TickUnlink)
      ensures forall c :: c in pending <==> exists fd :: (fd, c) in weakConns
      ensures IsDue(weakConns, old(wheel.timers), alive)
      ensures forall fd :: fd in wheel.timers <==> fd in old(wheel.timers) && old(wheel.timers)[fd].left > 0
      ensures forall fd :: fd in wheel.timers ==>
        wheel.timers[fd] == Timer(old(wheel.timers)[fd].left - 1, old(wheel.timers)[fd].conn)
    {
      hide Inv;
      StepKeepsInv(Value(), TickUnlink);
      ghost var after := After(Value(), TickUnlink);
      ghost var timers := wheel.timers;
      weakConns := wheel.Tick(alive);
      DueIsExpired(weakConns, timers, alive);
      pending := after.pending;
    }
  }

  lemma DueIsExpired(fired: seq<(Fd, ConnId)>, timers: map<Fd, Timer>, alive: set<ConnId>)
    requires IsDue(fired, timers, alive)
    ensures forall c :: c in alive && c in Expired(timers) <==> exists fd :: (fd, c) in fired
  {
    forall c | c in alive && c in Expired(timers)
      ensures exists fd :: (fd, c) in fired
    {
      var fd :| fd in timers && timers[fd].left == 0 && timers[fd].conn == c;
      assert timers[fd] == Timer(0, c);
      assert (fd, c) in fired;
    }
    forall c, fd | (fd, c) in fired
      ensures c in alive && c in Expired(timers)
    {
      assert timers[fd] == Timer(0, c);
    }
  }
}
