/**
 The pool of database connections: a queue under a mutex and a semaphore that counts it.  The
 check for an empty queue and the wait on the semaphore happen outside the mutex, so other
 threads can act between any two of the steps below.
 */
module SqlConnPool {

  import opened Wrappers

  type ThreadId = nat

  /** A connection handle; 0 stands for a null pointer, which a failed connect leaves in the queue. */
  type Conn = nat

  const NULL: Conn := 0

  /**
   `waiting` have found the queue not empty, `granted` are past the semaphore and have not
   popped yet, and `posting` has pushed a connection and not yet raised the semaphore; it
   holds the mutex.
   */
  datatype State = State(queue: seq<Conn>, sem: nat, held: multiset<Conn>,
                         waiting: set<ThreadId>, granted: set<ThreadId>, posting: Option<ThreadId>)

  datatype Step =
    | Look(thread: ThreadId)
    | Wait(thread: ThreadId)
    | Pop(thread: ThreadId)
    | Push(thread: ThreadId, conn: Conn)
    | Post(thread: ThreadId)

  predicate Idle(s: State, t: ThreadId) {
    t !in s.waiting && t !in s.granted && s.posting != Some(t)
  }

  predicate Possible(s: State, step: Step) {
    match step
    case Look(t) => Idle(s, t)
    case Wait(t) => t in s.waiting && s.sem > 0
    case Pop(t) => t in s.granted && s.posting == None
    case Push(t, c) => Idle(s, t) && s.posting == None && c != NULL && c in s.held
    case Post(t) => s.posting == Some(t)
  }

  /** A pop takes the front; what it does to an empty queue is not defined. */
  predicate Defined(s: State, step: Step) {
    step.Pop? ==> s.queue != []
  }

  function After(s: State, step: Step): State
    requires Possible(s, step) && Defined(s, step)
  {
    match step
    case Look(t) => if s.queue == [] then s else s.(waiting := s.waiting + {t})
    case Wait(t) => s.(sem := s.sem - 1, waiting := s.waiting - {t}, granted := s.granted + {t})
    case Pop(t) => s.(queue := s.queue[1..], held := s.held + multiset{s.queue[0]}, granted := s.granted - {t})
    case Push(t, c) => s.(queue := s.queue + [c], held := s.held - multiset{c}, posting := Some(t))
    case Post(t) => s.(sem := s.sem + 1, posting := None)
  }

  function All(s: State): multiset<Conn> {
    multiset(s.queue) + s.held
  }

  /** The length of the queue is accounted for. */
  predicate Counted(s: State) {
    |s.queue| == s.sem + |s.granted| + (if s.posting.Some? then 1 else 0)
  }

  predicate Inv(s: State) {
    Counted(s) && s.waiting !! s.granted && (s.posting.Some? ==> s.posting.value !in s.waiting + s.granted)
  }

  function Started(conns: seq<Conn>): State {
    State(conns, |conns|, multiset{}, {}, {}, None)
  }

  lemma NeverPopsEmpty(s: State, step: Step)
    requires Inv(s) && Possible(s, step)
    ensures Defined(s, step)
  {
    if step.Pop? {
      assert s.granted == s.granted - {step.thread} + {step.thread};
    }
  }

  /** Connections move between the queue and their holders; none appears or goes. */
  lemma StepKeepsAll(s: State, step: Step)
    requires Possible(s, step) && Defined(s, step)
    ensures All(After(s, step)) == All(s)
  {
    if step.Pop? {
      assert s.queue == [s.queue[0]] + s.queue[1..];
    }
  }

  lemma StepKeepsInv(s: State, step: Step)
    requires Inv(s) && Possible(s, step) && Defined(s, step)
    ensures Inv(After(s, step)) && All(After(s, step)) == All(s)
  {
    StepKeepsAll(s, step);
    hide All;
    match step {
      case Look(t) =>
      case Wait(t) =>
        assert t !in s.granted;
      case Pop(t) =>
        assert |s.granted - {t}| == |s.granted| - 1;
      case Push(t, c) =>
      case Post(t) =>
    }
  }

  /** A run in which every step was possible when it was taken. */
  predicate AllPossible(s: State, steps: seq<Step>)
    decreases |steps|
  {
    steps == [] || (Possible(s, steps[0]) && (Defined(s, steps[0]) ==> AllPossible(After(s, steps[0]), steps[1..])))
  }

  /** A run never reaches a pop of the empty queue. */
  predicate Safe(s: State, steps: seq<Step>)
    requires AllPossible(s, steps)
    decreases |steps|
  {
    steps == [] || (Defined(s, steps[0]) && Safe(After(s, steps[0]), steps[1..]))
  }

  function Run(s: State, steps: seq<Step>): State
    requires AllPossible(s, steps) && Safe(s, steps)
    decreases |steps|
  {
    if steps == [] then s else Run(After(s, steps[0]), steps[1..])
  }

  lemma {:induction false} RunIsSafe(s: State, steps: seq<Step>)
    requires Inv(s) && AllPossible(s, steps)
    ensures Safe(s, steps) && Inv(Run(s, steps)) && All(Run(s, steps)) == All(s)
    decreases |steps|
  {
    if steps != [] {
      hide Inv, All, Possible, Defined;
      NeverPopsEmpty(s, steps[0]);
      StepKeepsInv(s, steps[0]);
      RunIsSafe(After(s, steps[0]), steps[1..]);
    }
  }

  /** In every interleaving: no pop of an empty queue, an exact count, and the initial connections. */
  lemma PoolKeepsItsConnections(conns: seq<Conn>, steps: seq<Step>)
    requires AllPossible(Started(conns), steps)
    ensures Safe(Started(conns), steps)
    ensures Counted(Run(Started(conns), steps))
    ensures All(Run(Started(conns), steps)) == multiset(conns)
  {
    RunIsSafe(Started(conns), steps);
  }

  /** Different connections stay different: none is queued or held twice, or queued while it is held. */
  lemma NoConnectionIsShared(conns: seq<Conn>, steps: seq<Step>, c: Conn)
    requires AllPossible(Started(conns), steps)
    requires forall j, k :: 0 <= j < k < |conns| ==> conns[j] != conns[k]
    ensures Safe(Started(conns), steps)
    ensures var s := Run(Started(conns), steps); multiset(s.queue)[c] + s.held[c] <= 1
  {
    RunIsSafe(Started(conns), steps);
    DistinctOnce(conns, c);
    var s := Run(Started(conns), steps);
    assert All(s)[c] == multiset(s.queue)[c] + s.held[c];
  }

  lemma {:induction false} DistinctOnce(conns: seq<Conn>, c: Conn)
    requires forall j, k :: 0 <= j < k < |conns| ==> conns[j] != conns[k]
    ensures multiset(conns)[c] <= 1
  {
    if conns != [] {
      DistinctOnce(conns[1..], c);
      assert conns == [conns[0]] + conns[1..];
      assert forall k :: 0 <= k < |conns[1..]| ==> conns[1..][k] == conns[k + 1];
    }
  }

  function PutBack(step: Step): seq<Conn> {
    if step.Push? then [step.conn] else []
  }

  function Taken(s: State, step: Step): seq<Conn>
    requires Possible(s, step) && Defined(s, step)
  {
    if step.Pop? then [s.queue[0]] else []
  }

  lemma StepIsInOrder(s: State, step: Step)
    requires Possible(s, step) && Defined(s, step)
    ensures Taken(s, step) + After(s, step).queue == s.queue + PutBack(step)
  {
    hide Possible;
  }

  /** What a run puts back, in order. */
  function Freed(steps: seq<Step>): seq<Conn> {
    if steps == [] then [] else PutBack(steps[0]) + Freed(steps[1..])
  }

  /** What a run hands out, in order. */
  function HandedOut(s: State, steps: seq<Step>): seq<Conn>
    requires AllPossible(s, steps) && Safe(s, steps)
    decreases |steps|
  {
    if steps == [] then []
    else Taken(s, steps[0]) + HandedOut(After(s, steps[0]), steps[1..])
  }

  /** Connections are handed out in the order in which they came into the pool. */
  lemma {:induction false} FirstInFirstOut(s: State, steps: seq<Step>)
    requires AllPossible(s, steps) && Safe(s, steps)
    ensures HandedOut(s, steps) + Run(s, steps).queue == s.queue + Freed(steps)
    decreases |steps|
  {
    hide Taken, PutBack, Possible, Defined, After;
    if steps == [] {
      assert [] + s.queue == s.queue + [];
    } else {
      var out, back, next := Taken(s, steps[0]), PutBack(steps[0]), After(s, steps[0]);
      FirstInFirstOut(next, steps[1..]);
      StepIsInOrder(s, steps[0]);
      Regroup(out, HandedOut(next, steps[1..]), Run(next, steps[1..]).queue);
      Regroup(out, next.queue, Freed(steps[1..]));
      Regroup(s.queue, back, Freed(steps[1..]));
    }
  }

  lemma Regroup(a: seq<Conn>, b: seq<Conn>, c: seq<Conn>)
    ensures a + (b + c) == (a + b) + c
  {
  }

  /** A thread that finds the queue empty goes away with a null pointer; otherwise it waits for the semaphore. */
  lemma LookAndWait(s: State, t: ThreadId)
    ensures Possible(s, Look(t)) && s.queue == [] ==> After(s, Look(t)) == s
    ensures Possible(s, Look(t)) && s.queue != [] ==>
      var r := After(s, Look(t));
      t in r.waiting && r.queue == s.queue && r.sem == s.sem && (Possible(r, Wait(t)) <==> s.sem > 0)
    ensures Possible(s, Wait(t)) ==>
      var r := After(s, Wait(t));
      r.sem == s.sem - 1 && r.queue == s.queue && t in r.granted && t !in r.waiting
  {
  }

  class SqlConnPool {
    var connque: seq<Conn>
    var sem: nat
    ghost var held: multiset<Conn>
    ghost var waiting: set<ThreadId>
    ghost var granted: set<ThreadId>
    ghost var posting: Option<ThreadId>

    ghost function Value(): State
      reads this
    {
      State(connque, sem, held, waiting, granted, posting)
    }

    ghost predicate Valid()
      reads this
    {
      Inv(Value())
    }

    /** The counting part of `Init`: the connects give the handles, a failed one a null pointer. */
    constructor (connects: seq<Conn>)
      requires connects != []
      ensures Valid() && Value() == Started(connects)
      ensures connque == connects && sem == |connects| && held == multiset{}
    {
      held, waiting, granted, posting := multiset{}, {}, {}, None;
      connque, sem := [], 0;
      new;
      var i := 0;
      while i < |connects|
        invariant i <= |connects| && connque == connects[..i]
        invariant held == multiset{} && waiting == {} && granted == {} && posting == None
      {
        connque := connque + [connects[i]];
        i := i + 1;
      }
      sem := |connects|;
      assert connects[..i] == connects;
    }

    /** The check of `GetConn`: a thread that finds the queue empty gets a null pointer at once. */
    method LookForConn(ghost t: ThreadId) returns (busy: bool)
      requires Valid() && Possible(Value(), Look(t))
      modifies this`waiting
      ensures Valid() && Value() == After(old(Value()), Look(t))
      ensures busy <==> connque == []
      ensures waiting == if busy then old(waiting) else old(waiting) + {t}
    {
      StepKeepsInv(Value(), Look(t));
      busy := connque == [];
      if !busy { waiting := waiting + {t}; }
    }

    method SemWait(ghost t: ThreadId)
      requires Valid() && Possible(Value(), Wait(t))
      modifies this
      ensures Valid() && Value() == After(old(Value()), Wait(t))
      ensures sem == old(sem) - 1 && connque == old(connque) && held == old(held)
    {
      StepKeepsInv(Value(), Wait(t));
      sem := sem - 1;
      waiting, granted := waiting - {t}, granted + {t};
    }

    /** The rest of `GetConn`, under the mutex: the queue is not empty, whatever happened since the check. */
    method PopConn(ghost t: ThreadId) returns (sql: Conn)
      requires Valid() && Possible(Value(), Pop(t))
      modifies this
      ensures old(connque) != [] && old(connque) == [sql] + connque
      ensures held == old(held) + multiset{sql} && sem == old(sem)
      ensures Valid() && Value() == After(old(Value()), Pop(t))
    {
      NeverPopsEmpty(Value(), Pop(t));
      StepKeepsInv(Value(), Pop(t));
      sql := connque[0];
      connque := connque[1..];
      held, granted := held + multiset{sql}, granted - {t};
    }

    method PushConn(ghost t: ThreadId, sql: Conn)
      requires Valid() && Possible(Value(), Push(t, sql))
      modifies this
      ensures Valid() && Value() == After(old(Value()), Push(t, sql))
      ensures connque == old(connque) + [sql] && held == old(held) - multiset{sql} && sem == old(sem)
    {
      StepKeepsInv(Value(), Push(t, sql));
      connque := connque + [sql];
      held, posting := held - multiset{sql}, Some(t);
    }

    method SemPost(ghost t: ThreadId)
      requires Valid() && Possible(Value(), Post(t))
      modifies this
      ensures Valid() && Value() == After(old(Value()), Post(t))
      ensures sem == old(sem) + 1 && connque == old(connque) && held == old(held)
    {
      StepKeepsInv(Value(), Post(t));
      sem := sem + 1;
      posting := None;
    }

    /** `FreeConn`: both steps, with the mutex held in between. */
    method FreeConn(ghost t: ThreadId, sql: Conn)
      requires Valid() && Possible(Value(), Push(t, sql))
      modifies this
      ensures Valid() && connque == old(connque) + [sql] && sem == old(sem) + 1
      ensures held == old(held) - multiset{sql} && posting == None
    {
      PushConn(t, sql);
      SemPost(t);
    }
  }
}
