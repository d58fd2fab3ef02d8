/**
 The queued tasks of an event loop and its wake-up descriptor: tasks are pushed by any thread
 and run by the loop thread.  No wake-up is lost, and tasks run in order, each once.
 */
module EventLoop {

  type ThreadId = nat
  type Task = nat

  /** The largest value of an eventfd counter; a write that would pass it fails. */
  const MAX_COUNTER: nat := 0xFFFF_FFFF_FFFF_FFFE

  /** Where the loop thread is: outside `handlewakeup`, or between its read and its drain. */
  datatype LoopPhase = Polling | BeforeDrain

  /** `waking` are the threads between their push and their write. */
  datatype State = State(queue: seq<Task>, counter: nat, waking: set<ThreadId>, loop: LoopPhase,
                         pushed: seq<Task>, ran: seq<Task>)

  datatype Step =
    | Push(thread: ThreadId, task: Task)
    | Wake(thread: ThreadId)
    | Poke                 // a write without a push, as by `stop`
    | Read
    | Drain

  predicate Possible(s: State, step: Step) {
    match step
    case Push(t, _) => t !in s.waking
    case Wake(t) => t in s.waking
    case Poke => true
    case Read => s.loop == Polling
    case Drain => s.loop == BeforeDrain
  }

  function Bumped(counter: nat): nat {
    if counter < MAX_COUNTER then counter + 1 else counter
  }

  function After(s: State, step: Step): State {
    match step
    case Push(t, task) => s.(queue := s.queue + [task], pushed := s.pushed + [task], waking := s.waking + {t})
    case Wake(t) => s.(counter := Bumped(s.counter), waking := s.waking - {t})
    case Poke => s.(counter := Bumped(s.counter))
    case Read => s.(counter := 0, loop := BeforeDrain)
    case Drain => s.(queue := [], ran := s.ran + s.queue, loop := Polling)
  }

  predicate AllPossible(s: State, steps: seq<Step>)
    decreases |steps|
  {
    steps == [] || (Possible(s, steps[0]) && AllPossible(After(s, steps[0]), steps[1..]))
  }

  function Run(s: State, steps: seq<Step>): State
    decreases |steps|
  {
    if steps == [] then s else Run(After(s, steps[0]), steps[1..])
  }

  const IDLE := State([], 0, {}, Polling, [], [])

  /** Somebody will still see to a task in the queue. */
  predicate NoLostWakeup(s: State) {
    s.queue != [] ==> s.counter > 0 || s.waking != {} || s.loop == BeforeDrain
  }

  predicate Inv(s: State) {
    s.ran + s.queue == s.pushed && NoLostWakeup(s) && s.counter <= MAX_COUNTER
  }

  lemma StepKeepsInv(s: State, step: Step)
    requires Inv(s) && Possible(s, step)
    ensures Inv(After(s, step))
  {
    match step {
      case Push(t, task) =>
        assert s.ran + (s.queue + [task]) == s.pushed + [task];
        assert t in s.waking + {t};
      case Wake(t) =>
      case Poke =>
      case Read =>
      case Drain =>
        assert s.ran + s.queue + [] == s.pushed;
    }
  }

  /** In every interleaving: run then queued are the pushed tasks in order, and no wake-up is lost. */
  lemma {:induction false} RunKeepsInv(s: State, steps: seq<Step>)
    requires Inv(s) && AllPossible(s, steps)
    ensures Inv(Run(s, steps))
    decreases |steps|
  {
    if steps != [] {
      StepKeepsInv(s, steps[0]);
      RunKeepsInv(After(s, steps[0]), steps[1..]);
    }
  }

  lemma NothingIsLost(steps: seq<Step>)
    requires AllPossible(IDLE, steps)
    ensures Run(IDLE, steps).ran + Run(IDLE, steps).queue == Run(IDLE, steps).pushed
    ensures NoLostWakeup(Run(IDLE, steps))
  {
    RunKeepsInv(IDLE, steps);
  }

  predicate IsQuiet(s: State) {
    s.counter == 0 && s.waking == {} && s.loop == Polling
  }

  /** When nothing is pending any more, everything that was pushed has run. */
  lemma QuietMeansDone(steps: seq<Step>)
    requires AllPossible(IDLE, steps) && IsQuiet(Run(IDLE, steps))
    ensures Run(IDLE, steps).ran == Run(IDLE, steps).pushed
  {
    RunKeepsInv(IDLE, steps);
  }

  /** All tasks that a run pushes, in order. */
  function Pushes(steps: seq<Step>): seq<Task> {
    if steps == [] then [] else (if steps[0].Push? then [steps[0].task] else []) + Pushes(steps[1..])
  }

  lemma {:induction false} PushedAre(s: State, steps: seq<Step>)
    ensures Run(s, steps).pushed == s.pushed + Pushes(steps)
    decreases |steps|
  {
    if steps != [] {
      PushedAre(After(s, steps[0]), steps[1..]);
    }
  }

  /** After a read and a drain, whatever was pushed before the drain has run. */
  lemma {:induction false} RoundRunsAll(s: State, between: seq<Step>)
    requires Inv(s) && s.loop == Polling && AllPossible(After(s, Read), between)
    requires forall k :: 0 <= k < |between| ==> !between[k].Drain?
    ensures
      var s' := After(Run(After(s, Read), between), Drain);
      s'.queue == [] && s'.ran == s'.pushed == s.pushed + Pushes(between)
  {
    var mid := After(s, Read);
    StepKeepsInv(s, Read);
    RunKeepsInv(mid, between);
    PushedAre(mid, between);
  }

  /** How many times a run writes to the counter. */
  function Writes(steps: seq<Step>): nat {
    if steps == [] then 0 else (if steps[0].Wake? || steps[0].Poke? then 1 else 0) + Writes(steps[1..])
  }

  /** Between two reads the counter counts the writes, up to the largest value it can hold. */
  lemma {:induction false} CounterCountsWrites(s: State, steps: seq<Step>)
    requires s.counter <= 0xFFFF_FFFF_FFFF_FFFE && forall k :: 0 <= k < |steps| ==> !steps[k].Read?
    ensures
      var n := s.counter + Writes(steps);
      Run(s, steps).counter == if n <= 0xFFFF_FFFF_FFFF_FFFE then n else 0xFFFF_FFFF_FFFF_FFFE
    decreases |steps|
  {
    if steps != [] {
      CounterCountsWrites(After(s, steps[0]), steps[1..]);
    }
  }

  /** A read and a drain with nothing in between leave the counter at 0 and the queue empty. */
  lemma RoundEndsQuiet(s: State)
    requires Inv(s) && s.loop == Polling
    ensures
      var r := After(After(s, Read), Drain);
      && r.counter == 0 && r.queue == [] && r.loop == Polling && r.waking == s.waking
      && r.ran == s.ran + s.queue == r.pushed == s.pushed
      && (s.waking == {} ==> IsQuiet(r))
  {
    RoundRunsAll(s, []);
  }

  class EventLoop {
    var taskQueue: seq<Task>
    var counter: nat
    ghost var waking: set<ThreadId>
    ghost var loop: LoopPhase
    ghost var pushed: seq<Task>
    var ran: seq<Task>

    ghost function Value(): State
      reads this
    {
      State(taskQueue, counter, waking, loop, pushed, ran)
    }

    ghost predicate Valid()
      reads this
    {
      Inv(Value())
    }

    constructor ()
      ensures Valid() && Value() == IDLE
    {
      taskQueue, counter, ran := [], 0, [];
      waking, loop, pushed := {}, Polling, [];
    }

    /** The part of `queueinloop` under the lock. */
    method PushTask(ghost t: ThreadId, fn: Task)
      requires Valid() && Possible(Value(), Push(t, fn))
      modifies this
      ensures Valid() && Value() == After(old(Value()), Push(t, fn))
      ensures taskQueue == old(taskQueue) + [fn] && waking == old(waking) + {t}
      ensures counter == old(counter) && ran == old(ran)
    {
      StepKeepsInv(Value(), Push(t, fn));
      taskQueue := taskQueue + [fn];
      pushed, waking := pushed + [fn], waking + {t};
    }

    /** `wakeup` by a thread that has pushed a task. */
    method Wakeup(ghost t: ThreadId)
      requires Valid() && Possible(Value(), Wake(t))
      modifies this
      ensures Valid() && Value() == After(old(Value()), Wake(t))
      ensures counter == (if old(counter) < 0xFFFF_FFFF_FFFF_FFFE then old(counter) + 1 else old(counter))
      ensures waking == old(waking) - {t} && taskQueue == old(taskQueue) && ran == old(ran)
    {
      StepKeepsInv(Value(), Wake(t));
      if counter < MAX_COUNTER { counter := counter + 1; }
      waking := waking - {t};
    }

    /** The read of `handlewakeup`. */
    method ReadCounter()
      requires Valid() && Possible(Value(), Read)
      modifies this
      ensures Valid() && Value() == After(old(Value()), Read)
      ensures counter == 0 && taskQueue == old(taskQueue) && ran == old(ran)
    {
      StepKeepsInv(Value(), Read);
      counter := 0;
      loop := BeforeDrain;
    }

    /** The rest of `handlewakeup`, under the lock: queued tasks are popped and run one by one. */
    method RunTasks()
      requires Valid() && Possible(Value(), Drain)
      modifies this
      ensures Valid() && Value() == After(old(Value()), Drain)
      ensures taskQueue == [] && ran == old(ran) + old(taskQueue) && counter == old(counter)
    {
      StepKeepsInv(Value(), Drain);
      while |taskQueue| > 0
        invariant ran + taskQueue == old(ran + taskQueue)
        invariant counter == old(counter) && waking == old(waking) && pushed == old(pushed)
        decreases |taskQueue|
      {
        var fn := taskQueue[0];
        taskQueue := taskQueue[1..];
        ran := ran + [fn];
      }
      loop := Polling;
    }
  }
}
