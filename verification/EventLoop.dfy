/**
 The event loop's task hand-off.  Any number of threads push tasks under a lock
 and then write an eventfd; the loop thread blocks, drains the eventfd, swaps the
 queue out and runs what it got.  Each of these is one atomic step, and a run is
 any interleaving of enabled steps.
 */
module EventLoops {

  type Task = nat
  type ThreadId = nat

  // Where the loop thread is.
  datatype Pc =
    | NotStarted                // before loop(), in the owner's code
    | Checking                  // about to test quit_
    | Waiting                   // blocked in epoll_wait
    | Handling(wakeup: bool)    // running channel callbacks; the wakeup channel is still to come
    | Swapping                  // at the start of do_pending_tasks
    | Running(todo: seq<Task>)  // the rest of tasks_dump
    | Exited

  datatype Push = Push(byOwner: bool, task: Task)

  datatype State = State(
    pc: Pc,
    counter: nat,            // the eventfd
    quit: bool,
    doing: bool,             // doing_pending_tasks_
    pending: seq<Task>,
    waking: set<ThreadId>,   // other threads between their push or quit store and wakeup()
    ownerWaking: bool,       // likewise the loop thread itself
    // History.
    ran: seq<Task>,
    log: seq<Push>,          // pushes in lock order
    swaps: nat,
    strangers: nat,          // pushes and quits by other threads
    early: nat)              // pushes by the owner before loop()

  const INITIAL := State(NotStarted, 0, false, false, [], {}, false, [], [], 0, 0, 0)

  // The largest value an eventfd holds; a non-blocking write beyond it fails.
  const COUNTER_MAX: nat := 0xffff_ffff_ffff_fffe

  function Bump(counter: nat): (n: nat)
    ensures 0 < n && (counter < COUNTER_MAX ==> n == counter + 1)
  {
    if counter < COUNTER_MAX then counter + 1 else counter
  }

  datatype Step =
    // Other threads.
    | PushTask(t: ThreadId, task: Task)
    | StoreQuit(t: ThreadId)
    | Wake(t: ThreadId)
    // The loop thread, in user code.
    | OwnerPush(task: Task)
    | OwnerQuit
    | OwnerWake
    // The loop thread, in the loop.
    | Start
    | Check
    | Return(wakeup: bool)
    | HandleWakeup
    | FinishHandling
    | Swap
    | RunTask
    | FinishTasks

  /** User code runs on the loop thread before the loop, in channel callbacks and in tasks. */
  predicate InUserCode(s: State) {
    (s.pc.NotStarted? || s.pc.Handling? || s.pc.Running?) && !s.ownerWaking
  }

  predicate Enabled(s: State, step: Step) {
    match step
    case PushTask(t, _) => t !in s.waking
    case StoreQuit(t) => t !in s.waking
    case Wake(t) => t in s.waking
    case OwnerPush(_) => InUserCode(s)
    case OwnerQuit => InUserCode(s)
    case OwnerWake => s.ownerWaking
    case Start => s.pc.NotStarted?
    case Check => s.pc.Checking?
    // epoll_wait reports the eventfd only when it is readable; it may also return for
    // other descriptors or on a signal.
    case Return(wakeup) => s.pc.Waiting? && (wakeup ==> s.counter > 0)
    case HandleWakeup => s.pc == Handling(true) && !s.ownerWaking
    case FinishHandling => s.pc == Handling(false) && !s.ownerWaking
    case Swap => s.pc.Swapping?
    case RunTask => s.pc.Running? && s.pc.todo != [] && !s.ownerWaking
    case FinishTasks => s.pc == Running([]) && !s.ownerWaking
  }

  function Apply(s: State, step: Step): State
    requires Enabled(s, step)
  {
    match step
    case PushTask(t, task) =>
      s.(pending := s.pending + [task], log := s.log + [Push(false, task)],
         waking := s.waking + {t}, strangers := s.strangers + 1)
    case StoreQuit(t) => s.(quit := true, waking := s.waking + {t}, strangers := s.strangers + 1)
    case Wake(t) => s.(counter := Bump(s.counter), waking := s.waking - {t})
    // queue_in_loop on the loop thread wakes the loop only while tasks are being run.
    case OwnerPush(task) =>
      s.(pending := s.pending + [task], log := s.log + [Push(true, task)],
         ownerWaking := s.doing,
         early := if s.pc.NotStarted? then s.early + 1 else s.early)
    // quit on the loop thread does not wake the loop.
    case OwnerQuit => s.(quit := true)
    case OwnerWake => s.(counter := Bump(s.counter), ownerWaking := false)
    case Start => s.(pc := Checking)
    case Check => s.(pc := if s.quit then Exited else Waiting)
    case Return(wakeup) => s.(pc := Handling(wakeup))
    case HandleWakeup => s.(pc := Handling(false), counter := 0)
    case FinishHandling => s.(pc := Swapping)
    case Swap => s.(pc := Running(s.pending), pending := [], doing := true, swaps := s.swaps + 1)
    case RunTask => s.(pc := Running(s.pc.todo[1..]), ran := s.ran + [s.pc.todo[0]])
    case FinishTasks => s.(pc := Checking, doing := false)
  }

  ghost predicate EnabledRun(s: State, steps: seq<Step>)
    decreases |steps|
  {
    steps == [] || (Enabled(s, steps[0]) && EnabledRun(Apply(s, steps[0]), steps[1..]))
  }

  function Run(s: State, steps: seq<Step>): State
    requires EnabledRun(s, steps)
    decreases |steps|
  {
    if steps == [] then s else Run(Apply(s, steps[0]), steps[1..])
  }

  // ---- Exactly-once FIFO --------------------------------------------------------------------

  function Todo(s: State): seq<Task> {
    if s.pc.Running? then s.pc.todo else []
  }

  function Tasks(log: seq<Push>): seq<Task> {
    seq(|log|, i requires 0 <= i < |log| => log[i].task)
  }

  /** Tasks run, then the rest of the current dump, then the queue: the pushes in lock order. */
  predicate FifoInv(s: State) {
    s.ran + Todo(s) + s.pending == Tasks(s.log)
  }

  lemma FifoStep(s: State, step: Step)
    requires FifoInv(s) && Enabled(s, step)
    ensures FifoInv(Apply(s, step))
  {
    var s' := Apply(s, step);
    match step
    case PushTask(t, task) => assert Tasks(s'.log) == Tasks(s.log) + [task];
    case OwnerPush(task) => assert Tasks(s'.log) == Tasks(s.log) + [task];
    case RunTask => assert s'.ran + Todo(s') == s.ran + Todo(s);
    case _ =>
  }

  /** The tasks the steps of a run push, in lock order. */
  function Pushed(steps: seq<Step>): seq<Task>
    decreases |steps|
  {
    if steps == [] then []
    else (if steps[0].PushTask? || steps[0].OwnerPush? then [steps[0].task] else []) + Pushed(steps[1..])
  }

  lemma LogStep(s: State, step: Step)
    requires Enabled(s, step)
    ensures Tasks(Apply(s, step).log) == Tasks(s.log) + Pushed([step])
  {
    if step.PushTask? || step.OwnerPush? {
      assert Tasks(Apply(s, step).log) == Tasks(s.log) + [step.task];
    }
  }

  lemma {:induction false} LogIsPushed(s: State, steps: seq<Step>)
    requires EnabledRun(s, steps)
    ensures Tasks(Run(s, steps).log) == Tasks(s.log) + Pushed(steps)
    decreases |steps|
  {
    if steps != [] {
      LogStep(s, steps[0]);
      LogIsPushed(Apply(s, steps[0]), steps[1..]);
    }
  }

  lemma {:induction false} FifoRun(s: State, steps: seq<Step>)
    requires FifoInv(s) && EnabledRun(s, steps)
    ensures FifoInv(Run(s, steps))
    decreases |steps|
  {
    if steps != [] {
      FifoStep(s, steps[0]);
      FifoRun(Apply(s, steps[0]), steps[1..]);
    }
  }

  /** Exactly once, in order: in every interleaving the tasks run, then the rest of the current
      dump, then the queue, are the tasks pushed by anyone, in lock order. */
  lemma ExactlyOnceFifo(steps: seq<Step>)
    requires EnabledRun(INITIAL, steps)
    ensures var s := Run(INITIAL, steps);
            s.ran + Todo(s) + s.pending == Pushed(steps)
  {
    FifoRun(INITIAL, steps);
    LogIsPushed(INITIAL, steps);
  }

  /** Between swaps, started and outstanding tasks only trade places. */
  lemma {:induction false} BetweenSwaps(s: State, steps: seq<Step>)
    requires EnabledRun(s, steps) && Step.Swap !in steps
    ensures Run(s, steps).ran + Todo(Run(s, steps)) == s.ran + Todo(s)
    decreases |steps|
  {
    if steps != [] {
      var s' := Apply(s, steps[0]);
      assert s'.ran + Todo(s') == s.ran + Todo(s);
      BetweenSwaps(s', steps[1..]);
    }
  }

  /** One call of `do_pending_tasks`, from its swap to its return, whatever else happens in
      between: it runs exactly the tasks queued at the swap, in order, and everything pushed
      meanwhile, also by those tasks themselves, is what the queue holds at the end. */
  lemma BatchExact(s: State, steps: seq<Step>)
    requires FifoInv(s) && s.pc.Swapping? && EnabledRun(s, [Step.Swap] + steps)
    requires Step.Swap !in steps && Run(s, [Step.Swap] + steps).pc.Checking?
    ensures var t := Run(s, [Step.Swap] + steps);
            t.ran == s.ran + s.pending && t.pending == Pushed(steps)
  {
    var s1 := Apply(s, Step.Swap);
    assert ([Step.Swap] + steps)[1..] == steps;
    FifoStep(s, Step.Swap);
    AfterSwap(s1, steps);
  }

  lemma AfterSwap(s: State, steps: seq<Step>)
    requires FifoInv(s) && s.pending == [] && EnabledRun(s, steps) && Step.Swap !in steps
    ensures Run(s, steps).ran + Todo(Run(s, steps)) == s.ran + Todo(s)
    ensures Run(s, steps).pending == Pushed(steps)
  {
    BetweenSwaps(s, steps);
    FifoRun(s, steps);
    LogIsPushed(s, steps);
    var t, done := Run(s, steps), s.ran + Todo(s);
    assert done + [] == done;
    SameRest(done, t.pending, Pushed(steps));
  }

  lemma SameRest(a: seq<Task>, b: seq<Task>, c: seq<Task>)
    requires a + b == a + c
    ensures b == c
  {
    assert b == (a + b)[|a|..];
  }

  // ---- Quitting ------------------------------------------------------------------------------

  predicate Quits(step: Step) {
    step.StoreQuit? || step.OwnerQuit?
  }

  /** The flag is up exactly when some thread has called `quit`. */
  lemma {:induction false} QuitExactly(s: State, steps: seq<Step>)
    requires EnabledRun(s, steps)
    ensures Run(s, steps).quit <==> s.quit || exists i :: 0 <= i < |steps| && Quits(steps[i])
    decreases |steps|
  {
    if steps != [] {
      QuitExactly(Apply(s, steps[0]), steps[1..]);
      if exists i :: 0 <= i < |steps| && Quits(steps[i]) {
        var i :| 0 <= i < |steps| && Quits(steps[i]);
        assert i == 0 || Quits(steps[1..][i - 1]);
      }
      assert forall i :: 0 <= i < |steps[1..]| ==> steps[1..][i] == steps[i + 1];
    }
  }

  /** Once a quit is stored, a loop that is not waiting never waits again. */
  lemma {:induction false} NoWaitAfterQuit(s: State, steps: seq<Step>)
    requires EnabledRun(s, steps) && s.quit && !s.pc.Waiting?
    ensures !Run(s, steps).pc.Waiting?
    decreases |steps|
  {
    if steps != [] {
      NoWaitAfterQuit(Apply(s, steps[0]), steps[1..]);
    }
  }

  /** And a loop that is waiting can exit: in every run with a quit by any thread, the loop
      thread and at most one thread on its way to the eventfd lead it out. */
  lemma QuitDelivers(steps: seq<Step>) returns (more: seq<Step>)
    requires EnabledRun(INITIAL, steps) && Run(INITIAL, steps).pc.Waiting?
    requires exists i :: 0 <= i < |steps| && Quits(steps[i])
    ensures EnabledRun(Run(INITIAL, steps), more) && Run(Run(INITIAL, steps), more).pc.Exited?
    ensures forall i :: 0 <= i < |more| ==> BringsNoWork(more[i])
  {
    QuitExactly(INITIAL, steps);
    WakeRun(INITIAL, steps);
    FifoRun(INITIAL, steps);
    more := WakeupDelivers(Run(INITIAL, steps));
  }

  // ---- The eventfd -----------------------------------------------------------------------------

  /** The counter goes up with every wakeup and down to zero when it is read. */
  lemma CounterExactly(s: State, step: Step)
    requires Enabled(s, step)
    ensures Apply(s, step).counter ==
              if step.Wake? || step.OwnerWake? then Bump(s.counter)
              else if step.HandleWakeup? then 0
              else s.counter
  {
  }

  /** A thread is on its way from its push or quit to its own wakeup. */
  lemma WakingExactly(s: State, step: Step, t: ThreadId)
    requires Enabled(s, step)
    ensures t in Apply(s, step).waking <==>
            || (Foreign(step) && step.t == t && !step.Wake?)
            || (t in s.waking && !(Foreign(step) && step.t == t))
  {
  }

  // ---- No lost wakeup -----------------------------------------------------------------------

  /** Something will end the next wait: the eventfd is readable, or a thread is on its way
      to write it. */
  predicate Alerted(s: State) {
    s.counter > 0 || s.waking != {} || s.ownerWaking
  }

  /** The loop is asleep on work it does not know about. */
  predicate Lost(s: State) {
    s.pc.Waiting? && (s.pending != [] || s.quit) && !Alerted(s)
  }

  predicate WakeInv(s: State) {
    && (s.doing <==> s.pc.Running?)
    && (s.ownerWaking ==> s.pc.Running?)
    && (s.swaps == 0 ==> !s.pc.Running?)
    && (s.pc.NotStarted? ==> s.swaps == 0)
    && (s.pc.Waiting? && s.quit ==> Alerted(s))
    // After the first swap, from swap to wait.
    && (s.swaps > 0 && (s.pc.Running? || s.pc.Checking? || s.pc.Waiting?) && s.pending != [] ==> Alerted(s))
    // Before it.
    && (s.swaps == 0 && (s.pc.NotStarted? || s.pc.Checking? || s.pc.Waiting?) ==>
          && (s.strangers > 0 ==> Alerted(s))
          && (s.strangers == 0 ==> !Alerted(s) && |s.pending| == s.early))
  }

  lemma WakeStep(s: State, step: Step)
    requires WakeInv(s) && Enabled(s, step)
    ensures WakeInv(Apply(s, step))
  {
  }

  lemma {:induction false} WakeRun(s: State, steps: seq<Step>)
    requires WakeInv(s) && EnabledRun(s, steps)
    ensures WakeInv(Run(s, steps))
    decreases |steps|
  {
    if steps != [] {
      WakeStep(s, steps[0]);
      WakeRun(Apply(s, steps[0]), steps[1..]);
    }
  }

  /** The owner pushes before it calls `loop()`. */
  ghost predicate EarlyPush(steps: seq<Step>) {
    exists i :: 0 <= i < |steps| && steps[i].OwnerPush? && Step.Start !in steps[..i]
  }

  /** Another thread pushes or quits. */
  ghost predicate StrangerActs(steps: seq<Step>) {
    exists i :: 0 <= i < |steps| && (steps[i].PushTask? || steps[i].StoreQuit?)
  }

  lemma {:induction false} StrangersCounted(s: State, steps: seq<Step>)
    requires EnabledRun(s, steps)
    ensures Run(s, steps).strangers > 0 <==> s.strangers > 0 || StrangerActs(steps)
    decreases |steps|
  {
    if steps != [] {
      StrangersCounted(Apply(s, steps[0]), steps[1..]);
      assert forall i :: 0 <= i < |steps[1..]| ==> steps[1..][i] == steps[i + 1];
      if StrangerActs(steps) && !(steps[0].PushTask? || steps[0].StoreQuit?) {
        var i :| 0 <= i < |steps| && (steps[i].PushTask? || steps[i].StoreQuit?);
        assert steps[1..][i - 1] == steps[i];
      }
    }
  }

  lemma {:induction false} SwapsCounted(s: State, steps: seq<Step>)
    requires EnabledRun(s, steps)
    ensures Run(s, steps).swaps > 0 <==> s.swaps > 0 || Step.Swap in steps
    decreases |steps|
  {
    if steps != [] {
      SwapsCounted(Apply(s, steps[0]), steps[1..]);
      assert steps == [steps[0]] + steps[1..];
    }
  }

  lemma {:induction false} StartedCounts(s: State, steps: seq<Step>)
    requires EnabledRun(s, steps) && !s.pc.NotStarted?
    ensures Run(s, steps).early == s.early
    decreases |steps|
  {
    if steps != [] {
      StartedCounts(Apply(s, steps[0]), steps[1..]);
    }
  }

  lemma EarlyTail(steps: seq<Step>)
    requires steps != []
    ensures EarlyPush(steps) <==> steps[0].OwnerPush? || (!steps[0].Start? && EarlyPush(steps[1..]))
  {
    var tail := steps[1..];
    if EarlyPush(steps) && !steps[0].OwnerPush? {
      var i :| 0 <= i < |steps| && steps[i].OwnerPush? && Step.Start !in steps[..i];
      assert steps[..i][0] == steps[0];
      assert tail[i - 1] == steps[i] && tail[..i - 1] == steps[..i][1..];
    }
    if !steps[0].Start? && EarlyPush(tail) {
      var i :| 0 <= i < |tail| && tail[i].OwnerPush? && Step.Start !in tail[..i];
      assert steps[..i + 1] == [steps[0]] + tail[..i] && steps[i + 1] == tail[i];
    }
    if steps[0].OwnerPush? {
      assert steps[..0] == [];
    }
  }

  lemma {:induction false} EarlyCounted(s: State, steps: seq<Step>)
    requires EnabledRun(s, steps) && s.pc.NotStarted?
    ensures Run(s, steps).early > 0 <==> s.early > 0 || EarlyPush(steps)
    decreases |steps|
  {
    if steps != [] {
      EarlyTail(steps);
      if steps[0].Start? {
        StartedCounts(Apply(s, steps[0]), steps[1..]);
      } else {
        EarlyCounted(Apply(s, steps[0]), steps[1..]);
      }
    }
  }

  /** In every run, a blocked loop has lost a wakeup if and only if this is its first wait, the
      owner queued tasks before `loop()`, and no other thread has pushed or quit since. */
  lemma LostWakeupExactly(steps: seq<Step>)
    requires EnabledRun(INITIAL, steps) && Run(INITIAL, steps).pc.Waiting?
    ensures Lost(Run(INITIAL, steps)) <==> Step.Swap !in steps && EarlyPush(steps) && !StrangerActs(steps)
  {
    WakeRun(INITIAL, steps);
    SwapsCounted(INITIAL, steps);
    EarlyCounted(INITIAL, steps);
    StrangersCounted(INITIAL, steps);
  }

  /** No lost wakeup: if the owner queues nothing before it calls `loop()`, then in every
      interleaving with any number of threads a blocked loop with queued tasks or a pending
      quit has a readable eventfd or a thread about to write it. */
  lemma NoLostWakeup(steps: seq<Step>)
    requires EnabledRun(INITIAL, steps) && !EarlyPush(steps)
    ensures !Lost(Run(INITIAL, steps))
  {
    WakeRun(INITIAL, steps);
    EarlyCounted(INITIAL, steps);
  }

  /** The restriction is needed: a task queued by the owner before `loop()` is slept on. */
  lemma EarlyPushIsLost(task: Task)
    ensures var steps := [Step.OwnerPush(task), Step.Start, Step.Check];
            EnabledRun(INITIAL, steps) && Lost(Run(INITIAL, steps))
  {
    var a, b, c := Step.OwnerPush(task), Step.Start, Step.Check;
    var s1 := Apply(INITIAL, a);
    var s2 := Apply(s1, b);
    RunCons(s2, c, []);
    RunCons(s1, b, [c]);
    RunCons(INITIAL, a, [b, c]);
    assert [a] + [b, c] == [a, b, c];
  }

  lemma RunCons(s: State, step: Step, rest: seq<Step>)
    requires Enabled(s, step) && EnabledRun(Apply(s, step), rest)
    ensures EnabledRun(s, [step] + rest) && Run(s, [step] + rest) == Run(Apply(s, step), rest)
  {
    assert ([step] + rest)[1..] == rest;
  }

  // ---- A wakeup is enough ---------------------------------------------------------------------

  function Repeat(n: nat): (steps: seq<Step>)
    ensures forall i :: 0 <= i < |steps| ==> steps[i] == Step.RunTask
  {
    if n == 0 then [] else [Step.RunTask] + Repeat(n - 1)
  }

  lemma {:induction false} RunsOut(s: State)
    requires s.pc.Running? && !s.ownerWaking
    ensures EnabledRun(s, Repeat(|s.pc.todo|))
    ensures Run(s, Repeat(|s.pc.todo|)) == s.(pc := Running([]), ran := s.ran + s.pc.todo)
    decreases |s.pc.todo|
  {
    var n := |s.pc.todo|;
    if n > 0 {
      assert Repeat(n)[1..] == Repeat(n - 1);
      RunsOut(Apply(s, Step.RunTask));
    } else {
      assert s.ran + s.pc.todo == s.ran;
    }
  }

  function Swapped(s: State): State {
    s.(pc := Running(s.pending), pending := [], doing := true, counter := 0, swaps := s.swaps + 1)
  }

  /** The loop thread's steps from a readable eventfd to running the queue. */
  function WayToTasks(rest: seq<Step>): seq<Step> {
    [Step.Return(true)] + ([Step.HandleWakeup] + ([Step.FinishHandling] + ([Step.Swap] + rest)))
  }

  lemma WayIsOpen(s: State, rest: seq<Step>)
    requires s.pc.Waiting? && s.counter > 0 && !s.ownerWaking
    requires EnabledRun(Swapped(s), rest)
    ensures EnabledRun(s, WayToTasks(rest)) && Run(s, WayToTasks(rest)) == Run(Swapped(s), rest)
  {
    var s1 := Apply(s, Step.Return(true));
    var s2 := Apply(s1, Step.HandleWakeup);
    var s3 := Apply(s2, Step.FinishHandling);
    assert Apply(s3, Step.Swap) == Swapped(s);
    RunCons(s3, Step.Swap, rest);
    RunCons(s2, Step.FinishHandling, [Step.Swap] + rest);
    RunCons(s1, Step.HandleWakeup, [Step.FinishHandling] + ([Step.Swap] + rest));
    RunCons(s, Step.Return(true), [Step.HandleWakeup] + ([Step.FinishHandling] + ([Step.Swap] + rest)));
  }

  /** One turn of the loop from a readable eventfd: run what is queued, look at `quit_`. */
  lemma OneTurn(s: State) returns (steps: seq<Step>)
    requires s.pc.Waiting? && s.counter > 0 && !s.ownerWaking
    ensures EnabledRun(s, steps) && (forall i :: 0 <= i < |steps| ==> BringsNoWork(steps[i]))
    ensures var t := Run(s, steps);
            t.ran == s.ran + s.pending && t.pending == [] && t.pc == if s.quit then Exited else Waiting
  {
    var tasks := Repeat(|s.pending|);
    RunsOut(Swapped(s));
    RunSnoc(Swapped(s), tasks, Step.FinishTasks);
    RunSnoc(Swapped(s), tasks + [Step.FinishTasks], Step.Check);
    var rest := tasks + [Step.FinishTasks] + [Step.Check];
    WayIsOpen(s, rest);
    steps := WayToTasks(rest);
  }

  /** Steps that neither queue anything nor ask the loop to quit. */
  predicate BringsNoWork(step: Step) {
    !(step.PushTask? || step.StoreQuit? || step.OwnerPush? || step.OwnerQuit?)
  }

  /** A wakeup is enough: from any reachable wait with something to do that is not lost, the
      loop thread and at most one thread already on its way to the eventfd can run every task
      queued so far, and the loop then exits if it was asked to. */
  lemma WakeupDelivers(s: State) returns (steps: seq<Step>)
    requires WakeInv(s) && FifoInv(s)
    requires s.pc.Waiting? && (s.pending != [] || s.quit) && !Lost(s)
    ensures EnabledRun(s, steps) && (forall i :: 0 <= i < |steps| ==> BringsNoWork(steps[i]))
    ensures var t := Run(s, steps);
            t.ran == Tasks(s.log) && t.pending == [] && t.pc == if s.quit then Exited else Waiting
  {
    assert s.ran + [] + s.pending == s.ran + s.pending;
    if s.counter > 0 {
      steps := OneTurn(s);
    } else {
      var t :| t in s.waking;
      steps := OneTurn(Apply(s, Step.Wake(t)));
      RunCons(s, Step.Wake(t), steps);
      steps := [Step.Wake(t)] + steps;
    }
  }

  // ---- The code ---------------------------------------------------------------------------------

  lemma {:induction false} RunSnoc(s: State, steps: seq<Step>, last: Step)
    requires EnabledRun(s, steps) && Enabled(Run(s, steps), last)
    ensures EnabledRun(s, steps + [last]) && Run(s, steps + [last]) == Apply(Run(s, steps), last)
    decreases |steps|
  {
    if steps == [] {
      assert [last][1..] == [];
    } else {
      RunSnoc(Apply(s, steps[0]), steps[1..], last);
      assert (steps + [last])[1..] == steps[1..] + [last];
    }
  }

  /** `s` evolves into `t` by the listed steps. */
  ghost predicate Evolves(s: State, steps: seq<Step>, t: State) {
    EnabledRun(s, steps) && Run(s, steps) == t
  }

  lemma {:induction false} StillWaking(s: State, t: ThreadId, steps: seq<Step>)
    requires EnabledRun(s, steps) && t in s.waking && Step.Wake(t) !in steps
    ensures t in Run(s, steps).waking
    decreases |steps|
  {
    if steps != [] {
      StillWaking(Apply(s, steps[0]), t, steps[1..]);
    }
  }

  // What other threads do while the loop thread is between two of its lines.

  predicate Foreign(step: Step) {
    step.PushTask? || step.StoreQuit? || step.Wake?
  }

  /** Whether another thread can take the step, and who is on the way to the eventfd then. */
  predicate CanAct(waking: set<ThreadId>, step: Step) {
    Foreign(step) && (step.Wake? <==> step.t in waking)
  }

  function WakingAfter(waking: set<ThreadId>, steps: seq<Step>): set<ThreadId>
    decreases |steps|
  {
    if steps == [] then waking
    else if !Foreign(steps[0]) then WakingAfter(waking, steps[1..])
    else if steps[0].Wake? then WakingAfter(waking - {steps[0].t}, steps[1..])
    else WakingAfter(waking + {steps[0].t}, steps[1..])
  }

  ghost predicate ForeignRun(waking: set<ThreadId>, steps: seq<Step>)
    decreases |steps|
  {
    steps != [] ==>
      CanAct(waking, steps[0]) && ForeignRun(WakingAfter(waking, [steps[0]]), steps[1..])
  }

  ghost predicate ForeignGaps(waking: set<ThreadId>, gaps: seq<seq<Step>>)
    decreases |gaps|
  {
    gaps != [] ==> ForeignRun(waking, gaps[0]) && ForeignGaps(WakingAfter(waking, gaps[0]), gaps[1..])
  }

  function NextGap(gaps: seq<seq<Step>>): seq<Step> {
    if gaps == [] then [] else gaps[0]
  }

  lemma ForeignStep(s: State, step: Step)
    requires CanAct(s.waking, step)
    ensures Enabled(s, step) && Apply(s, step).waking == WakingAfter(s.waking, [step])
    ensures SameTurn(s, Apply(s, step)) && Queued(s, Apply(s, step), [])
  {
    var s' := Apply(s, step);
    if step.PushTask? {
      assert s'.log[|s.log|..] == [Push(false, step.task)];
    } else {
      assert s'.log[|s.log|..] == [];
    }
  }

  /** Whatever other threads do, the loop thread stays where it is and the queue only grows. */
  lemma {:induction false} ForeignSteps(s: State, steps: seq<Step>)
    requires ForeignRun(s.waking, steps)
    ensures EnabledRun(s, steps) && Run(s, steps).waking == WakingAfter(s.waking, steps)
    ensures SameTurn(s, Run(s, steps)) && Queued(s, Run(s, steps), [])
    decreases |steps|
  {
    if steps == [] {
      assert s.log[|s.log|..] == [];
    } else {
      var s' := Apply(s, steps[0]);
      ForeignStep(s, steps[0]);
      ForeignSteps(s', steps[1..]);
      QueuedTwice(s, s', Run(s', steps[1..]), [], []);
    }
  }

  /** The loop thread is where it was and has run what it had run. */
  predicate SameTurn(s: State, t: State) {
    t.pc == s.pc && t.ran == s.ran && t.doing == s.doing && t.ownerWaking == s.ownerWaking
  }

  /** The loop thread's own pushes. */
  function Own(log: seq<Push>): seq<Task> {
    if log == [] then []
    else Own(log[..|log| - 1]) + if log[|log| - 1].byOwner then [log[|log| - 1].task] else []
  }

  /** From `s` to `t` the queue has only grown, by what was pushed meanwhile; of that, `own`
      are the loop thread's pushes. */
  ghost predicate Queued(s: State, t: State, own: seq<Task>) {
    && s.log <= t.log
    && t.pending == s.pending + Tasks(t.log[|s.log|..])
    && Own(t.log[|s.log|..]) == own
  }

  lemma {:induction false} OwnConcat(a: seq<Push>, b: seq<Push>)
    ensures Own(a + b) == Own(a) + Own(b)
    decreases |b|
  {
    if b == [] {
      assert a + b == a;
    } else {
      assert (a + b)[..|a + b| - 1] == a + b[..|b| - 1];
      OwnConcat(a, b[..|b| - 1]);
    }
  }

  lemma LogSplit(a: seq<Push>, b: seq<Push>, c: seq<Push>)
    requires a <= b <= c
    ensures Tasks(c[|a|..]) == Tasks(b[|a|..]) + Tasks(c[|b|..])
    ensures Own(c[|a|..]) == Own(b[|a|..]) + Own(c[|b|..])
  {
    assert c[|a|..] == b[|a|..] + c[|b|..];
    OwnConcat(b[|a|..], c[|b|..]);
  }

  lemma QueuedTwice(s: State, t: State, u: State, a: seq<Task>, b: seq<Task>)
    requires Queued(s, t, a) && Queued(t, u, b)
    ensures Queued(s, u, a + b)
  {
    LogSplit(s.log, t.log, u.log);
  }

  /** The swap moves the queue aside, and what is pushed later starts a new one. */
  lemma QueuedAcrossSwap(s: State, dump: seq<Task>, t: State, u: State, own: seq<Task>)
    requires Queued(s, t.(pending := dump), []) && t.pending == [] && Queued(t, u, own)
    ensures Queued(s, u.(pending := dump + u.pending), own)
  {
    LogSplit(s.log, t.log, u.log);
  }

  lemma OwnerStep(s: State, step: Step)
    requires Enabled(s, step) && step in {Step.OwnerWake, Step.RunTask}
    ensures Queued(s, Apply(s, step), [])
  {
  }

  lemma OwnerPushStep(s: State, task: Task)
    requires InUserCode(s)
    ensures Queued(s, Apply(s, Step.OwnerPush(task)), [task])
  {
    assert Apply(s, Step.OwnerPush(task)).log[|s.log|..] == [] + [Push(true, task)];
    OwnConcat([], [Push(true, task)]);
  }

  function WakeIf(doing: bool): seq<Step> {
    if doing then [Step.OwnerWake] else []
  }

  /** A push on the loop thread, other threads' steps, and the wakeup if one is due. */
  lemma PushThenWake(s: State, task: Task, gap: seq<Step>, t: State)
    requires InUserCode(s)
    requires var p := Apply(s, Step.OwnerPush(task));
             Evolves(p, gap, t) && SameTurn(p, t) && Queued(p, t, [])
    ensures var u := if s.doing then Apply(t, Step.OwnerWake) else t;
            && Evolves(s, [Step.OwnerPush(task)] + gap + WakeIf(s.doing), u)
            && SameTurn(s, u) && Queued(s, u, [task])
  {
    var p := Apply(s, Step.OwnerPush(task));
    OwnerPushStep(s, task);
    QueuedTwice(s, p, t, [task], []);
    RunCons(s, Step.OwnerPush(task), gap);
    var steps := [Step.OwnerPush(task)] + gap;
    if s.doing {
      RunSnoc(s, steps, Step.OwnerWake);
      OwnerStep(t, Step.OwnerWake);
      QueuedTwice(s, t, Apply(t, Step.OwnerWake), [task], []);
    } else {
      assert steps + WakeIf(s.doing) == steps;
    }
  }

  /** Everything the tasks queue when they are run, in order. */
  function Spawned(tasks: seq<Task>, spawn: Task -> seq<Task>): seq<Task> {
    if tasks == [] then [] else Spawned(tasks[..|tasks| - 1], spawn) + spawn(tasks[|tasks| - 1])
  }

  lemma SpawnedNext(tasks: seq<Task>, i: nat, spawn: Task -> seq<Task>)
    requires i < |tasks|
    ensures Spawned(tasks[..i + 1], spawn) == Spawned(tasks[..i], spawn) + spawn(tasks[i])
    ensures tasks[..i + 1] == tasks[..i] + [tasks[i]]
  {
    assert tasks[..i + 1][..i] == tasks[..i];
  }

  /** The loop object's fields, which all threads work on.  The ghost state and trace say
      which steps of the protocol each line is; what other threads do between two lines is a
      parameter. */
  class EventLoop {
    var quit: bool
    var doingPendingTasks: bool
    var pendingTasks: seq<Task>
    var wakeupCounter: nat
    // What other threads do at the next points where the loop thread is between two lines.
    var schedule: seq<seq<Step>>
    ghost var s: State
    ghost var origin: State
    ghost var trace: seq<Step>

    ghost predicate Valid()
      reads this
    {
      && s.quit == quit && s.doing == doingPendingTasks
      && s.pending == pendingTasks && s.counter == wakeupCounter
      && Evolves(origin, trace, s)
    }

    ghost predicate Scheduled()
      reads this
    {
      ForeignGaps(s.waking, schedule)
    }

    constructor (gaps: seq<seq<Step>>)
      ensures Valid() && s == INITIAL && origin == INITIAL && schedule == gaps
    {
      quit, doingPendingTasks, pendingTasks, wakeupCounter := false, false, [], 0;
      schedule := gaps;
      s, origin, trace := INITIAL, INITIAL, [];
    }

    ghost method Take(step: Step)
      requires Evolves(origin, trace, s) && Enabled(s, step)
      modifies this`s, this`trace
      ensures s == Apply(old(s), step) && Evolves(origin, trace, s)
    {
      RunSnoc(origin, trace, step);
      trace := trace + [step];
      s := Apply(s, step);
    }

    method Wakeup()
      modifies this`wakeupCounter
      ensures wakeupCounter == Bump(old(wakeupCounter))
    {
      if wakeupCounter < COUNTER_MAX {
        wakeupCounter := wakeupCounter + 1;
      }
    }

    /** What a step of any thread does to the fields. */
    method Perform(step: Step)
      requires Valid() && Enabled(s, step)
      modifies this`quit, this`doingPendingTasks, this`pendingTasks, this`wakeupCounter, this`s, this`trace
      ensures Valid() && s == Apply(old(s), step)
    {
      match step {
        case PushTask(_, task) => pendingTasks := pendingTasks + [task];
        case OwnerPush(task) => pendingTasks := pendingTasks + [task];
        case StoreQuit(_) => quit := true;
        case OwnerQuit => quit := true;
        case Wake(_) => Wakeup();
        case OwnerWake => Wakeup();
        case HandleWakeup => wakeupCounter := 0;
        case Swap => pendingTasks, doingPendingTasks := [], true;
        case FinishTasks => doingPendingTasks := false;
        case _ =>
      }
      Take(step);
    }

    /** Any interleaving of the other threads' steps. */
    method Interleave(steps: seq<Step>)
      requires Valid() && EnabledRun(s, steps)
      modifies this`quit, this`doingPendingTasks, this`pendingTasks, this`wakeupCounter, this`s, this`trace
      ensures Valid() && s == Run(old(s), steps)
    {
      var i := 0;
      while i < |steps|
        invariant i <= |steps| && Valid() && EnabledRun(s, steps[i..])
        invariant Run(s, steps[i..]) == Run(old(s), steps)
      {
        assert steps[i..][1..] == steps[i + 1..];
        Perform(steps[i]);
        i := i + 1;
      }
    }

    /** `queue_in_loop` called by another thread; `between` is what all other threads, the
        loop thread among them, do between its push and its wakeup. */
    method QueueFromThread(t: ThreadId, task: Task, between: seq<Step>)
      requires Valid() && t !in s.waking
      requires EnabledRun(Apply(s, PushTask(t, task)), between) && Step.Wake(t) !in between
      modifies this
      ensures Valid() && origin == old(origin)
      ensures Evolves(old(s), [PushTask(t, task)] + between + [Wake(t)], s) && s.counter > 0
      ensures Tasks(s.log) == Tasks(old(s.log)) + [task] + Pushed(between)
    {
      LogStep(s, PushTask(t, task));
      LogIsPushed(Apply(s, PushTask(t, task)), between);
      RunCons(s, PushTask(t, task), between);
      StillWaking(Apply(s, PushTask(t, task)), t, between);
      RunSnoc(s, [PushTask(t, task)] + between, Wake(t));
      pendingTasks := pendingTasks + [task];
      Take(PushTask(t, task));
      Interleave(between);
      Wakeup();
      Take(Wake(t));
    }

    /** `quit` called by another thread, likewise. */
    method QuitFromThread(t: ThreadId, between: seq<Step>)
      requires Valid() && t !in s.waking
      requires EnabledRun(Apply(s, StoreQuit(t)), between) && Step.Wake(t) !in between
      modifies this
      ensures Valid() && origin == old(origin)
      ensures Evolves(old(s), [StoreQuit(t)] + between + [Wake(t)], s) && s.counter > 0
      ensures quit
    {
      QuitExactly(Apply(s, StoreQuit(t)), between);
      RunCons(s, StoreQuit(t), between);
      StillWaking(Apply(s, StoreQuit(t)), t, between);
      RunSnoc(s, [StoreQuit(t)] + between, Wake(t));
      quit := true;
      Take(StoreQuit(t));
      Interleave(between);
      Wakeup();
      Take(Wake(t));
    }

    /** `quit` called on the loop thread: the loop looks at the flag before its next wait. */
    method QuitInLoop()
      requires Valid() && InUserCode(s)
      modifies this
      ensures Valid() && origin == old(origin) && schedule == old(schedule)
      ensures quit && s == Apply(old(s), OwnerQuit)
    {
      quit := true;
      Take(OwnerQuit);
    }

    /** Other threads act while the loop thread is between two lines. */
    method Preempt()
      requires Valid() && Scheduled()
      modifies this
      ensures Valid() && Scheduled() && origin == old(origin)
      ensures SameTurn(old(s), s) && Queued(old(s), s, [])
      ensures Evolves(old(s), NextGap(old(schedule)), s)
    {
      ForeignSteps(s, NextGap(schedule));
      if schedule != [] {
        Interleave(schedule[0]);
        schedule := schedule[1..];
      }
    }

    /** `queue_in_loop` called on the loop thread: it pushes, and wakes the loop only while
        tasks are being run. */
    method QueueInLoop(task: Task)
      requires Valid() && Scheduled() && InUserCode(s)
      modifies this
      ensures Valid() && Scheduled() && origin == old(origin)
      ensures SameTurn(old(s), s) && Queued(old(s), s, [task])
      ensures Evolves(old(s), [OwnerPush(task)] + NextGap(old(schedule)) + WakeIf(old(doingPendingTasks)), s)
    {
      pendingTasks := pendingTasks + [task];
      Take(OwnerPush(task));
      Preempt();
      PushThenWake(old(s), task, NextGap(old(schedule)), s);
      if doingPendingTasks {
        Wakeup();
        Take(OwnerWake);
      }
    }

    /** The body of a task: it queues what `spawned` lists. */
    method RunBody(spawned: seq<Task>)
      requires Valid() && Scheduled() && s.pc.Running? && !s.ownerWaking
      modifies this
      ensures Valid() && Scheduled() && origin == old(origin)
      ensures SameTurn(old(s), s) && Queued(old(s), s, spawned)
    {
      assert s.log[|s.log|..] == [];
      var i := 0;
      while i < |spawned|
        invariant i <= |spawned| && Valid() && Scheduled() && origin == old(origin)
        invariant SameTurn(old(s), s) && Queued(old(s), s, spawned[..i])
      {
        ghost var before := s;
        QueueInLoop(spawned[i]);
        QueuedTwice(old(s), before, s, spawned[..i], [spawned[i]]);
        assert spawned[..i + 1] == spawned[..i] + [spawned[i]];
        i := i + 1;
      }
      assert spawned[..i] == spawned;
    }

    /** One turn of the loop over `tasks_dump`. */
    method RunNext(task: Task, spawned: seq<Task>)
      requires Valid() && Scheduled() && s.pc.Running? && s.pc.todo != [] && s.pc.todo[0] == task
      requires !s.ownerWaking
      modifies this
      ensures Valid() && Scheduled() && origin == old(origin) && !s.ownerWaking
      ensures s.pc == Running(old(s.pc.todo)[1..]) && s.ran == old(s.ran) + [task]
      ensures Queued(old(s), s, spawned)
    {
      ghost var s0 := s;
      Preempt();
      ghost var s1 := s;
      OwnerStep(s1, RunTask);
      QueuedTwice(s0, s1, Apply(s1, RunTask), [], []);
      Take(RunTask);
      ghost var s2 := s;
      RunBody(spawned);
      QueuedTwice(s0, s2, s, [], spawned);
      assert [] + spawned == spawned;
    }

    /** The loop over `tasks_dump`. */
    method RunAll(tasksDump: seq<Task>, spawn: Task -> seq<Task>)
      requires Valid() && Scheduled() && s.pc == Running(tasksDump) && !s.ownerWaking
      modifies this
      ensures Valid() && Scheduled() && origin == old(origin) && !s.ownerWaking
      ensures s.pc == Running([]) && s.ran == old(s.ran) + tasksDump
      ensures Queued(old(s), s, Spawned(tasksDump, spawn))
    {
      assert s.log[|s.log|..] == [];
      var i := 0;
      while i < |tasksDump|
        invariant i <= |tasksDump| && Valid() && Scheduled() && origin == old(origin)
        invariant s.pc == Running(tasksDump[i..]) && !s.ownerWaking
        invariant s.ran == old(s.ran) + tasksDump[..i]
        invariant Queued(old(s), s, Spawned(tasksDump[..i], spawn))
      {
        ghost var before := s;
        RunNext(tasksDump[i], spawn(tasksDump[i]));
        assert tasksDump[i..][1..] == tasksDump[i + 1..];
        SpawnedNext(tasksDump, i, spawn);
        QueuedTwice(old(s), before, s, Spawned(tasksDump[..i], spawn), spawn(tasksDump[i]));
        i := i + 1;
      }
      assert tasksDump[..i] == tasksDump;
    }

    /** The locked swap. */
    method SwapTasks() returns (tasksDump: seq<Task>)
      requires Valid() && Scheduled() && s.pc.Swapping? && !s.ownerWaking
      modifies this
      ensures Valid() && Scheduled() && origin == old(origin)
      ensures s.pc == Running(tasksDump) && s.pending == [] && s.ran == old(s.ran) && !s.ownerWaking
      ensures Queued(old(s), s.(pending := tasksDump), [])
    {
      Preempt();
      tasksDump := pendingTasks;
      pendingTasks := [];
      doingPendingTasks := true;
      Take(Swap);
    }

    method FinishRunning()
      requires Valid() && Scheduled() && s.pc == Running([]) && !s.ownerWaking
      modifies this
      ensures Valid() && Scheduled() && origin == old(origin)
      ensures s.pc.Checking? && s.ran == old(s.ran) && Queued(old(s), s, [])
    {
      Preempt();
      doingPendingTasks := false;
      Take(FinishTasks);
    }

    /** `do_pending_tasks`, with other threads pushing, quitting and waking between any two of
        its lines: it runs exactly the tasks found at the swap, in order; those and what is
        left behind are the old queue and everything pushed meanwhile, in lock order, and the
        loop thread's part of the pushes is what the tasks queued. */
    method DoPendingTasks(spawn: Task -> seq<Task>) returns (tasksDump: seq<Task>)
      requires Valid() && Scheduled() && s.pc.Swapping? && !s.ownerWaking
      modifies this
      ensures Valid() && Scheduled() && origin == old(origin) && s.pc.Checking?
      ensures s.ran == old(s.ran) + tasksDump
      ensures Queued(old(s), s.(pending := tasksDump + pendingTasks), Spawned(tasksDump, spawn))
    {
      ghost var s0 := s;
      tasksDump := SwapTasks();
      ghost var s1 := s;
      RunAll(tasksDump, spawn);
      ghost var s2 := s;
      FinishRunning();
      QueuedTwice(s1, s2, s, Spawned(tasksDump, spawn), []);
      assert Spawned(tasksDump, spawn) + [] == Spawned(tasksDump, spawn);
      QueuedAcrossSwap(s0, tasksDump, s1, s, Spawned(tasksDump, spawn));
    }
  }
}
