/** How the workers leave: once the manager stops, each step brings every worker nearer to the end of `run`. */
module MachineShutdown {
  import opened Wrappers
  import opened Jobs
  import opened Sums
  import opened Machine
  import opened Gauges
  import opened MachineInvariant
  import opened MachineRuns

  // ---------- The end of the idle loop ----------

  /** Nothing is left to do, part by part: stop was called, the task list, the timers and the slots are empty,
      and no worker holds a task or owes a count. */
  predicate NothingLeft(m: Machine) {
    && m.stopping && m.queue == [] && m.timers == []
    && (forall i | 0 <= i < |m.slots| :: m.slots[i] == None)
    && forall t | 0 <= t < |m.threads| ::
         m.threads[t].owed == 0
         && !m.threads[t].pc.HaveFiber? && !m.threads[t].pc.HaveCall? && !m.threads[t].pc.Run? && !m.threads[t].pc.Returned?
  }

  lemma CountsOfNothing(m: Machine)
    requires Inv(m)
    ensures m.active == 0 <==> forall t | 0 <= t < |m.threads| :: !HoldsTask(m.threads[t].pc)
    ensures m.pending == 0 <==>
      (forall t | 0 <= t < |m.threads| :: m.threads[t].owed == 0) && forall i | 0 <= i < |m.slots| :: m.slots[i] == None
  {
    ActiveIsZero(m);
    PendingIsZero(m);
    hide *;
  }

  lemma ActiveIsZero(m: Machine)
    requires Counted(m)
    ensures m.active == 0 <==> forall t | 0 <= t < |m.threads| :: !HoldsTask(m.threads[t].pc)
  {
    var g := ActiveGauge();
    NothingBut(m, g);
    SumNonNegative(m.threads, g.thread);
    SumNonNegative(m.queue, g.queued);
    SumNonNegative(m.slots, g.slot);
    SumNonNegative(m.timers, g.timer);
    hide Sum, Level;
    assert forall t | 0 <= t < |m.threads| :: g.thread(m.threads[t]) == One(HoldsTask(m.threads[t].pc));
  }

  lemma PendingIsZero(m: Machine)
    requires Counted(m)
    ensures m.pending == 0 <==>
      (forall t | 0 <= t < |m.threads| :: m.threads[t].owed == 0) && forall i | 0 <= i < |m.slots| :: m.slots[i] == None
  {
    var g := PendingGauge();
    NothingBut(m, g);
    SumNonNegative(m.threads, g.thread);
    SumNonNegative(m.queue, g.queued);
    SumNonNegative(m.slots, g.slot);
    SumNonNegative(m.timers, g.timer);
    hide Sum, Level;
    assert forall t | 0 <= t < |m.threads| :: g.thread(m.threads[t]) == m.threads[t].owed;
    assert forall i | 0 <= i < |m.slots| :: g.slot(m.slots[i]) == One(m.slots[i].Some?);
  }

  /** In every reachable state: the check of the idle loop ends the idle fiber if and only if nothing is left to
      do. Otherwise the loop goes on to wait. Nothing else changes. */
  lemma CheckEndsIff(m: Machine, n: nat, t: nat)
    requires Reachable(m, n) && Legal(m, Idle(t, Check))
    ensures var r := Do(m, Idle(t, Check));
      && !m.threads[t].idleTerm
      && (r.threads[t].idleTerm <==> NothingLeft(m))
      && r.threads[t].pc == (if NothingLeft(m) then IdleReturned else IdleWait)
      && r == m.(threads := m.threads[t := m.threads[t].(pc := r.threads[t].pc, idleTerm := r.threads[t].idleTerm)])
  {
    ReachableIsGood(m, n);
    CountsOfNothing(m);
    WorkersAreOk(m, t);
    hide *;
    CheckEnds(m, t);
  }

  lemma CheckEnds(m: Machine, t: nat)
    requires Legal(m, Idle(t, Check)) && ThreadOk(m.fibers, m.threads[t])
    requires m.active == 0 <==> forall t | 0 <= t < |m.threads| :: !HoldsTask(m.threads[t].pc)
    requires m.pending == 0 <==>
      (forall t | 0 <= t < |m.threads| :: m.threads[t].owed == 0) && forall i | 0 <= i < |m.slots| :: m.slots[i] == None
    ensures var r := Do(m, Idle(t, Check));
      && !m.threads[t].idleTerm
      && (r.threads[t].idleTerm <==> NothingLeft(m))
      && r.threads[t].pc == (if NothingLeft(m) then IdleReturned else IdleWait)
      && r == m.(threads := m.threads[t := m.threads[t].(pc := r.threads[t].pc, idleTerm := r.threads[t].idleTerm)])
  {
    hide NoFiberJobs;
  }

  /** And a worker whose idle fiber has ended leaves `run` when it finds no task, another goes to wait. */
  lemma LeavesIff(m: Machine, t: nat)
    requires t < |m.threads| && Legal(m, Worker(t, EnterIdle))
    ensures Do(m, Worker(t, EnterIdle)).threads[t].pc == if m.threads[t].idleTerm then Exited else IdleCheck
  {
  }

  // ---------- Nobody is stuck ----------

  /** A step worker `t` can take where it stands. */
  function OwnStep(m: Machine, t: nat): Step
    requires t < |m.threads|
  {
    var th := m.threads[t];
    match th.pc
    case NotStarted => Worker(t, Start)
    case Scan => Worker(t, Take)
    case HaveFiber(_) => Worker(t, Resume)
    case HaveCall(_) => Worker(t, Begin)
    case Run(f, wakes) =>
      if wakes.Some? then Worker(t, Deliver)
      else if th.owed > 0 then Worker(t, Settle)
      else if f < |m.fibers| && m.fibers[f].state == Parking then Worker(t, Yield)
      else Code(t, Finish)
    case Returned => Worker(t, Return)
    case NoTask => Worker(t, EnterIdle)
    case IdleCheck => Idle(t, Check)
    case IdleWait => Idle(t, Expire(0, m.timers))
    case IdleHold(jobs) =>
      if jobs != [] then Idle(t, Hand) else if th.owed > 0 then Worker(t, Settle) else Idle(t, IdleYield)
    case _ => Worker(t, LeaveIdle)
  }

  lemma OwnStepIsLegal(m: Machine, t: nat)
    requires t < |m.threads| && m.threads[t].pc != Exited && ThreadOk(m.fibers, m.threads[t])
    ensures Legal(m, OwnStep(m, t)) && !OwnStep(m, t).Outside? && OwnStep(m, t).t == t
  {
    assert m.timers[0..] == m.timers;
    hide Wakes, NoFiberJobs;
  }

  /** In every reachable state each worker that has not left `run` can take a step of its own. */
  lemma NobodyIsStuck(m: Machine, n: nat, t: nat)
    requires Reachable(m, n) && t < |m.threads| && m.threads[t].pc != Exited
    ensures exists s: Step :: !s.Outside? && s.t == t && Legal(m, s)
  {
    hide *;
    ReachableIsGood(m, n);
    WorkersAreOk(m, t);
    OwnStepIsLegal(m, t);
  }

  lemma WorkersAreOk(m: Machine, t: nat)
    requires Inv(m) && t < |m.threads|
    ensures ThreadOk(m.fibers, m.threads[t])
  {
    hide ThreadOk, Handled, Manned, Counted, Booked, Fifo, Final;
  }

  /** A fiber that runs, owes nothing and waits for nothing may schedule callbacks, fibers and itself, register for
      any free event, delete callbacks and cancel what is registered, set and drop timers, sleep and end. */
  lemma CodeIsFree(m: Machine, t: nat, job: Job, pin: int, i: nat, at: nat)
    requires t < |m.threads| && m.threads[t].pc.Run? && m.threads[t].pc.wakes == None && m.threads[t].owed == 0
    requires m.threads[t].pc.f < |m.fibers| && m.fibers[m.threads[t].pc.f].state == Running
    requires job.Call? && i < |m.slots| && at <= |m.timers|
    ensures Legal(m, Code(t, Schedule(job, pin))) && Legal(m, Code(t, ScheduleFiber(pin))) && Legal(m, Code(t, ScheduleSelf(pin)))
    ensures Legal(m, Code(t, AddTimer(at, job))) && Legal(m, Code(t, Sleep(at))) && Legal(m, Code(t, Finish))
    ensures m.slots[i] == None <==> Legal(m, Code(t, Listen(i, job)))
    ensures m.slots[i] == None <==> Legal(m, Code(t, ListenSelf(i)))
    ensures m.slots[i].Some? <==> Legal(m, Code(t, Cancel(i)))
    ensures m.slots[i].Some? && m.slots[i].value.Call? <==> Legal(m, Code(t, Unlisten(i)))
    ensures at < |m.timers| && m.timers[at].Call? <==> Legal(m, Code(t, DropTimer(at)))
  {
  }

  // ---------- The way out ----------

  /** The manager stops, and no idle loop holds a callback. */
  ghost predicate Closing(m: Machine) {
    Inv(m) && Stopping(m) && NoneHeld(m)
  }

  /** How many steps a worker is away from the end of `run`. */
  function Distance(th: Thread): nat {
    match th.pc
    case IdleWait => 9
    case IdleHold(_) => 8
    case NotStarted => 7
    case IdleReturned => if th.idleTerm then 3 else 7
    case Scan => if th.idleTerm then 2 else 6
    case NoTask => if th.idleTerm then 1 else 5
    case IdleCheck => 4
    case _ => 0
  }

  function Distances(): Thread -> int {
    (th: Thread) => Distance(th)
  }

  function StepsLeft(m: Machine): int {
    Sum(m.threads, Distances())
  }

  /** What a worker of a closing manager may be at. */
  predicate IsClosing(th: Thread) {
    && th.owed == 0 && !HoldsTask(th.pc) && (th.pc.IdleHold? ==> th.pc.jobs == [])
    && (th.pc.NotStarted? || th.pc.IdleCheck? || th.pc.IdleWait? || th.pc.IdleHold? ==> !th.idleTerm)
    && (th.pc.Exited? ==> th.idleTerm)
  }

  lemma ClosingShape(m: Machine)
    requires Closing(m)
    ensures NothingLeft(m) && forall t | 0 <= t < |m.threads| :: IsClosing(m.threads[t])
  {
    CountsOfNothing(m);
    assert forall t | 0 <= t < |m.threads| :: ThreadOk(m.fibers, m.threads[t]);
    hide Inv;
  }

  /** Each step of a worker brings the workers nearer by one, and no step but those of the outside are left. */
  lemma StepCloser(m: Machine, s: Step)
    requires Closing(m) && Legal(m, s)
    ensures Closing(Do(m, s))
    ensures StepsLeft(Do(m, s)) == StepsLeft(m) - if s.Outside? then 0 else 1
  {
    ClosingShape(m);
    StepKeeps(m, s);
    StaysClosing(m, s);
    hide Inv, Stopping, NoneHeld, Distance;
    if !s.Outside? {
      var t := s.t;
      ThreadCloser(m, s, t);
      SumUpdate(m.threads, t, Do(m, s).threads[t], Distances());
    } else {
      OutsideKeepsThreads(m, s);
    }
  }

  lemma OutsideKeepsThreads(m: Machine, s: Step)
    requires s.Outside? && Legal(m, s)
    ensures Do(m, s).threads == m.threads
  {
  }

  lemma ThreadCloser(m: Machine, s: Step, t: nat)
    requires NothingLeft(m) && Stopping(m) && Legal(m, s) && !s.Outside? && s.t == t
    requires forall u | 0 <= u < |m.threads| :: IsClosing(m.threads[u])
    ensures t < |m.threads| && Do(m, s).threads == m.threads[t := Do(m, s).threads[t]]
    ensures Distance(Do(m, s).threads[t]) == Distance(m.threads[t]) - 1
  {
    assert TakeIndex(m.queue, m.fibers, t) == 0;
    hide TakeIndex, Wakes;
    assert t < |m.threads| ==> IsClosing(m.threads[t]);
  }

  lemma StaysClosing(m: Machine, s: Step)
    requires NothingLeft(m) && Stopping(m) && Legal(m, s)
    requires forall u | 0 <= u < |m.threads| :: IsClosing(m.threads[u])
    ensures Stopping(Do(m, s)) && NoneHeld(Do(m, s))
  {
    assert s.Worker? ==> TakeIndex(m.queue, m.fibers, s.t) == 0;
    hide TakeIndex, Wakes;
    if s.Idle? && s.d.Expire? {
      NothingRestored(m.timers, s.d.rest);
    }
  }

  // ---------- Every run ends ----------

  /** The steps of workers in a run. */
  function Inside(steps: seq<Step>): nat {
    if steps == [] then 0 else (if steps[0].Outside? then 0 else 1) + Inside(steps[1..])
  }

  /** Every run from there on takes the workers nearer by exactly its steps. */
  lemma {:induction false} RunCloser(m: Machine, steps: seq<Step>)
    requires Closing(m) && LegalRun(m, steps)
    ensures Closing(RunTo(m, steps))
    ensures Inside(steps) + StepsLeft(RunTo(m, steps)) == StepsLeft(m)
    decreases |steps|
  {
    if steps != [] {
      StepCloser(m, steps[0]);
      hide Closing, Do, Legal;
      RunCloser(Do(m, steps[0]), steps[1..]);
    }
  }

  lemma {:induction false} StepsAreFew(ths: seq<Thread>)
    ensures 0 <= Sum(ths, Distances()) <= 9 * |ths|
  {
    if ths != [] {
      StepsAreFew(ths[1..]);
    }
  }

  /** The next step of a worker on its way out. */
  function NextStep(m: Machine, t: nat): Step
    requires t < |m.threads|
  {
    match m.threads[t].pc
    case NotStarted => Worker(t, Start)
    case Scan => Worker(t, Take)
    case NoTask => Worker(t, EnterIdle)
    case IdleCheck => Idle(t, Check)
    case IdleWait => Idle(t, Expire(0, []))
    case IdleHold(_) => Idle(t, IdleYield)
    case _ => Worker(t, LeaveIdle)
  }

  lemma NextIsLegal(m: Machine, t: nat)
    requires Closing(m) && t < |m.threads| && m.threads[t].pc != Exited
    ensures Legal(m, NextStep(m, t)) && !NextStep(m, t).Outside?
  {
    ClosingShape(m);
    assert IsClosing(m.threads[t]);
    hide Closing;
    assert m.timers[0..] == [];
  }

  lemma {:induction false} NoStepsLeft(ths: seq<Thread>)
    requires forall t | 0 <= t < |ths| :: IsClosing(ths[t])
    ensures Sum(ths, Distances()) == 0 <==> forall t | 0 <= t < |ths| :: ths[t].pc == Exited
  {
    SumNonNegative(ths, Distances());
    assert forall t | 0 <= t < |ths| :: Distances()(ths[t]) == Distance(ths[t]);
    assert forall t | 0 <= t < |ths| :: Distance(ths[t]) == 0 <==> ths[t].pc == Exited;
    hide Sum;
  }

  /** Once the manager stops with nothing held, no run holds the workers back: it has at most nine steps of each
      worker, and it can always go on by one until all have left `run`. So all of them leave in the end. */
  lemma ShutdownIsInevitable(m: Machine, n: nat, steps: seq<Step>)
    requires Reachable(m, n) && |m.threads| > 0 && Stopping(m) && NoneHeld(m) && LegalRun(m, steps)
    ensures Inside(steps) <= 9 * |m.threads|
    ensures AllExited(RunTo(m, steps)) <==> !exists s :: Legal(RunTo(m, steps), s) && !s.Outside?
  {
    ReachableIsGood(m, n);
    RunCloser(m, steps);
    var r := RunTo(m, steps);
    StepsAreFew(m.threads);
    StepsAreFew(r.threads);
    SameWorkers(m, steps);
    ExitedIff(r);
  }

  lemma {:induction false} SameWorkers(m: Machine, steps: seq<Step>)
    requires LegalRun(m, steps)
    ensures |RunTo(m, steps).threads| == |m.threads|
    decreases |steps|
  {
    hide Do, Legal;
    if steps != [] {
      SameWorkers(Do(m, steps[0]), steps[1..]);
    }
  }

  lemma ExitedIff(m: Machine)
    requires Closing(m) && |m.threads| > 0
    ensures AllExited(m) <==> StepsLeft(m) == 0
    ensures AllExited(m) <==> !exists s :: Legal(m, s) && !s.Outside?
  {
    ClosingShape(m);
    NoStepsLeft(m.threads);
    hide Closing, NothingLeft, IsClosing, Sum;
    if !AllExited(m) {
      var t :| 0 <= t < |m.threads| && m.threads[t].pc != Exited;
      NextIsLegal(m, t);
      assert Legal(m, NextStep(m, t)) && !NextStep(m, t).Outside?;
    } else {
      forall s | Legal(m, s)
        ensures s.Outside?
      {
        ExitedIsStuck(m, s);
      }
    }
  }

  lemma ExitedIsStuck(m: Machine, s: Step)
    requires Legal(m, s) && forall t | 0 <= t < |m.threads| :: m.threads[t].pc == Exited && m.threads[t].owed == 0
    ensures s.Outside?
  {
  }

  /** And there is such a run. */
  lemma ShutdownIsReached(m: Machine, n: nat)
    requires Reachable(m, n) && |m.threads| > 0 && Stopping(m) && NoneHeld(m)
    ensures exists steps :: LegalRun(m, steps) && AllExited(RunTo(m, steps))
  {
    ReachableIsGood(m, n);
    hide *;
    var steps := WayOut(m);
  }

  lemma {:induction false} WayOut(m: Machine) returns (steps: seq<Step>)
    requires Inv(m) && Stopping(m) && NoneHeld(m) && |m.threads| > 0
    ensures LegalRun(m, steps) && AllExited(RunTo(m, steps))
    decreases StepsLeft(m)
  {
    StepsAreFew(m.threads);
    ExitedIff(m);
    steps := [];
    if !AllExited(m) {
      var s :| Legal(m, s) && !s.Outside?;
      StepCloser(m, s);
      var rest := WayOut(Do(m, s));
      OneStep(m, s, Do(m, s), rest, RunTo(Do(m, s), rest));
      steps := [s] + rest;
    }
  }

  /** For one, a new manager that is stopped at once. */
  lemma NewManagerShutsDown(n: nat)
    requires n > 0
    ensures exists steps :: LegalRun(Initial(n), [Outside(Stop)] + steps) && AllExited(RunTo(Initial(n), [Outside(Stop)] + steps))
  {
    var m := Initial(n).(stopping := true);
    StopAtOnce(n, m);
    hide *;
    ReachableIsGood(m, n);
    var steps := WayOut(m);
    OneStep(Initial(n), Outside(Stop), m, steps, RunTo(m, steps));
    assert LegalRun(Initial(n), [Outside(Stop)] + steps);
  }

  lemma StopAtOnce(n: nat, m: Machine)
    requires n > 0 && m == Initial(n).(stopping := true)
    ensures Reachable(m, n) && Stopping(m) && NoneHeld(m) && |m.threads| > 0 && IsStep(Initial(n), Outside(Stop), m)
  {
    OneStep(Initial(n), Outside(Stop), m, [], m);
    assert LegalRun(Initial(n), [Outside(Stop)] + []) && RunTo(Initial(n), [Outside(Stop)] + []) == m;
  }
}
