/** What holds in every state the machine can reach, and at its end. */
module MachineRuns {
  import opened Wrappers
  import opened Jobs
  import opened Sums
  import opened Machine
  import opened Gauges
  import opened MachineInvariant

  /** A new manager with `n` workers. */
  function Initial(n: nat): Machine {
    Machine(seq(n, i => Thread(NotStarted, false, 0)), [], [], NoJobs(64), [], 0, 0, 0, false, [], [])
  }

  predicate LegalRun(m: Machine, steps: seq<Step>)
    decreases |steps|
  {
    steps == [] || (Legal(m, steps[0]) && LegalRun(Do(m, steps[0]), steps[1..]))
  }

  function RunTo(m: Machine, steps: seq<Step>): Machine
    requires LegalRun(m, steps)
    decreases |steps|
  {
    if steps == [] then m else RunTo(Do(m, steps[0]), steps[1..])
  }

  ghost predicate Reachable(m: Machine, n: nat) {
    exists steps :: LegalRun(Initial(n), steps) && RunTo(Initial(n), steps) == m
  }

  lemma InitialIsGood(n: nat)
    ensures Inv(Initial(n))
  {
    InitialCounts(n);
    InitialPlaces(n);
    hide Handled, Manned, Counted, Booked, Shaped, Final, Fifo, Initial;
  }

  lemma InitialPlaces(n: nat)
    ensures Shaped(Initial(n)) && Final(Initial(n)) && Fifo(Initial(n))
  {
    var m := Initial(n);
    if n > 0 {
      assert !m.threads[0].idleTerm;
    }
  }

  lemma InitialCounts(n: nat)
    ensures Handled(Initial(n)) && Manned(Initial(n)) && Counted(Initial(n)) && Booked(Initial(n))
  {
    hide Sum, Level;
    var m := Initial(n);
    forall f: nat
      ensures Level(m, HandleGauge(f)) == Want(m.fibers, f) && Level(m, RunGauge(f)) == Runners(m.fibers, f)
    {
      EmptyLevel(n, HandleGauge(f));
      EmptyLevel(n, RunGauge(f));
    }
    EmptyLevel(n, ActiveGauge());
    EmptyLevel(n, IdleGauge());
    EmptyLevel(n, PendingGauge());
    forall y: Task
      ensures Level(m, LedgerGauge(y)) == 0
    {
      EmptyLevel(n, LedgerGauge(y));
    }
    forall job: Job | !job.FiberJob?
      ensures Level(m, StartGauge(job)) == 0
    {
      EmptyLevel(n, StartGauge(job));
    }
  }

  lemma EmptyLevel(n: nat, g: Gauge)
    requires Plain(g) && g.thread(Thread(NotStarted, false, 0)) == 0
    ensures Level(Initial(n), g) == 0
  {
    NothingWeighs(64, g);
    var m := Initial(n);
    SumNonNegative(m.threads, g.thread);
    SumEmpty(g.fiber);
    SumEmpty(g.queued);
    SumEmpty(g.timer);
    SumEmpty(g.accepted);
    SumEmpty(g.taken);
    hide Sum;
  }

  lemma SumEmpty<T>(w: T -> int)
    ensures Sum([], w) == 0
  {
  }

  lemma {:induction false} RunKeeps(m: Machine, steps: seq<Step>)
    requires Inv(m) && LegalRun(m, steps)
    ensures Inv(RunTo(m, steps))
    decreases |steps|
  {
    if steps != [] {
      StepKeeps(m, steps[0]);
      RunKeeps(Do(m, steps[0]), steps[1..]);
    }
  }

  lemma ReachableIsGood(m: Machine, n: nat)
    requires Reachable(m, n)
    ensures Inv(m)
  {
    InitialIsGood(n);
    var steps :| LegalRun(Initial(n), steps) && RunTo(Initial(n), steps) == m;
    RunKeeps(Initial(n), steps);
  }

  // ---------- One wake-up ----------

  /** How many wake-ups for `f` exist: in the task list, in event slots, among the timers and in the
      hands of workers. */
  function Handles(m: Machine, f: nat): int {
    Level(m, HandleGauge(f))
  }

  /** How many workers run `f`. */
  function RunBy(m: Machine, f: nat): int {
    Level(m, RunGauge(f))
  }

  /** In every reachable state a fiber has exactly the wake-ups and the workers that its state calls for. */
  lemma SingleWakeup(m: Machine, n: nat, f: nat)
    requires Reachable(m, n)
    ensures f >= |m.fibers| ==> Handles(m, f) == 0 && RunBy(m, f) == 0
    ensures f < |m.fibers| ==>
      match m.fibers[f].state
      case Ready => Handles(m, f) == 1 && RunBy(m, f) == 0
      case Running => Handles(m, f) == 0 && RunBy(m, f) == 1
      case Parking => Handles(m, f) == 1 && RunBy(m, f) == 1
      case Term => Handles(m, f) == 0 && RunBy(m, f) == 0
  {
    ReachableIsGood(m, n);
    assert Level(m, HandleGauge(f)) == Want(m.fibers, f);
    assert Level(m, RunGauge(f)) == Runners(m.fibers, f);
    hide Level, Inv, Handled, Manned;
  }

  /** `resume` never meets a fiber that has ended or that runs, and no fiber is run by two workers, or
      run by one while another is about to resume it. */
  lemma ResumeIsSafe(m: Machine, n: nat, t: nat, u: nat)
    requires Reachable(m, n) && t < |m.threads| && u < |m.threads|
    ensures var pc := m.threads[t].pc;
      && (pc.HaveFiber? ==> pc.f < |m.fibers| && m.fibers[pc.f].state == Ready)
      && (pc.HaveFiber? || pc.Run? ==> t == u || !About(m.threads[u].pc, pc.f))
  {
    ReachableIsGood(m, n);
    assert ThreadOk(m.fibers, m.threads[t]);
    hide Handled, Manned, Shaped, Counted, Booked, Final, Fifo;
    if m.threads[t].pc.HaveFiber? || m.threads[t].pc.Run? {
      NobodyElse(m, t, m.threads[t].pc.f);
    }
  }

  /** Somebody still points to the fiber. */
  ghost predicate Referenced(m: Machine, f: nat) {
    || (exists k :: 0 <= k < |m.queue| && HandleOf(m.queue[k].job, f) == 1)
    || (exists i :: 0 <= i < |m.slots| && m.slots[i].Some? && HandleOf(m.slots[i].value, f) == 1)
    || (exists i :: 0 <= i < |m.timers| && HandleOf(m.timers[i], f) == 1)
    || (exists t :: 0 <= t < |m.threads| && (Held(m.threads[t].pc, f) > 0 || About(m.threads[t].pc, f)))
  }

  /** The destructor's assertion: a fiber nobody points to has ended. */
  lemma UnreferencedHasEnded(m: Machine, n: nat, f: nat)
    requires Reachable(m, n) && f < |m.fibers| && !Referenced(m, f)
    ensures m.fibers[f].state == Term
  {
    SingleWakeup(m, n, f);
    hide Referenced, Level;
    UnreferencedHasNoHandle(m, f);
    UnreferencedHasNoRunner(m, f);
  }

  lemma UnreferencedHasNoHandle(m: Machine, f: nat)
    requires !Referenced(m, f)
    ensures Handles(m, f) == 0
  {
    HandlesNonNegative(f);
    NothingBut(m, HandleGauge(f));
    SumNonNegative(m.threads, HandleGauge(f).thread);
    SumNonNegative(m.queue, HandleGauge(f).queued);
    SumNonNegative(m.slots, HandleGauge(f).slot);
    SumNonNegative(m.timers, HandleGauge(f).timer);
    hide Sum, Level;
  }

  lemma UnreferencedHasNoRunner(m: Machine, f: nat)
    requires !Referenced(m, f)
    ensures RunBy(m, f) == 0
  {
    NothingBut(m, RunGauge(f));
    SumNonNegative(m.threads, RunGauge(f).thread);
    SumNonNegative(m.queue, RunGauge(f).queued);
    SumNonNegative(m.slots, RunGauge(f).slot);
    SumNonNegative(m.timers, RunGauge(f).timer);
    hide Sum, Level;
  }

  /** The gauges of wake-ups and of running do not weigh fibers and books. */
  lemma NothingBut(m: Machine, g: Gauge)
    requires (forall b: Fiber :: g.fiber(b) == 0) && (forall x: Task :: g.accepted(x) == 0 && g.taken(x) == 0)
    ensures Level(m, g) == Sum(m.threads, g.thread) + Sum(m.queue, g.queued) + Sum(m.slots, g.slot) + Sum(m.timers, g.timer)
  {
    SumNonNegative(m.fibers, g.fiber);
    SumNonNegative(m.accepted, g.accepted);
    SumNonNegative(m.taken, g.taken);
  }

  /** A fiber that waits for an event registers itself and then switches away. If the event is reported in
      between, its task is already in the list while it still runs; but the machine ends in the same state
      as if the report had come after the switch. */
  lemma EarlyReportIsHarmless(m: Machine, t: nat, u: nat, i: nat)
    requires Legal(m, Code(t, ListenSelf(i)))
    requires u < |m.threads| && m.threads[u].pc == IdleHold([]) && m.threads[u].owed == 0
    ensures var registered := Do(m, Code(t, ListenSelf(i)));
      && Legal(registered, Idle(u, Report(i))) && Legal(registered, Worker(t, Yield))
      && Legal(Do(registered, Idle(u, Report(i))), Worker(t, Yield))
      && Legal(Do(registered, Worker(t, Yield)), Idle(u, Report(i)))
      && Do(Do(registered, Idle(u, Report(i))), Worker(t, Yield)) == Do(Do(registered, Worker(t, Yield)), Idle(u, Report(i)))
  {
    var registered := Do(m, Code(t, ListenSelf(i)));
    var early := Do(Do(registered, Idle(u, Report(i))), Worker(t, Yield));
    var late := Do(Do(registered, Worker(t, Yield)), Idle(u, Report(i)));
    assert early.threads == late.threads;
    assert early.fibers == late.fibers && early.slots == late.slots;
  }

  /** As long as the fiber has not switched away, no scan takes its task. */
  lemma ParkingIsSkipped(m: Machine, t: nat, k: nat)
    requires k < |m.queue| && m.queue[k].job.FiberJob? && m.queue[k].job.f < |m.fibers|
    requires m.fibers[m.queue[k].job.f].state == Parking
    ensures TakeIndex(m.queue, m.fibers, t) != k
  {
  }

  // ---------- The end ----------

  predicate AllExited(m: Machine) {
    |m.threads| > 0 && forall t | 0 <= t < |m.threads| :: m.threads[t].pc == Exited
  }

  /** How many fibers were made for a callback. */
  function MadeFor(m: Machine, job: Job): int {
    Sum(m.fibers, StartGauge(job).fiber)
  }

  /** How many tasks with that callback workers have taken. */
  function TakenWith(m: Machine, job: Job): int {
    Sum(m.taken, CallWeight(job))
  }

  function CallWeight(job: Job): Task -> int {
    (x: Task) => One(x.job == job)
  }

  function TaskWeight(y: Task): Task -> int {
    (x: Task) => One(x == y)
  }

  lemma {:induction false} SumNegated<T>(s: seq<T>, w: T -> int, v: T -> int)
    requires forall x: T :: v(x) == -w(x)
    ensures Sum(s, v) == -Sum(s, w)
  {
    if s != [] {
      SumNegated(s[1..], w, v);
    }
  }

  lemma {:induction false} SumIsMultiset(xs: seq<Task>, y: Task)
    ensures Sum(xs, TaskWeight(y)) == multiset(xs)[y]
  {
    if xs != [] {
      assert xs == [xs[0]] + xs[1..];
      SumIsMultiset(xs[1..], y);
    }
  }

  /** Every accepted task waits in the list or has been taken, and never both. */
  lemma AcceptedIsQueuedOrTaken(m: Machine, n: nat)
    requires Reachable(m, n)
    ensures multiset(m.accepted) == multiset(m.queue) + multiset(m.taken)
  {
    ReachableIsGood(m, n);
    hide Handled, Manned, Shaped, Counted, Final, Fifo;
    forall y: Task
      ensures multiset(m.accepted)[y] == multiset(m.queue)[y] + multiset(m.taken)[y]
    {
      var g := LedgerGauge(y);
      assert Level(m, g) == 0;
      SumNonNegative(m.threads, g.thread);
      SumNonNegative(m.fibers, g.fiber);
      SumNonNegative(m.slots, g.slot);
      SumNonNegative(m.timers, g.timer);
      SumNegated(m.accepted, TaskWeight(y), g.accepted);
      SumIsMultiset(m.queue, y);
      SumIsMultiset(m.taken, y);
      SumIsMultiset(m.accepted, y);
    }
  }

  // ---------- Who takes what ----------

  /** Worker `t` may take this task: it is not pinned, or pinned to `t`, and its fiber, if it is one, has
      switched away. */
  predicate MayTake(m: Machine, x: Task, t: nat) {
    && (x.pin == -1 || x.pin == t)
    && (x.job.FiberJob? && x.job.f < |m.fibers| ==>
          m.fibers[x.job.f].state != Running && m.fibers[x.job.f].state != Parking)
  }

  /** A scan takes the first task in the list that the worker may take, and that task alone; only where there is
      none it takes nothing. */
  lemma TakeIsFirstAllowed(m: Machine, t: nat)
    requires Legal(m, Worker(t, Take))
    ensures var r := Do(m, Worker(t, Take));
      if forall i | 0 <= i < |m.queue| :: !MayTake(m, m.queue[i], t) then
        r == m.(threads := m.threads[t := m.threads[t].(pc := NoTask)])
      else
        exists k | 0 <= k < |m.queue| ::
          && MayTake(m, m.queue[k], t) && (forall i | 0 <= i < k :: !MayTake(m, m.queue[i], t))
          && r.queue == m.queue[..k] + m.queue[k + 1..] && r.taken == m.taken + [m.queue[k]]
          && r.threads[t].pc == (match m.queue[k].job case FiberJob(f) => HaveFiber(f) case j => HaveCall(j))
          && r.active == m.active + 1
  {
    var k := TakeIndex(m.queue, m.fibers, t);
    assert forall i | 0 <= i < |m.queue| :: Eligible(m.queue[i], m.fibers, t) <==> MayTake(m, m.queue[i], t);
    hide TakeIndex;
  }

  /** A worker turns to its idle fiber only after a scan that found nothing it may take; in particular it looks
      again after each task and each wait. */
  lemma IdleAfterEmptyScan(m: Machine, s: Step, t: nat)
    requires Legal(m, s) && t < |m.threads|
    requires m.threads[t].pc != NoTask && Do(m, s).threads[t].pc == NoTask
    ensures s == Worker(t, Take) && forall i | 0 <= i < |m.queue| :: !MayTake(m, m.queue[i], t)
  {
    match s {
      case Outside(o) =>
      case Worker(u, w) => WorkerTurnsIdle(m, u, w, t);
      case Code(u, c) => CodeTurnsNoneIdle(m, u, c, t);
      case Idle(u, d) => IdleTurnsNoneIdle(m, u, d, t);
    }
    hide DoWorker, DoCode, DoIdle, LegalWorker, LegalCode, LegalIdle;
    if s == Worker(t, Take) {
      TakeIsFirstAllowed(m, t);
    }
  }

  lemma WorkerTurnsIdle(m: Machine, u: nat, w: WorkerStep, t: nat)
    requires u < |m.threads| && LegalWorker(m, u, w) && t < |m.threads| && m.threads[t].pc != NoTask
    ensures DoWorker(m, u, w).threads[t].pc == NoTask ==> u == t && w == Take
  {
    hide TakeIndex;
  }

  lemma CodeTurnsNoneIdle(m: Machine, u: nat, c: CodeStep, t: nat)
    requires LegalCode(m, u, c) && t < |m.threads| && m.threads[t].pc != NoTask
    ensures DoCode(m, u, c).threads[t].pc != NoTask
  {
  }

  lemma IdleTurnsNoneIdle(m: Machine, u: nat, d: IdleStep, t: nat)
    requires u < |m.threads| && LegalIdle(m, u, d) && t < |m.threads| && m.threads[t].pc != NoTask
    ensures DoIdle(m, u, d).threads[t].pc != NoTask
  {
    hide Wakes;
  }

  /** The tasks pinned to worker `p`. */
  function PinnedTo(xs: seq<Task>, p: nat): seq<Task> {
    if xs == [] then [] else (if xs[0].pin == p then [xs[0]] else []) + PinnedTo(xs[1..], p)
  }

  lemma {:induction false} PinnedAppend(xs: seq<Task>, x: Task, p: nat)
    ensures PinnedTo(xs + [x], p) == PinnedTo(xs, p) + if x.pin == p then [x] else []
  {
    hide PinnedTo;
    var all := xs + [x];
    PinnedFront(all, p);
    if xs == [] {
      assert all[1..] == [];
    } else {
      assert all[1..] == xs[1..] + [x];
      PinnedAppend(xs[1..], x, p);
      PinnedFront(xs, p);
    }
  }

  lemma PinnedFront(xs: seq<Task>, p: nat)
    requires xs != []
    ensures PinnedTo(xs, p) == (if xs[0].pin == p then [xs[0]] else []) + PinnedTo(xs[1..], p)
    ensures PinnedTo([], p) == []
  {
  }

  lemma OthersTakeNone(m: Machine, s: Step, p: nat)
    requires Legal(m, s) && s != Worker(p, Take)
    ensures PinnedTo(Do(m, s).taken, p) == PinnedTo(m.taken, p)
  {
    if s.Worker? && s.w.Take? {
      TakeIsFirstAllowed(m, s.t);
      var k := TakeIndex(m.queue, m.fibers, s.t);
      if k < |m.queue| {
        PinnedAppend(m.taken, m.queue[k], p);
      }
    }
    hide TakeIndex, PinnedTo;
  }

  /** A task that is pinned to a worker is taken by that worker only: in a run in which it makes no scan, none
      of its tasks is taken. */
  lemma {:induction false} PinnedWaits(m: Machine, steps: seq<Step>, p: nat)
    requires LegalRun(m, steps) && forall i | 0 <= i < |steps| :: steps[i] != Worker(p, Take)
    ensures PinnedTo(RunTo(m, steps).taken, p) == PinnedTo(m.taken, p)
    decreases |steps|
  {
    if steps != [] {
      OthersTakeNone(m, steps[0], p);
      hide Do, Legal, PinnedTo;
      PinnedWaits(Do(m, steps[0]), steps[1..], p);
    }
  }

  // ---------- What is asked for ----------

  /** The tasks a step asks the scheduler for. */
  function Asked(m: Machine, s: Step): seq<Task> {
    match s
    case Outside(Submit(job, pin)) => [Task(job, pin)]
    case Outside(SubmitFiber(pin)) => [Task(FiberJob(|m.fibers|), pin)]
    case Worker(t, Deliver) => if t < |m.threads| then TaskOf(match m.threads[t].pc case Run(_, Some(f)) => Some(FiberJob(f)) case _ => None) else []
    case Code(_, Schedule(job, pin)) => [Task(job, pin)]
    case Code(_, ScheduleFiber(pin)) => [Task(FiberJob(|m.fibers|), pin)]
    case Code(t, ScheduleSelf(pin)) =>
      if t < |m.threads| && m.threads[t].pc.Run? then [Task(FiberJob(m.threads[t].pc.f), pin)] else []
    case Code(_, Cancel(i)) => if i < |m.slots| then TaskOf(m.slots[i]) else []
    case Idle(t, Hand) => if t < |m.threads| then TaskOf(match m.threads[t].pc case IdleHold(jobs) => First(jobs) case _ => None) else []
    case Idle(_, Report(i)) => if i < |m.slots| then TaskOf(m.slots[i]) else []
    case _ => []
  }

  function First(jobs: seq<Job>): Option<Job> {
    if jobs == [] then None else Some(jobs[0])
  }

  /** A wake-up or an expired callback goes to any worker. */
  function TaskOf(o: Option<Job>): seq<Task> {
    if o.None? then [] else [Task(o.value, -1)]
  }

  /** Every step puts exactly the tasks it asks for at the end of the list, pinned as asked. */
  lemma AcceptedIsAsked(m: Machine, s: Step)
    requires Legal(m, s)
    ensures Do(m, s).accepted == m.accepted + Asked(m, s)
    ensures (!s.Worker? || !s.w.Take?) ==> Do(m, s).queue == m.queue + Asked(m, s)
  {
    match s {
      case Outside(o) =>
      case Worker(t, w) => WorkerAsks(m, t, w);
      case Code(t, c) => CodeAsks(m, t, c);
      case Idle(t, d) => IdleAsks(m, t, d);
    }
    hide DoWorker, DoCode, DoIdle, LegalWorker, LegalCode, LegalIdle;
  }

  lemma WorkerAsks(m: Machine, t: nat, w: WorkerStep)
    requires t < |m.threads| && LegalWorker(m, t, w)
    ensures var r, asked := DoWorker(m, t, w), Asked(m, Worker(t, w));
      r.accepted == m.accepted + asked && (w != Take ==> r.queue == m.queue + asked)
  {
    hide TakeIndex;
  }

  lemma CodeAsks(m: Machine, t: nat, c: CodeStep)
    requires LegalCode(m, t, c)
    ensures var r, asked := DoCode(m, t, c), Asked(m, Code(t, c));
      r.accepted == m.accepted + asked && r.queue == m.queue + asked
  {
  }

  lemma IdleAsks(m: Machine, t: nat, d: IdleStep)
    requires t < |m.threads| && LegalIdle(m, t, d)
    ensures var r, asked := DoIdle(m, t, d), Asked(m, Idle(t, d));
      r.accepted == m.accepted + asked && r.queue == m.queue + asked
  {
    hide Wakes;
  }

  /** The event slots after a step: a registration puts its job into its slot, deleting, cancelling and reporting
      empty it, and nothing else touches a slot. */
  function SlotsBehind(m: Machine, s: Step): seq<Option<Job>> {
    match s
    case Outside(Grow(n)) => m.slots + seq(n, i => None)
    case Code(_, Listen(i, job)) => Put(m.slots, i, Some(job))
    case Code(t, ListenSelf(i)) =>
      if t < |m.threads| && m.threads[t].pc.Run? then Put(m.slots, i, Some(FiberJob(m.threads[t].pc.f))) else m.slots
    case Code(_, Unlisten(i)) => Put(m.slots, i, None)
    case Code(_, Cancel(i)) => Put(m.slots, i, None)
    case Idle(_, Report(i)) => Put(m.slots, i, None)
    case _ => m.slots
  }

  function Put(slots: seq<Option<Job>>, i: nat, o: Option<Job>): seq<Option<Job>> {
    if i < |slots| then slots[i := o] else slots
  }

  /** And the timers: setting one puts its callback among them, dropping one takes it out, an expiry leaves what it
      leaves, and nothing else touches them. */
  function TimersBehind(m: Machine, s: Step): seq<Job> {
    match s
    case Outside(SetTimer(at, job)) => PutAt(m.timers, at, job)
    case Code(_, AddTimer(at, job)) => PutAt(m.timers, at, job)
    case Code(t, Sleep(at)) =>
      if t < |m.threads| && m.threads[t].pc.Run? then PutAt(m.timers, at, Wake(m.threads[t].pc.f)) else m.timers
    case Code(_, DropTimer(i)) => if i < |m.timers| then m.timers[..i] + m.timers[i + 1..] else m.timers
    case Idle(_, Expire(_, rest)) => rest
    case _ => m.timers
  }

  function PutAt(timers: seq<Job>, at: nat, job: Job): seq<Job> {
    if at <= |timers| then timers[..at] + [job] + timers[at..] else timers
  }

  lemma PlacesAreKept(m: Machine, s: Step)
    requires Legal(m, s)
    ensures Do(m, s).slots == SlotsBehind(m, s) && Do(m, s).timers == TimersBehind(m, s)
  {
    match s {
      case Outside(o) =>
      case Worker(t, w) => WorkerKeepsPlaces(m, t, w);
      case Code(t, c) => CodeKeepsPlaces(m, t, c);
      case Idle(t, d) => IdleKeepsPlaces(m, t, d);
    }
    hide DoWorker, DoCode, DoIdle, LegalWorker, LegalCode, LegalIdle;
  }

  lemma WorkerKeepsPlaces(m: Machine, t: nat, w: WorkerStep)
    requires t < |m.threads| && LegalWorker(m, t, w)
    ensures DoWorker(m, t, w).slots == m.slots && DoWorker(m, t, w).timers == m.timers
  {
    hide TakeIndex;
  }

  lemma CodeKeepsPlaces(m: Machine, t: nat, c: CodeStep)
    requires LegalCode(m, t, c)
    ensures DoCode(m, t, c).slots == SlotsBehind(m, Code(t, c)) && DoCode(m, t, c).timers == TimersBehind(m, Code(t, c))
  {
  }

  lemma IdleKeepsPlaces(m: Machine, t: nat, d: IdleStep)
    requires t < |m.threads| && LegalIdle(m, t, d)
    ensures DoIdle(m, t, d).slots == SlotsBehind(m, Idle(t, d)) && DoIdle(m, t, d).timers == TimersBehind(m, Idle(t, d))
  {
    hide Wakes;
  }

  /** Handing over expired callbacks, one by one. */
  function Hands(t: nat, n: nat): seq<Step> {
    if n == 0 then [] else [Idle(t, Hand)] + Hands(t, n - 1)
  }

  function FreeTasks(jobs: seq<Job>): seq<Task> {
    if jobs == [] then [] else [Task(jobs[0], -1)] + FreeTasks(jobs[1..])
  }

  /** An idle loop that holds expired callbacks schedules all of them, in their order, for any worker. */
  lemma {:induction false} HeldIsScheduled(m: Machine, t: nat, jobs: seq<Job>)
    requires t < |m.threads| && m.threads[t].pc == IdleHold(jobs)
    ensures LegalRun(m, Hands(t, |jobs|))
    ensures RunTo(m, Hands(t, |jobs|)) ==
            m.(threads := m.threads[t := m.threads[t].(pc := IdleHold([]))],
               queue := m.queue + FreeTasks(jobs), accepted := m.accepted + FreeTasks(jobs))
    decreases |jobs|
  {
    if jobs == [] {
      assert m.threads[t := m.threads[t].(pc := IdleHold([]))] == m.threads;
    } else {
      hide *;
      var next := HandOne(m, t, jobs);
      HeldIsScheduled(next, t, jobs[1..]);
      HandsOfMore(t, jobs);
      OneStep(m, Idle(t, Hand), next, Hands(t, |jobs| - 1), RunTo(next, Hands(t, |jobs| - 1)));
      AppendTwice(m.queue, [Task(jobs[0], -1)], FreeTasks(jobs[1..]));
      AppendTwice(m.accepted, [Task(jobs[0], -1)], FreeTasks(jobs[1..]));
    }
  }

  lemma HandsOfMore(t: nat, jobs: seq<Job>)
    requires jobs != []
    ensures Hands(t, |jobs|) == [Idle(t, Hand)] + Hands(t, |jobs| - 1)
    ensures FreeTasks(jobs) == [Task(jobs[0], -1)] + FreeTasks(jobs[1..])
  {
  }

  lemma AppendTwice<T>(a: seq<T>, b: seq<T>, c: seq<T>)
    ensures a + b + c == a + (b + c)
  {
  }

  lemma HandOne(m: Machine, t: nat, jobs: seq<Job>) returns (next: Machine)
    requires t < |m.threads| && m.threads[t].pc == IdleHold(jobs) && jobs != []
    ensures IsStep(m, Idle(t, Hand), next)
    ensures next == m.(threads := m.threads[t := m.threads[t].(pc := IdleHold(jobs[1..]))],
                       queue := m.queue + [Task(jobs[0], -1)], accepted := m.accepted + [Task(jobs[0], -1)])
  {
    next := Do(m, Idle(t, Hand));
  }

  /** And an expiry holds exactly the timers it takes, in their order. */
  lemma ExpiryIsHeld(m: Machine, t: nat, n: nat, rest: seq<Job>)
    requires Legal(m, Idle(t, Expire(n, rest)))
    ensures var r := Do(m, Idle(t, Expire(n, rest)));
      && r.threads[t].pc.IdleHold? && |r.threads[t].pc.jobs| == n <= |m.timers|
      && (forall i | 0 <= i < n :: r.threads[t].pc.jobs[i] == m.timers[i])
      && r == m.(threads := m.threads[t := m.threads[t].(pc := r.threads[t].pc)], timers := rest)
  {
  }

  /** Every taken callback gets one fiber of its own, at once or by the worker that has just taken it. */
  lemma TakenIsStarted(m: Machine, n: nat, job: Job)
    requires Reachable(m, n) && !job.FiberJob?
    ensures TakenWith(m, job) == MadeFor(m, job) + Sum(m.threads, StartGauge(job).thread)
  {
    ReachableIsGood(m, n);
    hide Handled, Manned, Shaped, Counted, Final, Fifo;
    var g := StartGauge(job);
    assert Level(m, g) == 0;
    SumNonNegative(m.queue, g.queued);
    SumNonNegative(m.slots, g.slot);
    SumNonNegative(m.timers, g.timer);
    SumNonNegative(m.accepted, g.accepted);
    SumNegated(m.taken, CallWeight(job), g.taken);
  }

  /** When every worker has left `run`, nothing is left: no task, no timer, no event, no fiber that has not
      ended; every accepted task has been taken, and every callback has run to its end in a fiber. */
  lemma ShutdownIsComplete(m: Machine, n: nat)
    requires Reachable(m, n) && AllExited(m)
    ensures m.queue == [] && m.timers == [] && m.pending == 0 && m.active == 0 && m.idle == 0
    ensures forall i | 0 <= i < |m.slots| :: m.slots[i] == None
    ensures forall f | 0 <= f < |m.fibers| :: m.fibers[f].state == Term
    ensures multiset(m.accepted) == multiset(m.taken)
    ensures forall job: Job | !job.FiberJob? :: TakenWith(m, job) == MadeFor(m, job)
  {
    ReachableIsGood(m, n);
    AcceptedIsQueuedOrTaken(m, n);
    AllGone(m);
    forall f | 0 <= f < |m.fibers|
      ensures m.fibers[f].state == Term
    {
      hide Inv;
      UnreferencedHasEnded(m, n, f);
    }
    forall job: Job | !job.FiberJob?
      ensures TakenWith(m, job) == MadeFor(m, job)
    {
      hide Inv;
      TakenIsStarted(m, n, job);
      SumNonNegative(m.threads, StartGauge(job).thread);
    }
  }

  lemma AllGone(m: Machine)
    requires Inv(m) && AllExited(m)
    ensures m.queue == [] && m.timers == [] && m.pending == 0 && m.active == 0 && m.idle == 0
    ensures forall i | 0 <= i < |m.slots| :: m.slots[i] == None
  {
    assert forall t | 0 <= t < |m.threads| :: ThreadOk(m.fibers, m.threads[t]);
    LevelCovers(m, PendingGauge());
    hide Handled, Manned, Booked, Fifo;
    forall i | 0 <= i < |m.slots|
      ensures m.slots[i] == None
    {
      assert PendingGauge().slot(m.slots[i]) <= 0;
    }
    NothingBut(m, IdleGauge());
    SumNonNegative(m.threads, IdleGauge().thread);
    SumNonNegative(m.queue, IdleGauge().queued);
    SumNonNegative(m.slots, IdleGauge().slot);
    SumNonNegative(m.timers, IdleGauge().timer);
  }

  // ---------- Stopping ----------

  /** No idle loop holds expired callbacks it has not scheduled yet. */
  predicate NoneHeld(m: Machine) {
    forall t | 0 <= t < |m.threads| :: m.threads[t].pc.IdleHold? ==> m.threads[t].pc.jobs == []
  }

  /** Nothing but a running task could add work. */
  predicate NoSource(m: Machine) {
    NoneHeld(m) && m.timers == [] && forall i | 0 <= i < |m.slots| :: m.slots[i] == None
  }

  lemma StoppingStep(m: Machine, s: Step)
    requires Counted(m) && SchedulerStopping(m) && NoSource(m) && Legal(m, s)
    ensures SchedulerStopping(Do(m, s)) && NoSource(Do(m, s))
    ensures Do(m, s).pending <= m.pending
  {
    hide Counted, Level, Sum, Wakes, TakeIndex;
    match s
    case Outside(o) =>
    case Worker(t, w) => NotActive(m, t);
    case Code(t, c) => NotActive(m, t);
    case Idle(t, d) =>
      if d.Expire? {
        NothingRestored(m.timers, d.rest);
      }
  }

  lemma NothingRestored(timers: seq<Job>, rest: seq<Job>)
    requires forall i | 0 <= i < |rest| :: rest[i] in timers
    ensures rest != [] ==> timers != []
  {
    if rest != [] {
      assert rest[0] in timers;
    }
  }

  lemma NotActive(m: Machine, t: nat)
    requires Counted(m) && t < |m.threads| && m.active == 0
    ensures !HoldsTask(m.threads[t].pc)
  {
    LevelCovers(m, ActiveGauge());
    assert ActiveGauge().thread(m.threads[t]) <= 0;
    hide Level, Sum;
  }

  /** Once `Scheduler::stopping()` answers true, and neither timers nor events nor held callbacks can add
      work, it answers true for ever. A scheduler without an IO manager has none of these. */
  lemma {:induction false} SchedulerStoppingStays(m: Machine, steps: seq<Step>)
    requires Inv(m) && SchedulerStopping(m) && NoSource(m) && LegalRun(m, steps)
    ensures SchedulerStopping(RunTo(m, steps)) && NoSource(RunTo(m, steps))
    ensures RunTo(m, steps).pending <= m.pending
    decreases |steps|
  {
    if steps != [] {
      StoppingStep(m, steps[0]);
      StepKeeps(m, steps[0]);
      hide Inv, SchedulerStopping, NoSource, Do, Legal;
      SchedulerStoppingStays(Do(m, steps[0]), steps[1..]);
    }
  }

  /** Steps of a scheduler on its own: nothing registers an event or sets a timer. */
  predicate IsBasic(s: Step) {
    match s
    case Outside(o) => !o.SetTimer?
    case Code(_, c) => !c.Listen? && !c.ListenSelf? && !c.AddTimer? && !c.Sleep?
    case _ => true
  }

  lemma BasicStep(m: Machine, s: Step)
    requires NoSource(m) && Legal(m, s) && IsBasic(s)
    ensures NoSource(Do(m, s))
  {
    hide DoWorker, DoCode, DoIdle, LegalWorker, LegalCode, LegalIdle;
    match s
    case Outside(o) =>
    case Worker(t, w) => BasicWorker(m, t, w);
    case Code(t, c) => BasicCode(m, t, c);
    case Idle(t, d) => BasicIdle(m, t, d);
  }

  lemma BasicWorker(m: Machine, t: nat, w: WorkerStep)
    requires NoSource(m) && t < |m.threads| && LegalWorker(m, t, w)
    ensures NoSource(DoWorker(m, t, w))
  {
    hide TakeIndex;
  }

  lemma BasicCode(m: Machine, t: nat, c: CodeStep)
    requires NoSource(m) && LegalCode(m, t, c) && IsBasic(Code(t, c))
    ensures NoSource(DoCode(m, t, c))
  {
  }

  lemma BasicIdle(m: Machine, t: nat, d: IdleStep)
    requires NoSource(m) && t < |m.threads| && LegalIdle(m, t, d)
    ensures NoSource(DoIdle(m, t, d))
  {
    hide Wakes, Stopping;
    if d.Expire? {
      NothingRestored(m.timers, d.rest);
    }
  }

  lemma {:induction false} BasicRun(m: Machine, steps: seq<Step>)
    requires NoSource(m) && LegalRun(m, steps) && forall i | 0 <= i < |steps| :: IsBasic(steps[i])
    ensures NoSource(RunTo(m, steps))
    decreases |steps|
  {
    if steps != [] {
      BasicStep(m, steps[0]);
      hide NoSource, Do, Legal;
      BasicRun(Do(m, steps[0]), steps[1..]);
    }
  }

  lemma InitiallyNoSource(n: nat)
    ensures NoSource(Initial(n))
  {
  }

  /** A scheduler on its own, after any run: once `stopping()` answers true it does so for ever. */
  lemma SchedulerAloneStops(n: nat, before: seq<Step>, after: seq<Step>)
    requires LegalRun(Initial(n), before) && forall i | 0 <= i < |before| :: IsBasic(before[i])
    requires SchedulerStopping(RunTo(Initial(n), before)) && LegalRun(RunTo(Initial(n), before), after)
    ensures SchedulerStopping(RunTo(RunTo(Initial(n), before), after))
  {
    hide *;
    InitialIsGood(n);
    InitiallyNoSource(n);
    RunKeeps(Initial(n), before);
    BasicRun(Initial(n), before);
    SchedulerStoppingStays(RunTo(Initial(n), before), after);
  }

  /** `IOManager::stopping()` once true stays true whatever happens if and only if no idle loop holds
      expired callbacks. A held callback is scheduled later, and `stopping()` turns false again. */
  lemma StoppingStaysIff(m: Machine, n: nat)
    requires Reachable(m, n) && Stopping(m)
    ensures (forall steps | LegalRun(m, steps) :: Stopping(RunTo(m, steps))) <==> NoneHeld(m)
  {
    ReachableIsGood(m, n);
    if NoneHeld(m) {
      NoEvents(m);
      forall steps | LegalRun(m, steps)
        ensures Stopping(RunTo(m, steps))
      {
        SchedulerStoppingStays(m, steps);
        RunKeeps(m, steps);
        PendingIsNatural(RunTo(m, steps));
      }
    } else {
      var t :| 0 <= t < |m.threads| && m.threads[t].pc.IdleHold? && m.threads[t].pc.jobs != [];
      HandBreaks(m, t);
    }
  }

  lemma OneStep(m: Machine, s: Step, next: Machine, rest: seq<Step>, end: Machine)
    requires IsStep(m, s, next) && LegalRun(next, rest) && RunTo(next, rest) == end
    ensures LegalRun(m, [s] + rest) && RunTo(m, [s] + rest) == end
  {
    hide Legal, Do;
    assert ([s] + rest)[1..] == rest;
  }

  /** A manager with one worker that has taken the callback of a timer out of the set, and then is stopped. */
  function Holding(pc: Pc, timers: seq<Job>, idle: int, stopping: bool): Machine {
    Machine([Thread(pc, false, 0)], [], [], NoJobs(64), timers, 0, 0, idle, stopping, [], [])
  }

  /** Such a state is reached: a timer is set, a worker starts, goes idle, waits and takes the expired
      callback; then `stop` is called. `stopping()` answers true, and is not to stay so. */
  lemma HeldIsReached()
    ensures Reachable(Holding(IdleHold([Call(1)]), [], 1, true), 1)
    ensures Stopping(Holding(IdleHold([Call(1)]), [], 1, true)) && !NoneHeld(Holding(IdleHold([Call(1)]), [], 1, true))
  {
    var t := [Call(1)];
    var end := Holding(IdleHold(t), [], 1, true);
    StepsOfHolding();
    HoldingHolds();
    hide *;
    OneStep(Holding(IdleHold(t), [], 1, false), Outside(Stop), end, [], end);
    var r6 := [Outside(Stop)] + [];
    var r5 := [Idle(0, Expire(1, []))] + r6;
    OneStep(Holding(IdleWait, t, 1, false), Idle(0, Expire(1, [])), Holding(IdleHold(t), [], 1, false), r6, end);
    var r4 := [Idle(0, Check)] + r5;
    OneStep(Holding(IdleCheck, t, 1, false), Idle(0, Check), Holding(IdleWait, t, 1, false), r5, end);
    var r3 := [Worker(0, EnterIdle)] + r4;
    OneStep(Holding(NoTask, t, 0, false), Worker(0, EnterIdle), Holding(IdleCheck, t, 1, false), r4, end);
    var r2 := [Worker(0, Take)] + r3;
    OneStep(Holding(Scan, t, 0, false), Worker(0, Take), Holding(NoTask, t, 0, false), r3, end);
    var r1 := [Worker(0, Start)] + r2;
    OneStep(Holding(NotStarted, t, 0, false), Worker(0, Start), Holding(Scan, t, 0, false), r2, end);
    var r0 := [Outside(SetTimer(0, Call(1)))] + r1;
    OneStep(Holding(NotStarted, [], 0, false), Outside(SetTimer(0, Call(1))), Holding(NotStarted, t, 0, false), r1, end);
  }

  lemma HoldingHolds()
    ensures Initial(1) == Holding(NotStarted, [], 0, false)
    ensures var end := Holding(IdleHold([Call(1)]), [], 1, true);
      LegalRun(end, []) && RunTo(end, []) == end && Stopping(end) && !NoneHeld(end)
  {
    assert Holding(IdleHold([Call(1)]), [], 1, true).threads[0].pc.IdleHold?;
  }

  lemma StepsOfHolding()
    ensures var t := [Call(1)];
      && IsStep(Holding(NotStarted, [], 0, false), Outside(SetTimer(0, Call(1))), Holding(NotStarted, t, 0, false))
      && IsStep(Holding(NotStarted, t, 0, false), Worker(0, Start), Holding(Scan, t, 0, false))
      && IsStep(Holding(Scan, t, 0, false), Worker(0, Take), Holding(NoTask, t, 0, false))
      && IsStep(Holding(NoTask, t, 0, false), Worker(0, EnterIdle), Holding(IdleCheck, t, 1, false))
      && IsStep(Holding(IdleCheck, t, 1, false), Idle(0, Check), Holding(IdleWait, t, 1, false))
      && IsStep(Holding(IdleWait, t, 1, false), Idle(0, Expire(1, [])), Holding(IdleHold(t), [], 1, false))
      && IsStep(Holding(IdleHold(t), [], 1, false), Outside(Stop), Holding(IdleHold(t), [], 1, true))
  {
    hide IsStep, Holding;
    OutsideStepsOfHolding();
    WorkerStepsOfHolding();
    IdleStepsOfHolding();
  }

  lemma OutsideStepsOfHolding()
    ensures IsStep(Holding(NotStarted, [], 0, false), Outside(SetTimer(0, Call(1))), Holding(NotStarted, [Call(1)], 0, false))
    ensures IsStep(Holding(IdleHold([Call(1)]), [], 1, false), Outside(Stop), Holding(IdleHold([Call(1)]), [], 1, true))
  {
  }

  lemma WorkerStepsOfHolding()
    ensures var t := [Call(1)];
      && IsStep(Holding(NotStarted, t, 0, false), Worker(0, Start), Holding(Scan, t, 0, false))
      && IsStep(Holding(Scan, t, 0, false), Worker(0, Take), Holding(NoTask, t, 0, false))
      && IsStep(Holding(NoTask, t, 0, false), Worker(0, EnterIdle), Holding(IdleCheck, t, 1, false))
  {
  }

  lemma IdleStepsOfHolding()
    ensures var t := [Call(1)];
      && IsStep(Holding(IdleCheck, t, 1, false), Idle(0, Check), Holding(IdleWait, t, 1, false))
      && IsStep(Holding(IdleWait, t, 1, false), Idle(0, Expire(1, [])), Holding(IdleHold(t), [], 1, false))
  {
    assert [Call(1)][1..] == [] && [Call(1)][..1] == [Call(1)];
  }

  predicate IsStep(m: Machine, s: Step, r: Machine) {
    Legal(m, s) && Do(m, s) == r
  }

  lemma HandBreaks(m: Machine, t: nat)
    requires t < |m.threads| && m.threads[t].pc.IdleHold? && m.threads[t].pc.jobs != []
    ensures LegalRun(m, [Idle(t, Hand)]) && !Stopping(RunTo(m, [Idle(t, Hand)]))
  {
    var steps := [Idle(t, Hand)];
    assert steps[1..] == [];
    assert LegalRun(Do(m, steps[0]), steps[1..]);
    assert RunTo(m, steps) == RunTo(Do(m, steps[0]), steps[1..]) == Do(m, steps[0]);
  }

  lemma NoEvents(m: Machine)
    requires Counted(m) && m.pending == 0
    ensures forall i | 0 <= i < |m.slots| :: m.slots[i] == None
  {
    LevelCovers(m, PendingGauge());
    hide Level, Sum;
    forall i | 0 <= i < |m.slots|
      ensures m.slots[i] == None
    {
      assert PendingGauge().slot(m.slots[i]) <= 0;
    }
  }

  lemma PendingIsNatural(m: Machine)
    requires Counted(m)
    ensures m.pending >= 0
  {
    var g := PendingGauge();
    SumNonNegative(m.threads, g.thread);
    SumNonNegative(m.fibers, g.fiber);
    SumNonNegative(m.queue, g.queued);
    SumNonNegative(m.slots, g.slot);
    SumNonNegative(m.timers, g.timer);
    SumNonNegative(m.accepted, g.accepted);
    SumNonNegative(m.taken, g.taken);
  }

  // ---------- Counters ----------

  /** A sum of ones counts the places where they stand. */
  lemma {:induction false} SumCounts<T>(s: seq<T>, w: T -> int, c: set<int>)
    requires forall i | 0 <= i < |s| :: w(s[i]) == One(i in c)
    requires forall i | i in c :: 0 <= i < |s|
    ensures Sum(s, w) == |c|
    decreases |s|
  {
    if s == [] {
      assert forall i :: i !in c;
      assert c == {};
    } else {
      var last := |s| - 1;
      var front, d := s[..last], c - {last};
      assert s == front + [s[last]];
      SumAppend(front, s[last], w);
      forall i | 0 <= i < last
        ensures w(front[i]) == One(i in d)
      {
        assert front[i] == s[i];
      }
      SumCounts(front, w, d);
      assert w(s[last]) == One(last in c);
      if last in c {
        assert c == d + {last};
      } else {
        assert c == d;
      }
    }
  }

  function ActiveWorkers(m: Machine): set<int> {
    set t | 0 <= t < |m.threads| && HoldsTask(m.threads[t].pc)
  }

  function IdleWorkers(m: Machine): set<int> {
    set t | 0 <= t < |m.threads| && InIdle(m.threads[t].pc)
  }

  function OccupiedSlots(m: Machine): set<int> {
    set i | 0 <= i < |m.slots| && m.slots[i].Some?
  }

  /** Workers between triggering an event and taking back its count. */
  function OwingWorkers(m: Machine): set<int> {
    set t | 0 <= t < |m.threads| && m.threads[t].owed > 0
  }

  /** The counters are true in every state: workers with a task, workers inside `idle`, and occupied event
      slots with the events whose count a worker is about to take back. */
  lemma CountersAreTrue(m: Machine, n: nat)
    requires Reachable(m, n)
    ensures m.active == |ActiveWorkers(m)|
    ensures m.idle == |IdleWorkers(m)|
    ensures m.pending == |OccupiedSlots(m)| + |OwingWorkers(m)|
  {
    ReachableIsGood(m, n);
    hide Handled, Manned, Booked, Fifo, Level, Sum, Reachable, ActiveGauge, IdleGauge, PendingGauge;
    ActiveIsTrue(m);
    IdleIsTrue(m);
    PendingIsTrue(m);
  }

  lemma ActiveIsTrue(m: Machine)
    ensures Level(m, ActiveGauge()) == |ActiveWorkers(m)|
  {
    hide Level, Sum;
    CountersAre(m, ActiveGauge());
    SumCounts(m.threads, ActiveGauge().thread, ActiveWorkers(m));
    SumCounts(m.slots, ActiveGauge().slot, {});
  }

  lemma IdleIsTrue(m: Machine)
    ensures Level(m, IdleGauge()) == |IdleWorkers(m)|
  {
    hide Level, Sum;
    CountersAre(m, IdleGauge());
    SumCounts(m.threads, IdleGauge().thread, IdleWorkers(m));
    SumCounts(m.slots, IdleGauge().slot, {});
  }

  lemma PendingIsTrue(m: Machine)
    requires Shaped(m)
    ensures Level(m, PendingGauge()) == |OccupiedSlots(m)| + |OwingWorkers(m)|
  {
    hide Level, Sum;
    CountersAre(m, PendingGauge());
    assert forall t | 0 <= t < |m.threads| :: ThreadOk(m.fibers, m.threads[t]);
    SumCounts(m.threads, PendingGauge().thread, OwingWorkers(m));
    SumCounts(m.slots, PendingGauge().slot, OccupiedSlots(m));
  }

  lemma CountersAre(m: Machine, g: Gauge)
    requires (forall b: Fiber :: g.fiber(b) == 0) && (forall j: Job :: g.timer(j) == 0)
    requires forall x: Task :: g.queued(x) == 0 && g.accepted(x) == 0 && g.taken(x) == 0
    ensures Level(m, g) == Sum(m.threads, g.thread) + Sum(m.slots, g.slot)
  {
    NothingBut(m, g);
    SumNonNegative(m.queue, g.queued);
    SumNonNegative(m.timers, g.timer);
  }

  /** Unpinned callbacks leave the list in the order in which they were accepted. */
  lemma FirstInFirstOut(m: Machine, n: nat)
    requires Reachable(m, n)
    ensures Free(m.taken) + Free(m.queue) == Free(m.accepted)
    ensures Free(m.taken) == Free(m.accepted)[..|Free(m.taken)|]
  {
    ReachableIsGood(m, n);
  }
}
