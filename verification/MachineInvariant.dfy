/** What every step of the machine keeps. */
module MachineInvariant {
  import opened Wrappers
  import opened Jobs
  import opened Sums
  import opened Machine
  import opened Gauges

  // ---------- What is counted ----------

  /** Is this job a wake-up for fiber `f`? */
  function HandleOf(job: Job, f: nat): int {
    if (job.FiberJob? || job.Wake?) && job.f == f then 1 else 0
  }

  function JobWeight(f: nat): Job -> int {
    (job: Job) => HandleOf(job, f)
  }

  /** The wake-ups for `f` in the hands of a worker. */
  function Held(pc: Pc, f: nat): int {
    match pc
    case HaveFiber(g) => if g == f then 1 else 0
    case HaveCall(job) => HandleOf(job, f)
    case Run(_, wakes) => if wakes == Some(f) then 1 else 0
    case IdleHold(jobs) => Sum(jobs, JobWeight(f))
    case _ => 0
  }

  predicate HoldsTask(pc: Pc) {
    pc.HaveFiber? || pc.HaveCall? || pc.Run? || pc.Returned?
  }

  predicate InIdle(pc: Pc) {
    pc.IdleCheck? || pc.IdleWait? || pc.IdleHold? || pc.IdleReturned?
  }

  function HandleGauge(f: nat): Gauge {
    Gauge((th: Thread) => Held(th.pc, f), (b: Fiber) => 0, (x: Task) => HandleOf(x.job, f),
          (o: Option<Job>) => if o.Some? then HandleOf(o.value, f) else 0, JobWeight(f), (x: Task) => 0, (x: Task) => 0)
  }

  function RunGauge(f: nat): Gauge {
    Gauge((th: Thread) => One(th.pc.Run? && th.pc.f == f), (b: Fiber) => 0, (x: Task) => 0,
          (o: Option<Job>) => 0, (job: Job) => 0, (x: Task) => 0, (x: Task) => 0)
  }

  function ActiveGauge(): Gauge {
    Gauge((th: Thread) => One(HoldsTask(th.pc)), (b: Fiber) => 0, (x: Task) => 0,
          (o: Option<Job>) => 0, (job: Job) => 0, (x: Task) => 0, (x: Task) => 0)
  }

  function IdleGauge(): Gauge {
    Gauge((th: Thread) => One(InIdle(th.pc)), (b: Fiber) => 0, (x: Task) => 0,
          (o: Option<Job>) => 0, (job: Job) => 0, (x: Task) => 0, (x: Task) => 0)
  }

  function PendingGauge(): Gauge {
    Gauge((th: Thread) => th.owed, (b: Fiber) => 0, (x: Task) => 0,
          (o: Option<Job>) => One(o.Some?), (job: Job) => 0, (x: Task) => 0, (x: Task) => 0)
  }

  /** Tasks queued and taken, less tasks accepted. */
  function LedgerGauge(y: Task): Gauge {
    Gauge((th: Thread) => 0, (b: Fiber) => 0, (x: Task) => One(x == y),
          (o: Option<Job>) => 0, (job: Job) => 0, (x: Task) => -One(x == y), (x: Task) => One(x == y))
  }

  /** Fibers made for a callback and workers about to make one, less tasks taken with it. */
  function StartGauge(job: Job): Gauge {
    Gauge((th: Thread) => One(th.pc == HaveCall(job)), (b: Fiber) => One(b.origin == Some(job)), (x: Task) => 0,
          (o: Option<Job>) => 0, (j: Job) => 0, (x: Task) => 0, (x: Task) => -One(x.job == job))
  }

  // ---------- The invariant ----------

  /** A fiber that is ready, or about to park, has one wake-up waiting for it; the others have none. */
  function Want(fibers: seq<Fiber>, f: nat): int {
    One(f < |fibers| && (fibers[f].state == Ready || fibers[f].state == Parking))
  }

  /** A fiber in state RUNNING is run by one worker; the others by none. */
  function Runners(fibers: seq<Fiber>, f: nat): int {
    One(f < |fibers| && IsRunning(fibers[f]))
  }

  ghost predicate Handled(m: Machine) {
    forall f: nat :: Level(m, HandleGauge(f)) == Want(m.fibers, f)
  }

  ghost predicate Manned(m: Machine) {
    forall f: nat :: Level(m, RunGauge(f)) == Runners(m.fibers, f)
  }

  /** The counters count what they are named for. */
  ghost predicate Counted(m: Machine) {
    && m.active == Level(m, ActiveGauge())
    && m.idle == Level(m, IdleGauge())
    && m.pending == Level(m, PendingGauge())
  }

  /** Every accepted task is queued or taken, once; every taken callback got its fiber, once. */
  ghost predicate Booked(m: Machine) {
    && (forall y: Task :: Level(m, LedgerGauge(y)) == 0)
    && (forall job: Job | !job.FiberJob? :: Level(m, StartGauge(job)) == 0)
  }

  predicate ThreadOk(fibers: seq<Fiber>, th: Thread) {
    && (th.pc.HaveFiber? ==> th.pc.f < |fibers| && fibers[th.pc.f].state == Ready)
    && (th.pc.HaveCall? ==> !th.pc.job.FiberJob?)
    && (th.pc.Run? ==> th.pc.f < |fibers| && IsRunning(fibers[th.pc.f])
                       && (th.pc.wakes.Some? || th.owed > 0 ==> fibers[th.pc.f].state == Running))
    && (th.pc.IdleHold? ==> NoFiberJobs(th.pc.jobs))
    && (th.owed > 0 ==> th.owed == 1 && (th.pc == IdleHold([]) || (th.pc.Run? && th.pc.wakes == None)))
    && (th.idleTerm ==> !th.pc.NotStarted? && !th.pc.IdleCheck? && !th.pc.IdleWait? && !th.pc.IdleHold?)
    && (th.pc.Exited? ==> th.idleTerm)
  }

  /** Every worker stands where it can go on without failing an assertion. */
  ghost predicate Shaped(m: Machine) {
    && (forall t | 0 <= t < |m.threads| :: ThreadOk(m.fibers, m.threads[t]))
    && NoFiberJobs(m.timers)
    && (forall i | 0 <= i < |m.slots| :: m.slots[i].Some? ==> !m.slots[i].value.Wake?)
  }

  /** All idle fibers have ended. */
  predicate AllTerm(m: Machine) {
    forall t | 0 <= t < |m.threads| :: m.threads[t].idleTerm
  }

  /** Idle fibers end only in a machine that stops, and the last one leaves nothing behind. */
  predicate Final(m: Machine) {
    && (forall t | 0 <= t < |m.threads| :: m.threads[t].idleTerm ==> m.stopping)
    && (|m.threads| > 0 && AllTerm(m) ==> Stopping(m))
  }

  /** Tasks any worker may take: callbacks that are not pinned. */
  predicate IsFree(x: Task) {
    x.pin == -1 && !x.job.FiberJob?
  }

  function Free(xs: seq<Task>): seq<Task> {
    if xs == [] then [] else (if IsFree(xs[0]) then [xs[0]] else []) + Free(xs[1..])
  }

  /** Unpinned callbacks are taken in the order in which they were accepted. */
  predicate Fifo(m: Machine) {
    Free(m.taken) + Free(m.queue) == Free(m.accepted)
  }

  ghost predicate Inv(m: Machine) {
    Handled(m) && Manned(m) && Counted(m) && Booked(m) && Shaped(m) && Final(m) && Fifo(m)
  }

  // ---------- Wake-ups ----------

  lemma HandleOutside(m: Machine, o: OutsideStep, f: nat)
    requires LegalOutside(m, o) && Level(m, HandleGauge(f)) == Want(m.fibers, f)
    ensures Level(DoOutside(m, o), HandleGauge(f)) == Want(DoOutside(m, o).fibers, f)
  {
    hide Level;
    OutsideLevel(m, o, HandleGauge(f));
  }

  lemma HandleWorker(m: Machine, t: nat, w: WorkerStep, f: nat)
    requires t < |m.threads| && LegalWorker(m, t, w) && ThreadOk(m.fibers, m.threads[t])
    requires Level(m, HandleGauge(f)) == Want(m.fibers, f)
    ensures Level(DoWorker(m, t, w), HandleGauge(f)) == Want(DoWorker(m, t, w).fibers, f)
  {
    hide Level, TakeIndex, Sum;
    WorkerLevel(m, t, w, HandleGauge(f));
  }

  lemma HandleCode(m: Machine, t: nat, c: CodeStep, f: nat)
    requires LegalCode(m, t, c) && Level(m, HandleGauge(f)) == Want(m.fibers, f)
    ensures Level(DoCode(m, t, c), HandleGauge(f)) == Want(DoCode(m, t, c).fibers, f)
  {
    hide Level, Sum;
    CodeLevel(m, t, c, HandleGauge(f));
  }

  lemma HandleIdle(m: Machine, t: nat, d: IdleStep, f: nat)
    requires t < |m.threads| && LegalIdle(m, t, d) && NoFiberJobs(m.timers)
    requires Level(m, HandleGauge(f)) == Want(m.fibers, f)
    ensures Level(DoIdle(m, t, d), HandleGauge(f)) == Want(DoIdle(m, t, d).fibers, f)
  {
    hide Level, Wakes;
    IdleLevel(m, t, d, HandleGauge(f));
  }

  // ---------- Counters and books ----------

  /** The counts other than wake-ups, in one predicate for a step's proof. */
  ghost predicate Even(m: Machine, f: nat, y: Task, job: Job) {
    && Level(m, RunGauge(f)) == Runners(m.fibers, f)
    && Counted(m)
    && Level(m, LedgerGauge(y)) == 0 && Level(m, StartGauge(job)) == 0
  }

  lemma EvenOutside(m: Machine, o: OutsideStep, f: nat, y: Task, job: Job)
    requires LegalOutside(m, o) && Even(m, f, y, job)
    ensures Even(DoOutside(m, o), f, y, job)
  {
    hide Level;
    OutsideLevel(m, o, RunGauge(f));
    OutsideLevel(m, o, ActiveGauge());
    OutsideLevel(m, o, IdleGauge());
    OutsideLevel(m, o, PendingGauge());
    OutsideLevel(m, o, LedgerGauge(y));
    OutsideLevel(m, o, StartGauge(job));
  }

  lemma EvenWorker(m: Machine, t: nat, w: WorkerStep, f: nat, y: Task, job: Job)
    requires t < |m.threads| && LegalWorker(m, t, w) && ThreadOk(m.fibers, m.threads[t])
    requires Even(m, f, y, job) && !job.FiberJob?
    ensures Even(DoWorker(m, t, w), f, y, job)
  {
    hide Level, DoWorker, Runners, RunGauge, ActiveGauge, IdleGauge, PendingGauge, LedgerGauge, StartGauge, ThreadOk;
    RunsWorker(m, t, w, f);
    CountsWorker(m, t, w);
    BooksWorker(m, t, w, y, job);
  }

  lemma RunsWorker(m: Machine, t: nat, w: WorkerStep, f: nat)
    requires t < |m.threads| && LegalWorker(m, t, w) && ThreadOk(m.fibers, m.threads[t])
    requires Level(m, RunGauge(f)) == Runners(m.fibers, f)
    ensures Level(DoWorker(m, t, w), RunGauge(f)) == Runners(DoWorker(m, t, w).fibers, f)
  {
    hide Level, TakeIndex;
    WorkerLevel(m, t, w, RunGauge(f));
  }

  lemma CountsWorker(m: Machine, t: nat, w: WorkerStep)
    requires t < |m.threads| && LegalWorker(m, t, w) && ThreadOk(m.fibers, m.threads[t])
    requires Counted(m)
    ensures Counted(DoWorker(m, t, w))
  {
    hide Level, TakeIndex;
    WorkerLevel(m, t, w, ActiveGauge());
    WorkerLevel(m, t, w, IdleGauge());
    WorkerLevel(m, t, w, PendingGauge());
  }

  lemma BooksWorker(m: Machine, t: nat, w: WorkerStep, y: Task, job: Job)
    requires t < |m.threads| && LegalWorker(m, t, w) && ThreadOk(m.fibers, m.threads[t])
    requires Level(m, LedgerGauge(y)) == 0 && Level(m, StartGauge(job)) == 0 && !job.FiberJob?
    ensures Level(DoWorker(m, t, w), LedgerGauge(y)) == 0 && Level(DoWorker(m, t, w), StartGauge(job)) == 0
  {
    hide Level, TakeIndex;
    WorkerLevel(m, t, w, LedgerGauge(y));
    WorkerLevel(m, t, w, StartGauge(job));
  }

  lemma EvenCode(m: Machine, t: nat, c: CodeStep, f: nat, y: Task, job: Job)
    requires LegalCode(m, t, c) && Even(m, f, y, job)
    ensures Even(DoCode(m, t, c), f, y, job)
  {
    hide Level, DoCode, Runners, RunGauge, ActiveGauge, IdleGauge, PendingGauge, LedgerGauge, StartGauge, ThreadOk;
    RunsCode(m, t, c, f);
    CountsCode(m, t, c);
    BooksCode(m, t, c, y, job);
  }

  lemma RunsCode(m: Machine, t: nat, c: CodeStep, f: nat)
    requires LegalCode(m, t, c)
    requires Level(m, RunGauge(f)) == Runners(m.fibers, f)
    ensures Level(DoCode(m, t, c), RunGauge(f)) == Runners(DoCode(m, t, c).fibers, f)
  {
    hide Level, TakeIndex;
    CodeLevel(m, t, c, RunGauge(f));
  }

  lemma CountsCode(m: Machine, t: nat, c: CodeStep)
    requires LegalCode(m, t, c)
    requires Counted(m)
    ensures Counted(DoCode(m, t, c))
  {
    hide Level, TakeIndex;
    CodeLevel(m, t, c, ActiveGauge());
    CodeLevel(m, t, c, IdleGauge());
    CodeLevel(m, t, c, PendingGauge());
  }

  lemma BooksCode(m: Machine, t: nat, c: CodeStep, y: Task, job: Job)
    requires LegalCode(m, t, c)
    requires Level(m, LedgerGauge(y)) == 0 && Level(m, StartGauge(job)) == 0
    ensures Level(DoCode(m, t, c), LedgerGauge(y)) == 0 && Level(DoCode(m, t, c), StartGauge(job)) == 0
  {
    hide Level, TakeIndex;
    CodeLevel(m, t, c, LedgerGauge(y));
    CodeLevel(m, t, c, StartGauge(job));
  }

  lemma EvenIdle(m: Machine, t: nat, d: IdleStep, f: nat, y: Task, job: Job)
    requires t < |m.threads| && LegalIdle(m, t, d) && NoFiberJobs(m.timers) && Even(m, f, y, job)
    ensures Even(DoIdle(m, t, d), f, y, job)
  {
    hide Level, Wakes, Sum;
    IdleEven(m, t, d, RunGauge(f));
    IdleEven(m, t, d, ActiveGauge());
    IdleEven(m, t, d, IdleGauge());
    IdleEven(m, t, d, PendingGauge());
    IdleEven(m, t, d, LedgerGauge(y));
    IdleEven(m, t, d, StartGauge(job));
  }

  /** A step of an idle loop, for a gauge that does not weigh timers. */
  lemma IdleEven(m: Machine, t: nat, d: IdleStep, g: Gauge)
    requires t < |m.threads| && LegalIdle(m, t, d) && NoFiberJobs(m.timers) && Plain(g)
    requires forall j: Job :: g.timer(j) == 0
    ensures Level(DoIdle(m, t, d), g) == Level(m, g) + if d.Expire? then ThreadDelta(m, DoIdle(m, t, d), t, g) else IdleDelta(m, t, d, g)
  {
    IdleLevel(m, t, d, g);
    if d.Expire? {
      SumNonNegative(m.timers[..d.n], g.timer);
    }
  }

  // ---------- Nobody else ----------

  ghost predicate NonNegativeGauge(g: Gauge) {
    && (forall th: Thread :: g.thread(th) >= 0)
    && (forall b: Fiber :: g.fiber(b) >= 0)
    && (forall x: Task :: g.queued(x) >= 0 && g.accepted(x) >= 0 && g.taken(x) >= 0)
    && (forall o: Option<Job> :: g.slot(o) >= 0)
    && (forall j: Job :: g.timer(j) >= 0)
  }

  /** The level covers every part of the machine, and any two workers. */
  lemma LevelCovers(m: Machine, g: Gauge)
    requires NonNegativeGauge(g)
    ensures forall t, u | 0 <= t < |m.threads| && 0 <= u < |m.threads| && t != u ::
              g.thread(m.threads[t]) + g.thread(m.threads[u]) <= Level(m, g)
    ensures forall t | 0 <= t < |m.threads| :: g.thread(m.threads[t]) <= Level(m, g)
    ensures forall k | 0 <= k < |m.queue| :: g.queued(m.queue[k]) <= Level(m, g)
    ensures forall i | 0 <= i < |m.slots| :: g.slot(m.slots[i]) <= Level(m, g)
    ensures forall i | 0 <= i < |m.timers| :: g.timer(m.timers[i]) <= Level(m, g)
  {
    SumNonNegative(m.threads, g.thread);
    SumNonNegative(m.fibers, g.fiber);
    SumNonNegative(m.queue, g.queued);
    SumNonNegative(m.slots, g.slot);
    SumNonNegative(m.timers, g.timer);
    SumNonNegative(m.accepted, g.accepted);
    SumNonNegative(m.taken, g.taken);
    hide Sum;
    forall t, u | 0 <= t < |m.threads| && 0 <= u < |m.threads| && t != u
      ensures g.thread(m.threads[t]) + g.thread(m.threads[u]) <= Level(m, g)
    {
      SumCovers(m.threads, g.thread, t, u);
    }
    forall t | 0 <= t < |m.threads|
      ensures g.thread(m.threads[t]) <= Level(m, g)
    {
      SumCovers(m.threads, g.thread, t, t);
    }
    forall k | 0 <= k < |m.queue|
      ensures g.queued(m.queue[k]) <= Level(m, g)
    {
      SumCovers(m.queue, g.queued, k, k);
    }
    forall i | 0 <= i < |m.slots|
      ensures g.slot(m.slots[i]) <= Level(m, g)
    {
      SumCovers(m.slots, g.slot, i, i);
    }
    forall i | 0 <= i < |m.timers|
      ensures g.timer(m.timers[i]) <= Level(m, g)
    {
      SumCovers(m.timers, g.timer, i, i);
    }
  }

  lemma HandlesNonNegative(f: nat)
    ensures NonNegativeGauge(HandleGauge(f))
  {
    forall th: Thread
      ensures Held(th.pc, f) >= 0
    {
      if th.pc.IdleHold? {
        SumNonNegative(th.pc.jobs, JobWeight(f));
      }
    }
  }

  predicate About(pc: Pc, f: nat) {
    (pc.HaveFiber? && pc.f == f) || (pc.Run? && pc.f == f)
  }

  /** While one worker is about to resume a fiber or runs it, no other worker is at it. */
  lemma NobodyElse(m: Machine, t: nat, f: nat)
    requires Handled(m) && Manned(m) && Shaped(m) && t < |m.threads| && About(m.threads[t].pc, f)
    ensures forall u | 0 <= u < |m.threads| && u != t :: !About(m.threads[u].pc, f)
  {
    HandlesNonNegative(f);
    LevelCovers(m, HandleGauge(f));
    LevelCovers(m, RunGauge(f));
    assert Level(m, HandleGauge(f)) == Want(m.fibers, f) <= 1;
    assert Level(m, RunGauge(f)) == Runners(m.fibers, f) <= 1;
    assert ThreadOk(m.fibers, m.threads[t]);
    hide Level, Sum, Handled, Manned;
    forall u | 0 <= u < |m.threads| && u != t
      ensures !About(m.threads[u].pc, f)
    {
      assert ThreadOk(m.fibers, m.threads[u]);
      var g, h := HandleGauge(f), RunGauge(f);
      assert g.thread(m.threads[t]) + g.thread(m.threads[u]) <= 1;
      assert h.thread(m.threads[t]) + h.thread(m.threads[u]) <= 1;
    }
  }

  // ---------- Standing right ----------

  lemma OkElsewhere(fibers: seq<Fiber>, f: nat, b: Fiber, th: Thread)
    requires ThreadOk(fibers, th) && f < |fibers| && !About(th.pc, f)
    ensures ThreadOk(fibers[f := b], th)
  {
  }

  lemma ShapedWorker(m: Machine, t: nat, w: WorkerStep)
    requires Handled(m) && Manned(m) && Shaped(m) && t < |m.threads| && LegalWorker(m, t, w)
    ensures Shaped(DoWorker(m, t, w))
  {
    hide Handled, Manned, TakeIndex, Sum, Level;
    var r := DoWorker(m, t, w);
    var pc := m.threads[t].pc;
    assert ThreadOk(m.fibers, m.threads[t]);
    if pc.HaveFiber? || pc.Run? {
      NobodyElse(m, t, pc.f);
    }
    TakenOk(m, t, w);
    forall u | 0 <= u < |m.threads|
      ensures ThreadOk(r.fibers, r.threads[u])
    {
      if u != t {
        assert ThreadOk(m.fibers, m.threads[u]);
        match w
        case Begin =>
        case Resume => OkElsewhere(m.fibers, pc.f, r.fibers[pc.f], m.threads[u]);
        case Yield => OkElsewhere(m.fibers, pc.f, r.fibers[pc.f], m.threads[u]);
        case _ =>
      }
    }
  }

  /** The worker itself: a fiber it takes from the queue can be resumed. */
  lemma TakenOk(m: Machine, t: nat, w: WorkerStep)
    requires Handled(m) && Shaped(m) && t < |m.threads| && LegalWorker(m, t, w)
    ensures ThreadOk(DoWorker(m, t, w).fibers, DoWorker(m, t, w).threads[t])
  {
    assert ThreadOk(m.fibers, m.threads[t]);
    var k := TakeIndex(m.queue, m.fibers, t);
    if k < |m.queue| && m.queue[k].job.FiberJob? {
      QueuedIsWanted(m, k);
    }
    hide Handled, TakeIndex, Level, Sum;
  }

  lemma QueuedIsWanted(m: Machine, k: nat)
    requires Handled(m) && k < |m.queue| && (m.queue[k].job.FiberJob? || m.queue[k].job.Wake?)
    ensures var f := m.queue[k].job.f;
      f < |m.fibers| && (m.fibers[f].state == Ready || m.fibers[f].state == Parking)
  {
    var f := m.queue[k].job.f;
    HandlesNonNegative(f);
    LevelCovers(m, HandleGauge(f));
    assert HandleGauge(f).queued(m.queue[k]) == 1;
    assert Level(m, HandleGauge(f)) == Want(m.fibers, f);
    hide Level, Sum;
  }

  lemma ShapedCode(m: Machine, t: nat, c: CodeStep)
    requires Handled(m) && Manned(m) && Shaped(m) && LegalCode(m, t, c)
    ensures Shaped(DoCode(m, t, c))
  {
    hide Handled, Manned, Sum, Level;
    var r := DoCode(m, t, c);
    var f := m.threads[t].pc.f;
    assert ThreadOk(m.fibers, m.threads[t]);
    NobodyElse(m, t, f);
    forall u | 0 <= u < |m.threads|
      ensures ThreadOk(r.fibers, r.threads[u])
    {
      assert ThreadOk(m.fibers, m.threads[u]);
      if u != t {
        match c
        case ScheduleFiber(pin) =>
        case ScheduleSelf(pin) => OkElsewhere(m.fibers, f, r.fibers[f], m.threads[u]);
        case ListenSelf(i) => OkElsewhere(m.fibers, f, r.fibers[f], m.threads[u]);
        case Sleep(at) => OkElsewhere(m.fibers, f, r.fibers[f], m.threads[u]);
        case Finish => OkElsewhere(m.fibers, f, r.fibers[f], m.threads[u]);
        case _ =>
      }
    }
  }

  lemma ShapedIdle(m: Machine, t: nat, d: IdleStep)
    requires Shaped(m) && t < |m.threads| && LegalIdle(m, t, d)
    ensures Shaped(DoIdle(m, t, d))
  {
    hide Wakes;
    var r := DoIdle(m, t, d);
    assert ThreadOk(m.fibers, m.threads[t]);
    forall u | 0 <= u < |m.threads|
      ensures ThreadOk(r.fibers, r.threads[u])
    {
      assert ThreadOk(m.fibers, m.threads[u]);
    }
  }

  // ---------- The end ----------

  /** A worker that holds no task does not count as active, and one that owes nothing not as pending. */
  lemma AtRest(m: Machine, t: nat)
    requires Counted(m) && t < |m.threads| && m.active == 0 && m.pending == 0
    ensures !HoldsTask(m.threads[t].pc) && m.threads[t].owed == 0
  {
    LevelCovers(m, ActiveGauge());
    LevelCovers(m, PendingGauge());
    assert ActiveGauge().thread(m.threads[t]) <= 0 && PendingGauge().thread(m.threads[t]) <= 0;
    hide Level, Sum;
  }

  lemma FinalOutside(m: Machine, o: OutsideStep)
    requires Final(m) && LegalOutside(m, o)
    ensures Final(DoOutside(m, o))
  {
  }

  lemma FinalWorker(m: Machine, t: nat, w: WorkerStep)
    requires Counted(m) && Shaped(m) && Final(m) && t < |m.threads| && LegalWorker(m, t, w)
    ensures Final(DoWorker(m, t, w))
  {
    hide Counted, Level, Sum, TakeIndex;
    var r := DoWorker(m, t, w);
    assert forall u | 0 <= u < |m.threads| :: r.threads[u].idleTerm == m.threads[u].idleTerm;
    assert ThreadOk(m.fibers, m.threads[t]);
    if AllTerm(m) {
      AtRest(m, t);
      assert Stopping(r);
    }
  }

  lemma FinalCode(m: Machine, t: nat, c: CodeStep)
    requires Counted(m) && Final(m) && LegalCode(m, t, c)
    ensures Final(DoCode(m, t, c))
  {
    var r := DoCode(m, t, c);
    assert forall u | 0 <= u < |m.threads| :: r.threads[u].idleTerm == m.threads[u].idleTerm;
    if m.active == 0 && m.pending == 0 {
      AtRest(m, t);
    }
  }

  lemma FinalIdle(m: Machine, t: nat, d: IdleStep)
    requires Shaped(m) && Final(m) && t < |m.threads| && LegalIdle(m, t, d)
    ensures Final(DoIdle(m, t, d))
  {
    var r := DoIdle(m, t, d);
    assert ThreadOk(m.fibers, m.threads[t]);
    assert !m.threads[t].idleTerm;
    hide Wakes, ThreadOk;
    assert r.threads[t].idleTerm ==> Stopping(m) && Stopping(r);
    assert forall u | 0 <= u < |m.threads| && u != t :: r.threads[u] == m.threads[u];
    assert AllTerm(r) ==> r.threads[t].idleTerm;
    assert m.stopping == r.stopping;
  }

  // ---------- First in, first out ----------

  lemma {:induction false} FreeConcat(a: seq<Task>, b: seq<Task>)
    ensures Free(a + b) == Free(a) + Free(b)
  {
    if a == [] {
      assert a + b == b;
    } else {
      assert (a + b)[1..] == a[1..] + b;
      FreeConcat(a[1..], b);
      Regroup(if IsFree(a[0]) then [a[0]] else [], Free(a[1..]), Free(b));
      hide Free;
    }
  }

  lemma Regroup(a: seq<Task>, b: seq<Task>, c: seq<Task>)
    ensures (a + b) + c == a + (b + c)
  {
  }

  lemma FreeAppend(a: seq<Task>, x: Task)
    ensures Free(a + [x]) == Free(a) + if IsFree(x) then [x] else []
  {
    FreeConcat(a, [x]);
    assert Free([x]) == (if IsFree(x) then [x] else []) + Free([x][1..]);
  }

  /** Any worker may take a free task, so a scan overtakes none. */
  lemma {:induction false} NoneFreeSkipped(xs: seq<Task>)
    requires forall i | 0 <= i < |xs| :: !IsFree(xs[i])
    ensures Free(xs) == []
  {
    if xs != [] {
      NoneFreeSkipped(xs[1..]);
    }
  }

  lemma TakeKeepsOrder(m: Machine, k: nat)
    requires Fifo(m) && k < |m.queue| && forall i | 0 <= i < k :: !IsFree(m.queue[i])
    ensures Fifo(Removed(m, k))
  {
    hide Free;
    var x, before, after := m.queue[k], m.queue[..k], m.queue[k + 1..];
    assert m.queue == before + [x] + after;
    NoneFreeSkipped(before);
    FreeAppend(before, x);
    FreeConcat(before + [x], after);
    FreeConcat(before, after);
    FreeAppend(m.taken, x);
  }

  lemma PushKeepsOrder(m: Machine, job: Job, pin: int)
    requires Fifo(m)
    ensures Fifo(Pushed(m, job, pin))
  {
    FreeAppend(m.queue, Task(job, pin));
    FreeAppend(m.accepted, Task(job, pin));
    hide Free;
  }

  lemma FifoStep(m: Machine, s: Step)
    requires Fifo(m) && Legal(m, s)
    ensures Fifo(Do(m, s))
  {
    hide Free, TakeIndex, Wakes;
    match s
    case Outside(o) =>
      match o {
        case Submit(job, pin) => PushKeepsOrder(m, job, pin);
        case SubmitFiber(pin) => PushKeepsOrder(Born(m, Fiber(Ready, None)), FiberJob(|m.fibers|), pin);
        case _ =>
      }
    case Worker(t, w) =>
      if w.Take? && TakeIndex(m.queue, m.fibers, t) < |m.queue| {
        TakeKeepsOrder(m, TakeIndex(m.queue, m.fibers, t));
      } else if w.Deliver? {
        PushKeepsOrder(m, FiberJob(m.threads[t].pc.wakes.value), -1);
      }
    case Code(t, c) =>
      match c {
        case Schedule(job, pin) => PushKeepsOrder(m, job, pin);
        case ScheduleFiber(pin) => PushKeepsOrder(Born(m, Fiber(Ready, None)), FiberJob(|m.fibers|), pin);
        case ScheduleSelf(pin) => PushKeepsOrder(Become(m, m.threads[t].pc.f, Parking), FiberJob(m.threads[t].pc.f), pin);
        case Cancel(i) => PushKeepsOrder(m, m.slots[i].value, -1);
        case _ =>
      }
    case Idle(t, d) =>
      match d {
        case Hand => PushKeepsOrder(m, m.threads[t].pc.jobs[0], -1);
        case Report(i) => PushKeepsOrder(m, m.slots[i].value, -1);
        case _ =>
      }
  }

  // ---------- Every step keeps the invariant ----------

  lemma StepKeeps(m: Machine, s: Step)
    requires Inv(m) && Legal(m, s)
    ensures Inv(Do(m, s))
  {
    HandlesKept(m, s);
    EvenKept(m, s);
    FifoStep(m, s);
    ShapeKept(m, s);
    FinalKept(m, s);
    hide Handled, Manned, Counted, Booked, Fifo, Shaped, Final, Legal, Do;
  }

  lemma ShapeKept(m: Machine, s: Step)
    requires Handled(m) && Manned(m) && Shaped(m) && Legal(m, s)
    ensures Shaped(Do(m, s))
  {
    match s {
      case Outside(o) => ShapedOutside(m, o);
      case Worker(t, w) => ShapedWorker(m, t, w);
      case Code(t, c) => ShapedCode(m, t, c);
      case Idle(t, d) => ShapedIdle(m, t, d);
    }
    hide Handled, Manned, Shaped, LegalWorker, LegalCode, LegalIdle, LegalOutside, DoWorker, DoCode, DoIdle, DoOutside;
  }

  lemma ShapedOutside(m: Machine, o: OutsideStep)
    requires Shaped(m) && LegalOutside(m, o)
    ensures Shaped(DoOutside(m, o))
  {
  }

  lemma FinalKept(m: Machine, s: Step)
    requires Counted(m) && Shaped(m) && Final(m) && Legal(m, s)
    ensures Final(Do(m, s))
  {
    match s {
      case Outside(o) => FinalOutside(m, o);
      case Worker(t, w) => FinalWorker(m, t, w);
      case Code(t, c) => FinalCode(m, t, c);
      case Idle(t, d) => FinalIdle(m, t, d);
    }
    hide Counted, Shaped, Final, LegalWorker, LegalCode, LegalIdle, LegalOutside, DoWorker, DoCode, DoIdle, DoOutside;
  }

  lemma HandlesKept(m: Machine, s: Step)
    requires Handled(m) && Shaped(m) && Legal(m, s)
    ensures Handled(Do(m, s))
  {
    hide Level, LegalWorker, LegalCode, LegalIdle, LegalOutside, DoWorker, DoCode, DoIdle, DoOutside, HandleGauge, Want;
    forall f: nat
      ensures Level(Do(m, s), HandleGauge(f)) == Want(Do(m, s).fibers, f)
    {
      assert Level(m, HandleGauge(f)) == Want(m.fibers, f);
      match s
      case Outside(o) => HandleOutside(m, o, f);
      case Worker(t, w) => HandleWorker(m, t, w, f);
      case Code(t, c) => HandleCode(m, t, c, f);
      case Idle(t, d) => HandleIdle(m, t, d, f);
    }
  }

  lemma EvenKept(m: Machine, s: Step)
    requires Manned(m) && Counted(m) && Booked(m) && Shaped(m) && Legal(m, s)
    ensures Manned(Do(m, s)) && Counted(Do(m, s)) && Booked(Do(m, s))
  {
    hide Level, LegalWorker, LegalCode, LegalIdle, LegalOutside, DoWorker, DoCode, DoIdle, DoOutside,
      Runners, RunGauge, LedgerGauge, StartGauge, ActiveGauge, IdleGauge, PendingGauge, ThreadOk;
    var r := Do(m, s);
    forall f: nat, y: Task, job: Job | !job.FiberJob?
      ensures Even(r, f, y, job)
    {
      assert Even(m, f, y, job);
      match s
      case Outside(o) => EvenOutside(m, o, f, y, job);
      case Worker(t, w) => EvenWorker(m, t, w, f, y, job);
      case Code(t, c) => EvenCode(m, t, c, f, y, job);
      case Idle(t, d) => EvenIdle(m, t, d, f, y, job);
    }
    forall f: nat
      ensures Level(r, RunGauge(f)) == Runners(r.fibers, f)
    {
      assert Even(r, f, Task(Call(0), -1), Call(0));
    }
    forall y: Task
      ensures Level(r, LedgerGauge(y)) == 0
    {
      assert Even(r, 0, y, Call(0));
    }
    forall job: Job | !job.FiberJob?
      ensures Level(r, StartGauge(job)) == 0
    {
      assert Even(r, 0, Task(Call(0), -1), job);
    }
    assert Even(r, 0, Task(Call(0), -1), Call(0));
  }
}
