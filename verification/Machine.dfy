/** The scheduler with its fibers, event slots, timers and idle loops, as a machine over its atomic steps. */
module Machine {
  import opened Wrappers
  import opened Jobs

  /** An entry of the task list; `pin` is the thread it must run on, or -1. */
  datatype Task = Task(job: Job, pin: int)

  /** The states of a fiber. `Parking` is the state RUNNING after the fiber has registered itself for a
      wake-up and before it has switched away. */
  datatype State = Ready | Running | Parking | Term

  /** A fiber, and the callback it was made for, if any. */
  datatype Fiber = Fiber(state: State, origin: Option<Job>)

  predicate IsRunning(b: Fiber) {
    b.state == Running || b.state == Parking
  }

  /** Where a worker stands in `run` and, inside an idle fiber, in `idle`. A fiber made for the callback of
      a sleep still has to schedule the sleeper (`wakes`). */
  datatype Pc =
    | NotStarted
    | Scan
    | HaveFiber(f: nat)
    | HaveCall(job: Job)
    | Run(f: nat, wakes: Option<nat>)
    | Returned
    | NoTask
    | IdleCheck
    | IdleWait
    | IdleHold(jobs: seq<Job>)
    | IdleReturned
    | Exited

  /** A worker; `owed` counts triggered events whose pending count has not been taken back yet. */
  datatype Thread = Thread(pc: Pc, idleTerm: bool, owed: nat)

  datatype Machine = Machine(
    threads: seq<Thread>,
    fibers: seq<Fiber>,
    queue: seq<Task>,
    slots: seq<Option<Job>>,
    timers: seq<Job>,
    pending: int,
    active: int,
    idle: int,
    stopping: bool,
    accepted: seq<Task>,
    taken: seq<Task>)

  // ---------- The list of tasks ----------

  /** May worker `t` take this task? Not if it is pinned elsewhere or its fiber still runs. */
  predicate Eligible(x: Task, fibers: seq<Fiber>, t: nat) {
    (x.pin == -1 || x.pin == t) && !(x.job.FiberJob? && x.job.f < |fibers| && IsRunning(fibers[x.job.f]))
  }

  /** The place of the first task worker `t` may take, or the end of the list. */
  function TakeIndex(queue: seq<Task>, fibers: seq<Fiber>, t: nat): (k: nat)
    ensures k <= |queue|
    ensures k < |queue| ==> Eligible(queue[k], fibers, t)
    ensures forall i | 0 <= i < k :: !Eligible(queue[i], fibers, t)
  {
    if queue == [] || Eligible(queue[0], fibers, t) then 0 else 1 + TakeIndex(queue[1..], fibers, t)
  }

  /** `Scheduler::stopping`. */
  predicate SchedulerStopping(m: Machine) {
    m.stopping && m.queue == [] && m.active == 0
  }

  /** `IOManager::stopping`, its three reads taken together. */
  predicate Stopping(m: Machine) {
    m.timers == [] && m.pending == 0 && SchedulerStopping(m)
  }

  // ---------- Small changes ----------

  function WithThread(m: Machine, t: nat, th: Thread): Machine
    requires t < |m.threads|
  {
    m.(threads := m.threads[t := th])
  }

  function At(m: Machine, t: nat, pc: Pc): Machine
    requires t < |m.threads|
  {
    WithThread(m, t, m.threads[t].(pc := pc))
  }

  /** `schedule`. */
  function Pushed(m: Machine, job: Job, pin: int): Machine {
    m.(queue := m.queue + [Task(job, pin)], accepted := m.accepted + [Task(job, pin)])
  }

  function Removed(m: Machine, k: nat): Machine
    requires k < |m.queue|
  {
    m.(queue := m.queue[..k] + m.queue[k + 1..], taken := m.taken + [m.queue[k]])
  }

  function Born(m: Machine, b: Fiber): Machine {
    m.(fibers := m.fibers + [b])
  }

  function Become(m: Machine, f: nat, s: State): Machine
    requires f < |m.fibers|
  {
    m.(fibers := m.fibers[f := m.fibers[f].(state := s)])
  }

  function WithSlot(m: Machine, i: nat, o: Option<Job>): Machine
    requires i < |m.slots|
  {
    m.(slots := m.slots[i := o])
  }

  function NoJobs(n: nat): (r: seq<Option<Job>>)
    ensures |r| == n && forall i | 0 <= i < n :: r[i] == None
  {
    seq(n, i => None)
  }

  function TimerAdded(m: Machine, at: nat, job: Job): Machine
    requires at <= |m.timers|
  {
    m.(timers := m.timers[..at] + [job] + m.timers[at..])
  }

  /** The wake-ups among the timers, in their order. */
  function Wakes(js: seq<Job>): seq<Job> {
    if js == [] then [] else (if js[0].Wake? then [js[0]] else []) + Wakes(js[1..])
  }

  /** `triggerEvent`: the event's job is scheduled, its slot is free; the pending count follows later. */
  function Triggered(m: Machine, t: nat, i: nat): Machine
    requires t < |m.threads| && i < |m.slots| && m.slots[i].Some?
  {
    WithThread(WithSlot(Pushed(m, m.slots[i].value, -1), i, None), t, m.threads[t].(owed := m.threads[t].owed + 1))
  }

  // ---------- Steps ----------

  /** From outside the workers; new work only before `stop`. */
  datatype OutsideStep =
    | Submit(job: Job, pin: int)
    | SubmitFiber(pin: int)
    | SetTimer(at: nat, job: Job)
    | Grow(n: nat)
    | Stop

  /** The loop of `run`, and the switches between it and a fiber. */
  datatype WorkerStep =
    | Start
    | Take
    | Resume
    | Begin
    | Yield
    | Return
    | EnterIdle
    | LeaveIdle
    | Deliver
    | Settle

  /** What user code in a running fiber does. */
  datatype CodeStep =
    | Schedule(job: Job, pin: int)
    | ScheduleFiber(pin: int)
    | ScheduleSelf(pin: int)
    | Listen(i: nat, job: Job)
    | ListenSelf(i: nat)
    | Unlisten(i: nat)
    | Cancel(i: nat)
    | AddTimer(at: nat, job: Job)
    | DropTimer(i: nat)
    | Sleep(at: nat)
    | Finish

  /** The loop of `idle`. */
  datatype IdleStep =
    | Check
    | Expire(n: nat, rest: seq<Job>)
    | Hand
    | Report(i: nat)
    | IdleYield

  datatype Step =
    | Outside(o: OutsideStep)
    | Worker(t: nat, w: WorkerStep)
    | Code(t: nat, c: CodeStep)
    | Idle(t: nat, d: IdleStep)

  /** Worker `t` runs user code: its fiber is not parking, carries no wake-up and owes nothing. */
  predicate UserCode(m: Machine, t: nat) {
    && t < |m.threads| && m.threads[t].pc.Run? && m.threads[t].pc.wakes == None && m.threads[t].owed == 0
    && m.threads[t].pc.f < |m.fibers| && m.fibers[m.threads[t].pc.f].state == Running
  }

  predicate LegalOutside(m: Machine, o: OutsideStep) {
    match o
    case Submit(job, pin) => !m.stopping && job.Call?
    case SubmitFiber(pin) => !m.stopping
    case SetTimer(at, job) => !m.stopping && job.Call? && at <= |m.timers|
    case Grow(n) => true
    case Stop => true
  }

  predicate LegalWorker(m: Machine, t: nat, w: WorkerStep)
    requires t < |m.threads|
  {
    var pc := m.threads[t].pc;
    match w
    case Start => pc == NotStarted
    case Take => pc == Scan
    case Resume => pc.HaveFiber? && pc.f < |m.fibers|
    case Begin => pc.HaveCall?
    case Yield => pc.Run? && pc.f < |m.fibers| && m.fibers[pc.f].state == Parking
    case Return => pc == Returned
    case EnterIdle => pc == NoTask
    case LeaveIdle => pc == IdleReturned
    case Deliver => pc.Run? && pc.wakes.Some?
    case Settle => m.threads[t].owed > 0
  }

  predicate LegalCode(m: Machine, t: nat, c: CodeStep) {
    && UserCode(m, t)
    && match c
       case Schedule(job, pin) => job.Call?
       case ScheduleFiber(pin) => true
       case ScheduleSelf(pin) => true
       case Listen(i, job) => job.Call? && i < |m.slots| && m.slots[i] == None
       case ListenSelf(i) => i < |m.slots| && m.slots[i] == None
       case Unlisten(i) => i < |m.slots| && m.slots[i].Some? && m.slots[i].value.Call?
       case Cancel(i) => i < |m.slots| && m.slots[i].Some?
       case AddTimer(at, job) => job.Call? && at <= |m.timers|
       case DropTimer(i) => i < |m.timers| && m.timers[i].Call?
       case Sleep(at) => at <= |m.timers|
       case Finish => true
  }

  predicate LegalIdle(m: Machine, t: nat, d: IdleStep)
    requires t < |m.threads|
  {
    var pc, owed := m.threads[t].pc, m.threads[t].owed;
    match d
    case Check => pc == IdleCheck
    case Expire(n, rest) =>
      && pc == IdleWait && n <= |m.timers| && Wakes(rest) == Wakes(m.timers[n..])
      && forall i | 0 <= i < |rest| :: rest[i] in m.timers
    case Hand => pc.IdleHold? && pc.jobs != []
    case Report(i) => pc == IdleHold([]) && owed == 0 && i < |m.slots| && m.slots[i].Some?
    case IdleYield => pc == IdleHold([]) && owed == 0
  }

  predicate Legal(m: Machine, s: Step) {
    match s
    case Outside(o) => LegalOutside(m, o)
    case Worker(t, w) => t < |m.threads| && LegalWorker(m, t, w)
    case Code(t, c) => LegalCode(m, t, c)
    case Idle(t, d) => t < |m.threads| && LegalIdle(m, t, d)
  }

  function DoOutside(m: Machine, o: OutsideStep): (r: Machine)
    requires LegalOutside(m, o)
    ensures r.threads == m.threads
  {
    match o
    case Submit(job, pin) => Pushed(m, job, pin)
    case SubmitFiber(pin) => Pushed(Born(m, Fiber(Ready, None)), FiberJob(|m.fibers|), pin)
    case SetTimer(at, job) => TimerAdded(m, at, job)
    case Grow(n) => m.(slots := m.slots + NoJobs(n))
    case Stop => m.(stopping := true)
  }

  function DoTake(m: Machine, t: nat): (r: Machine)
    requires t < |m.threads|
    ensures |r.threads| == |m.threads|
  {
    var k := TakeIndex(m.queue, m.fibers, t);
    if k == |m.queue| then At(m, t, NoTask)
    else
      var job := m.queue[k].job;
      At(Removed(m, k), t, if job.FiberJob? then HaveFiber(job.f) else HaveCall(job)).(active := m.active + 1)
  }

  function DoWorker(m: Machine, t: nat, w: WorkerStep): (r: Machine)
    requires t < |m.threads| && LegalWorker(m, t, w)
    ensures |r.threads| == |m.threads|
  {
    var th := m.threads[t];
    match w
    case Start => At(m, t, Scan)
    case Take => DoTake(m, t)
    case Resume => At(Become(m, th.pc.f, Running), t, Run(th.pc.f, None))
    case Begin =>
      var job := th.pc.job;
      At(Born(m, Fiber(Running, Some(job))), t, Run(|m.fibers|, if job.Wake? then Some(job.f) else None))
    case Yield => At(Become(m, th.pc.f, Ready), t, Returned)
    case Return => At(m, t, Scan).(active := m.active - 1)
    case EnterIdle => if th.idleTerm then At(m, t, Exited) else At(m, t, IdleCheck).(idle := m.idle + 1)
    case LeaveIdle => At(m, t, Scan).(idle := m.idle - 1)
    case Deliver => At(Pushed(m, FiberJob(th.pc.wakes.value), -1), t, Run(th.pc.f, None))
    case Settle => WithThread(m, t, th.(owed := th.owed - 1)).(pending := m.pending - 1)
  }

  function DoCode(m: Machine, t: nat, c: CodeStep): (r: Machine)
    requires LegalCode(m, t, c)
    ensures |r.threads| == |m.threads|
  {
    var f := m.threads[t].pc.f;
    match c
    case Schedule(job, pin) => Pushed(m, job, pin)
    case ScheduleFiber(pin) => Pushed(Born(m, Fiber(Ready, None)), FiberJob(|m.fibers|), pin)
    case ScheduleSelf(pin) => Pushed(Become(m, f, Parking), FiberJob(f), pin)
    case Listen(i, job) => WithSlot(m, i, Some(job)).(pending := m.pending + 1)
    case ListenSelf(i) => WithSlot(Become(m, f, Parking), i, Some(FiberJob(f))).(pending := m.pending + 1)
    case Unlisten(i) => WithSlot(m, i, None).(pending := m.pending - 1)
    case Cancel(i) => Triggered(m, t, i)
    case AddTimer(at, job) => TimerAdded(m, at, job)
    case DropTimer(i) => m.(timers := m.timers[..i] + m.timers[i + 1..])
    case Sleep(at) => TimerAdded(Become(m, f, Parking), at, Wake(f))
    case Finish => At(Become(m, f, Term), t, Returned)
  }

  function DoIdle(m: Machine, t: nat, d: IdleStep): (r: Machine)
    requires t < |m.threads| && LegalIdle(m, t, d)
    ensures |r.threads| == |m.threads|
  {
    var th := m.threads[t];
    match d
    case Check =>
      if Stopping(m) then WithThread(m, t, th.(pc := IdleReturned, idleTerm := true)) else At(m, t, IdleWait)
    case Expire(n, rest) => At(m.(timers := rest), t, IdleHold(m.timers[..n]))
    case Hand => At(Pushed(m, th.pc.jobs[0], -1), t, IdleHold(th.pc.jobs[1..]))
    case Report(i) => Triggered(m, t, i)
    case IdleYield => At(m, t, IdleReturned)
  }

  function Do(m: Machine, s: Step): (r: Machine)
    requires Legal(m, s)
    ensures |r.threads| == |m.threads|
  {
    match s
    case Outside(o) => DoOutside(m, o)
    case Worker(t, w) => DoWorker(m, t, w)
    case Code(t, c) => DoCode(m, t, c)
    case Idle(t, d) => DoIdle(m, t, d)
  }
}
