/** Counting over a machine state: a gauge weighs every part of it, and each step moves its level by what
    the step visibly changes. */
module Gauges {
  import opened Wrappers
  import opened Jobs
  import opened Sums
  import opened Machine

  datatype Gauge = Gauge(
    thread: Thread -> int,
    fiber: Fiber -> int,
    queued: Task -> int,
    slot: Option<Job> -> int,
    timer: Job -> int,
    accepted: Task -> int,
    taken: Task -> int)

  function Level(m: Machine, g: Gauge): int {
    Sum(m.threads, g.thread) + Sum(m.fibers, g.fiber) + Sum(m.queue, g.queued) + Sum(m.slots, g.slot)
    + Sum(m.timers, g.timer) + Sum(m.accepted, g.accepted) + Sum(m.taken, g.taken)
  }

  /** The parts every gauge here ignores: empty slots and timers that wake no fiber. */
  ghost predicate Plain(g: Gauge) {
    g.slot(None) == 0 && forall id :: g.timer(Call(id)) == 0
  }

  lemma ThreadLevel(m: Machine, t: nat, th: Thread, g: Gauge)
    requires t < |m.threads|
    ensures Level(WithThread(m, t, th), g) == Level(m, g) - g.thread(m.threads[t]) + g.thread(th)
  {
    SumUpdate(m.threads, t, th, g.thread);
  }

  lemma PushedLevel(m: Machine, job: Job, pin: int, g: Gauge)
    ensures Level(Pushed(m, job, pin), g) == Level(m, g) + g.queued(Task(job, pin)) + g.accepted(Task(job, pin))
  {
    SumAppend(m.queue, Task(job, pin), g.queued);
    SumAppend(m.accepted, Task(job, pin), g.accepted);
  }

  lemma RemovedLevel(m: Machine, k: nat, g: Gauge)
    requires k < |m.queue|
    ensures Level(Removed(m, k), g) == Level(m, g) - g.queued(m.queue[k]) + g.taken(m.queue[k])
  {
    SumRemove(m.queue, k, g.queued);
    SumAppend(m.taken, m.queue[k], g.taken);
  }

  lemma BornLevel(m: Machine, b: Fiber, g: Gauge)
    ensures Level(Born(m, b), g) == Level(m, g) + g.fiber(b)
  {
    SumAppend(m.fibers, b, g.fiber);
  }

  lemma BecomeLevel(m: Machine, f: nat, s: State, g: Gauge)
    requires f < |m.fibers|
    ensures Level(Become(m, f, s), g) == Level(m, g) - g.fiber(m.fibers[f]) + g.fiber(m.fibers[f].(state := s))
  {
    SumUpdate(m.fibers, f, m.fibers[f].(state := s), g.fiber);
  }

  lemma SlotLevel(m: Machine, i: nat, o: Option<Job>, g: Gauge)
    requires i < |m.slots|
    ensures Level(WithSlot(m, i, o), g) == Level(m, g) - g.slot(m.slots[i]) + g.slot(o)
  {
    SumUpdate(m.slots, i, o, g.slot);
  }

  lemma TimerAddedLevel(m: Machine, at: nat, job: Job, g: Gauge)
    requires at <= |m.timers|
    ensures Level(TimerAdded(m, at, job), g) == Level(m, g) + g.timer(job)
  {
    SumInsert(m.timers, at, job, g.timer);
  }

  lemma {:induction false} OnlyWakesWeigh(js: seq<Job>, g: Gauge)
    requires Plain(g) && forall i | 0 <= i < |js| :: !js[i].FiberJob?
    ensures Sum(js, g.timer) == Sum(Wakes(js), g.timer)
  {
    if js != [] {
      OnlyWakesWeigh(js[1..], g);
      if js[0].Wake? {
        assert Wakes(js) == [js[0]] + Wakes(js[1..]);
        SumConcat([js[0]], Wakes(js[1..]), g.timer);
        SumOne(js[0], g.timer);
      } else {
        assert js[0] == Call(js[0].id);
        assert Wakes(js) == Wakes(js[1..]);
      }
    }
  }

  lemma {:induction false} NothingWeighs(n: nat, g: Gauge)
    requires Plain(g)
    ensures Sum(NoJobs(n), g.slot) == 0
  {
    if n > 0 {
      assert NoJobs(n)[1..] == NoJobs(n - 1);
      NothingWeighs(n - 1, g);
    }
  }

  predicate NoFiberJobs(js: seq<Job>) {
    forall i | 0 <= i < |js| :: !js[i].FiberJob?
  }

  ghost function ScheduledDelta(job: Job, pin: int, g: Gauge): int {
    g.queued(Task(job, pin)) + g.accepted(Task(job, pin))
  }

  ghost function NewFiberDelta(m: Machine, pin: int, g: Gauge): int {
    g.fiber(Fiber(Ready, None)) + ScheduledDelta(FiberJob(|m.fibers|), pin, g)
  }

  ghost function BecomeDelta(m: Machine, f: nat, s: State, g: Gauge): int
    requires f < |m.fibers|
  {
    g.fiber(m.fibers[f].(state := s)) - g.fiber(m.fibers[f])
  }

  ghost function ThreadDelta(m: Machine, r: Machine, t: nat, g: Gauge): int
    requires t < |m.threads| == |r.threads|
  {
    g.thread(r.threads[t]) - g.thread(m.threads[t])
  }

  ghost function TriggerDelta(m: Machine, t: nat, i: nat, g: Gauge): int
    requires t < |m.threads| && i < |m.slots| && m.slots[i].Some?
  {
    ThreadDelta(m, Triggered(m, t, i), t, g) - g.slot(m.slots[i]) + ScheduledDelta(m.slots[i].value, -1, g)
  }

  /** By how much a step moves the level. */
  ghost function OutsideDelta(m: Machine, o: OutsideStep, g: Gauge): int {
    match o
    case Submit(job, pin) => ScheduledDelta(job, pin, g)
    case SubmitFiber(pin) => NewFiberDelta(m, pin, g)
    case SetTimer(_, _) => 0
    case Grow(_) => 0
    case Stop => 0
  }

  ghost function WorkerDelta(m: Machine, t: nat, w: WorkerStep, g: Gauge): int
    requires t < |m.threads| && LegalWorker(m, t, w)
  {
    var pc := m.threads[t].pc;
    ThreadDelta(m, DoWorker(m, t, w), t, g) +
    match w
    case Take =>
      var k := TakeIndex(m.queue, m.fibers, t);
      if k == |m.queue| then 0 else g.taken(m.queue[k]) - g.queued(m.queue[k])
    case Resume => BecomeDelta(m, pc.f, Running, g)
    case Begin => g.fiber(Fiber(Running, Some(pc.job)))
    case Yield => BecomeDelta(m, pc.f, Ready, g)
    case Deliver => ScheduledDelta(FiberJob(pc.wakes.value), -1, g)
    case _ => 0
  }

  ghost function CodeDelta(m: Machine, t: nat, c: CodeStep, g: Gauge): int
    requires LegalCode(m, t, c)
  {
    var f := m.threads[t].pc.f;
    match c
    case Schedule(job, pin) => ScheduledDelta(job, pin, g)
    case ScheduleFiber(pin) => NewFiberDelta(m, pin, g)
    case ScheduleSelf(pin) => ScheduledDelta(FiberJob(f), pin, g) + BecomeDelta(m, f, Parking, g)
    case Listen(i, job) => g.slot(Some(job))
    case ListenSelf(i) => g.slot(Some(FiberJob(f))) + BecomeDelta(m, f, Parking, g)
    case Unlisten(i) => -g.slot(m.slots[i])
    case Cancel(i) => TriggerDelta(m, t, i, g)
    case AddTimer(at, job) => 0
    case DropTimer(i) => 0
    case Sleep(at) => g.timer(Wake(f)) + BecomeDelta(m, f, Parking, g)
    case Finish => ThreadDelta(m, DoCode(m, t, c), t, g) + BecomeDelta(m, f, Term, g)
  }

  ghost function IdleDelta(m: Machine, t: nat, d: IdleStep, g: Gauge): int
    requires t < |m.threads| && LegalIdle(m, t, d)
  {
    match d
    case Expire(n, rest) => ThreadDelta(m, DoIdle(m, t, d), t, g) - Sum(m.timers[..n], g.timer)
    case Hand => ThreadDelta(m, DoIdle(m, t, d), t, g) + ScheduledDelta(m.threads[t].pc.jobs[0], -1, g)
    case Report(i) => TriggerDelta(m, t, i, g)
    case _ => ThreadDelta(m, DoIdle(m, t, d), t, g)
  }

  lemma OutsideLevel(m: Machine, o: OutsideStep, g: Gauge)
    requires LegalOutside(m, o) && Plain(g)
    ensures Level(DoOutside(m, o), g) == Level(m, g) + OutsideDelta(m, o, g)
  {
    hide Sum;
    match o
    case Submit(job, pin) => PushedLevel(m, job, pin, g);
    case SubmitFiber(pin) => NewFiberLevel(m, pin, g);
    case SetTimer(at, job) =>
      assert job == Call(job.id);
      TimerAddedLevel(m, at, job, g);
    case Grow(n) =>
      NothingWeighs(n, g);
      SumConcat(m.slots, NoJobs(n), g.slot);
    case Stop =>
  }

  lemma WorkerLevel(m: Machine, t: nat, w: WorkerStep, g: Gauge)
    requires t < |m.threads| && LegalWorker(m, t, w) && Plain(g)
    ensures Level(DoWorker(m, t, w), g) == Level(m, g) + WorkerDelta(m, t, w, g)
  {
    hide Sum, TakeIndex;
    var th := m.threads[t];
    match w
    case Start => AtLevel(m, t, Scan, g);
    case Take => TakeLevel(m, t, g);
    case Resume =>
      BecomeLevel(m, th.pc.f, Running, g);
      AtLevel(Become(m, th.pc.f, Running), t, Run(th.pc.f, None), g);
    case Begin =>
      var job := th.pc.job;
      BornLevel(m, Fiber(Running, Some(job)), g);
      AtLevel(Born(m, Fiber(Running, Some(job))), t, Run(|m.fibers|, if job.Wake? then Some(job.f) else None), g);
    case Yield =>
      BecomeLevel(m, th.pc.f, Ready, g);
      AtLevel(Become(m, th.pc.f, Ready), t, Returned, g);
    case Return => AtLevel(m, t, Scan, g);
    case EnterIdle => AtLevel(m, t, if th.idleTerm then Exited else IdleCheck, g);
    case LeaveIdle => AtLevel(m, t, Scan, g);
    case Deliver =>
      PushedLevel(m, FiberJob(th.pc.wakes.value), -1, g);
      AtLevel(Pushed(m, FiberJob(th.pc.wakes.value), -1), t, Run(th.pc.f, None), g);
    case Settle => ThreadLevel(m, t, th.(owed := th.owed - 1), g);
  }

  lemma CodeLevel(m: Machine, t: nat, c: CodeStep, g: Gauge)
    requires LegalCode(m, t, c) && Plain(g)
    ensures Level(DoCode(m, t, c), g) == Level(m, g) + CodeDelta(m, t, c, g)
  {
    hide Sum;
    var f := m.threads[t].pc.f;
    match c
    case Schedule(job, pin) => PushedLevel(m, job, pin, g);
    case ScheduleFiber(pin) => NewFiberLevel(m, pin, g);
    case ScheduleSelf(pin) =>
      BecomeLevel(m, f, Parking, g);
      PushedLevel(Become(m, f, Parking), FiberJob(f), pin, g);
    case Listen(i, job) => SlotLevel(m, i, Some(job), g);
    case ListenSelf(i) =>
      BecomeLevel(m, f, Parking, g);
      SlotLevel(Become(m, f, Parking), i, Some(FiberJob(f)), g);
    case Unlisten(i) => SlotLevel(m, i, None, g);
    case Cancel(i) => TriggerLevel(m, t, i, g);
    case AddTimer(at, job) =>
      assert job == Call(job.id);
      TimerAddedLevel(m, at, job, g);
    case DropTimer(i) =>
      assert m.timers[i] == Call(m.timers[i].id);
      SumRemove(m.timers, i, g.timer);
    case Sleep(at) =>
      BecomeLevel(m, f, Parking, g);
      TimerAddedLevel(Become(m, f, Parking), at, Wake(f), g);
    case Finish =>
      BecomeLevel(m, f, Term, g);
      AtLevel(Become(m, f, Term), t, Returned, g);
  }

  lemma IdleLevel(m: Machine, t: nat, d: IdleStep, g: Gauge)
    requires t < |m.threads| && LegalIdle(m, t, d) && Plain(g) && NoFiberJobs(m.timers)
    ensures Level(DoIdle(m, t, d), g) == Level(m, g) + IdleDelta(m, t, d, g)
  {
    hide Sum, Wakes;
    var th := m.threads[t];
    match d
    case Check =>
      ThreadLevel(m, t, th.(pc := IdleReturned, idleTerm := true), g);
      AtLevel(m, t, IdleWait, g);
    case Expire(n, rest) =>
      assert m.timers == m.timers[..n] + m.timers[n..];
      SumConcat(m.timers[..n], m.timers[n..], g.timer);
      OnlyWakesWeigh(m.timers[n..], g);
      OnlyWakesWeigh(rest, g);
      AtLevel(m.(timers := rest), t, IdleHold(m.timers[..n]), g);
    case Hand =>
      PushedLevel(m, th.pc.jobs[0], -1, g);
      AtLevel(Pushed(m, th.pc.jobs[0], -1), t, IdleHold(th.pc.jobs[1..]), g);
    case Report(i) => TriggerLevel(m, t, i, g);
    case IdleYield => AtLevel(m, t, IdleReturned, g);
  }

  lemma TakeLevel(m: Machine, t: nat, g: Gauge)
    requires t < |m.threads|
    ensures var k := TakeIndex(m.queue, m.fibers, t);
      Level(DoTake(m, t), g) == Level(m, g) + ThreadDelta(m, DoTake(m, t), t, g)
                                + if k == |m.queue| then 0 else g.taken(m.queue[k]) - g.queued(m.queue[k])
  {
    hide Sum, TakeIndex;
    var k := TakeIndex(m.queue, m.fibers, t);
    if k == |m.queue| {
      AtLevel(m, t, NoTask, g);
    } else {
      var job := m.queue[k].job;
      RemovedLevel(m, k, g);
      AtLevel(Removed(m, k), t, if job.FiberJob? then HaveFiber(job.f) else HaveCall(job), g);
    }
  }

  lemma TriggerLevel(m: Machine, t: nat, i: nat, g: Gauge)
    requires t < |m.threads| && i < |m.slots| && m.slots[i].Some? && Plain(g)
    ensures Level(Triggered(m, t, i), g) == Level(m, g) + TriggerDelta(m, t, i, g)
  {
    hide Sum;
    var job := m.slots[i].value;
    PushedLevel(m, job, -1, g);
    SlotLevel(Pushed(m, job, -1), i, None, g);
    ThreadLevel(WithSlot(Pushed(m, job, -1), i, None), t, m.threads[t].(owed := m.threads[t].owed + 1), g);
  }

  lemma NewFiberLevel(m: Machine, pin: int, g: Gauge)
    ensures Level(Pushed(Born(m, Fiber(Ready, None)), FiberJob(|m.fibers|), pin), g) == Level(m, g) + NewFiberDelta(m, pin, g)
  {
    BornLevel(m, Fiber(Ready, None), g);
    PushedLevel(Born(m, Fiber(Ready, None)), FiberJob(|m.fibers|), pin, g);
  }

  lemma AtLevel(m: Machine, t: nat, pc: Pc, g: Gauge)
    requires t < |m.threads|
    ensures Level(At(m, t, pc), g) == Level(m, g) - g.thread(m.threads[t]) + g.thread(m.threads[t].(pc := pc))
  {
    ThreadLevel(m, t, m.threads[t].(pc := pc), g);
  }
}
