/** The scheduler and its fibers as objects that change in place. Each method is the part of the program
    between two switches or locks; it moves the objects as the machine's step moves the machine. */
module Scheduler {
  import opened Wrappers
  import opened Jobs
  import opened Machine
  import opened Gauges
  import opened MachineInvariant

  datatype FiberState = READY | RUNNING | TERM

  class FiberObject {
    var state: FiberState

    constructor ()
      ensures state == READY
    {
      state := READY;
    }

    /** `resume`; false stands for a failed assertion. */
    method Resume() returns (ok: bool)
      modifies this
      ensures ok == (old(state) == READY)
      ensures state == if ok then RUNNING else old(state)
    {
      ok := state != TERM && state != RUNNING;
      if ok {
        state := RUNNING;
      }
    }

    /** `yield`. */
    method Yield() returns (ok: bool)
      modifies this
      ensures ok == (old(state) != READY)
      ensures state == if old(state) == RUNNING then READY else old(state)
    {
      ok := state == RUNNING || state == TERM;
      if ok && state != TERM {
        state := READY;
      }
    }

    /** The end of `MainFunc`: the fiber has run to its end, then yields for the last time. */
    method End() returns (ok: bool)
      modifies this
      ensures ok && state == TERM
    {
      state := TERM;
      ok := Yield();
    }
  }

  function ObjectState(s: State): FiberState {
    match s
    case Ready => READY
    case Running => RUNNING
    case Parking => RUNNING
    case Term => TERM
  }

  /** What the scheduler's object sees of a scan. */
  lemma DoTakeIs(m: Machine, t: nat)
    requires t < |m.threads|
    ensures var k, r := TakeIndex(m.queue, m.fibers, t), DoTake(m, t);
      && r.queue == (if k < |m.queue| then m.queue[..k] + m.queue[k + 1..] else m.queue)
      && r.active == (if k < |m.queue| then m.active + 1 else m.active)
      && r.idle == m.idle && r.stopping == m.stopping && r.fibers == m.fibers
  {
    hide TakeIndex;
  }

  class SchedulerObject {
    var tasks: seq<Task>
    var activeThreadCount: nat
    var idleThreadCount: nat
    var stopping: bool
    var fibers: seq<FiberObject>

    /** The objects are in the state of the machine `m`. */
    ghost predicate Agrees(m: Machine)
      reads this, fibers
    {
      && tasks == m.queue && activeThreadCount == m.active && idleThreadCount == m.idle && stopping == m.stopping
      && |fibers| == |m.fibers|
      && (forall f | 0 <= f < |fibers| :: fibers[f].state == ObjectState(m.fibers[f].state))
      && (forall f, g | 0 <= f < g < |fibers| :: fibers[f] != fibers[g])
    }

    constructor (ghost m: Machine)
      requires m.queue == [] && m.fibers == [] && m.active == 0 && m.idle == 0 && !m.stopping
      ensures Agrees(m)
    {
      tasks, activeThreadCount, idleThreadCount, stopping, fibers := [], 0, 0, false, [];
    }

    /** `scheduleNoLock`: the new task goes behind the others; a tickle is due if the list was empty. */
    method ScheduleNoLock(job: Job, pin: int, ghost m: Machine) returns (needTickle: bool)
      requires Agrees(m)
      modifies this`tasks
      ensures Agrees(Pushed(m, job, pin)) && needTickle == (old(tasks) == [])
    {
      needTickle := tasks == [];
      tasks := tasks + [Task(job, pin)];
    }

    /** `Scheduler::stopping`. */
    method Stopping(ghost m: Machine) returns (r: bool)
      requires Agrees(m)
      ensures r == SchedulerStopping(m)
    {
      r := stopping && tasks == [] && activeThreadCount == 0;
    }

    /** The scan of `run` under the lock: the first task this worker may take leaves the list, and the
        worker counts as active from then on. Others are tickled if a task for another thread was passed
        over or tasks are left behind the one taken. */
    method Scan(t: nat, ghost m: Machine) returns (task: Option<Task>, tickleMe: bool)
      requires Agrees(m) && t < |m.threads|
      modifies this`tasks, this`activeThreadCount
      ensures Agrees(DoTake(m, t))
      ensures var k := TakeIndex(m.queue, m.fibers, t);
        && task == (if k < |m.queue| then Some(m.queue[k]) else None)
        && (tickleMe <==> (exists i | 0 <= i < k :: m.queue[i].pin != -1 && m.queue[i].pin != t) || k + 1 < |m.queue|)
    {
      task, tickleMe := None, false;
      var it := 0;
      ghost var k := TakeIndex(tasks, m.fibers, t);
      assert tasks == m.queue;
      hide TakeIndex, DoTake, Agrees;
      while it < |tasks|
        invariant 0 <= it <= |tasks| && tasks == m.queue && Agrees(m)
        invariant it <= k && task == None
        invariant tickleMe <==> exists i | 0 <= i < it :: tasks[i].pin != -1 && tasks[i].pin != t
      {
        var x := tasks[it];
        var busy := Busy(x, m);
        if x.pin != -1 && x.pin != t {
          it := it + 1;
          tickleMe := true;
        } else if busy {
          it := it + 1;
        } else {
          tickleMe := tickleMe || it + 1 < |tasks|;
          task := Some(x);
          TakeAt(it, m, t);
          return;
        }
      }
      NothingTaken(m, t);
    }

    /** The fiber of this task has not switched away. */
    method Busy(x: Task, ghost m: Machine) returns (busy: bool)
      requires Agrees(m)
      ensures busy <==> x.job.FiberJob? && x.job.f < |m.fibers| && ObjectState(m.fibers[x.job.f].state) == RUNNING
    {
      busy := x.job.FiberJob? && x.job.f < |fibers| && fibers[x.job.f].state == RUNNING;
    }

    lemma NothingTaken(m: Machine, t: nat)
      requires Agrees(m) && t < |m.threads| && TakeIndex(m.queue, m.fibers, t) == |m.queue|
      ensures Agrees(DoTake(m, t))
    {
      DoTakeIs(m, t);
      hide TakeIndex, DoTake;
    }

    method TakeAt(it: nat, ghost m: Machine, t: nat)
      requires Agrees(m) && t < |m.threads| && it < |tasks| && it == TakeIndex(m.queue, m.fibers, t)
      modifies this`tasks, this`activeThreadCount
      ensures Agrees(DoTake(m, t))
    {
      DoTakeIs(m, t);
      hide TakeIndex, DoTake;
      tasks := tasks[..it] + tasks[it + 1..];
      activeThreadCount := activeThreadCount + 1;
    }

    /** A taken fiber is resumed. The assertion in `resume` holds. */
    method ResumeTaken(t: nat, ghost m: Machine, f: nat) returns (ok: bool)
      requires Agrees(m) && Inv(m) && t < |m.threads| && m.threads[t].pc == HaveFiber(f)
      modifies fibers
      ensures ok && f < |m.fibers| && Agrees(Do(m, Worker(t, Resume)))
    {
      assert ThreadOk(m.fibers, m.threads[t]);
      hide Inv;
      ok := fibers[f].Resume();
    }

    /** A taken callback gets a fiber of its own and is resumed. */
    method BeginTaken(t: nat, job: Job, ghost m: Machine) returns (ok: bool)
      requires Agrees(m) && t < |m.threads| && m.threads[t].pc == HaveCall(job)
      modifies this`fibers
      ensures ok && Agrees(Do(m, Worker(t, Begin)))
    {
      var cb := new FiberObject();
      fibers := fibers + [cb];
      ok := cb.Resume();
    }

    /** A fiber that has registered itself for a wake-up switches away. */
    method Park(t: nat, ghost m: Machine, f: nat) returns (ok: bool)
      requires Agrees(m) && t < |m.threads| && m.threads[t].pc.Run? && m.threads[t].pc.f == f
      requires f < |m.fibers| && m.fibers[f].state == Parking
      modifies fibers
      ensures ok && Agrees(Do(m, Worker(t, Yield)))
    {
      ok := fibers[f].Yield();
    }

    /** A fiber runs to its end. */
    method Finish(t: nat, ghost m: Machine, f: nat) returns (ok: bool)
      requires Agrees(m) && UserCode(m, t) && m.threads[t].pc.f == f
      modifies fibers
      ensures ok && Agrees(Do(m, Code(t, CodeStep.Finish)))
    {
      ok := fibers[f].End();
    }

    /** After `resume` has come back: the task counts as done. The count never falls below zero. */
    method Return(t: nat, ghost m: Machine)
      requires Agrees(m) && Inv(m) && t < |m.threads| && m.threads[t].pc == Returned
      modifies this`activeThreadCount
      ensures Agrees(Do(m, Worker(t, WorkerStep.Return)))
    {
      CountsItself(m, t);
      hide Inv;
      activeThreadCount := activeThreadCount - 1;
    }

    /** A worker without a task leaves the loop or enters its idle fiber. */
    method EnterIdle(t: nat, idleTerm: bool, ghost m: Machine) returns (leave: bool)
      requires Agrees(m) && t < |m.threads| && m.threads[t].pc == NoTask && m.threads[t].idleTerm == idleTerm
      modifies this`idleThreadCount
      ensures Agrees(Do(m, Worker(t, WorkerStep.EnterIdle))) && leave == idleTerm
    {
      if idleTerm {
        return true;
      }
      idleThreadCount := idleThreadCount + 1;
      return false;
    }

    /** The idle fiber has come back. */
    method LeaveIdle(t: nat, ghost m: Machine)
      requires Agrees(m) && Inv(m) && t < |m.threads| && m.threads[t].pc == IdleReturned
      modifies this`idleThreadCount
      ensures Agrees(Do(m, Worker(t, WorkerStep.LeaveIdle)))
    {
      CountsItself(m, t);
      hide Inv;
      idleThreadCount := idleThreadCount - 1;
    }
  }

  /** A worker is among those its counter counts. */
  lemma CountsItself(m: Machine, t: nat)
    requires Inv(m) && t < |m.threads|
    ensures HoldsTask(m.threads[t].pc) ==> m.active > 0
    ensures InIdle(m.threads[t].pc) ==> m.idle > 0
  {
    LevelCovers(m, ActiveGauge());
    LevelCovers(m, IdleGauge());
    hide Level, Handled, Manned, Booked, Shaped, Final, Fifo;
    assert ActiveGauge().thread(m.threads[t]) <= m.active;
    assert IdleGauge().thread(m.threads[t]) <= m.idle;
  }
}
