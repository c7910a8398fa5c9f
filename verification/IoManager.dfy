/** The descriptor table as objects that change in place, tied to the functions on values. The answers of
    `epoll_ctl` are inputs. */
module IoManager {
  import opened Wrappers
  import opened Jobs
  import opened Bytes
  import Io = IoEvents
  import IoHistory

  class FdContext {
    const fd: nat
    var events: set<Io.Event>
    var read: Option<Job>
    var write: Option<Job>

    constructor (fd: nat)
      ensures this.fd == fd && Value() == Io.EMPTY
    {
      this.fd, events, read, write := fd, {}, None, None;
    }

    function Value(): Io.Context
      reads this
    {
      Io.Context(events, read, write)
    }

    /** `getEventContext`. */
    method Get(e: Io.Event) returns (job: Option<Job>)
      ensures job == Io.Slot(Value(), e)
    {
      match e
      case READ => job := read;
      case WRITE => job := write;
    }

    /** Events and one slot changed. */
    method Set(events: set<Io.Event>, e: Io.Event, job: Option<Job>)
      modifies this
      ensures Value() == Io.WithSlot(old(Value()).(events := events), e, job)
    {
      this.events := events;
      match e
      case READ => read := job;
      case WRITE => write := job;
    }
  }

  /** What an operation answers, unless an assertion fails. */
  datatype Answer = Answered(ok: bool) | AssertionFailed

  datatype CtlOp = ADD | MOD | DEL

  ghost function ValuesOf(cs: seq<FdContext>): (r: seq<Io.Context>)
    reads cs
    ensures |r| == |cs| && forall i | 0 <= i < |cs| :: r[i] == cs[i].Value()
  {
    seq(|cs|, i requires 0 <= i < |cs| reads cs => cs[i].Value())
  }

  class IOManager {
    var contexts: seq<FdContext>
    var pending: int
    var scheduled: seq<Job>
    ghost var interest: map<nat, set<Io.Event>>
    ghost var added: seq<Job>
    ghost var deleted: seq<Job>

    ghost predicate Linked()
      reads this
    {
      && 32 <= |contexts|
      && (forall i | 0 <= i < |contexts| :: contexts[i].fd == i)
    }

    ghost function Values(): (r: seq<Io.Context>)
      reads this`contexts, contexts
      ensures |r| == |contexts|
      ensures forall i | 0 <= i < |contexts| :: r[i] == contexts[i].Value()
    {
      ValuesOf(contexts)
    }

    ghost function View(): (r: Io.Io)
      reads this, contexts
      ensures |r.contexts| == |contexts|
    {
      Io.Io(Values(), interest, pending, added, scheduled, deleted)
    }

    ghost predicate Valid()
      reads this, contexts
    {
      Linked() && Io.Good(View())
    }

    constructor ()
      ensures Valid() && View() == IoHistory.START
    {
      contexts, pending, scheduled, interest, added, deleted := [], 0, [], map[], [], [];
      new;
      Resize(32);
      IoHistory.StartIsGood();
      assert View() == IoHistory.START;
    }

    /** `contextResize`. */
    method Resize(size: nat)
      requires |contexts| <= size && forall i | 0 <= i < |contexts| :: contexts[i].fd == i
      modifies this`contexts
      ensures |contexts| == size && (forall i | 0 <= i < |contexts| :: contexts[i].fd == i)
      ensures old(contexts) == contexts[..|old(contexts)|] && fresh(set i | |old(contexts)| <= i < size :: contexts[i])
      ensures View() == Io.Grown(old(View()), size)
    {
      while |contexts| < size
        invariant |old(contexts)| <= |contexts| <= size && old(contexts) == contexts[..|old(contexts)|]
        invariant forall i | 0 <= i < |contexts| :: contexts[i].fd == i
        invariant forall i | |old(contexts)| <= i < |contexts| :: fresh(contexts[i]) && contexts[i].Value() == Io.EMPTY
      {
        var c := new FdContext(|contexts|);
        contexts := contexts + [c];
      }
    }

    /** `epoll_ctl`: each operation fits what the kernel has for the descriptor. */
    method EpollCtl(op: CtlOp, fd: nat, mask: set<Io.Event>, ok: bool)
      requires op == ADD <==> fd !in interest
      requires op == DEL <==> mask == {}
      modifies this`interest
      ensures View() == if ok then old(View()).(interest := Io.Interest(old(interest), fd, mask)) else old(View())
    {
      if ok {
        interest := Io.Interest(interest, fd, mask);
      }
    }

    /** One context of the table changed. */
    method Change(fd: nat, events: set<Io.Event>, e: Io.Event, job: Option<Job>)
      requires Linked() && fd < |contexts|
      modifies contexts[fd]
      ensures Linked()
      ensures var io := old(View());
        View() == io.(contexts := io.contexts[fd := Io.WithSlot(io.contexts[fd].(events := events), e, job)])
    {
      ghost var before := Values();
      contexts[fd].Set(events, e, job);
      assert Values() == before[fd := contexts[fd].Value()];
    }

    /** `triggerEvent`. */
    method TriggerEvent(fd: nat, e: Io.Event) returns (a: Answer)
      requires Linked() && fd < |contexts|
      modifies this`scheduled, contexts[fd]
      ensures Linked()
      ensures var r := Io.Trigger(old(View()), fd, e);
        if r.Halted? then a == AssertionFailed else a == Answered(r.ok) && View() == r.io
    {
      var c := contexts[fd];
      if e !in c.events {
        return AssertionFailed;
      }
      var job := c.Get(e);
      if job.Some? {
        scheduled := scheduled + [job.value];
      }
      Change(fd, c.events - {e}, e, None);
      a := Answered(true);
    }

    /** Trigger an event and take back its count, if it is asked for. */
    method TriggerOne(fd: nat, e: Io.Event, wanted: bool) returns (a: Answer)
      requires Linked() && fd < |contexts|
      modifies this`scheduled, this`pending, contexts[fd]
      ensures Linked()
      ensures var r := Io.TriggerIf(old(View()), fd, e, wanted);
        if r.Halted? then a == AssertionFailed else a == Answered(r.ok) && View() == r.io
    {
      a := Answered(true);
      if wanted {
        a := TriggerEvent(fd, e);
        if a.Answered? {
          pending := pending - 1;
        }
      }
    }
  
    /** Both triggers, reading first. */
    method TriggerTwo(fd: nat, read: bool, write: bool) returns (a: Answer)
      requires Linked() && fd < |contexts|
      modifies this`scheduled, this`pending, contexts[fd]
      ensures Linked()
      ensures var r := Io.TriggerBoth(old(View()), fd, read, write);
        if r.Halted? then a == AssertionFailed else a == Answered(r.ok) && View() == r.io
    {
      hide Io.TriggerIf;
      a := TriggerOne(fd, Io.READ, read);
      if a.Answered? {
        a := TriggerOne(fd, Io.WRITE, write);
      }
    }

    lemma Inside()
      requires Valid()
      ensures Linked() && Io.Good(View()) && View().interest == interest && |View().contexts| == |contexts|
    {
    }

    lemma Whole()
      requires Linked() && Io.Good(View())
      ensures Valid()
    {
    }

    /** What the invariant says about one descriptor. */
    lemma Fits(fd: nat)
      requires Linked() && Io.Good(View()) && fd < |contexts|
      ensures fd in interest <==> contexts[fd].events != {}
      ensures View().contexts[fd] == contexts[fd].Value()
      ensures Io.Slot(contexts[fd].Value(), Io.READ).Some? <==> Io.READ in contexts[fd].events
      ensures Io.Slot(contexts[fd].Value(), Io.WRITE).Some? <==> Io.WRITE in contexts[fd].events
    {
      assert Io.ContextOk(View().contexts[fd]);
    }

    /** `addEvent`. The job is the callback, or the running fiber if there is none. */
    method AddEvent(fd: nat, e: Io.Event, job: Job, ok: bool) returns (a: Answer)
      requires Valid()
      modifies this, contexts
      ensures var r := Io.AddEvent(old(View()), fd, e, job, ok);
        if r.Halted? then a == AssertionFailed else a == Answered(r.ok) && View() == r.io && Valid()
    {
      hide *;
      Inside();
      IoHistory.AddEventKeeps(View(), fd, e, job, ok);
      SameOutcome(View(), fd, e, job, ok);
      Lookup(fd);
      a := Register(fd, e, job, ok);
      if a.Answered? {
        Whole();
      }
    }

    /** Adding after the table has grown is adding. */
    lemma SameOutcome(io: Io.Io, fd: nat, e: Io.Event, job: Job, ok: bool)
      requires 32 <= |io.contexts|
      ensures 32 <= |Io.Looked(io, fd).contexts|
      ensures Io.AddEvent(Io.Looked(io, fd), fd, e, job, ok) == Io.AddEvent(io, fd, e, job, ok)
    {
      hide Io.Slot, Io.WithSlot, Io.Interest;
    }

    /** The context of `fd` is found, or made by growing the table. */
    method Lookup(fd: nat)
      requires Valid()
      modifies this`contexts
      ensures Valid() && fd < |contexts| && View() == Io.Looked(old(View()), fd)
      ensures contexts[fd] in old(contexts) || fresh(contexts[fd])
    {
      if |contexts| <= fd {
        IoHistory.GrownIsGood(View(), fd * 3 / 2);
        Resize(fd * 3 / 2);
      }
    }

    method Register(fd: nat, e: Io.Event, job: Job, ok: bool) returns (a: Answer)
      requires Valid() && fd < |contexts|
      modifies this`pending, this`interest, this`added, contexts[fd]
      ensures Linked()
      ensures var r := Io.AddEvent(old(View()), fd, e, job, ok);
        if r.Halted? then a == AssertionFailed else a == Answered(r.ok) && View() == r.io
    {
      hide Io.Good, Io.Interest, Io.WithSlot, View, Valid;
      Inside();
      Fits(fd);
      var c := contexts[fd];
      if e in c.events {
        return AssertionFailed;
      }
      EpollCtl(if c.events == {} then ADD else MOD, fd, c.events + {e}, ok);
      if !ok {
        return Answered(false);
      }
      Enter(fd, c.events + {e}, e, job);
      a := Answered(true);
    }

    method Enter(fd: nat, events: set<Io.Event>, e: Io.Event, job: Job)
      requires Linked() && fd < |contexts|
      modifies this`pending, this`added, contexts[fd]
      ensures Linked()
      ensures var io := old(View());
        View() == io.(contexts := io.contexts[fd := Io.WithSlot(io.contexts[fd].(events := events), e, Some(job))],
                      pending := io.pending + 1, added := io.added + [job])
    {
      pending := pending + 1;
      added := added + [job];
      Change(fd, events, e, Some(job));
    }
  
    method DelEvent(fd: nat, e: Io.Event, ok: bool) returns (a: Answer)
      requires Valid()
      modifies this`pending, this`interest, this`deleted, contexts
      ensures Valid()
      ensures var r := Io.DelEvent(old(View()), fd, e, ok); r.Done? && a == Answered(r.ok) && View() == r.io
    {
      hide Io.Good, Io.Interest, Io.WithSlot, Io.Slot, View, Valid;
      Inside();
      IoHistory.DelEventKeeps(View(), fd, e, ok);
      if |contexts| <= fd {
        return Answered(false);
      }
      Fits(fd);
      var c := contexts[fd];
      if e !in c.events {
        return Answered(false);
      }
      var left := c.events - {e};
      EpollCtl(if left == {} then DEL else MOD, fd, left, ok);
      if !ok {
        Whole();
        return Answered(false);
      }
      Leave(fd, left, e);
      Whole();
      a := Answered(true);
    }

    method Leave(fd: nat, events: set<Io.Event>, e: Io.Event)
      requires Linked() && fd < |contexts|
      modifies this`pending, this`deleted, contexts[fd]
      ensures Linked()
      ensures var io := old(View());
        View() == io.(contexts := io.contexts[fd := Io.WithSlot(io.contexts[fd].(events := events), e, None)],
                      pending := io.pending - 1,
                      deleted := io.deleted + var o := Io.Slot(io.contexts[fd], e); if o.Some? then [o.value] else [])
    {
      pending := pending - 1;
      var job := contexts[fd].Get(e);
      deleted := deleted + if job.Some? then [job.value] else [];
      Change(fd, events, e, None);
    }

    method CancelEvent(fd: nat, e: Io.Event, ok: bool) returns (a: Answer)
      requires Valid()
      modifies this`pending, this`interest, this`scheduled, contexts
      ensures Valid()
      ensures var r := Io.CancelEvent(old(View()), fd, e, ok); r.Done? && a == Answered(r.ok) && View() == r.io
    {
      IoHistory.CancelEventKeeps(View(), fd, e, ok);
      hide Io.Good, Io.Interest, Io.TriggerIf, View;
      Inside();
      if |contexts| <= fd {
        return Answered(false);
      }
      Fits(fd);
      var c := contexts[fd];
      if e !in c.events {
        return Answered(false);
      }
      var left := c.events - {e};
      EpollCtl(if left == {} then DEL else MOD, fd, left, ok);
      if !ok {
        return Answered(false);
      }
      a := TriggerOne(fd, e, true);
    }

    method CancelAll(fd: nat, ok: bool) returns (a: Answer)
      requires Valid()
      modifies this`pending, this`interest, this`scheduled, contexts
      ensures Valid()
      ensures var r := Io.CancelAll(old(View()), fd, ok); r.Done? && a == Answered(r.ok) && View() == r.io
    {
      IoHistory.CancelAllKeeps(View(), fd, ok);
      hide Io.Good, Io.Interest, Io.TriggerBoth, View;
      Inside();
      if |contexts| <= fd {
        return Answered(false);
      }
      Fits(fd);
      var c := contexts[fd];
      if c.events == {} {
        return Answered(false);
      }
      EpollCtl(DEL, fd, {}, ok);
      if !ok {
        return Answered(false);
      }
      a := TriggerTwo(fd, Io.READ in c.events, Io.WRITE in c.events);
    }

    /** One report of `epoll_wait` in the loop of `idle`. */
    method Report(fd: nat, reported: set<Io.Event>, broken: bool, ok: bool) returns (a: Answer)
      requires Valid() && fd < |contexts|
      modifies this`pending, this`interest, this`scheduled, contexts
      ensures var r := Io.Report(old(View()), fd, reported, broken, ok);
        if r.Halted? then a == AssertionFailed else a == Answered(r.ok) && View() == r.io && Valid()
    {
      IoHistory.ReportKeeps(View(), fd, reported, broken, ok);
      hide Io.Good, Io.Interest, Io.TriggerBoth, View;
      Inside();
      Fits(fd);
      var c := contexts[fd];
      var due := Io.RealEvents(c.events, reported, broken);
      if c.events * due == {} {
        return Answered(false);
      }
      var left := c.events - due;
      EpollCtl(if left == {} then DEL else MOD, fd, left, ok);
      if !ok {
        return Answered(false);
      }
      a := TriggerTwo(fd, Io.READ in due, Io.WRITE in due);
    }
  }

  // ---------- The wait of the idle loop ----------

  const MAX_TIMEOUT := 5000

  /** What the idle loop passes to `epoll_wait` for the next timer's distance; less than zero waits for ever. */
  function IdleTimeout(next: Option<nat>): int {
    if next.None? then MAX_TIMEOUT else Min(AsInt32(next.value), MAX_TIMEOUT)
  }

  /** The wait is bounded by five seconds, and ends no later than the timer, if and only if the distance read as
      an `int` is not negative. */
  lemma IdleTimeoutIsBoundedIff(next: Option<nat>)
    ensures 0 <= IdleTimeout(next) <= MAX_TIMEOUT <==> next.None? || next.value % 0x1_0000_0000 < 0x8000_0000
    ensures next.Some? ==> IdleTimeout(next) <= next.value
    ensures next.Some? && next.value < 0x8000_0000 ==>
      IdleTimeout(next) == if next.value <= MAX_TIMEOUT then next.value else MAX_TIMEOUT
    ensures next.None? ==> IdleTimeout(next) == 5000
  {
  }

  /** A timer 2^31 milliseconds ahead lets the idle loop wait for ever. */
  lemma FarTimerBlocks()
    ensures IdleTimeout(Some(0x8000_0000)) < 0
  {
  }
}
