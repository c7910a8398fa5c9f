/** Every operation on event slots keeps their accounts, and halts only where an assertion says so. */
module IoHistory {
  import opened Wrappers
  import opened Sums
  import opened Jobs
  import opened IoEvents

  /** One context changed, with the jobs that come into and go out of its slots. */
  lemma ContextChanged(io: Io, r: Io, fd: nat, c: Context)
    requires Good(io) && fd < |io.contexts| && ContextOk(c)
    requires r.contexts == io.contexts[fd := c] && r.interest == Interest(io.interest, fd, c.events)
    requires r.pending == io.pending - EventCount()(io.contexts[fd]) + EventCount()(c)
    requires forall j: Job ::
      Sum(r.added, JobCount(j)) - Sum(r.scheduled, JobCount(j)) - Sum(r.deleted, JobCount(j)) ==
      Sum(io.added, JobCount(j)) - Sum(io.scheduled, JobCount(j)) - Sum(io.deleted, JobCount(j))
      - SlotCount(j)(io.contexts[fd]) + SlotCount(j)(c)
    ensures Good(r)
  {
    hide Sum;
    SumUpdate(io.contexts, fd, c, EventCount());
    forall j: Job
      ensures Missing(r, j) == 0
    {
      assert Missing(io, j) == 0;
      SumUpdate(io.contexts, fd, c, SlotCount(j));
    }
  }

  lemma GrownIsGood(io: Io, size: nat)
    requires Good(io) && |io.contexts| <= size
    ensures Good(Grown(io, size))
  {
    hide Sum;
    var n := size - |io.contexts|;
    var more := seq(n, i => EMPTY);
    SumConcat(io.contexts, more, EventCount());
    SumNonNegative(more, EventCount());
    forall j: Job
      ensures Missing(Grown(io, size), j) == 0
    {
      assert Missing(io, j) == 0;
      SumConcat(io.contexts, more, SlotCount(j));
      SumNonNegative(more, SlotCount(j));
    }
  }

  // ---------- Triggering ----------

  /** A context after some of its events were triggered. */
  function Cleared(c: Context, due: set<Event>): Context {
    Context(c.events - due, if READ in due then None else c.read, if WRITE in due then None else c.write)
  }

  function OfSlot(o: Option<Job>, wanted: bool): seq<Job> {
    if wanted && o.Some? then [o.value] else []
  }

  /** The jobs scheduled by triggering, in their order. */
  function Fired(c: Context, due: set<Event>): seq<Job> {
    OfSlot(c.read, READ in due) + OfSlot(c.write, WRITE in due)
  }

  lemma TwoEvents(due: set<Event>)
    ensures due == (if READ in due then {READ} else {}) + (if WRITE in due then {WRITE} else {})
  {
    forall e | e in due
      ensures e == READ || e == WRITE
    {
      match e
      case READ =>
      case WRITE =>
    }
  }

  lemma HowMany(due: set<Event>)
    ensures |due| == One(READ in due) + One(WRITE in due)
  {
    TwoEvents(due);
  }

  /** Triggering halts exactly when an event asked for is not registered; otherwise each one asked for is
      triggered once, reading before writing. */
  lemma TriggerBothEffect(io: Io, fd: nat, due: set<Event>)
    requires fd < |io.contexts| && ContextOk(io.contexts[fd])
    ensures var c, r := io.contexts[fd], TriggerBoth(io, fd, READ in due, WRITE in due);
      && (r.Halted? <==> !(due <= c.events))
      && (r.Done? ==> r.ok && r.io == io.(contexts := io.contexts[fd := Cleared(c, due)],
                                 pending := io.pending - One(READ in due) - One(WRITE in due),
                                 scheduled := io.scheduled + Fired(c, due)))
  {
    var c, r := io.contexts[fd], TriggerBoth(io, fd, READ in due, WRITE in due);
    TwoEvents(due);
    if r.Done? {
      var mid := TriggerIf(io, fd, READ, READ in due).io;
      var end := if WRITE in due then mid.contexts[fd].events - {WRITE} else mid.contexts[fd].events;
      assert end == c.events - due;
      assert r.io.contexts[fd] == Cleared(c, due);
      assert mid.scheduled == io.scheduled + OfSlot(c.read, READ in due);
      assert r.io.scheduled == io.scheduled + OfSlot(c.read, READ in due) + OfSlot(c.write, WRITE in due);
    }
  }

  /** Triggering with the kernel's mask already set keeps the accounts. */
  lemma TriggerKeeps(io: Io, fd: nat, due: set<Event>)
    requires Good(io) && fd < |io.contexts| && due <= io.contexts[fd].events
    ensures var c := io.contexts[fd];
      var r := TriggerBoth(io.(interest := Interest(io.interest, fd, c.events - due)), fd, READ in due, WRITE in due);
      r.Done? && Good(r.io) && r.io.scheduled == io.scheduled + Fired(c, due) && r.io.contexts[fd] == Cleared(c, due)
  {
    var c := io.contexts[fd];
    var started := io.(interest := Interest(io.interest, fd, c.events - due));
    TriggerBothEffect(started, fd, due);
    var r := TriggerBoth(started, fd, READ in due, WRITE in due).io;
    hide Sum, TriggerBoth, Interest;
    forall j: Job
      ensures Sum(r.scheduled, JobCount(j)) == Sum(io.scheduled, JobCount(j)) + SlotCount(j)(c) - SlotCount(j)(Cleared(c, due))
    {
      SumConcat(OfSlot(c.read, READ in due), OfSlot(c.write, WRITE in due), JobCount(j));
      SumConcat(io.scheduled, Fired(c, due), JobCount(j));
    }
    ContextChanged(io, r, fd, Cleared(c, due));
  }

  // ---------- Operations ----------

  /** A context with one more registration. */
  function Filled(c: Context, e: Event, job: Job): Context {
    match e
    case READ => Context(c.events + {READ}, Some(job), c.write)
    case WRITE => Context(c.events + {WRITE}, c.read, Some(job))
  }

  /** The job registered for an event. */
  function JobOf(c: Context, e: Event): Option<Job> {
    match e
    case READ => c.read
    case WRITE => c.write
  }

  /** The context of a descriptor, empty behind the end of the table. */
  function ContextOf(io: Io, fd: nat): Context {
    if fd < |io.contexts| then io.contexts[fd] else Context({}, None, None)
  }

  /** The kernel's entries with the mask of one descriptor changed; no mask, no entry. */
  function Masked(interest: map<nat, set<Event>>, fd: nat, events: set<Event>): map<nat, set<Event>> {
    map i | i in interest.Keys + {fd} && (i == fd ==> events != {}) :: if i == fd then events else interest[i]
  }

  lemma MaskedIs(interest: map<nat, set<Event>>, fd: nat, events: set<Event>)
    ensures Interest(interest, fd, events) == Masked(interest, fd, events)
  {
  }

  lemma AddEventEffect(io: Io, fd: nat, e: Event, job: Job, ok: bool)
    requires 32 <= |io.contexts| && forall i | 0 <= i < |io.contexts| :: ContextOk(io.contexts[i])
    ensures var r := AddEvent(io, fd, e, job, ok);
      && (r.Halted? <==> fd < |io.contexts| && e in io.contexts[fd].events)
      && (r.Done? ==> r.ok == ok)
      && (r.Done? ==> |r.io.contexts| == (if fd < |io.contexts| then |io.contexts| else fd * 3 / 2))
      && (r.Done? ==> forall i: nat ::
            ContextOf(r.io, i) == if ok && i == fd then Filled(ContextOf(io, fd), e, job) else ContextOf(io, i))
      && (r.Done? && ok ==> r.io.interest == Masked(io.interest, fd, ContextOf(io, fd).events + {e}) && r.io.added == io.added + [job])
      && (r.Done? && !ok ==> r.io.interest == io.interest && r.io.added == io.added)
      && (r.Done? ==> r.io.pending == (if ok then io.pending + 1 else io.pending)
                      && r.io.scheduled == io.scheduled && r.io.deleted == io.deleted)
  {
    LookedContexts(io, fd);
    var t := Looked(io, fd);
    hide Looked, Masked;
    assert t.contexts[fd] == ContextOf(t, fd) == ContextOf(io, fd);
    MaskedIs(t.interest, fd, t.contexts[fd].events + {e});
    hide Interest;
  }

  /** `addEvent`: it halts exactly on an event that is registered already; a failing `epoll_ctl` leaves
      everything but the size of the table. */
  lemma AddEventKeeps(io: Io, fd: nat, e: Event, job: Job, ok: bool)
    requires Good(io)
    ensures var r := AddEvent(io, fd, e, job, ok);
      && (r.Halted? <==> fd < |io.contexts| && e in io.contexts[fd].events)
      && (r.Done? ==> Good(r.io) && r.ok == ok)
      && (r.Done? ==> |r.io.contexts| == (if fd < |io.contexts| then |io.contexts| else fd * 3 / 2))
      && (r.Done? ==> forall i: nat ::
            ContextOf(r.io, i) == if ok && i == fd then Filled(ContextOf(io, fd), e, job) else ContextOf(io, i))
      && (r.Done? && ok ==> r.io.interest == Masked(io.interest, fd, ContextOf(io, fd).events + {e}) && r.io.added == io.added + [job])
      && (r.Done? && !ok ==> r.io.interest == io.interest && r.io.added == io.added)
      && (r.Done? ==> r.io.pending == (if ok then io.pending + 1 else io.pending)
                      && r.io.scheduled == io.scheduled && r.io.deleted == io.deleted)
  {
    if fd >= |io.contexts| {
      GrownIsGood(io, fd * 3 / 2);
    }
    AddEventEffect(io, fd, e, job, ok);
    AddEventGood(io, Looked(io, fd), fd, e, job, ok);
    hide Good, AddEvent, Looked, Masked, Filled, ContextOf;
  }

  lemma AddEventGood(io: Io, t: Io, fd: nat, e: Event, job: Job, ok: bool)
    requires 32 <= |io.contexts| && t == Looked(io, fd) && Good(t)
    ensures var r := AddEvent(io, fd, e, job, ok); r.Done? ==> Good(r.io)
  {
    hide Looked;
    var c := t.contexts[fd];
    var r := AddEvent(io, fd, e, job, ok);
    if r.Done? && ok {
      assert ContextOk(c);
      var c' := WithSlot(c.(events := c.events + {e}), e, Some(job));
      hide Sum, Interest;
      forall j: Job
        ensures Sum(r.io.added, JobCount(j)) == Sum(t.added, JobCount(j)) + One(job == j)
      {
        SumAppend(t.added, job, JobCount(j));
      }
      ContextChanged(t, r.io, fd, c');
    }
  }

  lemma LookedContexts(io: Io, fd: nat)
    requires 32 <= |io.contexts|
    ensures forall i: nat :: ContextOf(Looked(io, fd), i) == ContextOf(io, i)
    ensures |Looked(io, fd).contexts| == if fd < |io.contexts| then |io.contexts| else fd * 3 / 2
    ensures Looked(io, fd).interest == io.interest && Looked(io, fd).added == io.added && Looked(io, fd).pending == io.pending
    ensures Looked(io, fd).scheduled == io.scheduled && Looked(io, fd).deleted == io.deleted
  {
  }

  /** `delEvent`: it does nothing or takes one registration away, and only that one. */
  lemma DelEventKeeps(io: Io, fd: nat, e: Event, ok: bool)
    requires Good(io)
    ensures var r := DelEvent(io, fd, e, ok);
      && r.Done? && Good(r.io)
      && (r.ok <==> ok && fd < |io.contexts| && e in io.contexts[fd].events)
      && (!r.ok ==> r.io == io)
      && (r.ok ==> var c := io.contexts[fd];
            && JobOf(c, e).Some?
            && r.io == io.(contexts := io.contexts[fd := Cleared(c, {e})], interest := Masked(io.interest, fd, c.events - {e}),
                           pending := io.pending - 1, deleted := io.deleted + [JobOf(c, e).value]))
  {
    var r := DelEvent(io, fd, e, ok);
    if r.ok {
      var c := io.contexts[fd];
      assert ContextOk(c);
      var job := Slot(c, e).value;
      MaskedIs(io.interest, fd, c.events - {e});
      hide Sum, Interest, Masked;
      forall j: Job
        ensures Sum(r.io.deleted, JobCount(j)) == Sum(io.deleted, JobCount(j)) + One(job == j)
      {
        SumAppend(io.deleted, job, JobCount(j));
      }
      ContextChanged(io, r.io, fd, r.io.contexts[fd]);
    }
  }

  /** `cancelEvent`: it does nothing or schedules one registration, and only that one. */
  lemma CancelEventKeeps(io: Io, fd: nat, e: Event, ok: bool)
    requires Good(io)
    ensures var r := CancelEvent(io, fd, e, ok);
      && r.Done? && Good(r.io)
      && (r.ok <==> ok && fd < |io.contexts| && e in io.contexts[fd].events)
      && (!r.ok ==> r.io == io)
      && (r.ok ==> var c := io.contexts[fd];
            && JobOf(c, e).Some?
            && r.io == io.(contexts := io.contexts[fd := Cleared(c, {e})], interest := Masked(io.interest, fd, c.events - {e}),
                           pending := io.pending - 1, scheduled := io.scheduled + [JobOf(c, e).value]))
  {
    var r := CancelEvent(io, fd, e, ok);
    if fd < |io.contexts| && e in io.contexts[fd].events && ok {
      assert ContextOk(io.contexts[fd]);
      TriggerKeeps(io, fd, {e});
      var started := io.(interest := Interest(io.interest, fd, io.contexts[fd].events - {e}));
      assert r == TriggerBoth(started, fd, READ in {e}, WRITE in {e});
      MaskedIs(io.interest, fd, io.contexts[fd].events - {e});
      hide Good, Interest, Masked;
      assert Fired(io.contexts[fd], {e}) == [JobOf(io.contexts[fd], e).value];
      TriggerBothEffect(started, fd, {e});
    }
  }

  /** `cancelAll`: it does nothing or schedules everything registered. */
  lemma CancelAllKeeps(io: Io, fd: nat, ok: bool)
    requires Good(io)
    ensures var r := CancelAll(io, fd, ok);
      && r.Done? && Good(r.io)
      && (r.ok <==> ok && fd < |io.contexts| && io.contexts[fd].events != {})
      && (!r.ok ==> r.io == io)
      && (r.ok ==> var c := io.contexts[fd];
            r.io == io.(contexts := io.contexts[fd := Context({}, None, None)], interest := Masked(io.interest, fd, {}),
                        pending := io.pending - |c.events|, scheduled := io.scheduled + Fired(c, c.events)))
  {
    if fd < |io.contexts| && io.contexts[fd].events != {} && ok {
      var c := io.contexts[fd];
      assert ContextOk(c);
      TriggerKeeps(io, fd, c.events);
      assert c.events - c.events == {};
      TriggerBothEffect(io.(interest := Interest(io.interest, fd, {})), fd, c.events);
      MaskedIs(io.interest, fd, {});
      HowMany(c.events);
      hide Good, Interest, TriggerBoth, Masked;
      assert Cleared(c, c.events) == EMPTY;
    }
  }

  /** A report: it does nothing when no event is concerned or `epoll_ctl` fails; it halts exactly when it
      also names an event that is not registered; otherwise it schedules what it names. */
  lemma ReportKeeps(io: Io, fd: nat, reported: set<Event>, broken: bool, ok: bool)
    requires Good(io) && fd < |io.contexts|
    ensures var c, r := io.contexts[fd], Report(io, fd, reported, broken, ok);
      var due := if broken then reported + c.events else reported;
      && (r.Halted? <==> ok && c.events * due != {} && !(due <= c.events))
      && (r.Done? ==> Good(r.io) && (r.ok <==> ok && c.events * due != {}) && (!r.ok ==> r.io == io))
      && (r.Done? && r.ok ==>
            r.io == io.(contexts := io.contexts[fd := Cleared(c, due)], interest := Masked(io.interest, fd, c.events - due),
                        pending := io.pending - |due|, scheduled := io.scheduled + Fired(c, due)))
  {
    var c := io.contexts[fd];
    var due := if broken then reported + c.events else reported;
    assert RealEvents(c.events, reported, broken) == due;
    assert ContextOk(c);
    if ok && c.events * due != {} {
      TriggerBothEffect(io.(interest := Interest(io.interest, fd, c.events - due)), fd, due);
      MaskedIs(io.interest, fd, c.events - due);
      HowMany(due);
      hide TriggerBoth, Interest, Masked;
      if due <= c.events {
        TriggerKeeps(io, fd, due);
      }
    }
  }

  // ---------- Histories ----------

  datatype Op =
    | Add(fd: nat, e: Event, job: Job, ok: bool)
    | Del(fd: nat, e: Event, ok: bool)
    | CancelOne(fd: nat, e: Event, ok: bool)
    | CancelBoth(fd: nat, ok: bool)
    | Reported(fd: nat, reported: set<Event>, broken: bool, ok: bool)

  /** One operation; reports are about contexts of the table. */
  function Apply(io: Io, op: Op): Outcome
    requires 32 <= |io.contexts|
  {
    match op
    case Add(fd, e, job, ok) => AddEvent(io, fd, e, job, ok)
    case Del(fd, e, ok) => DelEvent(io, fd, e, ok)
    case CancelOne(fd, e, ok) => CancelEvent(io, fd, e, ok)
    case CancelBoth(fd, ok) => CancelAll(io, fd, ok)
    case Reported(fd, reported, broken, ok) =>
      if fd < |io.contexts| then Report(io, fd, reported, broken, ok) else Done(io, false)
  }

  const START := Io(seq(32, i => EMPTY), map[], 0, [], [], [])

  /** A whole history, up to a failed assertion. */
  ghost predicate Reaches(io: Io, ops: seq<Op>, r: Io)
    decreases |ops|
  {
    if ops == [] then r == io
    else 32 <= |io.contexts| && Apply(io, ops[0]).Done? && Reaches(Apply(io, ops[0]).io, ops[1..], r)
  }

  lemma StepKeeps(io: Io, op: Op)
    requires Good(io) && Apply(io, op).Done?
    ensures Good(Apply(io, op).io)
  {
    hide Good;
    match op
    case Add(fd, e, job, ok) => AddEventKeeps(io, fd, e, job, ok);
    case Del(fd, e, ok) => DelEventKeeps(io, fd, e, ok);
    case CancelOne(fd, e, ok) => CancelEventKeeps(io, fd, e, ok);
    case CancelBoth(fd, ok) => CancelAllKeeps(io, fd, ok);
    case Reported(fd, reported, broken, ok) =>
      if fd < |io.contexts| {
        ReportKeeps(io, fd, reported, broken, ok);
      }
  }

  lemma StartIsGood()
    ensures Good(START)
  {
    SumNonNegative(START.contexts, EventCount());
    forall j: Job
      ensures Missing(START, j) == 0
    {
      SumNonNegative(START.contexts, SlotCount(j));
    }
  }

  lemma {:induction false} HistoryKeeps(io: Io, ops: seq<Op>, r: Io)
    requires Good(io) && Reaches(io, ops, r)
    ensures Good(r)
    decreases |ops|
  {
    hide Good, Apply;
    if ops != [] {
      StepKeeps(io, ops[0]);
      HistoryKeeps(Apply(io, ops[0]).io, ops[1..], r);
    }
  }

  /** After any history from the start: each registration of a job sits in one slot, or was scheduled once,
      or was deleted once; the pending count is the number of event bits. */
  lemma AccountsBalance(ops: seq<Op>, r: Io)
    requires Reaches(START, ops, r)
    ensures forall j: Job ::
      Sum(r.added, JobCount(j)) ==
      Sum(r.contexts, SlotCount(j)) + Sum(r.scheduled, JobCount(j)) + Sum(r.deleted, JobCount(j))
    ensures r.pending == Sum(r.contexts, EventCount())
    ensures forall i | 0 <= i < |r.contexts| ::
      ContextOk(r.contexts[i]) && (r.contexts[i].events == {} ==> i !in r.interest)
      && (r.contexts[i].events != {} ==> i in r.interest && r.interest[i] == r.contexts[i].events)
  {
    StartIsGood();
    HistoryKeeps(START, ops, r);
    hide Sum;
    forall j: Job
      ensures Sum(r.added, JobCount(j)) ==
              Sum(r.contexts, SlotCount(j)) + Sum(r.scheduled, JobCount(j)) + Sum(r.deleted, JobCount(j))
    {
      assert Missing(r, j) == 0;
    }
  }
}
