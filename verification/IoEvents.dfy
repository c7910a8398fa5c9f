/** Event slots of file descriptors: what each operation does to them, and what stays true. */
module IoEvents {
  import opened Wrappers
  import opened Sums
  import opened Jobs

  datatype Event = READ | WRITE

  /** The context of one descriptor: the events it waits for and the job in each slot. */
  datatype Context = Context(events: set<Event>, read: Option<Job>, write: Option<Job>)

  const EMPTY := Context({}, None, None)

  /** The table, the interest list of the kernel, the pending count, and what has happened to jobs: the
      ones registered, scheduled and deleted so far. */
  datatype Io = Io(
    contexts: seq<Context>,
    interest: map<nat, set<Event>>,
    pending: int,
    added: seq<Job>,
    scheduled: seq<Job>,
    deleted: seq<Job>)

  /** An operation's answer, or a failed assertion. */
  datatype Outcome = Done(io: Io, ok: bool) | Halted

  function Slot(c: Context, e: Event): Option<Job> {
    if e == READ then c.read else c.write
  }

  function WithSlot(c: Context, e: Event, o: Option<Job>): Context {
    if e == READ then c.(read := o) else c.(write := o)
  }

  /** `contextResize`: new contexts are empty, old ones stay. */
  function Grown(io: Io, size: nat): (r: Io)
    requires |io.contexts| <= size
    ensures |r.contexts| == size
  {
    io.(contexts := io.contexts + seq(size - |io.contexts|, i => EMPTY))
  }

  /** The table after looking up `fd` for `addEvent`. */
  function Looked(io: Io, fd: nat): (r: Io)
    requires 32 <= |io.contexts|
    ensures fd < |r.contexts| && |io.contexts| <= |r.contexts|
  {
    if fd < |io.contexts| then io else Grown(io, fd * 3 / 2)
  }

  /** What `epoll_ctl` leaves in the kernel: the mask, or no entry when nothing is asked for. */
  function Interest(interest: map<nat, set<Event>>, fd: nat, events: set<Event>): map<nat, set<Event>> {
    if events == {} then interest - {fd} else interest[fd := events]
  }

  function AddEvent(io: Io, fd: nat, e: Event, job: Job, ok: bool): Outcome
    requires 32 <= |io.contexts|
  {
    var t := Looked(io, fd);
    var c := t.contexts[fd];
    if e in c.events then Halted
    else if !ok then Done(t, false)
    else if Slot(c, e) != None then Halted
    else
      Done(t.(contexts := t.contexts[fd := WithSlot(c.(events := c.events + {e}), e, Some(job))],
              interest := Interest(t.interest, fd, c.events + {e}),
              pending := t.pending + 1, added := t.added + [job]), true)
  }

  function DelEvent(io: Io, fd: nat, e: Event, ok: bool): Outcome {
    if fd >= |io.contexts| || e !in io.contexts[fd].events || !ok then Done(io, false)
    else
      var c := io.contexts[fd];
      Done(io.(contexts := io.contexts[fd := WithSlot(c.(events := c.events - {e}), e, None)],
               interest := Interest(io.interest, fd, c.events - {e}),
               pending := io.pending - 1,
               deleted := io.deleted + if Slot(c, e).Some? then [Slot(c, e).value] else []), true)
  }

  /** `triggerEvent`: the event must be registered; its job is scheduled and its slot emptied. A job that
      is neither callback nor fiber is not accepted by `schedule`. */
  function Trigger(io: Io, fd: nat, e: Event): Outcome
    requires fd < |io.contexts|
  {
    var c := io.contexts[fd];
    if e !in c.events then Halted
    else
      Done(io.(contexts := io.contexts[fd := WithSlot(c.(events := c.events - {e}), e, None)],
               scheduled := io.scheduled + if Slot(c, e).Some? then [Slot(c, e).value] else []), true)
  }

  /** Trigger an event if it is asked for, and take back its count. */
  function TriggerIf(io: Io, fd: nat, e: Event, wanted: bool): Outcome
    requires fd < |io.contexts|
  {
    if !wanted then Done(io, true)
    else
      var r := Trigger(io, fd, e);
      if r.Halted? then Halted else Done(r.io.(pending := r.io.pending - 1), true)
  }

  /** The two triggers in their order. */
  function TriggerBoth(io: Io, fd: nat, read: bool, write: bool): Outcome
    requires fd < |io.contexts|
  {
    var r := TriggerIf(io, fd, READ, read);
    if r.Halted? then Halted else TriggerIf(r.io, fd, WRITE, write)
  }

  function CancelEvent(io: Io, fd: nat, e: Event, ok: bool): Outcome {
    if fd >= |io.contexts| || e !in io.contexts[fd].events || !ok then Done(io, false)
    else TriggerIf(io.(interest := Interest(io.interest, fd, io.contexts[fd].events - {e})), fd, e, true)
  }

  function CancelAll(io: Io, fd: nat, ok: bool): Outcome {
    if fd >= |io.contexts| || io.contexts[fd].events == {} || !ok then Done(io, false)
    else
      var c := io.contexts[fd];
      var r := TriggerBoth(io.(interest := Interest(io.interest, fd, {})), fd, READ in c.events, WRITE in c.events);
      if r.Halted? || r.io.contexts[fd].events != {} then Halted else r
  }

  /** The events a report stands for: an error or a hang-up counts as all that are registered. */
  function RealEvents(registered: set<Event>, reported: set<Event>, broken: bool): set<Event> {
    reported + if broken then registered else {}
  }

  /** One report in the loop of `idle`. */
  function Report(io: Io, fd: nat, reported: set<Event>, broken: bool, ok: bool): Outcome
    requires fd < |io.contexts|
  {
    var c := io.contexts[fd];
    var due := RealEvents(c.events, reported, broken);
    if c.events * due == {} || !ok then Done(io, false)
    else TriggerBoth(io.(interest := Interest(io.interest, fd, c.events - due)), fd, READ in due, WRITE in due)
  }

  // ---------- The invariant ----------

  function EventCount(): Context -> int {
    (c: Context) => One(READ in c.events) + One(WRITE in c.events)
  }

  function JobCount(j: Job): Job -> int {
    (x: Job) => One(x == j)
  }

  function SlotCount(j: Job): Context -> int {
    (c: Context) => One(c.read == Some(j)) + One(c.write == Some(j))
  }

  predicate ContextOk(c: Context) {
    (c.read.Some? <==> READ in c.events) && (c.write.Some? <==> WRITE in c.events)
  }

  /** How often a job has been registered, less where it is now: in a slot, scheduled or deleted. */
  function Missing(io: Io, j: Job): int {
    Sum(io.added, JobCount(j)) - Sum(io.contexts, SlotCount(j)) - Sum(io.scheduled, JobCount(j)) - Sum(io.deleted, JobCount(j))
  }

  /** A slot is occupied exactly when its event bit is set; the kernel's mask is the set of bits; the
      pending count is the number of bits; no registration is lost or used twice. */
  ghost predicate Good(io: Io) {
    && 32 <= |io.contexts|
    && (forall i | 0 <= i < |io.contexts| :: ContextOk(io.contexts[i]))
    && (forall i: nat :: i in io.interest <==> i < |io.contexts| && io.contexts[i].events != {})
    && (forall i: nat | i in io.interest :: io.interest[i] == io.contexts[i].events)
    && io.pending == Sum(io.contexts, EventCount())
    && (forall j: Job :: Missing(io, j) == 0)
  }
}
