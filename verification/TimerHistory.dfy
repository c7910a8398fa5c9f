/** Whole histories of timer operations: no wake-up is lost, expiry is exact, no timer ends twice. */
module TimerHistory {
  import opened Wrappers
  import opened Timers

  datatype Op =
    | Add(addr: Addr, ms: nat, cb: Callback, recurring: bool, created: nat)
    | Cancel(addr: Addr)
    | Refresh(addr: Addr, now: nat)
    | Reset(addr: Addr, newMs: nat, fromNow: bool, now: nat)
    | Look(now: nat)
    | Expire(now: nat, probe: Addr)

  /** A new timer has a new address, the others exist. The clock never goes back, so a reading under the
      lock is not before another; but a new timer and an expiry read the clock before they take the lock,
      so their readings may be older than others, by any amount. */
  predicate Legal(m: Manager, op: Op) {
    match op
    case Add(a, _, _, _, _) => a !in m.timers
    case Cancel(a) => a in m.timers
    case Refresh(a, now) => a in m.timers && m.clock <= now
    case Reset(a, _, _, now) => a in m.timers && m.clock <= now
    case Look(now) => m.clock <= now
    case Expire(_, _) => true
  }

  function Reading(m: Manager, op: Op): nat {
    match op
    case Add(_, _, _, _, created) => if created < m.clock then m.clock else created
    case Cancel(_) => m.clock
    case Refresh(_, now) => now
    case Reset(_, _, _, now) => now
    case Look(now) => now
    case Expire(now, _) => if now < m.clock then m.clock else now
  }

  function Apply(m: Manager, op: Op): (r: Result)
    requires Good(m) && Legal(m, op)
  {
    var c := m.(clock := Reading(m, op));
    match op
    case Add(a, ms, cb, recurring, created) => Timers.Add(c, a, ms, cb, recurring, created)
    case Cancel(a) => Timers.Cancel(c, a)
    case Refresh(a, now) => Timers.Refresh(c, a, now)
    case Reset(a, ms, fromNow, now) => Timers.Reset(c, a, ms, fromNow, now)
    case Look(now) => Timers.Look(c, now)
    case Expire(now, probe) => Timers.Expire(c, now, probe)
  }

  // ---------- The invariant, operation by operation ----------

  lemma AddKeeps(m: Manager, a: Addr, ms: nat, cb: Callback, recurring: bool, created: nat)
    requires Good(m) && a !in m.timers && created <= m.clock
    ensures Good(Timers.Add(m, a, ms, cb, recurring, created).m)
  {
    var t := Timer(created + ms, ms, recurring, Some(cb));
    SortedElsewhere(m.timers, m.timers[a := t], m.queue);
    ArmKeeps(m.(timers := m.timers[a := t]), a);
  }

  lemma CancelKeeps(m: Manager, a: Addr)
    requires Good(m) && a in m.timers
    ensures Good(Timers.Cancel(m, a).m)
  {
    if m.timers[a].cb.Some? {
      FindsLive(m, a);
      var i := Find(m.timers, m.queue, a).value;
      EraseKeeps(m.timers, m.queue, i);
      hide Find, Erase;
      SortedElsewhere(m.timers, m.timers[a := m.timers[a].(cb := None)], Erase(m.queue, i));
    }
  }

  lemma RefreshKeeps(m: Manager, a: Addr)
    requires Good(m) && a in m.timers
    ensures Good(Timers.Refresh(m, a, m.clock).m)
    ensures Timers.Refresh(m, a, m.clock).ok == m.timers[a].cb.Some?
  {
    hide *;
    GoodParts(m);
    FoundLive(m, a);
    RefreshIs(m, a);
    if m.timers[a].cb.Some? {
      var t' := m.timers[a].(next := m.clock + m.timers[a].ms);
      TakeOut(m, a, t');
      PutBack(TakenOut(m, a, Find(m.timers, m.queue, a).value, t'), a);
    }
  }

  lemma GoodParts(m: Manager)
    requires Good(m)
    ensures Known(m.timers, m.queue)
  {
  }

  lemma RefreshIs(m: Manager, a: Addr)
    requires Known(m.timers, m.queue) && a in m.timers
    ensures var t, found, r := m.timers[a], Find(m.timers, m.queue, a), Timers.Refresh(m, a, m.clock);
      if t.cb == None || found == None then r == Result(m, false, false, None, [])
      else
        var out := TakenOut(m, a, found.value, t.(next := m.clock + t.ms));
        r == Result(out.(queue := Insert(out.timers, out.queue, a)), false, true, None, [])
  {
    hide Find, TakenOut, Insert;
  }

  lemma FoundLive(m: Manager, a: Addr)
    requires Good(m) && a in m.timers
    ensures m.timers[a].ms <= m.timers[a].next <= m.clock + m.timers[a].ms
    ensures Find(m.timers, m.queue, a).Some? <==> m.timers[a].cb.Some?
    ensures Find(m.timers, m.queue, a).Some? ==> m.queue[Find(m.timers, m.queue, a).value] == a
  {
    FindsMember(m.timers, m.queue, a);
  }

  lemma ResetKeeps(m: Manager, a: Addr, ms: nat, fromNow: bool)
    requires Good(m) && a in m.timers
    ensures m.timers[a].ms <= m.timers[a].next
    ensures Good(Timers.Reset(m, a, ms, fromNow, m.clock).m)
    ensures Timers.Reset(m, a, ms, fromNow, m.clock).ok == (m.timers[a].cb.Some? || (ms == m.timers[a].ms && !fromNow))
  {
    hide *;
    GoodParts(m);
    FoundLive(m, a);
    ResetIs(m, a, ms, fromNow);
    var t := m.timers[a];
    if t.cb.Some? && (ms != t.ms || fromNow) {
      var t' := t.(ms := ms, next := (if fromNow then m.clock else t.next - t.ms) + ms);
      TakeOut(m, a, t');
      ArmKeeps(TakenOut(m, a, Find(m.timers, m.queue, a).value, t'), a);
    }
  }

  lemma ResetIs(m: Manager, a: Addr, ms: nat, fromNow: bool)
    requires Known(m.timers, m.queue) && a in m.timers && m.timers[a].ms <= m.timers[a].next
    ensures var t, found, r := m.timers[a], Find(m.timers, m.queue, a), Timers.Reset(m, a, ms, fromNow, m.clock);
      if ms == t.ms && !fromNow then r == Result(m, false, true, None, [])
      else if t.cb == None || found == None then r == Result(m, false, false, None, [])
      else
        var out := TakenOut(m, a, found.value, t.(ms := ms, next := (if fromNow then m.clock else t.next - t.ms) + ms));
        r == Arm(out, a) && r.ok
  {
    hide Find, TakenOut;
  }

  // ---------- Expiry ----------

  /** The unsigned subtraction: within the first hour of the clock, or after it with a reading more than
      an hour old, any reading before the last one looks like a clock that went back. */
  lemma RolloverIff(now: nat, previous: nat)
    requires previous < 0x1_0000_0000_0000_0000
    ensures Rollover(now, previous) <==> now < previous && (previous < 3600000 || now < previous - 3600000)
  {
    if previous < 3600000 {
      assert (previous - 3600000) % 0x1_0000_0000_0000_0000 == previous - 3600000 + 0x1_0000_0000_0000_0000;
    }
  }

  /** Does an expiry with this reading take the timer out of the set? */
  predicate Goes(m: Manager, now: nat, a: Addr)
    requires Known(m.timers, m.queue)
  {
    a in m.queue && (Rollover(now, m.previous) || m.timers[a].next <= now)
  }

  function CutCount(m: Manager, now: nat, probe: Addr): (n: nat)
    requires Known(m.timers, m.queue)
    ensures n <= |m.queue|
  {
    if Rollover(now, m.previous) then |m.queue| else DueCount(m.timers, m.queue, now, probe)
  }

  /** The cut of the set at the expired timers. */
  lemma CutApart(m: Manager, n: nat)
    requires Good(m) && n <= |m.queue|
    ensures Known(m.timers, m.queue[..n]) && Known(m.timers, m.queue[n..]) && Sorted(m.timers, m.queue[n..])
    ensures Apart(m.queue[n..], m.queue[..n])
    ensures forall a :: a in m.queue <==> a in m.queue[..n] || a in m.queue[n..]
  {
    assert m.queue == m.queue[..n] + m.queue[n..];
    forall i | 0 <= i < n
      ensures m.queue[i] !in m.queue[n..]
    {
    }
  }

  /** How the timers are cut: those that go lie before the rest, and have their callbacks. */
  ghost predicate IsCut(m: Manager, now: nat, n: nat) {
    && n <= |m.queue| && Known(m.timers, m.queue) && Known(m.timers, m.queue[..n]) && Known(m.timers, m.queue[n..])
    && Sorted(m.timers, m.queue[n..]) && Apart(m.queue[n..], m.queue[..n])
    && (forall i | 0 <= i < n :: m.timers[m.queue[..n][i]].cb.Some?)
    && (forall a :: a in m.queue[..n] <==> Goes(m, now, a))
    && (forall a :: a in m.queue <==> a in m.queue[..n] || a in m.queue[n..])
    && (forall i | 0 <= i < |m.queue| :: i < n <==> Rollover(now, m.previous) || m.timers[m.queue[i]].next <= now)
  }

  lemma CutIsExact(m: Manager, now: nat, probe: Addr)
    requires Good(m)
    ensures IsCut(m, now, CutCount(m, now, probe))
  {
    var n := CutCount(m, now, probe);
    DueCountIsExact(m.timers, m.queue, now, probe);
    CutApart(m, n);
    hide DueCount, Sorted, Apart, Rollover;
    GoingArePrefix(m, now, n);
  }

  lemma GoingArePrefix(m: Manager, now: nat, n: nat)
    requires Known(m.timers, m.queue) && n <= |m.queue|
    requires forall i | 0 <= i < |m.queue| :: i < n <==> Rollover(now, m.previous) || m.timers[m.queue[i]].next <= now
    ensures forall a :: a in m.queue[..n] <==> Goes(m, now, a)
  {
    hide Rollover;
    forall a | Goes(m, now, a)
      ensures a in m.queue[..n]
    {
      var i :| 0 <= i < |m.queue| && m.queue[i] == a;
      assert m.queue[..n][i] == a;
    }
  }

  /** `listExpiredCb` as a cut and the loop over what is before it. */
  lemma ExpireIs(m: Manager, now: nat, probe: Addr)
    requires Good(m) && now <= m.clock && IsCut(m, now, CutCount(m, now, probe))
    ensures var n, r := CutCount(m, now, probe), Timers.Expire(m, now, probe);
      var left := Recycle(m.timers, m.queue[n..], m.queue[..n], now);
      && r.m.timers == left.0 && r.m.queue == left.1 && r.m.tickled == m.tickled && r.m.clock == m.clock
      && r.m.previous <= m.clock && !r.fired && r.delivered == Deliveries(m.timers, m.queue[..n])
  {
    hide DueCount, Apart, Rollover;
    var n := CutCount(m, now, probe);
    if n == 0 {
      assert m.queue[..0] == [] && m.queue[0..] == m.queue;
    }
  }

  predicate IsDue(m: Manager, now: nat, a: Addr)
    requires Known(m.timers, m.queue)
  {
    a in m.queue && m.timers[a].next <= now
  }

  /** `listExpiredCb` hands out the callbacks of exactly the timers that go, in the order of the set,
      whatever the address of its probe. */
  lemma ExpiryIsCut(m: Manager, now: nat, probe: Addr)
    requires Good(m) && now <= m.clock
    ensures var r := Timers.Expire(m, now, probe);
      && |r.delivered| <= |m.queue|
      && (forall a :: Goes(m, now, a) <==> a in m.queue[..|r.delivered|])
      && (forall i | 0 <= i < |r.delivered| ::
            r.delivered[i].addr == m.queue[i] && m.timers[m.queue[i]].cb == Some(r.delivered[i].cb))
  {
    CutIsExact(m, now, probe);
    ExpireIs(m, now, probe);
    var n := CutCount(m, now, probe);
    hide Recycle, CutCount, Sorted, Apart, Timers.Expire;
    var r := Timers.Expire(m, now, probe);
    assert |r.delivered| == n;
    assert forall i | 0 <= i < n :: r.delivered[i].addr == m.queue[..n][i];
  }

  /** Expiry is exact: the callbacks handed out are those of precisely the timers due at the reading, in
      the order of deadlines, if and only if no rollover is seen or every timer is due. */
  lemma ExpiryIsExact(m: Manager, now: nat, probe: Addr)
    requires Good(m) && now <= m.clock
    ensures var r := Timers.Expire(m, now, probe);
      && |r.delivered| <= |m.queue|
      && (forall i | 0 <= i < |r.delivered| ::
            r.delivered[i].addr == m.queue[i] && m.timers[m.queue[i]].cb == Some(r.delivered[i].cb))
      && ((forall a :: IsDue(m, now, a) <==> a in m.queue[..|r.delivered|])
          <==> !Rollover(now, m.previous) || forall a | a in m.queue :: m.timers[a].next <= now)
  {
    ExpiryIsCut(m, now, probe);
    hide Rollover, Timers.Expire, Sorted;
    if Rollover(now, m.previous) {
      forall a | a in m.queue
        ensures a in m.queue[..|Timers.Expire(m, now, probe).delivered|]
      {
        assert Goes(m, now, a);
      }
    }
  }

  /** The timers that go are set again or end, the others do not change. */
  lemma ExpireKeeps(m: Manager, now: nat, probe: Addr)
    requires Good(m) && now <= m.clock
    ensures var r := Timers.Expire(m, now, probe);
      && r.m.timers.Keys == m.timers.Keys
      && (forall a | a in m.timers :: r.m.timers[a] == if Goes(m, now, a) then Recycled(m.timers[a], now) else m.timers[a])
      && (forall a :: a in r.m.queue <==> a in m.queue && (Goes(m, now, a) ==> m.timers[a].recurring))
      && Good(r.m) && r.m.tickled == m.tickled && r.m.clock == m.clock && !r.fired
  {
    hide *;
    GoodParts(m);
    CutIsExact(m, now, probe);
    ExpireIs(m, now, probe);
    var n := CutCount(m, now, probe);
    CutParts(m, now, n);
    RecycleEffect(m.timers, m.queue[n..], m.queue[..n], now);
    RecycledIsGood(m, now, n, Timers.Expire(m, now, probe).m);
  }

  lemma CutParts(m: Manager, now: nat, n: nat)
    requires IsCut(m, now, n)
    ensures n <= |m.queue| && Known(m.timers, m.queue) && Known(m.timers, m.queue[..n]) && Known(m.timers, m.queue[n..])
    ensures Sorted(m.timers, m.queue[n..]) && Apart(m.queue[n..], m.queue[..n])
  {
  }

  lemma RecycledIsGood(m: Manager, now: nat, n: nat, r: Manager)
    requires Good(m) && now <= m.clock && IsCut(m, now, n) && Known(r.timers, r.queue) && Sorted(r.timers, r.queue)
    requires RecycledAll(m.timers, m.queue[n..], m.queue[..n], now, r.timers, r.queue)
    requires r.clock == m.clock && r.previous <= m.clock
    ensures Good(r)
    ensures forall a | a in m.timers :: r.timers[a] == if Goes(m, now, a) then Recycled(m.timers[a], now) else m.timers[a]
    ensures forall a :: a in r.queue <==> a in m.queue && (Goes(m, now, a) ==> m.timers[a].recurring)
    ensures r.timers.Keys == m.timers.Keys
  {
    hide Sorted, Rollover;
    forall a | a in m.timers
      ensures r.timers[a] == if Goes(m, now, a) then Recycled(m.timers[a], now) else m.timers[a]
      ensures r.timers[a].ms <= r.timers[a].next <= r.clock + r.timers[a].ms
      ensures a in r.queue <==> r.timers[a].cb.Some?
    {
    }
    forall a
      ensures a in r.queue <==> a in m.queue && (Goes(m, now, a) ==> m.timers[a].recurring)
    {
      StaysOrGoes(m, now, n, a);
    }
  }

  lemma StaysOrGoes(m: Manager, now: nat, n: nat, a: Addr)
    requires IsCut(m, now, n)
    ensures a in m.queue[n..] <==> a in m.queue && !Goes(m, now, a)
  {
    hide Sorted, Rollover;
  }

  /** Every operation keeps the invariant, moves the clock on and forgets no timer. */
  lemma StepKeeps(m: Manager, op: Op)
    requires Good(m) && Legal(m, op)
    ensures var r := Apply(m, op);
      Good(r.m) && r.m.clock == Reading(m, op) && m.timers.Keys <= r.m.timers.Keys
  {
    var c := m.(clock := Reading(m, op));
    LaterIsGood(m, Reading(m, op));
    hide Timers.Expire, Timers.Refresh, Timers.Reset, Timers.Cancel, Good;
    match op
    case Add(a, ms, cb, recurring, created) => AddKeeps(c, a, ms, cb, recurring, created);
    case Cancel(a) => CancelKeeps(c, a);
    case Refresh(a, now) => RefreshKeeps(c, a);
    case Reset(a, ms, fromNow, now) => ResetKeeps(c, a, ms, fromNow);
    case Look(now) => LookKeeps(c);
    case Expire(now, probe) => ExpireKeeps(c, now, probe);
  }

  lemma LaterIsGood(m: Manager, clock: nat)
    requires Good(m) && m.clock <= clock
    ensures Good(m.(clock := clock))
  {
    hide Sorted;
  }

  lemma LookKeeps(m: Manager)
    requires Good(m)
    ensures Good(Timers.Look(m, m.clock).m)
  {
    hide Sorted;
  }

  // ---------- Waking up in time ----------

  function Earliest(m: Manager): Option<nat>
    requires Known(m.timers, m.queue)
  {
    if m.queue == [] then None else Some(m.timers[m.queue[0]].next)
  }

  predicate Sooner(a: Option<nat>, b: Option<nat>) {
    a.Some? && (b.None? || a.value < b.value)
  }

  /** No timer in the set is due before `e`. */
  predicate NoneBefore(m: Manager, e: Option<nat>)
    requires Known(m.timers, m.queue)
  {
    forall a | a in m.queue :: e.Some? && e.value <= m.timers[a].next
  }

  lemma EarliestIsLeast(m: Manager, e: Option<nat>)
    requires Known(m.timers, m.queue) && Sorted(m.timers, m.queue)
    ensures Sooner(Earliest(m), e) <==> !NoneBefore(m, e)
  {
    forall a | a in m.queue
      ensures m.timers[m.queue[0]].next <= m.timers[a].next
    {
      var i :| 0 <= i < |m.queue| && m.queue[i] == a;
      assert i > 0 ==> Before(KeyOf(m.timers, m.queue[0]), KeyOf(m.timers, m.queue[i]));
    }
  }

  lemma MembersOnly(m: Manager, r: Manager, e: Option<nat>)
    requires Known(m.timers, m.queue) && Known(r.timers, r.queue) && NoneBefore(m, e)
    requires forall b | b in r.queue :: b in m.queue && b in m.timers && m.timers[b].next <= r.timers[b].next
    ensures NoneBefore(r, e)
  {
    forall b | b in r.queue
      ensures e.Some? && e.value <= r.timers[b].next
    {
      assert b in m.queue && m.timers[b].next <= r.timers[b].next;
    }
  }

  /** Putting a timer in without a notification leaves the front where it was. */
  lemma ArmWakes(m: Manager, a: Addr, e: Option<nat>)
    requires GoodBut(m, a) && NoneBefore(m, e) && !m.tickled && !Arm(m, a).fired
    ensures NoneBefore(Arm(m, a).m, e)
  {
    ArmKeeps(m, a);
    EarliestIsLeast(Arm(m, a).m, e);
    hide Sorted, GoodBut, Good, Insert;
    assert m.queue != [] && Arm(m, a).m.queue[0] == m.queue[0];
  }

  lemma AddWakes(m: Manager, a: Addr, ms: nat, cb: Callback, recurring: bool, created: nat, e: Option<nat>)
    requires Good(m) && a !in m.timers && created <= m.clock && NoneBefore(m, e)
    requires !m.tickled && !Timers.Add(m, a, ms, cb, recurring, created).fired
    ensures NoneBefore(Timers.Add(m, a, ms, cb, recurring, created).m, e)
  {
    var t := Timer(created + ms, ms, recurring, Some(cb));
    SortedElsewhere(m.timers, m.timers[a := t], m.queue);
    ArmWakes(m.(timers := m.timers[a := t]), a, e);
  }

  lemma CancelWakes(m: Manager, a: Addr, e: Option<nat>)
    requires Good(m) && a in m.timers && NoneBefore(m, e)
    ensures Good(Timers.Cancel(m, a).m) && NoneBefore(Timers.Cancel(m, a).m, e)
  {
    CancelKeeps(m, a);
    if m.timers[a].cb.Some? {
      FindsLive(m, a);
      EraseKeeps(m.timers, m.queue, Find(m.timers, m.queue, a).value);
      hide Find, Erase, Sorted, NoneBefore;
      MembersOnly(m, Timers.Cancel(m, a).m, e);
    }
  }

  /** `refresh` may move a timer only behind its old place. */
  lemma RefreshWakes(m: Manager, a: Addr, e: Option<nat>)
    requires Good(m) && a in m.timers && NoneBefore(m, e)
    ensures Good(Timers.Refresh(m, a, m.clock).m) && NoneBefore(Timers.Refresh(m, a, m.clock).m, e)
  {
    hide *;
    GoodParts(m);
    FoundLive(m, a);
    RefreshKeeps(m, a);
    RefreshIs(m, a);
    if m.timers[a].cb.Some? {
      var t' := m.timers[a].(next := m.clock + m.timers[a].ms);
      TakeOut(m, a, t');
      var out := TakenOut(m, a, Find(m.timers, m.queue, a).value, t');
      PutBackMembers(out, a);
      LiveIsQueued(m, a);
      MembersOnly(m, Timers.Refresh(m, a, m.clock).m, e);
    }
  }

  lemma PutBackMembers(m: Manager, a: Addr)
    requires GoodBut(m, a)
    ensures forall b :: b in Insert(m.timers, m.queue, a) <==> b == a || b in m.queue
  {
    InsertKeeps(m.timers, m.queue, a);
  }

  lemma LiveIsQueued(m: Manager, a: Addr)
    requires Good(m) && a in m.timers && m.timers[a].cb.Some?
    ensures a in m.queue
    ensures forall b | b in m.queue :: b in m.timers
  {
  }

  lemma TakeOutWakes(m: Manager, a: Addr, t: Timer, e: Option<nat>)
    requires Good(m) && a in m.timers && m.timers[a].cb.Some? && t.cb.Some? && NoneBefore(m, e)
    requires t.ms <= t.next <= m.clock + t.ms
    ensures Find(m.timers, m.queue, a).Some?
    ensures var out := TakenOut(m, a, Find(m.timers, m.queue, a).value, t);
      GoodBut(out, a) && out.tickled == m.tickled && NoneBefore(out, e)
  {
    hide *;
    GoodParts(m);
    TakeOut(m, a, t);
    LiveIsQueued(m, a);
    MembersOnly(m, TakenOut(m, a, Find(m.timers, m.queue, a).value, t), e);
  }

  lemma ResetWakes(m: Manager, a: Addr, ms: nat, fromNow: bool, e: Option<nat>)
    requires Good(m) && a in m.timers && m.timers[a].ms <= m.timers[a].next && NoneBefore(m, e)
    requires !m.tickled && !Timers.Reset(m, a, ms, fromNow, m.clock).fired
    ensures Good(Timers.Reset(m, a, ms, fromNow, m.clock).m) && NoneBefore(Timers.Reset(m, a, ms, fromNow, m.clock).m, e)
  {
    hide *;
    GoodParts(m);
    FoundLive(m, a);
    ResetKeeps(m, a, ms, fromNow);
    ResetIs(m, a, ms, fromNow);
    var t := m.timers[a];
    if t.cb.Some? && (ms != t.ms || fromNow) {
      var t' := t.(ms := ms, next := (if fromNow then m.clock else t.next - t.ms) + ms);
      TakeOutWakes(m, a, t', e);
      ArmWakes(TakenOut(m, a, Find(m.timers, m.queue, a).value, t'), a, e);
    }
  }

  /** An expiry puts a timer before `e` exactly when it sees a rollover and there is a recurring timer whose
      period from the reading on ends before `e`. Without a rollover timers go back behind their old places. */
  lemma ExpireWakes(m: Manager, now: nat, probe: Addr, e: Option<nat>)
    requires Good(m) && now <= m.clock && NoneBefore(m, e)
    ensures Good(Timers.Expire(m, now, probe).m)
    ensures NoneBefore(Timers.Expire(m, now, probe).m, e) <==> !Slips(m, now, e)
  {
    ExpireKeeps(m, now, probe);
    var r := Timers.Expire(m, now, probe).m;
    hide Timers.Expire, Sorted, NoneBefore, Rollover;
    if !Slips(m, now, e) {
      BehindOrLater(m, now, r, e);
    } else {
      var i :| 0 <= i < |m.queue| && SlipsAt(m, now, e, m.queue[i]);
      var a := m.queue[i];
      assert Goes(m, now, a) && a in r.queue && r.timers[a] == Recycled(m.timers[a], now);
      SomeBefore(r, e, a);
    }
  }

  /** Timer `a` would be set again before `e`. */
  predicate SlipsAt(m: Manager, now: nat, e: Option<nat>, a: Addr) {
    a in m.timers && m.timers[a].recurring && (e.None? || now + m.timers[a].ms < e.value)
  }

  /** The expiry sees a rollover and sets a timer again before `e`. */
  predicate Slips(m: Manager, now: nat, e: Option<nat>) {
    Rollover(now, m.previous) && exists i | 0 <= i < |m.queue| :: SlipsAt(m, now, e, m.queue[i])
  }

  lemma BehindOrLater(m: Manager, now: nat, r: Manager, e: Option<nat>)
    requires Good(m) && Good(r) && NoneBefore(m, e) && !Slips(m, now, e)
    requires forall a | a in m.timers :: a in r.timers && r.timers[a] == if Goes(m, now, a) then Recycled(m.timers[a], now) else m.timers[a]
    requires forall a :: a in r.queue <==> a in m.queue && (Goes(m, now, a) ==> m.timers[a].recurring)
    ensures NoneBefore(r, e)
  {
    hide Sorted, Rollover;
    forall a | a in r.queue
      ensures e.Some? && e.value <= r.timers[a].next
    {
      assert a in m.queue && a in m.timers && e.Some? && e.value <= m.timers[a].next;
      var j :| 0 <= j < |m.queue| && m.queue[j] == a;
      if Rollover(now, m.previous) {
        assert !SlipsAt(m, now, e, m.queue[j]);
        assert Goes(m, now, a) && m.timers[a].recurring;
      } else {
        assert r.timers[a].next >= m.timers[a].next;
      }
    }
  }

  lemma SomeBefore(r: Manager, e: Option<nat>, a: Addr)
    requires Known(r.timers, r.queue) && a in r.queue && a in r.timers && (e.None? || r.timers[a].next < e.value)
    ensures !NoneBefore(r, e)
  {
    assert !(e.Some? && e.value <= r.timers[a].next);
  }

  /** What an operation does to the flag. */
  lemma StepFlags(m: Manager, op: Op)
    requires Good(m) && Legal(m, op)
    ensures var r := Apply(m, op);
      && (r.fired ==> !m.tickled && !op.Look?)
      && r.m.tickled == (if op.Look? then false else m.tickled || r.fired)
      && Good(r.m)
  {
    StepKeeps(m, op);
    LaterIsGood(m, Reading(m, op));
    var c := m.(clock := Reading(m, op));
    hide Good, Find, TakenOut, Insert, Timers.Refresh, Timers.Reset, Timers.Expire;
    match op
    case Add(_, _, _, _, _) =>
    case Cancel(_) =>
    case Look(_) =>
    case Refresh(b, now) => RefreshLife(c, b);
    case Reset(b, ms, fromNow, now) => ResetLife(c, b, ms, fromNow);
    case Expire(now, probe) => ExpireKeeps(c, now, probe);
  }

  /** Is this an expiry that sees a rollover and sets a timer again before `e`? */
  predicate SlipsBy(m: Manager, op: Op, e: Option<nat>) {
    op.Expire? && Slips(m, op.now, e)
  }

  /** What an operation without a notification does to the earliest deadline: a timer gets before `e`
      exactly by an expiry that slips. */
  lemma StepWakes(m: Manager, op: Op, e: Option<nat>)
    requires Good(m) && Legal(m, op) && Good(Apply(m, op).m)
    requires !m.tickled && !Apply(m, op).fired && NoneBefore(m, e)
    ensures NoneBefore(Apply(m, op).m, e) <==> !SlipsBy(m, op, e)
  {
    LaterIsGood(m, Reading(m, op));
    var c := m.(clock := Reading(m, op));
    SameQueue(m, c, e);
    hide Good, NoneBefore, Arm, Timers.Refresh, Timers.Reset, Timers.Cancel, Timers.Expire, Rollover, SlipsAt;
    match op
    case Add(a, ms, cb, recurring, created) => AddWakes(c, a, ms, cb, recurring, created, e);
    case Cancel(a) => CancelWakes(c, a, e);
    case Refresh(a, now) => RefreshWakes(c, a, e);
    case Reset(a, ms, fromNow, now) => ResetWakes(c, a, ms, fromNow, e);
    case Look(now) => SameQueue(c, Apply(m, op).m, e);
    case Expire(now, probe) =>
      ExpireWakes(c, now, probe, e);
      SameSlips(m, c, now, e);
  }

  lemma SameSlips(m: Manager, c: Manager, now: nat, e: Option<nat>)
    requires c.timers == m.timers && c.queue == m.queue && c.previous == m.previous
    ensures Slips(m, now, e) <==> Slips(c, now, e)
  {
    hide Rollover;
    assert forall i | 0 <= i < |m.queue| :: SlipsAt(m, now, e, m.queue[i]) <==> SlipsAt(c, now, e, c.queue[i]);
  }

  lemma SameQueue(m: Manager, r: Manager, e: Option<nat>)
    requires Known(m.timers, m.queue) && m.timers == r.timers && m.queue == r.queue
    ensures NoneBefore(m, e) <==> NoneBefore(r, e)
  {
  }

  // ---------- Whole histories ----------

  predicate LegalRun(m: Manager, ops: seq<Op>)
    requires Good(m)
    decreases |ops|
  {
    ops == [] || (Legal(m, ops[0]) && (StepKeeps(m, ops[0]); LegalRun(Apply(m, ops[0]).m, ops[1..])))
  }

  function RunTo(m: Manager, ops: seq<Op>): (r: Manager)
    requires Good(m) && LegalRun(m, ops)
    ensures Good(r) && m.clock <= r.clock && m.timers.Keys <= r.timers.Keys
    decreases |ops|
  {
    if ops == [] then m
    else
      StepKeeps(m, ops[0]);
      RunTo(Apply(m, ops[0]).m, ops[1..])
  }

  /** How often `onTimerInsertedAtFront` is called. */
  function Fires(m: Manager, ops: seq<Op>): nat
    requires Good(m) && LegalRun(m, ops)
    decreases |ops|
  {
    if ops == [] then 0
    else
      StepKeeps(m, ops[0]);
      (if Apply(m, ops[0]).fired then 1 else 0) + Fires(Apply(m, ops[0]).m, ops[1..])
  }

  /** At every point of the history up to the first notification, no timer is before `e`. */
  predicate StaysQuiet(m: Manager, ops: seq<Op>, e: Option<nat>)
    requires Good(m) && LegalRun(m, ops)
    decreases |ops|
  {
    && NoneBefore(m, e)
    && (ops == [] || Apply(m, ops[0]).fired || (StepKeeps(m, ops[0]); StaysQuiet(Apply(m, ops[0]).m, ops[1..], e)))
  }

  /** No expiry up to the first notification slips before `e`. */
  predicate SlipFree(m: Manager, ops: seq<Op>, e: Option<nat>)
    requires Good(m) && LegalRun(m, ops)
    decreases |ops|
  {
    ops == [] || (!SlipsBy(m, ops[0], e)
                  && (Apply(m, ops[0]).fired || (StepKeeps(m, ops[0]); SlipFree(Apply(m, ops[0]).m, ops[1..], e))))
  }

  lemma {:induction false} QuietIff(m: Manager, ops: seq<Op>, e: Option<nat>)
    requires Good(m) && LegalRun(m, ops) && !m.tickled && NoneBefore(m, e)
    ensures StaysQuiet(m, ops, e) <==> SlipFree(m, ops, e)
    decreases |ops|
  {
    if ops != [] {
      hide Good, NoneBefore, Apply, Legal, SlipsBy;
      StepKeeps(m, ops[0]);
      StepFlags(m, ops[0]);
      if Apply(m, ops[0]).fired {
        FiringDoesNotSlip(m, ops[0], e);
      } else {
        StepWakes(m, ops[0], e);
        if !SlipsBy(m, ops[0], e) {
          QuietIff(Apply(m, ops[0]).m, ops[1..], e);
        }
      }
    }
  }

  lemma FiringDoesNotSlip(m: Manager, op: Op, e: Option<nat>)
    requires Good(m) && Legal(m, op) && Apply(m, op).fired
    ensures !SlipsBy(m, op, e)
  {
    LaterIsGood(m, Reading(m, op));
    hide Good, Slips, Find, TakenOut, Insert, Timers.Reset, Timers.Refresh, Timers.Cancel, Arm, Recycle, DueCount, Rollover;
  }

  lemma {:induction false} QuietToTheEnd(m: Manager, ops: seq<Op>, e: Option<nat>)
    requires Good(m) && LegalRun(m, ops) && StaysQuiet(m, ops, e) && Fires(m, ops) == 0
    ensures NoneBefore(RunTo(m, ops), e)
    decreases |ops|
  {
    if ops != [] {
      hide Good, NoneBefore, Apply, Legal;
      StepKeeps(m, ops[0]);
      QuietToTheEnd(Apply(m, ops[0]).m, ops[1..], e);
    }
  }

  /** Which wake-ups are lost: after any look at the earliest deadline and any operations behind it, at every
      point before the next notification all deadlines are as late as the one seen, if and only if no expiry
      in between sees a rollover and sets a recurring timer again before that deadline. */
  lemma NoLostWakeup(m: Manager, now: nat, ops: seq<Op>)
    requires Good(m) && m.clock <= now
    ensures Good(Apply(m, Look(now)).m)
    ensures var look := Apply(m, Look(now));
      LegalRun(look.m, ops) ==> (StaysQuiet(look.m, ops, Earliest(m)) <==> SlipFree(look.m, ops, Earliest(m)))
  {
    StepKeeps(m, Look(now));
    var look := Apply(m, Look(now));
    EarliestIsLeast(m, Earliest(m));
    SameQueue(m, look.m, Earliest(m));
    assert !look.m.tickled;
    hide Good, Apply, NoneBefore, LegalRun;
    if LegalRun(look.m, ops) {
      QuietIff(look.m, ops, Earliest(m));
    }
  }

  /** So without such an expiry an earlier deadline than the one seen means that a notification was sent
      since, and whoever sleeps as long as the look told it, unless notified, oversleeps no timer. */
  lemma NobodyOversleeps(m: Manager, now: nat, ops: seq<Op>)
    requires Good(m) && m.clock <= now
    ensures Good(Apply(m, Look(now)).m)
    ensures var look := Apply(m, Look(now));
      LegalRun(look.m, ops) && SlipFree(look.m, ops, Earliest(m)) && Fires(look.m, ops) == 0 ==>
        && !Sooner(Earliest(RunTo(look.m, ops)), Earliest(m))
        && forall a | a in RunTo(look.m, ops).queue ::
             look.wait.Some? && (look.wait.value == 0 || now + look.wait.value <= RunTo(look.m, ops).timers[a].next)
  {
    NoLostWakeup(m, now, ops);
    var look := Apply(m, Look(now));
    assert Earliest(m) == None <==> look.wait == None;
    assert look.wait.Some? ==> look.wait.value == 0 || now + look.wait.value == Earliest(m).value;
    if LegalRun(look.m, ops) && SlipFree(look.m, ops, Earliest(m)) && Fires(look.m, ops) == 0 {
      hide Good, Apply, RunTo, Fires, LegalRun, SlipFree, StaysQuiet;
      QuietToTheEnd(look.m, ops, Earliest(m));
      EarliestAfter(RunTo(look.m, ops), Earliest(m));
    }
  }

  /** No expiry in the history has a reading older than others. */
  predicate FreshReadings(m: Manager, ops: seq<Op>)
    requires Good(m) && LegalRun(m, ops)
    decreases |ops|
  {
    ops == [] || ((ops[0].Expire? ==> m.clock <= ops[0].now)
                  && (StepKeeps(m, ops[0]); FreshReadings(Apply(m, ops[0]).m, ops[1..])))
  }

  /** Then no rollover is seen, and no wake-up is lost. */
  lemma {:induction false} FreshReadingsDoNotSlip(m: Manager, ops: seq<Op>, e: Option<nat>)
    requires Good(m) && LegalRun(m, ops) && FreshReadings(m, ops)
    ensures SlipFree(m, ops, e)
    decreases |ops|
  {
    if ops != [] {
      StepKeeps(m, ops[0]);
      assert !SlipsBy(m, ops[0], e);
      hide Good, Apply, Legal, SlipsBy;
      FreshReadingsDoNotSlip(Apply(m, ops[0]).m, ops[1..], e);
    }
  }

  // ---------- Where it fails ----------

  const EMPTY := Manager(map[], [], false, 0, 0)

  /** The state after a timer was set at time 0 for time `ms`, and a look and an expiry at time 5. */
  function AfterFive(ms: nat, recurring: bool): Manager {
    Manager(map[7 := Timer(5 + ms, ms, recurring, Some(Callback(1)))], [7], false, 5, 5)
  }

  lemma AfterFiveIsReached(ms: nat, recurring: bool)
    requires ms > 0
    ensures Good(EMPTY)
    ensures var ops := [Add(7, ms, Callback(1), recurring, 5), Look(5), Expire(5, 0)];
      LegalRun(EMPTY, ops) && RunTo(EMPTY, ops) == AfterFive(ms, recurring)
  {
    var ops := [Add(7, ms, Callback(1), recurring, 5), Look(5), Expire(5, 0)];
    var m1, m2 := AfterFive(ms, recurring).(tickled := true, previous := 0), AfterFive(ms, recurring).(previous := 0);
    FirstOfFive(ms, recurring);
    LaterOfFive(ms, recurring);
    hide *;
    assert ops[1..] == [Look(5), Expire(5, 0)] && ops[1..][1..] == [Expire(5, 0)];
    RunOne(m2, [Expire(5, 0)]);
    RunMore(m1, ops[1..], m2);
    RunMore(EMPTY, ops, m1);
  }

  lemma FirstOfFive(ms: nat, recurring: bool)
    requires ms > 0
    ensures Good(EMPTY) && Good(AfterFive(ms, recurring).(tickled := true, previous := 0))
    ensures var op := Add(7, ms, Callback(1), recurring, 5);
      Legal(EMPTY, op) && Apply(EMPTY, op).m == AfterFive(ms, recurring).(tickled := true, previous := 0)
  {
  }

  lemma LaterOfFive(ms: nat, recurring: bool)
    requires ms > 0
    ensures var m := AfterFive(ms, recurring);
      var m1, m2 := m.(tickled := true, previous := 0), m.(previous := 0);
      && Good(m1) && Good(m2) && Legal(m1, Look(5)) && Apply(m1, Look(5)).m == m2
      && Legal(m2, Expire(5, 0)) && Apply(m2, Expire(5, 0)).m == m
  {
  }

  lemma RunOne(m: Manager, ops: seq<Op>)
    requires Good(m) && |ops| == 1 && Legal(m, ops[0])
    ensures Good(Apply(m, ops[0]).m) && LegalRun(m, ops) && RunTo(m, ops) == Apply(m, ops[0]).m
    ensures Fires(m, ops) == if Apply(m, ops[0]).fired then 1 else 0
  {
    hide Good, Apply, Legal;
    StepKeeps(m, ops[0]);
    assert ops[1..] == [];
  }

  lemma RunMore(m: Manager, ops: seq<Op>, next: Manager)
    requires Good(m) && ops != [] && Legal(m, ops[0]) && Apply(m, ops[0]).m == next
    requires Good(next) && LegalRun(next, ops[1..])
    ensures LegalRun(m, ops) && RunTo(m, ops) == RunTo(next, ops[1..])
  {
  }

  /** A worker reads 4, another expires at 5, then the first takes the lock: a rollover is seen, and a timer
      due at 100005 is handed out. */
  lemma StaleReadingFiresEarly()
    ensures var m, op := AfterFive(100000, false), Expire(4, 0);
      && Good(m) && Legal(m, op) && Rollover(4, m.previous)
      && Apply(m, op).delivered == [Delivery(7, Callback(1))] && m.clock < m.timers[7].next
  {
    var m := AfterFive(100000, false);
    RolloverIff(4, 5);
    ExpireDeliversAll(m, 4);
  }

  lemma ExpireDeliversAll(m: Manager, now: nat)
    requires Good(m) && |m.queue| == 1 && Rollover(now, m.previous)
    ensures var r := Timers.Expire(m, now, 0);
      && |r.delivered| == 1 && r.delivered[0].addr == m.queue[0] && m.timers[m.queue[0]].cb == Some(r.delivered[0].cb)
  {
    hide Recycle, DueCount;
    assert m.queue[..1] == m.queue;
  }

  /** In the same way a recurring timer goes back before the deadline a sleeper has seen, with no notification. */
  lemma StaleReadingLosesWakeup()
    ensures var m, ops := AfterFive(100, true), [Expire(4, 0)];
      && Good(m) && Apply(m, Look(5)).m == m && LegalRun(m, ops) && Fires(m, ops) == 0
      && Good(RunTo(m, ops)) && Sooner(Earliest(RunTo(m, ops)), Earliest(m))
  {
    var m, ops := AfterFive(100, true), [Expire(4, 0)];
    RolloverIff(4, 5);
    RunOne(m, ops);
    StepKeeps(m, ops[0]);
    ExpireKeeps(m, 4, 0);
    assert Goes(m, 4, 7);
    EarliestIsLeast(m, Some(105));
    var r := RunTo(m, ops);
    assert 7 in r.queue && r.timers[7].next == 104;
    hide Rollover, Recycle, DueCount, Timers.Expire, Apply;
    SomeBefore(r, Some(105), 7);
    EarliestIsLeast(r, Some(105));
  }

  lemma EarliestAfter(r: Manager, e: Option<nat>)
    requires Good(r) && NoneBefore(r, e)
    ensures !Sooner(Earliest(r), e) && forall a | a in r.queue :: a in r.timers && e.Some? && e.value <= r.timers[a].next
  {
    EarliestIsLeast(r, e);
  }

  /** Between two looks there is at most one notification. */
  lemma {:induction false} AtMostOneFire(m: Manager, ops: seq<Op>)
    requires Good(m) && LegalRun(m, ops) && forall i | 0 <= i < |ops| :: !ops[i].Look?
    ensures Fires(m, ops) <= if m.tickled then 0 else 1
    decreases |ops|
  {
    if ops != [] {
      hide Good, Apply, Legal;
      StepKeeps(m, ops[0]);
      StepFlags(m, ops[0]);
      AtMostOneFire(Apply(m, ops[0]).m, ops[1..]);
    }
  }

  /** After expiry only deadlines behind the reading are left, and recurring timers of period 0; the
      probe's address does not matter. */
  lemma ExpiryLeavesLater(m: Manager, now: nat, probe: Addr, probe': Addr)
    requires Good(m) && now <= m.clock
    ensures var r := Timers.Expire(m, now, probe).m;
      forall a | a in r.queue :: a in r.timers && (now < r.timers[a].next || (r.timers[a].recurring && r.timers[a].ms == 0))
    ensures Timers.Expire(m, now, probe) == Timers.Expire(m, now, probe')
  {
    ExpireKeeps(m, now, probe);
    if !Rollover(now, m.previous) {
      CutIsExact(m, now, probe);
      CutIsExact(m, now, probe');
      SameCut(m, now, CutCount(m, now, probe), CutCount(m, now, probe'));
    }
    hide DueCount, Recycle, Sorted, IsCut, Rollover, Deliveries;
  }

  lemma SameCut(m: Manager, now: nat, n: nat, k: nat)
    requires Good(m) && IsCut(m, now, n) && IsCut(m, now, k)
    ensures n == k
  {
    hide Rollover;
    assert n < |m.queue| ==> m.timers[m.queue[n]].next > now;
    assert k < |m.queue| ==> m.timers[m.queue[k]].next > now;
  }

  // ---------- The life of a timer ----------

  function Hits(ds: seq<Delivery>, a: Addr): nat {
    if ds == [] then 0 else (if ds[0].addr == a then 1 else 0) + Hits(ds[1..], a)
  }

  lemma {:induction false} HitsOnce(ds: seq<Delivery>, q: seq<Addr>, a: Addr)
    requires |ds| == |q| && (forall i | 0 <= i < |ds| :: ds[i].addr == q[i])
    requires forall i, j | 0 <= i < j < |q| :: q[i] != q[j]
    ensures Hits(ds, a) == if a in q then 1 else 0
  {
    if ds != [] {
      assert q == [q[0]] + q[1..];
      HitsOnce(ds[1..], q[1..], a);
    }
  }

  function Live(m: Manager, a: Addr): nat {
    if a in m.timers && m.timers[a].cb.Some? then 1 else 0
  }

  predicate Cancelled(op: Op, r: Result, a: Addr) {
    op == Cancel(a) && r.ok
  }

  /** How often the callback of `a` is handed out. */
  function Delivered(m: Manager, ops: seq<Op>, a: Addr): nat
    requires Good(m) && LegalRun(m, ops)
    decreases |ops|
  {
    if ops == [] then 0
    else
      StepKeeps(m, ops[0]);
      Hits(Apply(m, ops[0]).delivered, a) + Delivered(Apply(m, ops[0]).m, ops[1..], a)
  }

  /** How often `cancel` of `a` answers true. */
  function Cancels(m: Manager, ops: seq<Op>, a: Addr): nat
    requires Good(m) && LegalRun(m, ops)
    decreases |ops|
  {
    if ops == [] then 0
    else
      StepKeeps(m, ops[0]);
      (if Cancelled(ops[0], Apply(m, ops[0]), a) then 1 else 0) + Cancels(Apply(m, ops[0]).m, ops[1..], a)
  }

  lemma ExpireHits(m: Manager, now: nat, probe: Addr, a: Addr)
    requires Good(m) && now <= m.clock
    ensures Hits(Timers.Expire(m, now, probe).delivered, a) == if Goes(m, now, a) then 1 else 0
  {
    ExpiryIsCut(m, now, probe);
    hide Rollover, Timers.Expire;
    var ds := Timers.Expire(m, now, probe).delivered;
    HitsOnce(ds, m.queue[..|ds|], a);
  }

  /** One operation: a timer that waits goes on waiting, is cancelled or is handed out, the last ending
      it only if it is not recurring; a timer that does not wait stays so. */
  lemma StepLife(m: Manager, op: Op, a: Addr)
    requires Good(m) && Legal(m, op) && a in m.timers
    ensures var r := Apply(m, op);
      && a in r.m.timers && r.m.timers[a].recurring == m.timers[a].recurring
      && Hits(r.delivered, a) <= Live(m, a)
      && Live(m, a) == Live(r.m, a) + (if Cancelled(op, r, a) then 1 else 0)
                       + (if m.timers[a].recurring then 0 else Hits(r.delivered, a))
  {
    StepKeeps(m, op);
    LaterIsGood(m, Reading(m, op));
    var c := m.(clock := Reading(m, op));
    hide Good, Rollover, Timers.Add, Timers.Cancel, Timers.Refresh, Timers.Reset;
    match op
    case Add(b, ms, cb, recurring, created) => AddLife(c, b, ms, cb, recurring, created);
    case Cancel(b) => CancelLife(c, b);
    case Look(_) =>
    case Refresh(b, now) => RefreshLife(c, b);
    case Reset(b, ms, fromNow, now) => ResetLife(c, b, ms, fromNow);
    case Expire(now, probe) =>
      hide Timers.Expire;
      ExpireHits(c, now, probe, a);
      ExpireKeeps(c, now, probe);
      GoingIsLive(c, now, a);
  }

  lemma AddLife(m: Manager, b: Addr, ms: nat, cb: Callback, recurring: bool, created: nat)
    requires Good(m) && b !in m.timers
    ensures var r := Timers.Add(m, b, ms, cb, recurring, created);
      && r.delivered == [] && forall a | a in m.timers :: a in r.m.timers && r.m.timers[a] == m.timers[a]
  {
    hide Insert, Sorted;
  }

  lemma CancelLife(m: Manager, b: Addr)
    requires Good(m) && b in m.timers
    ensures var r := Timers.Cancel(m, b);
      && r.delivered == [] && r.m.timers.Keys == m.timers.Keys && r.ok == m.timers[b].cb.Some?
      && r.m.timers[b] == m.timers[b].(cb := None)
      && forall a | a in m.timers && a != b :: r.m.timers[a] == m.timers[a]
  {
    hide Find, Erase, Sorted;
  }

  lemma GoingIsLive(m: Manager, now: nat, a: Addr)
    requires Good(m) && a in m.timers
    ensures Goes(m, now, a) ==> Live(m, a) == 1
  {
  }

  lemma RefreshLife(m: Manager, b: Addr)
    requires Good(m) && b in m.timers
    ensures var r := Timers.Refresh(m, b, m.clock);
      && !r.fired && r.m.tickled == m.tickled
      && r.delivered == [] && r.m.timers.Keys == m.timers.Keys
      && forall a | a in m.timers :: r.m.timers[a].recurring == m.timers[a].recurring && r.m.timers[a].cb == m.timers[a].cb
  {
    FoundLive(m, b);
    RefreshIs(m, b);
    hide Timers.Refresh, Find, Insert, Erase, Sorted;
  }

  lemma ResetLife(m: Manager, b: Addr, ms: nat, fromNow: bool)
    requires Good(m) && b in m.timers
    ensures m.timers[b].ms <= m.timers[b].next
    ensures var r := Timers.Reset(m, b, ms, fromNow, m.clock);
      && (r.fired ==> !m.tickled) && r.m.tickled == (m.tickled || r.fired)
      && r.delivered == [] && r.m.timers.Keys == m.timers.Keys
      && forall a | a in m.timers :: r.m.timers[a].recurring == m.timers[a].recurring && r.m.timers[a].cb == m.timers[a].cb
  {
    FoundLive(m, b);
    ResetIs(m, b, ms, fromNow);
    hide Timers.Reset, Find, Insert, Erase, Sorted;
  }

  /** The life of a timer that is not recurring, over any history: it is cancelled once, handed out once,
      or still waits; never two of these. */
  lemma {:induction false} OneShotEndsOnce(m: Manager, ops: seq<Op>, a: Addr)
    requires Good(m) && LegalRun(m, ops) && a in m.timers && !m.timers[a].recurring
    ensures Live(m, a) == Delivered(m, ops, a) + Cancels(m, ops, a) + Live(RunTo(m, ops), a)
    decreases |ops|
  {
    if ops != [] {
      hide Good, Apply, Legal, Live, Hits, Cancelled;
      StepKeeps(m, ops[0]);
      StepLife(m, ops[0], a);
      OneShotEndsOnce(Apply(m, ops[0]).m, ops[1..], a);
    }
  }

  /** The life of any timer: at most one `cancel` answers true, and of a timer that does not wait any
      more nothing is handed out again. */
  lemma {:induction false} CancelIsFinal(m: Manager, ops: seq<Op>, a: Addr)
    requires Good(m) && LegalRun(m, ops) && a in m.timers
    ensures Cancels(m, ops, a) + Live(RunTo(m, ops), a) <= Live(m, a)
    ensures m.timers[a].recurring ==> Cancels(m, ops, a) + Live(RunTo(m, ops), a) == Live(m, a)
    ensures Live(m, a) == 0 ==> Delivered(m, ops, a) == 0
    decreases |ops|
  {
    if ops != [] {
      hide Good, Apply, Legal, Live, Hits, Cancelled;
      StepKeeps(m, ops[0]);
      StepLife(m, ops[0], a);
      CancelIsFinal(Apply(m, ops[0]).m, ops[1..], a);
    }
  }
}
