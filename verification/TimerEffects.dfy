/** What each operation on timers answers and changes, timer by timer. */
module TimerEffects {
  import opened Wrappers
  import opened Timers
  import opened TimerHistory

  /** A timer waits as long as it has a callback. */
  predicate Waits(m: Manager, a: Addr) {
    a in m.timers && m.timers[a].cb.Some?
  }

  /** All timers but `a` are as they were. */
  ghost predicate OthersStay(m: Manager, r: Manager, a: Addr) {
    forall b :: b != a ==> (b in r.timers <==> b in m.timers) && (b in m.timers && b in r.timers ==> r.timers[b] == m.timers[b])
  }

  // ---------- The waiting time ----------

  /** `getNextTimer` answers the largest number if and only if no timer waits, 0 if and only if one is due, and
      otherwise the time to the first deadline. It takes the flag back and changes no timer. */
  lemma WaitIsExact(m: Manager, now: nat)
    requires Good(m) && TimerHistory.Legal(m, Op.Look(now))
    ensures var r := TimerHistory.Apply(m, Op.Look(now));
      && (r.wait == None <==> forall a :: !Waits(m, a))
      && (r.wait == Some(0) <==> exists a :: Waits(m, a) && m.timers[a].next <= now)
      && (r.wait.Some? && r.wait.value > 0 ==>
            && (exists a :: Waits(m, a) && m.timers[a].next == now + r.wait.value)
            && forall a | Waits(m, a) :: now + r.wait.value <= m.timers[a].next)
      && r.m.timers == m.timers && !r.m.tickled && !r.fired && r.delivered == []
  {
    if m.queue != [] {
      var first := m.queue[0];
      assert Waits(m, first);
      forall a | Waits(m, a)
        ensures m.timers[first].next <= m.timers[a].next
      {
        FirstIsLeast(m, a);
      }
    } else {
      forall a
        ensures !Waits(m, a)
      {
      }
    }
  }

  lemma FirstIsLeast(m: Manager, a: Addr)
    requires Good(m) && Waits(m, a)
    ensures m.queue != [] && m.timers[m.queue[0]].next <= m.timers[a].next
  {
    var i :| 0 <= i < |m.queue| && m.queue[i] == a;
    assert i > 0 ==> Before(KeyOf(m.timers, m.queue[0]), KeyOf(m.timers, m.queue[i]));
  }

  // ---------- Setting a timer ----------

  /** Timer `b` comes before deadline `next` of timer `a`: it is due earlier, or at the same time with a lower address. */
  predicate Earlier(m: Manager, b: Addr, next: nat, a: Addr) {
    Waits(m, b) && (m.timers[b].next < next || (m.timers[b].next == next && b < a))
  }

  /** No other waiting timer comes before that. */
  ghost predicate ComesFirst(m: Manager, a: Addr, next: nat) {
    forall b | b != a :: !Earlier(m, b, next, a)
  }

  lemma ArmFiresIff(m: Manager, a: Addr)
    requires GoodBut(m, a)
    ensures var r := Arm(m, a);
      && (r.fired <==> !m.tickled && ComesFirst(m, a, m.timers[a].next))
      && (r.m.tickled <==> m.tickled || r.fired) && r.m.timers == m.timers
  {
    var k := KeyOf(m.timers, a);
    LowerBoundSplits(m.timers, m.queue, k);
    var i := LowerBound(m.timers, m.queue, k);
    if i > 0 {
      assert Before(KeyOf(m.timers, m.queue[0]), k);
      assert Earlier(m, m.queue[0], m.timers[a].next, a);
    } else {
      forall b | b != a
        ensures !Earlier(m, b, m.timers[a].next, a)
      {
        if Waits(m, b) {
          var j :| 0 <= j < |m.queue| && m.queue[j] == b;
          assert !Before(KeyOf(m.timers, m.queue[j]), k);
        }
      }
    }
  }

  /** A new timer is due its period after the clock was read, with its callback; it notifies if and only if the
      flag is down and no waiting timer comes before it. */
  lemma AddIsExact(m: Manager, a: Addr, ms: nat, cb: Callback, recurring: bool, created: nat)
    requires Good(m) && TimerHistory.Legal(m, Op.Add(a, ms, cb, recurring, created))
    ensures var r := TimerHistory.Apply(m, Op.Add(a, ms, cb, recurring, created));
      && a in r.m.timers && r.m.timers[a] == Timer(created + ms, ms, recurring, Some(cb)) && OthersStay(m, r.m, a)
      && (r.fired <==> !m.tickled && ComesFirst(m, a, created + ms))
      && (r.m.tickled <==> m.tickled || r.fired) && r.delivered == []
  {
    var c := m.(clock := Reading(m, Op.Add(a, ms, cb, recurring, created)));
    var t := Timer(created + ms, ms, recurring, Some(cb));
    LaterIsGood(m, c.clock);
    SortedElsewhere(c.timers, c.timers[a := t], c.queue);
    var d := c.(timers := c.timers[a := t]);
    hide Sorted, LowerBound, Arm, ComesFirst;
    ArmFiresIff(d, a);
    SameRivals(m, d, a, t.next);
  }

  /** A refreshed timer is due its period after now. Nothing is notified. */
  lemma RefreshIsExact(m: Manager, a: Addr, now: nat)
    requires Good(m) && TimerHistory.Legal(m, Op.Refresh(a, now))
    ensures var r := TimerHistory.Apply(m, Op.Refresh(a, now));
      && r.ok == Waits(m, a) && !r.fired && r.m.tickled == m.tickled && r.delivered == []
      && a in r.m.timers && r.m.timers[a] == (if r.ok then m.timers[a].(next := now + m.timers[a].ms) else m.timers[a])
      && OthersStay(m, r.m, a)
  {
    var c := m.(clock := now);
    LaterIsGood(m, now);
    FoundLive(c, a);
    hide Find, Insert, Erase, Sorted;
  }

  /** A timer that is set again is due its new period after now or after its old start; where neither changes
      nothing happens. It notifies like a new one. */
  lemma ResetIsExact(m: Manager, a: Addr, ms: nat, fromNow: bool, now: nat)
    requires Good(m) && TimerHistory.Legal(m, Op.Reset(a, ms, fromNow, now))
    ensures var r, t := TimerHistory.Apply(m, Op.Reset(a, ms, fromNow, now)), m.timers[a];
      var changes := Waits(m, a) && (ms != t.ms || fromNow);
      var next := (if fromNow then now else t.next - t.ms) + ms;
      && (r.ok <==> Waits(m, a) || (ms == t.ms && !fromNow))
      && a in r.m.timers && r.m.timers[a] == (if changes then t.(ms := ms, next := next) else t)
      && OthersStay(m, r.m, a) && r.delivered == []
      && (r.fired <==> changes && !m.tickled && ComesFirst(m, a, next))
      && (r.m.tickled <==> m.tickled || r.fired)
  {
    var t := m.timers[a];
    ApplyReset(m, a, ms, fromNow, now);
    WaitsIs(m, a);
    hide *;
    var r := TimerHistory.Apply(m, Op.Reset(a, ms, fromNow, now));
    if t.cb.Some? && (ms != t.ms || fromNow) {
      var t' := t.(ms := ms, next := (if fromNow then now else t.next - t.ms) + ms);
      ResetArms(m, a, now, t');
      OneChanged(m, r.m, a, t');
    } else {
      NoneChanged(m, r.m, a);
    }
  }

  lemma NoneChanged(m: Manager, r: Manager, a: Addr)
    requires r.timers == m.timers
    ensures OthersStay(m, r, a)
  {
  }

  lemma WaitsIs(m: Manager, a: Addr)
    ensures Waits(m, a) <==> a in m.timers && m.timers[a].cb.Some?
  {
  }

  lemma OneChanged(m: Manager, r: Manager, a: Addr, t: Timer)
    requires r.timers == m.timers[a := t]
    ensures OthersStay(m, r, a)
  {
  }

  lemma ApplyReset(m: Manager, a: Addr, ms: nat, fromNow: bool, now: nat)
    requires Good(m) && TimerHistory.Legal(m, Op.Reset(a, ms, fromNow, now))
    ensures a in m.timers && m.clock <= now && m.timers[a].ms <= m.timers[a].next <= now + m.timers[a].ms
    ensures var c, t := m.(clock := now), m.timers[a];
      var r := TimerHistory.Apply(m, Op.Reset(a, ms, fromNow, now));
      if ms == t.ms && !fromNow then r == Result(c, false, true, None, [])
      else if t.cb == None then r == Result(c, false, false, None, [])
      else
        && Known(c.timers, c.queue) && Find(c.timers, c.queue, a).Some?
        && r == Arm(TakenOut(c, a, Find(c.timers, c.queue, a).value,
                             t.(ms := ms, next := (if fromNow then now else t.next - t.ms) + ms)), a)
        && r.ok
  {
    var c := m.(clock := now);
    LaterIsGood(m, now);
    GoodParts(c);
    FoundLive(c, a);
    ResetIs(c, a, ms, fromNow);
    hide Find, TakenOut, Sorted, Arm, Timers.Reset;
  }

  lemma ResetArms(m: Manager, a: Addr, now: nat, t: Timer)
    requires Good(m) && Waits(m, a) && m.clock <= now && t.cb.Some? && t.ms <= t.next <= now + t.ms
    ensures var c := m.(clock := now);
      && Known(c.timers, c.queue) && Find(c.timers, c.queue, a).Some?
      && var r := Arm(TakenOut(c, a, Find(c.timers, c.queue, a).value, t), a);
      && r.m.timers == m.timers[a := t] && r.delivered == []
      && (r.fired <==> !m.tickled && ComesFirst(m, a, t.next)) && (r.m.tickled <==> m.tickled || r.fired)
  {
    var c := m.(clock := now);
    LaterIsGood(m, now);
    TakeOut(c, a, t);
    hide Find, Sorted, LowerBound, TakenOut;
    var out := TakenOut(c, a, Find(c.timers, c.queue, a).value, t);
    ArmFiresIff(out, a);
    SameRivals(m, out, a, t.next);
  }

  lemma SameRivals(m: Manager, r: Manager, a: Addr, next: nat)
    requires forall b | b != a :: (b in r.timers <==> b in m.timers) && (b in m.timers ==> r.timers[b] == m.timers[b])
    ensures ComesFirst(m, a, next) <==> ComesFirst(r, a, next)
  {
    assert forall b | b != a :: Earlier(m, b, next, a) <==> Earlier(r, b, next, a);
    hide Earlier;
  }

  /** A cancelled timer loses its callback and nothing else. */
  lemma CancelIsExact(m: Manager, a: Addr)
    requires Good(m) && TimerHistory.Legal(m, Op.Cancel(a))
    ensures var r := TimerHistory.Apply(m, Op.Cancel(a));
      && r.ok == Waits(m, a) && !r.fired && r.m.tickled == m.tickled && r.delivered == []
      && a in r.m.timers && r.m.timers[a] == m.timers[a].(cb := None) && OthersStay(m, r.m, a)
  {
    LaterIsGood(m, m.clock);
    hide Find, Erase, Sorted;
  }

  /** A timer that an expiry takes out of the set is set again for its period after the reading, if it is
      recurring, with the same period and callback, and loses its callback otherwise; the others stay. */
  lemma ExpireIsExact(m: Manager, now: nat, probe: Addr, a: Addr)
    requires Good(m) && a in m.timers
    ensures var r := TimerHistory.Apply(m, Op.Expire(now, probe));
      var t, goes := m.timers[a], Waits(m, a) && (Rollover(now, m.previous) || m.timers[a].next <= now);
      && a in r.m.timers && r.m.timers[a].ms == t.ms && r.m.timers[a].recurring == t.recurring
      && r.m.timers[a].next == (if goes && t.recurring then now + t.ms else t.next)
      && r.m.timers[a].cb == (if goes && !t.recurring then None else t.cb)
      && !r.fired && r.m.tickled == m.tickled
  {
    var c := m.(clock := Reading(m, Op.Expire(now, probe)));
    LaterIsGood(m, c.clock);
    ExpireKeeps(c, now, probe);
    hide Timers.Expire, Sorted, Rollover;
  }

  /** An expiry remembers its reading, unless no timer waits. */
  lemma ExpireRemembers(m: Manager, now: nat, probe: Addr)
    requires Good(m)
    ensures TimerHistory.Apply(m, Op.Expire(now, probe)).m.previous == if exists a :: Waits(m, a) then now else m.previous
  {
    LaterIsGood(m, Reading(m, Op.Expire(now, probe)));
    hide DueCount, Recycle, Rollover, Sorted;
    if m.queue != [] {
      assert Waits(m, m.queue[0]);
    }
  }
}
