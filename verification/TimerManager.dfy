/** The timer manager as objects that change in place, tied to the functions on values. */
module TimerManager {
  import opened Wrappers
  import opened Timers
  import TimerHistory

  class TimerObject {
    const address: Addr
    const recurring: bool
    var ms: nat
    var next: nat
    var cb: Option<Callback>

    constructor (address: Addr, ms: nat, cb: Callback, recurring: bool, created: nat)
      ensures this.address == address && this.recurring == recurring
      ensures this.next == created + ms && this.ms == ms && this.cb == Some(cb)
    {
      this.address, this.recurring, this.ms, this.next, this.cb := address, recurring, ms, created + ms, Some(cb);
    }

    function Record(): Timer
      reads this
    {
      Timer(next, ms, recurring, cb)
    }
  }

  ghost function AddressesOf(timers: seq<TimerObject>): (r: seq<Addr>)
    ensures |r| == |timers| && forall i | 0 <= i < |r| :: r[i] == timers[i].address
  {
    seq(|timers|, i requires 0 <= i < |timers| => timers[i].address)
  }

  class TimerManager {
    var timers: seq<TimerObject>
    var tickled: bool
    var previous: nat
    ghost var known: map<Addr, TimerObject>
    ghost var clock: nat

    /** Objects are known by their addresses. */
    ghost predicate Linked()
      reads this
    {
      && (forall a | a in known :: known[a].address == a)
      && (forall i | 0 <= i < |timers| :: timers[i].address in known && known[timers[i].address] == timers[i])
    }

    ghost function Records(): (r: map<Addr, Timer>)
      reads this`known, known.Values
    {
      map a | a in known :: known[a].Record()
    }

    ghost function Addresses(): (r: seq<Addr>)
      reads this`timers
      ensures |r| == |timers| && forall i | 0 <= i < |r| :: r[i] == timers[i].address
    {
      AddressesOf(timers)
    }

    ghost function View(): (r: Manager)
      reads this, known.Values
      ensures r.timers.Keys == known.Keys
      ensures Linked() ==> Known(r.timers, r.queue)
      ensures |r.queue| == |timers|
    {
      Manager(Records(), Addresses(), tickled, previous, clock)
    }

    /** The object is one of this manager's. */
    ghost predicate Owns(t: TimerObject)
      reads this`known
    {
      t.address in known && known[t.address] == t
    }

    ghost predicate Valid()
      reads this, known.Values
    {
      Linked() && Good(View())
    }

    constructor (now: nat)
      ensures Valid() && View() == Manager(map[], [], false, now, now)
    {
      timers, tickled, previous, known, clock := [], false, now, map[], now;
    }

    /** `lower_bound` of the set. */
    method LowerBoundOf(next: nat, address: Addr) returns (i: nat)
      requires Linked()
      ensures i == LowerBound(View().timers, View().queue, Key(next, address)) <= |timers|
    {
      ghost var ts, q, k := Records(), Addresses(), Key(next, address);
      i := 0;
      assert q[0..] == q;
      while i < |timers| && (timers[i].next < next || (timers[i].next == next && timers[i].address < address))
        invariant i <= |timers|
        invariant LowerBound(ts, q, k) == i + LowerBound(ts, q[i..], k)
      {
        assert q[i..][1..] == q[i + 1..];
        i := i + 1;
      }
    }

    /** `find` of the set, by the order alone. */
    method FindOf(t: TimerObject) returns (i: Option<nat>)
      requires Linked() && Owns(t)
      ensures i == Find(View().timers, View().queue, t.address)
      ensures i.Some? ==> i.value < |timers|
    {
      var j := LowerBoundOf(t.next, t.address);
      hide LowerBound;
      if j < |timers| && !(t.next < timers[j].next || (t.next == timers[j].next && t.address < timers[j].address)) {
        i := Some(j);
      } else {
        i := None;
      }
    }

    /** The set without its element at place `i`, and the fields of that timer changed. */
    method TakeOutOf(t: TimerObject, i: nat, ms: nat, next: nat, cb: Option<Callback>)
      requires Linked() && Owns(t) && i < |timers|
      modifies this`timers, t
      ensures Linked()
      ensures View() == TakenOut(old(View()), t.address, i, Timer(next, ms, t.recurring, cb))
    {
      timers := timers[..i] + timers[i + 1..];
      SetFields(t, ms, next, cb);
    }

    method SetFields(t: TimerObject, ms: nat, next: nat, cb: Option<Callback>)
      requires Linked() && Owns(t)
      modifies t
      ensures Linked()
      ensures View() == old(View()).(timers := old(View()).timers[t.address := Timer(next, ms, t.recurring, cb)])
      ensures t.ms == ms && t.next == next && t.cb == cb
    {
      t.ms, t.next, t.cb := ms, next, cb;
    }

    method InsertOne(t: TimerObject)
      requires Linked() && Owns(t)
      modifies this`timers
      ensures Linked()
      ensures View() == old(View()).(queue := Insert(old(View()).timers, old(View()).queue, t.address))
    {
      var i := LowerBoundOf(t.next, t.address);
      hide LowerBound;
      timers := timers[..i] + [t] + timers[i..];
    }

    /** `addTimer(val, lock)`. */
    method ArmOne(t: TimerObject) returns (fired: bool)
      requires Linked() && Owns(t)
      modifies this`timers, this`tickled
      ensures Linked()
      ensures var r := Arm(old(View()), t.address); View() == r.m && fired == r.fired
    {
      InsertOne(t);
      hide Insert;
      fired := timers[0] == t && !tickled;
      if fired {
        tickled := true;
      }
    }

    /** What `Valid` gives the operations. */
    lemma Parts(t: TimerObject)
      requires Valid() && Owns(t)
      ensures Linked() && Good(View())
      ensures t.address in View().timers && View().timers[t.address] == Timer(t.next, t.ms, t.recurring, t.cb) && t.ms <= t.next
      ensures Known(View().timers, View().queue) && View().clock == clock
    {
    }

    lemma Whole()
      requires Linked() && Good(View())
      ensures Valid()
    {
    }

    /** A reading of the clock. */
    method Tick(ghost now: nat)
      requires Valid() && clock <= now
      modifies this`clock
      ensures Valid() && clock == now && View() == old(View()).(clock := now)
    {
      TimerHistory.LaterIsGood(View(), now);
      clock := now;
    }

    /** `addTimer(ms, cb, recurring)`; the new object lies at `address`. */
    method AddTimer(ms: nat, cb: Callback, recurring: bool, created: nat, address: Addr)
      returns (t: TimerObject, fired: bool)
      requires Valid() && address !in known
      modifies this
      ensures Valid() && fresh(t) && known == old(known)[address := t]
      ensures var r := TimerHistory.Apply(old(View()), TimerHistory.Add(address, ms, cb, recurring, created));
        View() == r.m && fired == r.fired
    {
      hide *;
      ghost var before := View();
      ghost var op := TimerHistory.Add(address, ms, cb, recurring, created);
      AddIs(address, ms, cb, recurring, created);
      t := new TimerObject(address, ms, cb, recurring, created);
      Enlist(t, TimerHistory.Reading(before, op));
      fired := ArmOne(t);
      Whole();
    }

    lemma AddIs(address: Addr, ms: nat, cb: Callback, recurring: bool, created: nat)
      requires Valid() && address !in known
      ensures Linked() && Good(View())
      ensures var m, op := View(), TimerHistory.Add(address, ms, cb, recurring, created);
        var t := Timer(created + ms, ms, recurring, Some(cb));
        var out := m.(timers := m.timers[address := t], clock := TimerHistory.Reading(m, op));
        && TimerHistory.Legal(m, op) && Known(out.timers, out.queue)
        && TimerHistory.Apply(m, op) == Arm(out, address) && Good(Arm(out, address).m)
    {
      TimerHistory.StepKeeps(View(), TimerHistory.Add(address, ms, cb, recurring, created));
      hide Good, Arm;
    }

    method Enlist(t: TimerObject, ghost now: nat)
      requires Linked() && t.address !in known
      modifies this`known, this`clock
      ensures Linked() && known == old(known)[t.address := t] && Owns(t)
      ensures View() == old(View()).(timers := old(View()).timers[t.address := Timer(t.next, t.ms, t.recurring, t.cb)], clock := now)
    {
      clock := now;
      known := known[t.address := t];
    }

    /** `Timer::cancel`. */
    method Cancel(t: TimerObject) returns (ok: bool)
      requires Valid() && Owns(t)
      modifies this`timers, t
      ensures Valid()
      ensures var r := TimerHistory.Apply(old(View()), TimerHistory.Cancel(t.address)); View() == r.m && ok == r.ok
    {
      ghost var before := View();
      TimerHistory.StepKeeps(before, TimerHistory.Cancel(t.address));
      Parts(t);
      assert before.(clock := before.clock) == before;
      hide Good, Find, Erase, Valid, Linked, View, Owns;
      if t.cb == None {
        return false;
      }
      FindsLive(before, t.address);
      var i := FindOf(t);
      TakeOutOf(t, i.value, t.ms, t.next, None);
      Whole();
      ok := true;
    }

    /** `Timer::refresh`. */
    method Refresh(t: TimerObject, now: nat) returns (ok: bool)
      requires Valid() && Owns(t) && clock <= now
      modifies this`timers, this`clock, t
      ensures Valid()
      ensures var r := TimerHistory.Apply(old(View()), TimerHistory.Refresh(t.address, now)); View() == r.m && ok == r.ok
    {
      hide Valid, Good, View, Find, Insert, Erase;
      Parts(t);
      Tick(now);
      ok := RefreshNow(t, now);
    }

    method RefreshNow(t: TimerObject, now: nat) returns (ok: bool)
      requires Valid() && Owns(t) && clock == now
      modifies this`timers, t
      ensures Valid()
      ensures var m := old(View()); Known(m.timers, m.queue) && t.address in m.timers
      ensures var r := Timers.Refresh(old(View()), t.address, now); View() == r.m && ok == r.ok
    {
      hide *;
      Parts(t);
      TimerHistory.RefreshIs(View(), t.address);
      TimerHistory.RefreshKeeps(View(), t.address);
      if t.cb == None {
        return false;
      }
      var i := FindOf(t);
      if i == None {
        return false;
      }
      TakeOutOf(t, i.value, t.ms, now + t.ms, t.cb);
      InsertOne(t);
      Whole();
      ok := true;
    }

    /** `Timer::reset`. The early answer is given without the lock. */
    method Reset(t: TimerObject, ms: nat, fromNow: bool, now: nat) returns (ok: bool, fired: bool)
      requires Valid() && Owns(t) && clock <= now
      modifies this`timers, this`tickled, this`clock, t
      ensures Valid()
      ensures var r := TimerHistory.Apply(old(View()), TimerHistory.Reset(t.address, ms, fromNow, now));
        View() == r.m && ok == r.ok && fired == r.fired
    {
      hide Valid, Good, View, Find, Insert, Erase, Arm;
      Parts(t);
      Tick(now);
      ok, fired := ResetNow(t, ms, fromNow, now);
    }

    method ResetNow(t: TimerObject, ms: nat, fromNow: bool, now: nat) returns (ok: bool, fired: bool)
      requires Valid() && Owns(t) && clock == now
      modifies this`timers, this`tickled, t
      ensures Valid()
      ensures var m := old(View());
        Known(m.timers, m.queue) && t.address in m.timers && m.timers[t.address].ms <= m.timers[t.address].next
      ensures var r := Timers.Reset(old(View()), t.address, ms, fromNow, now);
        View() == r.m && ok == r.ok && fired == r.fired
    {
      hide *;
      Parts(t);
      TimerHistory.ResetIs(View(), t.address, ms, fromNow);
      TimerHistory.ResetKeeps(View(), t.address, ms, fromNow);
      if ms == t.ms && !fromNow {
        return true, false;
      }
      if t.cb == None {
        return false, false;
      }
      var i := FindOf(t);
      if i == None {
        return false, false;
      }
      var start := if fromNow then now else t.next - t.ms;
      TakeOutOf(t, i.value, ms, start + ms, t.cb);
      fired := ArmOne(t);
      Whole();
      ok := true;
    }

    /** `getNextTimer`. */
    method GetNextTimer(now: nat) returns (wait: Option<nat>)
      requires Valid() && clock <= now
      modifies this`tickled, this`clock
      ensures Valid()
      ensures var r := TimerHistory.Apply(old(View()), TimerHistory.Look(now)); View() == r.m && wait == r.wait
    {
      TimerHistory.StepKeeps(View(), TimerHistory.Look(now));
      hide Good;
      clock := now;
      tickled := false;
      if timers == [] {
        return None;
      }
      var next := timers[0];
      wait := Some(if now >= next.next then 0 else next.next - now);
    }
  
    /** The second walk of `listExpiredCb`: past the timers due right now. */
    method SkipDueOf(i: nat, now: nat) returns (n: nat)
      requires Linked() && i <= |timers|
      ensures n == SkipDue(View().timers, View().queue, i, now) <= |timers|
    {
      n := i;
      while n < |timers| && timers[n].next == now
        invariant i <= n <= |timers|
        invariant SkipDue(View().timers, View().queue, i, now) == SkipDue(View().timers, View().queue, n, now)
      {
        n := n + 1;
      }
    }

    /** `expired` takes the first `n` timers out of the set. */
    method Cut(n: nat) returns (expired: seq<TimerObject>)
      requires Linked() && n <= |timers|
      modifies this`timers
      ensures Linked() && View() == old(View()).(queue := old(View()).queue[n..])
      ensures AllOwned(expired) && AddressesOf(expired) == old(View()).queue[..n]
    {
      expired := timers[..n];
      timers := timers[n..];
    }

    ghost predicate AllOwned(ts: seq<TimerObject>)
      reads this`known
    {
      forall i | 0 <= i < |ts| :: Owns(ts[i])
    }

    /** One round of the loop of `listExpiredCb`. */
    method RecycleOne(timer: TimerObject, now: nat)
      requires Linked() && Owns(timer)
      modifies this`timers, timer
      ensures Linked()
      ensures timer.address in old(View()).timers
      ensures var m, a := old(View()), timer.address;
        var ts := m.timers[a := Recycled(m.timers[a], now)];
        View() == m.(timers := ts, queue := if m.timers[a].recurring then Insert(ts, m.queue, a) else m.queue)
    {
      RecordOf(timer);
      hide View, Linked, Insert;
      if timer.recurring {
        SetFields(timer, timer.ms, now + timer.ms, timer.cb);
        InsertOne(timer);
      } else {
        SetFields(timer, timer.ms, timer.next, None);
      }
    }

    lemma RecordOf(t: TimerObject)
      requires Linked() && Owns(t)
      ensures t.address in View().timers && View().timers[t.address] == Timer(t.next, t.ms, t.recurring, t.cb)
    {
    }
  
    /** The loop over the expired timers: each callback is taken before its timer is set again or ended. */
    method HandOut(expired: seq<TimerObject>, now: nat) returns (cbs: seq<Option<Callback>>)
      requires Linked() && AllOwned(expired) && Apart([], AddressesOf(expired))
      modifies this`timers, expired
      ensures Linked() && Known(old(View()).timers, AddressesOf(expired)) && Known(old(View()).timers, old(View()).queue)
      ensures var m := old(View());
        var r := Recycle(m.timers, m.queue, AddressesOf(expired), now);
        View() == m.(timers := r.0, queue := r.1)
      ensures |cbs| == |expired|
      ensures forall i | 0 <= i < |expired| :: cbs[i] == old(View()).timers[expired[i].address].cb
    {
      hide *;
      ghost var m, q := View(), AddressesOf(expired);
      cbs := [];
      var k := 0;
      KnownAll(expired);
      HandStart(m, q, now);
      while k < |expired|
        invariant 0 <= k <= |expired| == |q| && Linked() && AllOwned(expired)
        invariant Known(m.timers, m.queue) && Known(m.timers, q) && HandedOut(m, q, now, k, View(), cbs)
      {
        HandStep(m, q, now, k, View(), cbs);
        OwnedAt(expired, k);
        RecordOf(expired[k]);
        cbs := cbs + [expired[k].cb];
        RecycleOne(expired[k], now);
        k := k + 1;
      }
      HandEnd(m, q, now, View(), cbs);
    }

    lemma OwnedAt(ts: seq<TimerObject>, k: nat)
      requires AllOwned(ts) && k < |ts|
      ensures Owns(ts[k])
    {
    }

    /** `detectClockRollover`. */
    method DetectClockRollover(now: nat) returns (rollover: bool)
      requires Linked()
      modifies this`previous
      ensures Linked() && rollover == Rollover(now, old(View()).previous) && View() == old(View()).(previous := now)
    {
      rollover := now < previous && now < (previous - 60 * 60 * 1000) % 0x1_0000_0000_0000_0000;
      previous := now;
    }

    /** `listExpiredCb`; the clock is read before the lock is taken, so the reading may be older than others.
        The timer made for the search lies at `probe`. */
    method ListExpiredCb(now: nat, probe: Addr) returns (cbs: seq<Option<Callback>>)
      requires Valid()
      modifies this, known.Values
      ensures Valid() && known == old(known)
      ensures var r := TimerHistory.Apply(old(View()), TimerHistory.Expire(now, probe));
        && View() == r.m && |cbs| == |r.delivered|
        && forall i | 0 <= i < |cbs| :: cbs[i] == Some(r.delivered[i].cb)
    {
      hide Good, View, Valid, Owns, DueCount, Rollover, Recycle, Deliveries;
      Inside();
      Tick(if now < clock then clock else now);
      cbs := ExpireNow(now, probe);
    }

    method ExpireNow(now: nat, probe: Addr) returns (cbs: seq<Option<Callback>>)
      requires Valid() && now <= clock
      modifies this`timers, this`previous, known.Values
      ensures Valid() && Good(old(View()))
      ensures var r := Timers.Expire(old(View()), now, probe);
        && View() == r.m && |cbs| == |r.delivered|
        && forall i | 0 <= i < |cbs| :: cbs[i] == Some(r.delivered[i].cb)
    {
      hide *;
      ghost var m := View();
      Inside();
      ExpiryIs(m, now, probe);
      TimerHistory.ExpireKeeps(m, now, probe);
      if |timers| == 0 {
        return [];
      }
      var rollover := DetectClockRollover(now);
      if !rollover && timers[0].next > now {
        Whole();
        return [];
      }
      var n := CutPoint(now, probe, rollover);
      var expired := Cut(n);
      OwnedAreKnown(expired);
      cbs := HandOut(expired, now);
      Whole();
    }

    method CutPoint(now: nat, probe: Addr, rollover: bool) returns (n: nat)
      requires Linked()
      ensures Known(View().timers, View().queue) && n <= |timers| == |View().queue|
      ensures n == if rollover then |View().queue|
                   else SkipDue(View().timers, View().queue, LowerBound(View().timers, View().queue, Key(now, probe)), now)
    {
      hide View, LowerBound, SkipDue;
      n := |timers|;
      if !rollover {
        var i := LowerBoundOf(now, probe);
        n := SkipDueOf(i, now);
      }
    }

    lemma Inside()
      requires Valid()
      ensures Linked() && Good(View()) && View().clock == clock && |View().queue| == |timers|
      ensures Known(View().timers, View().queue)
      ensures timers != [] ==> View().timers[View().queue[0]].next == timers[0].next
    {
    }

    lemma OwnedAreKnown(ts: seq<TimerObject>)
      requires AllOwned(ts)
      ensures forall t | t in ts :: t in known.Values
    {
      forall t | t in ts
        ensures t in known.Values
      {
        assert Owns(t);
      }
    }

    lemma KnownAll(expired: seq<TimerObject>)
      requires Linked() && AllOwned(expired)
      ensures Known(View().timers, AddressesOf(expired))
      ensures Known(View().timers, View().queue)
    {
    }
  }

  /** `listExpiredCb` step by step. */
  lemma ExpiryIs(m: Manager, now: nat, probe: Addr)
    requires Good(m)
    ensures Known(m.timers, m.queue)
    ensures var r := Timers.Expire(m, now, probe);
      var seen, rollover := m.(previous := now), Rollover(now, m.previous);
      if m.queue == [] then r.m == m && r.delivered == []
      else if !rollover && m.timers[m.queue[0]].next > now then r.m == seen && r.delivered == []
      else
        var n := if rollover then |m.queue| else SkipDue(m.timers, m.queue, LowerBound(m.timers, m.queue, Key(now, probe)), now);
        && Known(m.timers, m.queue[..n]) && Known(m.timers, m.queue[n..]) && Apart([], m.queue[..n])
        && (var x := Recycle(m.timers, m.queue[n..], m.queue[..n], now); r.m == seen.(timers := x.0, queue := x.1))
        && |r.delivered| == n && forall i | 0 <= i < n :: Some(r.delivered[i].cb) == m.timers[m.queue[..n][i]].cb
  {
    hide Recycle, LowerBound, SkipDue, Rollover;
  }

  /** The loop of `listExpiredCb` after `k` rounds: what is left of it gives the same end, and the timers
      still to come have not been touched. */
  ghost predicate HandedOut(m: Manager, q: seq<Addr>, now: nat, k: nat, v: Manager, cbs: seq<Option<Callback>>)
    requires Known(m.timers, m.queue) && Known(m.timers, q)
  {
    && k <= |q| && |cbs| == k && Apart([], q)
    && Known(v.timers, v.queue) && Known(v.timers, q[k..])
    && v == m.(timers := v.timers, queue := v.queue)
    && Recycle(m.timers, m.queue, q, now) == Recycle(v.timers, v.queue, q[k..], now)
    && (forall j | k <= j < |q| :: q[j] in v.timers && v.timers[q[j]] == m.timers[q[j]])
    && (forall j | 0 <= j < k :: cbs[j] == m.timers[q[j]].cb)
  }

  lemma HandStart(m: Manager, q: seq<Addr>, now: nat)
    requires Known(m.timers, m.queue) && Known(m.timers, q) && Apart([], q)
    ensures HandedOut(m, q, now, 0, m, [])
  {
    assert q[0..] == q;
  }

  lemma HandStep(m: Manager, q: seq<Addr>, now: nat, k: nat, v: Manager, cbs: seq<Option<Callback>>)
    requires Known(m.timers, m.queue) && Known(m.timers, q) && k < |q| && HandedOut(m, q, now, k, v, cbs)
    ensures q[k] in v.timers && Known(v.timers, v.queue)
    ensures var t := v.timers[q[k]];
      var ts := v.timers[q[k] := Recycled(t, now)];
      var v' := v.(timers := ts, queue := if t.recurring then Insert(ts, v.queue, q[k]) else v.queue);
      HandedOut(m, q, now, k + 1, v', cbs + [t.cb])
  {
    RecycleStep(v.timers, v.queue, q, k, now);
    hide Recycle, Insert, Recycled;
  }

  lemma HandEnd(m: Manager, q: seq<Addr>, now: nat, v: Manager, cbs: seq<Option<Callback>>)
    requires Known(m.timers, m.queue) && Known(m.timers, q) && HandedOut(m, q, now, |q|, v, cbs)
    ensures var r := Recycle(m.timers, m.queue, q, now); v == m.(timers := r.0, queue := r.1)
    ensures |cbs| == |q| && forall j | 0 <= j < |q| :: cbs[j] == m.timers[q[j]].cb
  {
    RecycleNothing(v.timers, v.queue, q[|q|..], now);
  }

  lemma RecycleStep(ts: map<Addr, Timer>, q: seq<Addr>, expired: seq<Addr>, k: nat, now: nat)
    requires Known(ts, q) && k < |expired| && Known(ts, expired[k..])
    ensures expired[k] in ts
    ensures var a := expired[k];
      var ts' := ts[a := Recycled(ts[a], now)];
      var q' := if ts[a].recurring then Insert(ts', q, a) else q;
      && Known(ts', q') && Known(ts', expired[k + 1..])
      && Recycle(ts, q, expired[k..], now) == Recycle(ts', q', expired[k + 1..], now)
  {
    assert expired[k..][0] == expired[k] && expired[k..][1..] == expired[k + 1..];
    hide Insert;
  }

  lemma RecycleNothing(ts: map<Addr, Timer>, q: seq<Addr>, expired: seq<Addr>, now: nat)
    requires Known(ts, q) && expired == []
    ensures Recycle(ts, q, expired, now) == (ts, q)
  {
  }
}
