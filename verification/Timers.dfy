/** Timers ordered by deadline, and what holds over every history of operations on them. */
module Timers {
  import opened Wrappers

  type Addr = nat

  datatype Callback = Callback(id: nat)

  /** A timer. It has a callback as long as it waits to be delivered. */
  datatype Timer = Timer(next: nat, ms: nat, recurring: bool, cb: Option<Callback>)

  datatype Key = Key(next: nat, addr: Addr)

  /** The order of the set: by deadline, then by address. */
  predicate Before(a: Key, b: Key) {
    a.next < b.next || (a.next == b.next && a.addr < b.addr)
  }

  /** The manager: all timers there are, the ordered set, the flag that holds back notifications, the
      last time expiry was asked for, and the latest clock reading so far. */
  datatype Manager = Manager(timers: map<Addr, Timer>, queue: seq<Addr>, tickled: bool, previous: nat, clock: nat)

  function KeyOf(ts: map<Addr, Timer>, a: Addr): Key
    requires a in ts
  {
    Key(ts[a].next, a)
  }

  predicate Known(ts: map<Addr, Timer>, q: seq<Addr>) {
    forall i | 0 <= i < |q| :: q[i] in ts
  }

  predicate Sorted(ts: map<Addr, Timer>, q: seq<Addr>)
    requires Known(ts, q)
  {
    forall i, j | 0 <= i < j < |q| :: Before(KeyOf(ts, q[i]), KeyOf(ts, q[j]))
  }

  /** `lower_bound`: the first place whose timer is not before `k`. */
  function LowerBound(ts: map<Addr, Timer>, q: seq<Addr>, k: Key): (r: nat)
    requires Known(ts, q)
    ensures r <= |q|
  {
    if q == [] || !Before(KeyOf(ts, q[0]), k) then 0 else 1 + LowerBound(ts, q[1..], k)
  }

  /** `find`: the place of a timer that is neither before nor behind `a`, or none. */
  function Find(ts: map<Addr, Timer>, q: seq<Addr>, a: Addr): (r: Option<nat>)
    requires Known(ts, q) && a in ts
    ensures r.Some? ==> r.value < |q|
  {
    var i := LowerBound(ts, q, KeyOf(ts, a));
    if i < |q| && !Before(KeyOf(ts, a), KeyOf(ts, q[i])) then Some(i) else None
  }

  function Erase(q: seq<Addr>, i: nat): seq<Addr>
    requires i < |q|
  {
    q[..i] + q[i + 1..]
  }

  function Insert(ts: map<Addr, Timer>, q: seq<Addr>, a: Addr): (r: seq<Addr>)
    requires Known(ts, q) && a in ts
    ensures Known(ts, r)
  {
    var i := LowerBound(ts, q, KeyOf(ts, a));
    q[..i] + [a] + q[i..]
  }

  // ---------- Operations ----------

  /** What an operation leaves and answers: the manager, whether `onTimerInsertedAtFront` was called, the
      returned flag, the returned waiting time (`None` for the largest number) and the callbacks handed
      out, each with its timer. */
  datatype Result = Result(m: Manager, fired: bool, ok: bool, wait: Option<nat>, delivered: seq<Delivery>)

  datatype Delivery = Delivery(addr: Addr, cb: Callback)

  function Quietly(m: Manager, ok: bool): Result {
    Result(m, false, ok, None, [])
  }

  /** `addTimer(val, lock)`. */
  function Arm(m: Manager, a: Addr): Result
    requires Known(m.timers, m.queue) && a in m.timers
  {
    var q := Insert(m.timers, m.queue, a);
    var atFront := q[0] == a && !m.tickled;
    Result(m.(queue := q, tickled := m.tickled || atFront), atFront, true, None, [])
  }

  /** `addTimer(ms, cb, recurring)`: the clock is read when the timer is made, before the lock is taken. */
  function Add(m: Manager, a: Addr, ms: nat, cb: Callback, recurring: bool, created: nat): Result
    requires Known(m.timers, m.queue)
  {
    Arm(m.(timers := m.timers[a := Timer(created + ms, ms, recurring, Some(cb))]), a)
  }

  function Cancel(m: Manager, a: Addr): Result
    requires Good(m) && a in m.timers
  {
    if m.timers[a].cb == None then Quietly(m, false)
    else
      FindsLive(m, a);
      var i := Find(m.timers, m.queue, a).value;
      Quietly(m.(timers := m.timers[a := m.timers[a].(cb := None)], queue := Erase(m.queue, i)), true)
  }

  /** The timer at place `i` leaves the set and gets other fields. */
  function TakenOut(m: Manager, a: Addr, i: nat, t: Timer): (r: Manager)
    requires Known(m.timers, m.queue) && i < |m.queue|
    ensures Known(r.timers, r.queue)
  {
    m.(timers := m.timers[a := t], queue := Erase(m.queue, i))
  }

  function Refresh(m: Manager, a: Addr, now: nat): Result
    requires Known(m.timers, m.queue) && a in m.timers
  {
    var t := m.timers[a];
    var found := Find(m.timers, m.queue, a);
    if t.cb == None || found == None then Quietly(m, false)
    else
      var out := TakenOut(m, a, found.value, t.(next := now + t.ms));
      Quietly(out.(queue := Insert(out.timers, out.queue, a)), true)
  }

  function Reset(m: Manager, a: Addr, ms: nat, fromNow: bool, now: nat): Result
    requires Known(m.timers, m.queue) && a in m.timers && m.timers[a].ms <= m.timers[a].next
  {
    var t := m.timers[a];
    var found := Find(m.timers, m.queue, a);
    if ms == t.ms && !fromNow then Quietly(m, true)
    else if t.cb == None || found == None then Quietly(m, false)
    else
      var start := if fromNow then now else t.next - t.ms;
      Arm(TakenOut(m, a, found.value, t.(ms := ms, next := start + ms)), a)
  }

  /** `getNextTimer`. */
  function Look(m: Manager, now: nat): Result
    requires Known(m.timers, m.queue)
  {
    var wait := if m.queue == [] then None
                else
                  var next := m.timers[m.queue[0]].next;
                  Some(if now >= next then 0 else next - now);
    Result(m.(tickled := false), false, true, wait, [])
  }

  /** `detectClockRollover`, with the wrap-around of its subtraction. */
  predicate Rollover(now: nat, previous: nat) {
    now < previous && now < (previous - 3600000) % 0x1_0000_0000_0000_0000
  }

  /** How many timers at the front are taken: up to `lower_bound` of the probe, then those due right now. */
  function DueCount(ts: map<Addr, Timer>, q: seq<Addr>, now: nat, probe: Addr): (r: nat)
    requires Known(ts, q)
    ensures r <= |q|
  {
    SkipDue(ts, q, LowerBound(ts, q, Key(now, probe)), now)
  }

  function SkipDue(ts: map<Addr, Timer>, q: seq<Addr>, i: nat, now: nat): (r: nat)
    requires Known(ts, q) && i <= |q|
    ensures i <= r <= |q|
    decreases |q| - i
  {
    if i < |q| && ts[q[i]].next == now then SkipDue(ts, q, i + 1, now) else i
  }

  /** The loop over the expired timers: recurring ones go back into the set, the others lose their callback. */
  function Recycle(ts: map<Addr, Timer>, q: seq<Addr>, expired: seq<Addr>, now: nat): (r: (map<Addr, Timer>, seq<Addr>))
    requires Known(ts, q) && Known(ts, expired)
    ensures Known(r.0, r.1)
    decreases |expired|
  {
    if expired == [] then (ts, q)
    else
      var a := expired[0];
      var t := ts[a];
      if t.recurring then
        var ts' := ts[a := t.(next := now + t.ms)];
        Recycle(ts', Insert(ts', q, a), expired[1..], now)
      else
        Recycle(ts[a := t.(cb := None)], q, expired[1..], now)
  }

  function Deliveries(ts: map<Addr, Timer>, expired: seq<Addr>): (r: seq<Delivery>)
    requires Known(ts, expired) && forall i | 0 <= i < |expired| :: ts[expired[i]].cb.Some?
    ensures |r| == |expired|
    ensures forall i | 0 <= i < |expired| :: r[i] == Delivery(expired[i], ts[expired[i]].cb.value)
  {
    seq(|expired|, i requires 0 <= i < |expired| => Delivery(expired[i], ts[expired[i]].cb.value))
  }

  /** `listExpiredCb`. */
  function Expire(m: Manager, now: nat, probe: Addr): Result
    requires Good(m)
  {
    if m.queue == [] then Quietly(m, true)
    else
      var rollover := Rollover(now, m.previous);
      var seen := m.(previous := now);
      if !rollover && m.timers[m.queue[0]].next > now then Quietly(seen, true)
      else
        var n := if rollover then |m.queue| else DueCount(m.timers, m.queue, now, probe);
        var expired := m.queue[..n];
        var r := Recycle(m.timers, m.queue[n..], expired, now);
        Result(seen.(timers := r.0, queue := r.1), false, true, None, Deliveries(m.timers, expired))
  }

  // ---------- The invariant ----------

  predicate Clocked(m: Manager) {
    && m.previous <= m.clock
    && forall a | a in m.timers :: m.timers[a].ms <= m.timers[a].next <= m.clock + m.timers[a].ms
  }

  /** The set is strictly ordered, and a timer is in it exactly when it has a callback; no timer was
      started after the latest clock reading. */
  predicate Good(m: Manager) {
    && Known(m.timers, m.queue) && Sorted(m.timers, m.queue) && Clocked(m)
    && forall a | a in m.timers :: a in m.queue <==> m.timers[a].cb.Some?
  }

  lemma {:induction false} LowerBoundSplits(ts: map<Addr, Timer>, q: seq<Addr>, k: Key)
    requires Known(ts, q) && Sorted(ts, q)
    ensures var i := LowerBound(ts, q, k);
      && (forall j | 0 <= j < i :: Before(KeyOf(ts, q[j]), k))
      && (forall j | i <= j < |q| :: !Before(KeyOf(ts, q[j]), k))
  {
    if q != [] && Before(KeyOf(ts, q[0]), k) {
      LowerBoundSplits(ts, q[1..], k);
      var i := LowerBound(ts, q, k);
      forall j | 0 < j < |q|
        ensures q[j] == q[1..][j - 1]
      {
      }
    } else if q != [] {
      forall j | 0 <= j < |q|
        ensures !Before(KeyOf(ts, q[j]), k)
      {
        assert j > 0 ==> Before(KeyOf(ts, q[0]), KeyOf(ts, q[j]));
      }
    }
  }

  /** In an ordered set `find` finds what is there, and only that. */
  lemma FindsMember(ts: map<Addr, Timer>, q: seq<Addr>, a: Addr)
    requires Known(ts, q) && Sorted(ts, q) && a in ts
    ensures Find(ts, q, a).Some? <==> a in q
    ensures a in q ==> q[Find(ts, q, a).value] == a
  {
    LowerBoundSplits(ts, q, KeyOf(ts, a));
    if a in q {
      var j :| 0 <= j < |q| && q[j] == a;
      assert !Before(KeyOf(ts, q[j]), KeyOf(ts, a));
    }
  }

  /** `find` in `cancel` never fails: its result is used without a check. */
  lemma FindsLive(m: Manager, a: Addr)
    requires Good(m) && a in m.timers && m.timers[a].cb.Some?
    ensures Find(m.timers, m.queue, a).Some? && m.queue[Find(m.timers, m.queue, a).value] == a
  {
    FindsMember(m.timers, m.queue, a);
  }

  lemma InsertKeeps(ts: map<Addr, Timer>, q: seq<Addr>, a: Addr)
    requires Known(ts, q) && Sorted(ts, q) && a in ts && a !in q
    ensures Sorted(ts, Insert(ts, q, a))
    ensures forall b :: b in Insert(ts, q, a) <==> b == a || b in q
    ensures Insert(ts, q, a)[0] == a || (q != [] && Insert(ts, q, a)[0] == q[0])
  {
    var k := KeyOf(ts, a);
    var i := LowerBound(ts, q, k);
    LowerBoundSplits(ts, q, k);
    var r := Insert(ts, q, a);
    Between(q, i, a, r);
    hide LowerBound, Insert;
    forall x, y | 0 <= x < y < |r|
      ensures Before(KeyOf(ts, r[x]), KeyOf(ts, r[y]))
    {
    }
  }

  lemma Between(q: seq<Addr>, i: nat, a: Addr, r: seq<Addr>)
    requires i <= |q| && r == q[..i] + [a] + q[i..]
    ensures |r| == |q| + 1 && r[i] == a
    ensures forall x | 0 <= x < i :: r[x] == q[x]
    ensures forall x | i < x < |r| :: r[x] == q[x - 1]
    ensures forall b :: b in r <==> b == a || b in q
  {
    assert q == q[..i] + q[i..];
  }

  lemma EraseKeeps(ts: map<Addr, Timer>, q: seq<Addr>, i: nat)
    requires Known(ts, q) && Sorted(ts, q) && i < |q|
    ensures Known(ts, Erase(q, i)) && Sorted(ts, Erase(q, i))
    ensures forall b :: b in Erase(q, i) <==> b in q && b != q[i]
  {
    var r := Erase(q, i);
    forall x | 0 <= x < |r|
      ensures r[x] == q[if x < i then x else x + 1]
    {
    }
    forall b | b in q && b != q[i]
      ensures b in r
    {
      var j :| 0 <= j < |q| && q[j] == b;
      assert r[if j < i then j else j - 1] == b;
    }
  }

  /** Changing timers outside a set does not disturb its order. */
  lemma SortedElsewhere(ts: map<Addr, Timer>, ts': map<Addr, Timer>, q: seq<Addr>)
    requires Known(ts, q) && Sorted(ts, q) && Known(ts', q)
    requires forall i | 0 <= i < |q| :: ts'[q[i]].next == ts[q[i]].next
    ensures Sorted(ts', q)
  {
  }

  /** The invariant with timer `a` taken out of the set. */
  predicate GoodBut(m: Manager, a: Addr) {
    && Known(m.timers, m.queue) && Sorted(m.timers, m.queue) && Clocked(m)
    && a in m.timers && a !in m.queue && m.timers[a].cb.Some?
    && forall b | b in m.timers && b != a :: b in m.queue <==> m.timers[b].cb.Some?
  }

  lemma PutBack(m: Manager, a: Addr)
    requires GoodBut(m, a)
    ensures Good(m.(queue := Insert(m.timers, m.queue, a)))
  {
    InsertKeeps(m.timers, m.queue, a);
    hide Insert, Sorted;
  }

  lemma ArmKeeps(m: Manager, a: Addr)
    requires GoodBut(m, a)
    ensures Good(Arm(m, a).m)
    ensures Arm(m, a).m.queue[0] == a || (m.queue != [] && Arm(m, a).m.queue[0] == m.queue[0])
  {
    InsertKeeps(m.timers, m.queue, a);
    hide Insert, Sorted;
  }

  /** A timer taken out of the set, with another deadline. */
  lemma TakeOut(m: Manager, a: Addr, t: Timer)
    requires Good(m) && a in m.timers && m.timers[a].cb.Some? && t.cb.Some?
    requires t.ms <= t.next <= m.clock + t.ms
    ensures Find(m.timers, m.queue, a).Some?
    ensures var out := TakenOut(m, a, Find(m.timers, m.queue, a).value, t);
      && GoodBut(out, a) && out.timers == m.timers[a := t] && out.tickled == m.tickled && out.clock == m.clock
      && forall b :: b in out.queue <==> b in m.queue && b != a
  {
    FindsLive(m, a);
    var i := Find(m.timers, m.queue, a).value;
    EraseKeeps(m.timers, m.queue, i);
    hide Find, Erase;
    SortedElsewhere(m.timers, m.timers[a := t], Erase(m.queue, i));
  }

  // ---------- Expiry ----------

  /** Whatever the address of the probe: exactly the timers due by now lie before the cut. */
  lemma DueCountIsExact(ts: map<Addr, Timer>, q: seq<Addr>, now: nat, probe: Addr)
    requires Known(ts, q) && Sorted(ts, q)
    ensures var n := DueCount(ts, q, now, probe);
      && (forall i | 0 <= i < n :: ts[q[i]].next <= now)
      && (forall i | n <= i < |q| :: ts[q[i]].next > now)
  {
    LowerBoundSplits(ts, q, Key(now, probe));
    SkipDueIsExact(ts, q, LowerBound(ts, q, Key(now, probe)), now);
  }

  lemma {:induction false} SkipDueIsExact(ts: map<Addr, Timer>, q: seq<Addr>, i: nat, now: nat)
    requires Known(ts, q) && Sorted(ts, q) && i <= |q|
    requires forall j | i <= j < |q| :: ts[q[j]].next >= now
    ensures var n := SkipDue(ts, q, i, now);
      && (forall j | i <= j < n :: ts[q[j]].next == now)
      && (forall j | n <= j < |q| :: ts[q[j]].next > now)
    decreases |q| - i
  {
    if i < |q| && ts[q[i]].next == now {
      SkipDueIsExact(ts, q, i + 1, now);
    } else if i < |q| {
      forall j | i <= j < |q|
        ensures ts[q[j]].next > now
      {
        assert j > i ==> Before(KeyOf(ts, q[i]), KeyOf(ts, q[j]));
      }
    }
  }

  predicate Apart(q: seq<Addr>, expired: seq<Addr>) {
    && (forall i | 0 <= i < |expired| :: expired[i] !in q)
    && (forall i, j | 0 <= i < j < |expired| :: expired[i] != expired[j])
  }

  function Recycled(t: Timer, now: nat): Timer {
    if t.recurring then t.(next := now + t.ms) else t.(cb := None)
  }

  /** The whole effect of the loop over the expired timers. */
  ghost predicate RecycledAll(ts: map<Addr, Timer>, q: seq<Addr>, expired: seq<Addr>, now: nat,
                        ts': map<Addr, Timer>, q': seq<Addr>)
    requires Known(ts, expired)
  {
    && ts'.Keys == ts.Keys
    && (forall a | a in ts :: ts'[a] == if a in expired then Recycled(ts[a], now) else ts[a])
    && (forall a :: a in q' <==> a in q || (a in expired && ts[a].recurring))
  }

  lemma {:induction false} RecycleEffect(ts: map<Addr, Timer>, q: seq<Addr>, expired: seq<Addr>, now: nat)
    requires Known(ts, q) && Known(ts, expired) && Sorted(ts, q) && Apart(q, expired)
    ensures var r := Recycle(ts, q, expired, now);
      Sorted(r.0, r.1) && RecycledAll(ts, q, expired, now, r.0, r.1)
    decreases |expired|
  {
    if expired != [] {
      var a, rest := expired[0], expired[1..];
      assert Known(ts, [a]);
      var ts' := ts[a := Recycled(ts[a], now)];
      var q' := if ts[a].recurring then Insert(ts', q, a) else q;
      FirstRecycled(ts, q, expired, now, ts', q');
      RecycleEffect(ts', q', rest, now);
      var r := Recycle(ts', q', rest, now);
      assert Recycle(ts, q, expired, now) == r;
      hide *;
      RecycledJoin(ts, q, expired, now, ts', q', r.0, r.1);
    }
  }

  lemma FirstRecycled(ts: map<Addr, Timer>, q: seq<Addr>, expired: seq<Addr>, now: nat,
                      ts': map<Addr, Timer>, q': seq<Addr>)
    requires Known(ts, q) && Known(ts, expired) && Sorted(ts, q) && Apart(q, expired) && expired != []
    requires ts' == ts[expired[0] := Recycled(ts[expired[0]], now)]
    requires q' == if ts[expired[0]].recurring then Insert(ts', q, expired[0]) else q
    ensures Known(ts', q') && Known(ts', expired[1..]) && Sorted(ts', q') && Apart(q', expired[1..])
    ensures Known(ts, [expired[0]]) && RecycledAll(ts, q, [expired[0]], now, ts', q')
  {
    SortedElsewhere(ts, ts', q);
    if ts[expired[0]].recurring {
      InsertKeeps(ts', q, expired[0]);
    }
    hide Insert, Sorted, Recycled;
  }

  lemma RecycledJoin(ts: map<Addr, Timer>, q: seq<Addr>, expired: seq<Addr>, now: nat,
                     ts': map<Addr, Timer>, q': seq<Addr>, ts'': map<Addr, Timer>, q'': seq<Addr>)
    requires Known(ts, expired) && Apart(q, expired) && expired != [] && Known(ts', expired[1..])
    requires Known(ts, [expired[0]]) && RecycledAll(ts, q, [expired[0]], now, ts', q')
    requires RecycledAll(ts', q', expired[1..], now, ts'', q'')
    ensures RecycledAll(ts, q, expired, now, ts'', q'')
  {
    hide Recycled;
    assert expired == [expired[0]] + expired[1..];
    assert expired[0] !in expired[1..];
  }
}
