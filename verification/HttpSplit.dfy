/** Feeding the parser piece by piece: what does not depend on where the input is cut into calls, and when a
    call on a piece throws. */
module HttpSplit {
  import opened Wrappers
  import opened Bytes
  import opened HttpTable
  import opened HttpParser
  import opened HttpGrammar

  // ---------- The call that throws ----------

  /** What may be left of a part of the target in state `cs`: the end of a percent-encoded triple, then text. */
  predicate UriRest(k: Loop, cs: int, t: Data, relaxed: bool) {
    if cs == Home(k) then UriText(t, k.PathLoop?, relaxed)
    else if cs == Triple(k) then |t| > 1 && Xdigit(t[0]) && Xdigit(t[1]) && UriText(t[2..], k.PathLoop?, relaxed)
    else cs == Triple(k) + 1 && |t| > 0 && Xdigit(t[0]) && UriText(t[1..], k.PathLoop?, relaxed)
  }

  lemma RestRuns(st: Parser, buf: Data, p: nat, e: nat, k: Loop)
    requires p <= e <= |buf| && UriRest(k, st.cs, buf[p..e], st.relaxed)
    ensures Run(st, buf, p) == Run(st.(cs := Home(k)), buf, e)
  {
    hide Run, Next, UriText;
    var home := st.(cs := Home(k));
    var t := buf[p..e];
    if st.cs == Home(k) {
      UriRuns(st, buf, p, e, k);
    } else if st.cs == Triple(k) {
      UriEdges(k, buf[p], st.relaxed);
      UriEdges(k, buf[p + 1], st.relaxed);
      Silent(st, buf, p, Triple(k) + 1);
      Silent(st.(cs := Triple(k) + 1), buf, p + 1, Home(k));
      assert t[2..] == buf[p + 2..e];
      UriRuns(home, buf, p + 2, e, k);
    } else {
      UriEdges(k, buf[p], st.relaxed);
      Silent(st, buf, p, Home(k));
      assert t[1..] == buf[p + 1..e];
      UriRuns(home, buf, p + 1, e, k);
    }
  }

  /** A run that gets out of a part of the target does so at a delimiter. */
  lemma RestEnds(st: Parser, buf: Data, p: nat, k: Loop) returns (e: nat)
    requires p <= |buf| && (st.cs == Home(k) || st.cs == Triple(k) || st.cs == Triple(k) + 1)
    requires GoesFar(Run(st, buf, p))
    ensures p <= e < |buf| && EndsLoop(buf[e], k) && UriRest(k, st.cs, buf[p..e], st.relaxed)
  {
    hide Run, Next, UriText;
    var home := st.(cs := Home(k));
    if st.cs == Home(k) {
      e := UriEnds(st, buf, p, k);
    } else if st.cs == Triple(k) {
      NotStuck(st, buf, p);
      UriEdges(k, buf[p], st.relaxed);
      Silent(st, buf, p, Triple(k) + 1);
      NotStuck(st.(cs := Triple(k) + 1), buf, p + 1);
      UriEdges(k, buf[p + 1], st.relaxed);
      Silent(st.(cs := Triple(k) + 1), buf, p + 1, Home(k));
      e := UriEnds(home, buf, p + 2, k);
      assert buf[p..e][2..] == buf[p + 2..e];
    } else {
      NotStuck(st, buf, p);
      UriEdges(k, buf[p], st.relaxed);
      Silent(st, buf, p, Home(k));
      e := UriEnds(home, buf, p + 1, k);
      assert buf[p..e][1..] == buf[p + 1..e];
    }
  }

  /** The query a call goes on with ends at offset `p`. */
  predicate QueryEndsAt(st: Parser, buf: Data, p: nat) {
    p < |buf| && EndsLoop(buf[p], QueryLoop) && UriRest(QueryLoop, st.cs, buf[..p], st.relaxed)
  }

  /** The query a call goes on with ends in front of where, in an earlier call, it started. */
  predicate QueryEndsEarly(st: Parser, buf: Data) {
    exists p: nat :: p < st.queryStart && QueryEndsAt(st, buf, p)
  }

  /** A query that starts in the call itself does not throw. */
  lemma {:induction false} RunDoesNotThrow(st: Parser, buf: Data, p: nat)
    requires p <= |buf| && (30 <= st.cs <= 32 ==> st.queryStart <= p)
    ensures !Run(st, buf, p).exit.Threw?
    decreases |buf| - p
  {
    hide Next, Take;
    if p < |buf| && Modelled(st.cs) {
      var e := Next(st.cs, Signed(buf[p]), st.relaxed);
      LaterActionsDoNotThrow(st.cs, Signed(buf[p]), st.relaxed);
      TakeControl(st, e, buf, p);
      QueryIsEntered(st.cs, Signed(buf[p]), st.relaxed);
      if e.to != ERROR && e.to != FIRST_FINAL {
        RunDoesNotThrow(Take(st, e, buf, p), buf, p + 1);
      }
    }
  }

  lemma QueryIsEntered(cs: int, c: int, relaxed: bool)
    requires Modelled(cs)
    ensures var e := Next(cs, c, relaxed); 30 <= e.to <= 32 ==> 30 <= cs <= 32 || e.first == StartQuery
  {
  }

  /** A call throws if and only if it goes on with a query, and the query ends in it at an offset below the
      one at which it started in an earlier call. */
  lemma ThrowsIff(st: Parser, buf: Data)
    ensures Execute(st, buf).exit.Threw? <==> QueryEndsEarly(st, buf)
  {
    hide Run;
    if buf != [] && st.cs != ERROR {
      var st0 := Unmarked(st);
      if st.cs == 30 || st.cs == 31 || st.cs == 32 {
        QueryThrowsIff(st0, buf);
      } else {
        RunDoesNotThrow(st0, buf, 0);
      }
      assert forall p: nat :: QueryEndsAt(st, buf, p) <==> QueryEndsAt(st0, buf, p);
    }
  }

  lemma QueryThrowsIff(st: Parser, buf: Data)
    requires st.cs == 30 || st.cs == 31 || st.cs == 32
    ensures Run(st, buf, 0).exit.Threw? <==> QueryEndsEarly(st, buf)
  {
    hide Run, Next, UriRest;
    var home := st.(cs := 30);
    if Run(st, buf, 0).exit.Threw? {
      var e := RestEnds(st, buf, 0, QueryLoop);
      assert buf[0..e] == buf[..e];
      RestRuns(st, buf, 0, e, QueryLoop);
      if st.queryStart <= e {
        RunDoesNotThrow(home, buf, e);
      }
      assert QueryEndsAt(st, buf, e);
    }
    forall p: nat | p < st.queryStart && QueryEndsAt(st, buf, p)
      ensures Run(st, buf, 0).exit.Threw?
    {
      assert buf[0..p] == buf[..p];
      RestRuns(st, buf, 0, p, QueryLoop);
      ThrowingStep(home, buf, p);
    }
  }

  lemma ThrowingStep(st: Parser, buf: Data, p: nat)
    requires st.cs == 30 && p < |buf| && EndsLoop(buf[p], QueryLoop) && p < st.queryStart
    ensures Run(st, buf, p) == Stop(st, p, Threw)
  {
    hide Next;
    QueryEdges(buf[p], st.relaxed);
  }

  // ---------- The control state ----------

  /** The parts of a stop that do not depend on marks. */
  datatype Control = Control(cs: int, at: int, exit: Exit)

  function ControlOf(r: Stop): Control {
    Control(r.st.cs, r.at, r.exit)
  }

  function Shift(c: Control, n: int): Control {
    c.(at := c.at + n)
  }

  lemma ApplyKeepsControl(st: Parser, a: Action, buf: Data, p: nat)
    ensures var r := Apply(st, a, buf, p);
      r.cs == st.cs && r.relaxed == st.relaxed && r.queryStart == if a == StartQuery then p else st.queryStart
  {
    hide SameText, Span;
  }

  lemma TakeControl(st: Parser, e: Edge, buf: Data, p: nat)
    ensures var r := Take(st, e, buf, p);
      && r.cs == e.to && r.relaxed == st.relaxed
      && r.queryStart == if StartQuery in {e.first, e.second, e.third} then p else st.queryStart
  {
    ApplyKeepsControl(st, e.first, buf, p);
    ApplyKeepsControl(Apply(st, e.first, buf, p), e.second, buf, p);
    ApplyKeepsControl(Apply(Apply(st, e.first, buf, p), e.second, buf, p), e.third, buf, p);
    hide Apply;
  }

  /** The path through the states depends only on the bytes ahead, not on marks or on where the bytes lie, as
      long as no call throws; and if the nearer of two runs does not throw, neither does the one further on. */
  lemma {:induction false} RunControl(st: Parser, st': Parser, buf: Data, buf': Data, p: nat, p': nat)
    requires st.cs == st'.cs && st.relaxed == st'.relaxed && st'.queryStart - p' <= st.queryStart - p && p <= p'
    requires p <= |buf| && p' <= |buf'| && buf[p..] == buf'[p'..] && !Run(st, buf, p).exit.Threw?
    ensures ControlOf(Run(st', buf', p')) == Shift(ControlOf(Run(st, buf, p)), p' - p)
    decreases |buf| - p
  {
    hide Next, Take;
    if p < |buf| && Modelled(st.cs) {
      assert buf[p] == buf[p..][0] == buf'[p'..][0] == buf'[p'];
      assert buf[p + 1..] == buf[p..][1..] == buf'[p' + 1..];
      var e := Next(st.cs, Signed(buf[p]), st.relaxed);
      TakeControl(st, e, buf, p);
      TakeControl(st', e, buf', p');
      if e.to != ERROR && e.to != FIRST_FINAL {
        RunControl(Take(st, e, buf, p), Take(st', e, buf', p'), buf, buf', p + 1, p' + 1);
      }
    }
  }

  predicate Stopped(r: Stop) {
    !r.exit.Returned? || r.st.cs == ERROR || r.st.cs == FIRST_FINAL
  }

  /** A run over `a + b` is a run over `a` that, unless it stopped there, goes on over `b`. */
  lemma {:induction false} RunOverJoin(st: Parser, st': Parser, a: Data, b: Data, p: nat)
    requires st.cs == st'.cs && st.relaxed == st'.relaxed && st.queryStart == st'.queryStart && p <= |a|
    requires st.cs != ERROR && st.cs != FIRST_FINAL
    ensures var r, whole := Run(st, a, p), Run(st', a + b, p);
      && (Stopped(r) ==> ControlOf(whole) == ControlOf(r))
      && (!Stopped(r) ==> r.at == |a|)
      && (!Stopped(r) && !Run(r.st, b, 0).exit.Threw? ==> ControlOf(whole) == Shift(ControlOf(Run(r.st, b, 0)), |a|))
    decreases |a| - p
  {
    hide Next, Take;
    if p == |a| {
      assert (a + b)[p..] == b == b[0..];
      if !Run(st, b, 0).exit.Threw? {
        RunControl(st, st', b, a + b, 0, p);
      }
    } else if Modelled(st.cs) {
      assert (a + b)[p] == a[p];
      var e := Next(st.cs, Signed(a[p]), st.relaxed);
      TakeControl(st, e, a, p);
      TakeControl(st', e, a + b, p);
      if e.to != ERROR && e.to != FIRST_FINAL && !Throws(st, e.first, p) {
        RunOverJoin(Take(st, e, a, p), Take(st', e, a + b, p), a, b, p + 1);
      }
    }
  }

  function Join(chunks: seq<Data>): Data {
    if chunks == [] then [] else chunks[0] + Join(chunks[1..])
  }

  /** One `execute` call per chunk until one of them stops the machine. */
  function Feed(st: Parser, chunks: seq<Data>): Control
    decreases |chunks|
  {
    if chunks == [] then Control(st.cs, 0, Returned)
    else
      var r := Execute(st, chunks[0]);
      if Stopped(r) then ControlOf(r) else Shift(Feed(r.st, chunks[1..]), r.at)
  }

  /** One of the calls goes on with a query that ends in it too early. */
  predicate SomeQueryEndsEarly(st: Parser, chunks: seq<Data>)
    decreases |chunks|
  {
    chunks != [] &&
    (QueryEndsEarly(st, chunks[0]) ||
     var r := Execute(st, chunks[0]);
     !Stopped(r) && SomeQueryEndsEarly(r.st, chunks[1..]))
  }

  /** However the input is cut into calls, the control state reached and the number of bytes consumed are those
      of a single call on the whole input, unless a call throws; and when that is. */
  lemma {:induction false} SplitDoesNotMatter(st: Parser, chunks: seq<Data>)
    requires st.cs != ERROR && st.cs != FIRST_FINAL
    ensures Feed(st, chunks).exit.Threw? <==> SomeQueryEndsEarly(st, chunks)
    ensures !SomeQueryEndsEarly(st, chunks) ==> Feed(st, chunks) == ControlOf(Execute(st, Join(chunks)))
    decreases |chunks|
  {
    hide Run, QueryEndsEarly;
    if chunks != [] {
      var a, b := chunks[0], Join(chunks[1..]);
      var r := Execute(st, a);
      ThrowsIff(st, a);
      if a == [] {
        assert a + b == b;
        SplitDoesNotMatter(st, chunks[1..]);
      } else {
        RunOverJoin(Unmarked(st), Unmarked(st), a, b, 0);
        if !Stopped(r) {
          SplitDoesNotMatter(r.st, chunks[1..]);
          if !SomeQueryEndsEarly(r.st, chunks[1..]) {
            GoingOnIsExecuting(r.st, b);
          }
        }
      }
    }
  }

  /** Putting the marks back changes neither where a run goes nor whether it throws. */
  lemma GoingOnIsExecuting(st: Parser, b: Data)
    requires st.cs != ERROR && !Execute(st, b).exit.Threw?
    ensures !Run(st, b, 0).exit.Threw? && ControlOf(Run(st, b, 0)) == ControlOf(Execute(st, b))
  {
    if b == [] {
      RunAtEnd(st, b);
    } else {
      RunControl(Unmarked(st), st, b, b, 0, 0);
    }
  }

  /** An error is sticky: every later call consumes nothing and stays in error. */
  lemma ErrorIsSticky(st: Parser, buf: Data)
    requires st.cs == ERROR
    ensures var r := Execute(st, buf); r.exit.Returned? && r.at == 0 && r.st.cs == ERROR && r.st.request == st.request
  {
  }

  /** While the parser is neither finished nor in error, and no callback throws, it has consumed the whole
      chunk, so nothing is carried over to the next read. */
  lemma {:induction false} UnfinishedConsumesAll(st: Parser, buf: Data, p: nat)
    requires p <= |buf| && st.cs != ERROR
    ensures var r := Run(st, buf, p); !Stopped(r) ==> r.at == |buf|
    decreases |buf| - p
  {
    hide Next, Take;
    if p < |buf| && Modelled(st.cs) {
      var e := Next(st.cs, Signed(buf[p]), st.relaxed);
      TakeControl(st, e, buf, p);
      if e.to != ERROR && e.to != FIRST_FINAL && !Throws(st, e.first, p) {
        UnfinishedConsumesAll(Take(st, e, buf, p), buf, p + 1);
      }
    }
  }
}
