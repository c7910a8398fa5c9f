/** One cut inside a token: what the second call hands to the callback, and exactly when the cut does no harm.
    The first call stops in the middle of the token; the second goes on as a run over the whole input would whose
    marks have been moved to the cut, except for the start of a query, which stays. */
module HttpTorn {
  import opened Wrappers
  import opened Bytes
  import opened HttpTable
  import opened HttpRequest
  import opened HttpParser
  import opened HttpGrammar
  import opened HttpRoundTrip
  import opened HttpSplit
  import opened HttpCuts

  // ---------- What the marks mean ----------

  /** The marks a state needs lie behind it, a version is marked at its start, names hold no NUL. */
  predicate Begun(st: Parser, buf: Data, p: nat) {
    BegunToken(st, p) && BegunField(st, buf, p) && (30 <= st.cs <= 32 ==> st.queryStart < p) && Sorted(st.request.headers)
  }

  predicate BegunToken(st: Parser, p: nat) {
    (Needed(st.cs).mark ==> 0 <= st.mark < p) && (5 <= st.cs <= 12 ==> st.mark == p - (st.cs - 4))
  }

  predicate BegunField(st: Parser, buf: Data, p: nat) {
    p <= |buf| && BegunName(st, buf, p) && BegunValue(st, p)
  }

  predicate BegunName(st: Parser, buf: Data, p: nat)
    requires p <= |buf|
  {
    st.cs == 14 || st.cs == 18 ==> 0 <= st.fieldStart < p && forall i | st.fieldStart <= i < p :: buf[i] != 0
  }

  predicate BegunValue(st: Parser, p: nat) {
    st.cs == 15 || st.cs == 16 ==> 0 <= st.fieldStart && 0 < st.fieldLen && st.fieldStart + st.fieldLen <= p
  }

  lemma ApplyMarks(st: Parser, a: Action, buf: Data, p: nat)
    ensures var r := Apply(st, a, buf, p);
      && r.mark == (if a == MarkToken then p else st.mark)
      && r.fieldStart == (if a == StartField then p else st.fieldStart)
      && r.fieldLen == (if a == WriteField then p - st.fieldStart else st.fieldLen)
      && (Sorted(st.request.headers) ==> Sorted(r.request.headers))
  {
    hide CharsToMethod, SameText, Span, Sorted, Set;
    if a == WriteValue {
      var name := Span(buf, st.fieldStart, st.fieldStart + st.fieldLen);
      if Sorted(st.request.headers) {
        SetKeepsSorted(st.request.headers, name, Span(buf, st.mark, p));
      }
    }
  }

  lemma TakeMarks(st: Parser, e: Edge, buf: Data, p: nat)
    requires e.second != WriteField && e.third != WriteField
    ensures var r := Take(st, e, buf, p);
      && r.cs == e.to
      && r.mark == (if MarkToken in {e.first, e.second, e.third} then p else st.mark)
      && r.fieldStart == (if StartField in {e.first, e.second, e.third} then p else st.fieldStart)
      && r.fieldLen == (if e.first == WriteField then p - st.fieldStart else st.fieldLen)
      && (Sorted(st.request.headers) ==> Sorted(r.request.headers))
  {
    hide Apply, Sorted;
    ApplyMarks(st, e.first, buf, p);
    ApplyMarks(Apply(st, e.first, buf, p), e.second, buf, p);
    ApplyMarks(Apply(Apply(st, e.first, buf, p), e.second, buf, p), e.third, buf, p);
  }

  lemma WriteFieldIsFirst(cs: int, c: int, relaxed: bool)
    requires Modelled(cs) && cs != FIRST_FINAL
    ensures var e := Next(cs, c, relaxed);
      e.second != WriteField && e.third != WriteField
  {
  }

  lemma VersionEntered(cs: int, c: int, relaxed: bool)
    requires Modelled(cs)
    ensures var e := Next(cs, c, relaxed);
      var marks := MarkToken in {e.first, e.second, e.third};
      5 <= e.to <= 12 ==> if e.to == 5 then marks else cs == e.to - 1 && !marks
  {
  }

  lemma FieldEdges(cs: int, c: int, relaxed: bool)
    requires Modelled(cs) && cs != FIRST_FINAL
    ensures var e := Next(cs, c, relaxed);
      var starts := StartField in {e.first, e.second, e.third};
      && (e.to == 14 || e.to == 18 ==> c != 0 && (starts || cs == 14 || cs == 18))
      && (e.to == 15 || e.to == 16 ==>
            !starts && if cs == 14 || cs == 18 then e.first == WriteField else e.first != WriteField && (cs == 15 || cs == 16))
  {
  }

  lemma StepBegun(st: Parser, buf: Data, p: nat)
    requires Begun(st, buf, p) && p < |buf| && Modelled(st.cs) && st.cs != FIRST_FINAL
    ensures var e := Next(st.cs, Signed(buf[p]), st.relaxed);
      e.to != ERROR && e.to != FIRST_FINAL ==> Begun(Take(st, e, buf, p), buf, p + 1)
  {
    hide Next, Take, Sorted, Modelled, BegunToken, BegunField;
    var e := Next(st.cs, Signed(buf[p]), st.relaxed);
    WriteFieldIsFirst(st.cs, Signed(buf[p]), st.relaxed);
    TakeMarks(st, e, buf, p);
    QueryIsEntered(st.cs, Signed(buf[p]), st.relaxed);
    TakeControl(st, e, buf, p);
    if e.to != ERROR && e.to != FIRST_FINAL {
      StepToken(st, buf, p, e);
      StepField(st, buf, p, e);
    }
  }

  lemma StepToken(st: Parser, buf: Data, p: nat, e: Edge)
    requires BegunToken(st, p) && p < |buf| && Modelled(st.cs) && st.cs != FIRST_FINAL
    requires e == Next(st.cs, Signed(buf[p]), st.relaxed) && e.to != ERROR && e.to != FIRST_FINAL
    ensures BegunToken(Take(st, e, buf, p), p + 1)
  {
    WriteFieldIsFirst(st.cs, Signed(buf[p]), st.relaxed);
    EdgesLeaveToken(st.cs, Signed(buf[p]), st.relaxed);
    VersionEntered(st.cs, Signed(buf[p]), st.relaxed);
    hide Next, Take, Modelled, Signed;
    TakeMarks(st, e, buf, p);
  }

  lemma StepField(st: Parser, buf: Data, p: nat, e: Edge)
    requires BegunField(st, buf, p) && p < |buf| && Modelled(st.cs) && st.cs != FIRST_FINAL
    requires e == Next(st.cs, Signed(buf[p]), st.relaxed) && e.to != ERROR && e.to != FIRST_FINAL
    ensures BegunField(Take(st, e, buf, p), buf, p + 1)
  {
    FieldEdges(st.cs, Signed(buf[p]), st.relaxed);
    WriteFieldIsFirst(st.cs, Signed(buf[p]), st.relaxed);
    NulIsSigned(buf[p]);
    TakeMarks(st, e, buf, p);
    hide Next, Take, Modelled, Needed, Signed, Sorted, BegunName, BegunValue;
    var r := Take(st, e, buf, p);
    NameGoesOn(st, r, e, buf, p);
    ValueGoesOn(st, r, e, buf, p);
  }

  lemma NameGoesOn(st: Parser, r: Parser, e: Edge, buf: Data, p: nat)
    requires p < |buf| && BegunName(st, buf, p) && r.cs == e.to
    requires var starts := StartField in {e.first, e.second, e.third};
      && r.fieldStart == (if starts then p else st.fieldStart)
      && (e.to == 14 || e.to == 18 ==> buf[p] != 0 && (starts || st.cs == 14 || st.cs == 18))
    ensures BegunName(r, buf, p + 1)
  {
  }

  lemma ValueGoesOn(st: Parser, r: Parser, e: Edge, buf: Data, p: nat)
    requires p < |buf| && BegunName(st, buf, p) && BegunValue(st, p) && r.cs == e.to
    requires var starts := StartField in {e.first, e.second, e.third};
      && r.fieldStart == (if starts then p else st.fieldStart)
      && r.fieldLen == (if e.first == WriteField then p - st.fieldStart else st.fieldLen)
      && (e.to == 15 || e.to == 16 ==>
            !starts && if st.cs == 14 || st.cs == 18 then e.first == WriteField else e.first != WriteField && (st.cs == 15 || st.cs == 16))
    ensures BegunValue(r, p + 1)
  {
  }

  lemma NulIsSigned(b: byte)
    ensures Signed(b) == 0 <==> b == 0
  {
  }

  lemma {:induction false} RunBegun(st: Parser, buf: Data, p: nat)
    requires p <= |buf| && Begun(st, buf, p) && st.cs != FIRST_FINAL
    ensures var r := Run(st, buf, p); !Stopped(r) ==> r.at == |buf| && Begun(r.st, buf, |buf|)
    decreases |buf| - p
  {
    hide Next, Take, Begun;
    if p < |buf| && Modelled(st.cs) {
      var e := Next(st.cs, Signed(buf[p]), st.relaxed);
      StepBegun(st, buf, p);
      TakeControl(st, e, buf, p);
      if e.to != ERROR && e.to != FIRST_FINAL && !Throws(st, e.first, p) {
        RunBegun(Take(st, e, buf, p), buf, p + 1);
      }
    }
    if p == |buf| {
      RunAtEnd(st, buf);
    }
  }

  // ---------- Two calls seen as two runs over the whole input ----------

  /** A parser between tokens that has not failed. */
  predicate Ready(st: Parser) {
    st.cs != ERROR && st.cs != FIRST_FINAL && Needed(st.cs) == NONE && Sorted(st.request.headers)
  }

  function Moved(st: Parser, q: nat): Parser {
    st.(mark := q, fieldStart := q, fieldLen := 0)
  }

  lemma ReadyIsBegun(st: Parser, buf: Data)
    requires Ready(st)
    ensures Begun(Unmarked(st), buf, 0)
  {
  }

  /** The single call goes on from where the first call stopped. */
  lemma WholeGoesOn(st: Parser, a: Data, b: Data)
    requires Ready(st) && a != [] && Accepts(Execute(st, a + b)) && !Stopped(Execute(st, a))
    ensures var g := Execute(st, a).st;
      && Execute(st, a).at == |a| && Begun(g, a, |a|) && b != []
      && Accepts(Run(g, a + b, |a|)) && Agree(Execute(st, a + b), Run(g, a + b, |a|), 0)
  {
    hide Run, Needed, Begun;
    var w, st0 := a + b, Unmarked(st);
    assert LiesAt(w, 0, a) && LiesAt(w, 0, w);
    assert b == [] ==> w == a;
    NoMarkNoThrow(st, a);
    NoMarkNoThrow(st, w);
    ReadyIsBegun(st, a);
    RunBegun(st0, a, 0);
    var next := RunTied(st0, st0, w, 0, a, 0);
    var g := Execute(st, a).st;
    var last := RunTied(next, g, w, 0, w, |a|);
    RunAtEnd(last, w);
  }

  /** Outside a query, the second call does what a run with moved marks does. */
  lemma SecondIsMoved(g: Parser, a: Data, b: Data)
    requires g.cs != ERROR && g.cs != FIRST_FINAL && !(30 <= g.cs <= 32) && a != [] && b != []
    requires Accepts(Run(g, a + b, |a|))
    ensures Agree(Run(Moved(g, |a|), a + b, |a|), Execute(g, b), |a|) && Accepts(Execute(g, b))
  {
    hide Run;
    var w, q := a + b, |a|;
    RunDoesNotThrow(Unmarked(g), b, 0);
    RunDoesNotThrow(g, w, q);
    RunControl(g, Moved(g, q), w, w, q, q);
    assert LiesAt(w, q, b);
    var next := RunTied(Moved(g, q), Unmarked(g), w, q, b, 0);
    RunAtEnd(next, w);
    hide Needed;
    UnfinishedConsumesAll(Unmarked(g), b, 0);
  }

  // ---------- What the rest of an accepted run leaves alone ----------

  lemma LinesAreRead(st: Parser, buf: Data, p: nat, lines: seq<Line>, last: LineEnd)
    requires st.cs == 13 && At(buf, p, LinesText(lines) + EndText(last))
    requires forall i | 0 <= i < |lines| :: WellFormedLine(lines[i])
    ensures var r := Run(st, buf, p);
      r.st.error == st.error && r.st.request == st.request.(headers := SetLines(st.request.headers, lines))
  {
    hide Run, WellFormedLine, LinesText, EndText;
    HeadersAreRead(st, buf, p, Message([], [], None, None, 48, Lf, lines, last));
  }

  lemma TargetIsKept(st: Parser, buf: Data, p: nat)
    requires st.cs == 4 && p <= |buf| && Accepts(Run(st, buf, p))
    ensures var r := Run(st, buf, p).st.request; r == st.request.(version := r.version, headers := r.headers)
  {
    hide Run, WellFormedLine, LinesText, EndText, At, SetLines;
    var minor, end := VersionEnds(st, buf, p);
    VersionRuns(st, buf, p, minor, end);
    AtIs(buf, p, HTTP_SLASH + ([minor] + EndText(end)));
    var s13, q := WithVersion(st, p, minor), p + 8 + |EndText(end)|;
    var lines, last := LinesEnd(s13, buf, q);
    LinesAreRead(s13, buf, q, lines, last);
  }

  lemma QueryIsKept(st: Parser, buf: Data, g: nat)
    requires g < |buf| && EndsLoop(buf[g], QueryLoop) && st.cs == After(buf[g]) && Accepts(Run(st, buf, g + 1))
    ensures var r := Run(st, buf, g + 1).st.request;
      r == st.request.(fragment := r.fragment, version := r.version, headers := r.headers)
  {
    hide Run, UriText, OptionalText;
    var fragment, h := FragmentPartEnds(st, buf, g);
    var next := FragmentPart(st, buf, g, h, fragment);
    TargetIsKept(next, buf, h + 1);
  }

  lemma PathIsKept(st: Parser, buf: Data, e: nat)
    requires e < |buf| && EndsLoop(buf[e], PathLoop) && st.cs == After(buf[e]) && Accepts(Run(st, buf, e + 1))
    ensures Run(st, buf, e + 1).st.request.path == st.request.path
  {
    hide Run, UriText, OptionalText;
    var query, g := QueryPartEnds(st, buf, e);
    var next := QueryPart(st, buf, e, g, query);
    QueryIsKept(next, buf, g);
  }

  // ---------- The parts of the target ----------

  /** A run that goes on with a path takes what lies between the mark and the delimiter. */
  lemma PathTaken(st: Parser, buf: Data, q: nat, e: nat)
    requires 0 <= st.mark <= q <= e < |buf| && EndsLoop(buf[e], PathLoop) && Accepts(Run(st, buf, q))
    requires UriRest(PathLoop, st.cs, buf[q..e], st.relaxed)
    ensures Run(st, buf, q).st.request.path == buf[st.mark..e]
  {
    hide Run, Next, UriText;
    RestRuns(st, buf, q, e, PathLoop);
    TargetEdges(buf[e], st.relaxed);
    var home := st.(cs := 26);
    Step(home, buf, e, Next(26, Signed(buf[e]), st.relaxed));
    var t := home.(cs := After(buf[e]), request := st.request.(path := buf[st.mark..e]));
    assert Take(home, Next(26, Signed(buf[e]), st.relaxed), buf, e) == t;
    PathIsKept(t, buf, e);
  }

  lemma QueryTaken(st: Parser, buf: Data, q: nat, e: nat)
    requires st.queryStart <= e && q <= e < |buf| && EndsLoop(buf[e], QueryLoop) && Accepts(Run(st, buf, q))
    requires UriRest(QueryLoop, st.cs, buf[q..e], st.relaxed)
    ensures Run(st, buf, q).st.request.query == buf[st.queryStart..e]
  {
    hide Run, Next, UriText;
    RestRuns(st, buf, q, e, QueryLoop);
    QueryEdges(buf[e], st.relaxed);
    var home := st.(cs := 30);
    Step(home, buf, e, Next(30, Signed(buf[e]), st.relaxed));
    var t := home.(cs := After(buf[e]), request := st.request.(query := buf[st.queryStart..e]));
    assert Take(home, Next(30, Signed(buf[e]), st.relaxed), buf, e) == t;
    QueryIsKept(t, buf, e);
  }

  lemma FragmentTaken(st: Parser, buf: Data, q: nat, e: nat)
    requires 0 <= st.mark <= q <= e < |buf| && EndsLoop(buf[e], FragmentLoop) && Accepts(Run(st, buf, q))
    requires UriRest(FragmentLoop, st.cs, buf[q..e], st.relaxed)
    ensures Run(st, buf, q).st.request.fragment == buf[st.mark..e]
  {
    hide Run, Next, UriText;
    RestRuns(st, buf, q, e, FragmentLoop);
    FragmentEdges(buf[e], st.relaxed);
    var home := st.(cs := 21);
    Step(home, buf, e, Next(21, Signed(buf[e]), st.relaxed));
    var t := home.(cs := 4, request := st.request.(fragment := buf[st.mark..e]));
    assert Take(home, Next(21, Signed(buf[e]), st.relaxed), buf, e) == t;
    TargetIsKept(t, buf, e + 1);
  }

  /** The call on `b` goes on, in the middle of a token, with what the call on `a` left of parser `g`. */
  predicate Torn(g: Parser, a: Data, b: Data) {
    g.cs != ERROR && g.cs != FIRST_FINAL && a != [] && b != [] && Begun(g, a, |a|) && Accepts(Run(g, a + b, |a|))
  }

  lemma TornMark(g: Parser, a: Data, b: Data)
    requires Torn(g, a, b) && Needed(g.cs).mark
    ensures 0 <= g.mark < |a| && g.mark < |a + b| && (5 <= g.cs <= 12 ==> g.mark == |a| - (g.cs - 4))
    ensures (a + b)[g.mark..] == a[g.mark..] + b && (a + b)[|a|..] == b && (a + b)[|a| - 1] == a[|a| - 1]
  {
    hide BegunField, Run;
  }

  /** What the second call makes, in terms of the moved run, whose other fields are those of `g`. */
  lemma SecondIs(g: Parser, a: Data, b: Data)
    requires Torn(g, a, b) && !(30 <= g.cs <= 32)
    ensures Accepts(Run(g, a + b, |a|)) && Accepts(Execute(g, b)) && Accepts(Run(Moved(g, |a|), a + b, |a|))
    ensures var m, s, r := Moved(g, |a|), Execute(g, b).st, Run(Moved(g, |a|), a + b, |a|).st;
      && s.request == r.request && s.error == r.error
      && m.cs == g.cs && m.relaxed == g.relaxed && m.request == g.request && m.error == g.error && m.mark == |a|
  {
    SecondIsMoved(g, a, b);
    hide Run, Execute;
  }

  lemma Joined(a: Data, b: Data, m: nat, e: nat)
    requires m <= |a| <= e < |a| + |b|
    ensures var t := (a + b)[|a|..e];
      && t == b[..e - |a|] && (a + b)[e] == b[e - |a|]
      && (a + b)[m..e] == a[m..] + t
  {
  }

  /** A torn path: the second call takes for the path what it sees of it. */
  lemma TornPath(g: Parser, a: Data, b: Data) returns (t: Data)
    requires Torn(g, a, b) && (g.cs == 26 || g.cs == 27 || g.cs == 28 || g.cs == 33)
    ensures t < b && EndsLoop(b[|t|], PathLoop) && UriRest(PathLoop, if g.cs == 33 then 26 else g.cs, t, g.relaxed)
    ensures 0 <= g.mark < |a| && Run(g, a + b, |a|).st.request.path == a[g.mark..] + t
    ensures Accepts(Execute(g, b)) && Execute(g, b).st.request.path == t
  {
    hide Run, Execute, Next, UriRest;
    var w, q := a + b, |a|;
    SecondIsMoved(g, a, b);
    var h := if g.cs == 33 then g.(cs := 26) else g;
    if g.cs == 33 {
      NotStuck(g, w, q);
      TargetEdges(w[q], g.relaxed);
      SameEdge(g, h, w, q);
      SameEdge(Moved(g, q), Moved(h, q), w, q);
    }
    var e := RestEnds(h, w, q, PathLoop);
    PathTaken(h, w, q, e);
    PathTaken(Moved(h, q), w, q, e);
    t := w[q..e];
    Joined(a, b, g.mark, e);
  }

  lemma TornFragment(g: Parser, a: Data, b: Data) returns (t: Data)
    requires Torn(g, a, b) && 21 <= g.cs <= 23
    ensures t < b && b[|t|] == 32 && UriRest(FragmentLoop, g.cs, t, g.relaxed)
    ensures 0 <= g.mark < |a| && Run(g, a + b, |a|).st.request.fragment == a[g.mark..] + t
    ensures Accepts(Execute(g, b)) && Execute(g, b).st.request.fragment == t
  {
    hide Run, Execute, Next, UriRest;
    var w, q := a + b, |a|;
    SecondIsMoved(g, a, b);
    var e := RestEnds(g, w, q, FragmentLoop);
    FragmentTaken(g, w, q, e);
    FragmentTaken(Moved(g, q), w, q, e);
    t := w[q..e];
    Joined(a, b, g.mark, e);
  }

  /** A torn query: the second call throws if the rest is shorter than the offset of the start, and otherwise
      takes what lies behind that offset of its own input. */
  lemma TornQuery(g: Parser, a: Data, b: Data) returns (t: Data)
    requires Torn(g, a, b) && 30 <= g.cs <= 32
    ensures t < b && EndsLoop(b[|t|], QueryLoop) && UriRest(QueryLoop, g.cs, t, g.relaxed)
    ensures g.queryStart < |a| && Run(g, a + b, |a|).st.request.query == a[g.queryStart..] + t
    ensures Execute(g, b).exit.Threw? <==> |t| < g.queryStart
    ensures g.queryStart <= |t| ==> Accepts(Execute(g, b)) && Execute(g, b).st.request.query == t[g.queryStart..]
  {
    hide Run, Next, UriRest;
    var w, q := a + b, |a|;
    var e := RestEnds(g, w, q, QueryLoop);
    QueryTaken(g, w, q, e);
    t := w[q..e];
    Joined(a, b, g.queryStart, e);
    var s := Unmarked(g);
    assert b[0..|t|] == t;
    RestRuns(s, b, 0, |t|, QueryLoop);
    if |t| < g.queryStart {
      ThrowingStep(s.(cs := 30), b, |t|);
    } else {
      RunDoesNotThrow(s.(cs := 30), b, |t|);
      assert w[q..] == b == b[0..];
      RunControl(s, g, b, w, 0, q);
      QueryTaken(s, b, 0, |t|);
      assert b[g.queryStart..|t|] == t[g.queryStart..];
    }
  }

  // ---------- The method ----------

  lemma VerbSticks(st: Parser, st': Parser, buf: Data, p: nat)
    requires st.cs == 3 && st'.cs == 3 && st'.relaxed == st.relaxed && p <= |buf| && Accepts(Run(st, buf, p))
    requires st'.request == st.request.(verb := st'.request.verb)
    ensures var r, s := Run(st, buf, p).st, Run(st', buf, p).st;
      && r.request.verb == st.request.verb && r.error == st.error
      && s.request == r.request.(verb := st'.request.verb) && s.error == st'.error
  {
    hide Run, WellFormed, AfterVerb, SetLines;
    var m := AfterVerbEnds(st, buf, p, Message([65], [], None, None, 48, Lf, [], Lf));
    AfterVerbIsRead(st, buf, p, m);
    AfterVerbIsRead(st', buf, p, m);
  }

  /** Two runs in the middle of a method, with marks of their own. */
  lemma InsideVerb(st: Parser, st': Parser, buf: Data, q: nat, t: Data, t': Data)
    requires (st.cs == 2 || 175 <= st.cs <= 193) && st'.cs == st.cs && st'.relaxed == st.relaxed && st'.request == st.request
    requires q <= |buf| && 0 <= st.mark <= |buf| && 0 <= st'.mark <= |buf| && Accepts(Run(st, buf, q))
    requires t == buf[st.mark..] && t' == buf[st'.mark..]
    ensures var r, s := Run(st, buf, q).st, Run(st', buf, q).st;
      var m, n := CharsToMethod(t), CharsToMethod(t');
      && r.request.verb == (if m == INVALID then st.request.verb else m) && r.error == (st.error || m == INVALID)
      && s.request.verb == (if n == INVALID then st.request.verb else n) && s.error == (st'.error || n == INVALID)
      && s.request == r.request.(verb := s.request.verb)
  {
    hide *;
    var e := VerbGoesOn(st, st', buf, q, t, t');
    MethodTold(st, t);
    MethodTold(st', t');
    VerbSticks(AfterMethod(st, t), AfterMethod(st', t'), buf, e + 1);
  }

  lemma VerbGoesOn(st: Parser, st': Parser, buf: Data, q: nat, t: Data, t': Data) returns (e: nat)
    requires (st.cs == 2 || 175 <= st.cs <= 193) && st'.cs == st.cs && st'.relaxed == st.relaxed
    requires q <= |buf| && 0 <= st.mark <= |buf| && 0 <= st'.mark <= |buf| && Accepts(Run(st, buf, q))
    requires t == buf[st.mark..] && t' == buf[st'.mark..]
    ensures e < |buf| && Run(st, buf, q) == Run(AfterMethod(st, t), buf, e + 1)
    ensures Run(st', buf, q) == Run(AfterMethod(st', t'), buf, e + 1)
  {
    VerbStateOf(st.cs);
    hide *;
    var k := if st.cs == 2 then 1 else st.cs - 173;
    e := VerbEnds(st, buf, q, k);
    VerbTaken(st, buf, q, k, e);
    VerbTaken(st', buf, q, k, e);
  }

  /** A torn method: the second call looks for a method in what it sees. */
  lemma TornVerb(g: Parser, a: Data, b: Data)
    requires Torn(g, a, b) && (g.cs == 2 || 175 <= g.cs <= 193)
    ensures 0 <= g.mark < |a| && Accepts(Execute(g, b))
    ensures var r, s := Run(g, a + b, |a|).st, Execute(g, b).st;
      var m, n := CharsToMethod(a[g.mark..] + b), CharsToMethod(b);
      && r.request.verb == (if m == INVALID then g.request.verb else m) && r.error == (g.error || m == INVALID)
      && s.request.verb == (if n == INVALID then g.request.verb else n) && s.error == (g.error || n == INVALID)
      && s.request == r.request.(verb := s.request.verb)
  {
    VerbStateOf(g.cs);
    TornMark(g, a, b);
    SecondIs(g, a, b);
    hide *;
    InsideVerb(g, Moved(g, |a|), a + b, |a|, a[g.mark..] + b, b);
  }

  lemma VerbStateOf(cs: int)
    requires cs == 2 || 175 <= cs <= 193
    ensures var k := if cs == 2 then 1 else cs - 173; 1 <= k <= 20 && cs == VerbState(k) && Needed(cs).mark
  {
  }

  lemma MethodTold(st: Parser, t: Data)
    ensures var r, m := AfterMethod(st, t), CharsToMethod(t);
      && r.cs == 3 && r.relaxed == st.relaxed && r.error == (st.error || m == INVALID)
      && r.request == st.request.(verb := if m == INVALID then st.request.verb else m)
  {
    hide CharsToMethod;
  }

  // ---------- The version ----------

  /** What may be left of a version, with its line end. */
  predicate VersionRest(cs: int, buf: Data, q: nat, end: LineEnd) {
    && 5 <= cs <= 12
    && At(buf, q + (12 - cs), EndText(end))
    && (cs < 12 ==> At(buf, q, HTTP_SLASH[cs - 4..]) && (buf[q + (11 - cs)] == 48 || buf[q + (11 - cs)] == 49))
  }

  lemma VersionRestEnds(st: Parser, buf: Data, q: nat) returns (end: LineEnd)
    requires 5 <= st.cs <= 12 && q <= |buf| && Accepts(Run(st, buf, q))
    ensures VersionRest(st.cs, buf, q, end)
  {
    hide Run, Next, At, EndText;
    var v := q + (12 - st.cs);
    if st.cs < 12 {
      var i := st.cs - 4;
      SlashEnds(st, buf, q, i);
      AtIs(buf, q, HTTP_SLASH[i..]);
      SlashRuns(st, buf, q, i);
      NotStuck(st.(cs := 11), buf, v - 1);
      VersionEdges(0, buf[v - 1], st.relaxed);
      VersionSkips(st, buf, q);
    }
    end := VersionEndAt(st.(cs := 12), buf, v);
  }

  lemma VersionEndAt(st: Parser, buf: Data, v: nat) returns (end: LineEnd)
    requires st.cs == 12 && v <= |buf| && Accepts(Run(st, buf, v))
    ensures At(buf, v, EndText(end))
  {
    hide Run, Next;
    NotStuck(st, buf, v);
    VersionEdges(0, buf[v], st.relaxed);
    end := LineEndEnds(st, buf, v);
  }

  lemma VersionSkips(st: Parser, buf: Data, q: nat)
    requires 5 <= st.cs <= 11 && At(buf, q, HTTP_SLASH[st.cs - 4..])
    requires q + (11 - st.cs) < |buf| && (buf[q + (11 - st.cs)] == 48 || buf[q + (11 - st.cs)] == 49)
    ensures Run(st, buf, q) == Run(st.(cs := 12), buf, q + (12 - st.cs))
  {
    hide Run, Next, At;
    var i := st.cs - 4;
    SlashRuns(st, buf, q, i);
    VersionEdges(0, buf[q + 7 - i], st.relaxed);
    Silent(st.(cs := 11), buf, q + 7 - i, 12);
  }

  /** A run that goes on with a version takes what lies between the mark and the line end, at `v`. */
  lemma VersionTaken(st: Parser, buf: Data, q: nat, v: nat, end: LineEnd) returns (t: Data)
    requires VersionRest(st.cs, buf, q, end) && 0 <= st.mark <= q && v == q + (12 - st.cs)
    ensures q <= v < |buf| && t == buf[st.mark..v]
    ensures Run(st, buf, q) == Run(OnVersion(st, t).(cs := 13), buf, v + |EndText(end)|)
  {
    hide *;
    VersionRestIs(st.cs, buf, q, end);
    var s12 := st.(cs := 12);
    t := buf[st.mark..v];
    VersionReaches(st, buf, q, v, s12);
    VersionCloses(s12, buf, v, end);
    VersionIgnoresState(st, t);
  }

  lemma VersionReaches(st: Parser, buf: Data, q: nat, v: nat, s12: Parser)
    requires 5 <= st.cs <= 12 && v == q + (12 - st.cs) < |buf| && s12 == st.(cs := 12)
    requires st.cs < 12 ==> At(buf, q, HTTP_SLASH[st.cs - 4..]) && (buf[v - 1] == 48 || buf[v - 1] == 49)
    ensures Run(st, buf, q) == Run(s12, buf, v)
  {
    hide *;
    if st.cs < 12 {
      VersionSkips(st, buf, q);
    }
  }

  lemma VersionRestIs(cs: int, buf: Data, q: nat, end: LineEnd)
    requires VersionRest(cs, buf, q, end)
    ensures 5 <= cs <= 12 && q + (12 - cs) < |buf| && At(buf, q + (12 - cs), EndText(end))
    ensures cs < 12 ==> At(buf, q, HTTP_SLASH[cs - 4..]) && (buf[q + (11 - cs)] == 48 || buf[q + (11 - cs)] == 49)
  {
    EndIsNotEmpty(end);
    AtIs(buf, q + (12 - cs), EndText(end));
    hide At, EndText;
  }

  lemma VersionRestStarts(cs: int, buf: Data, q: nat, end: LineEnd)
    requires VersionRest(cs, buf, q, end)
    ensures q + (12 - cs) + |EndText(end)| <= |buf| && (cs < 12 ==> buf[q] != 72)
  {
    if cs < 11 {
      Indices(buf, q, HTTP_SLASH[cs - 4..]);
    }
  }

  lemma VersionIgnoresState(st: Parser, t: Data)
    ensures OnVersion(st.(cs := 12), t).(cs := 13) == OnVersion(st, t).(cs := 13)
  {
  }

  lemma VersionCloses(st: Parser, buf: Data, v: nat, end: LineEnd)
    requires st.cs == 12 && v < |buf| && 0 <= st.mark <= v && At(buf, v, EndText(end))
    ensures Run(st, buf, v) == Run(OnVersion(st, buf[st.mark..v]).(cs := 13), buf, v + |EndText(end)|)
  {
    hide Run, Next, OnVersion;
    EndIsNotEmpty(end);
    Indices(buf, v, EndText(end));
    VersionEdges(0, buf[v], st.relaxed);
    var e := Next(12, Signed(buf[v]), st.relaxed);
    LineEndRuns(st, buf, v, end, e, Take(st, e, buf, v));
  }

  lemma VersionLiterals()
    ensures Text("HTTP/1.1") == [72, 84, 84, 80, 47, 49, 46, 49] && Text("HTTP/1.0") == [72, 84, 84, 80, 47, 49, 46, 48]
  {
  }

  /** The end of a version is no version; nothing at all passes for 1.1. */
  lemma VersionOfRest(st: Parser, t: Data)
    requires |t| < 8 && (t != [] ==> t[0] != 72)
    ensures OnVersion(st, t) == if t == [] then st.(request := st.request.(version := 0x11)) else st.(error := true)
  {
    VersionLiterals();
    hide Text;
    assert t != [] ==> t[..|t|][0] != 72;
  }

  lemma VersionOfWhole(st: Parser, t: Data)
    requires |t| == 8 && !OnVersion(st, t).error
    ensures !st.error && OnVersion(st, t) == st.(request := st.request.(version := if t[7] == 49 then 0x11 else 0x10))
  {
    VersionLiterals();
    hide Text;
    assert t[..8] == t;
  }

  lemma VersionSticks(st: Parser, st': Parser, buf: Data, p: nat)
    requires st.cs == 13 && st'.cs == 13 && p <= |buf| && Accepts(Run(st, buf, p))
    requires st'.request == st.request.(version := st'.request.version)
    ensures var r, s := Run(st, buf, p).st, Run(st', buf, p).st;
      && r.request.version == st.request.version && r.error == st.error
      && s.request == r.request.(version := st'.request.version) && s.error == st'.error
  {
    hide Run, WellFormedLine, LinesText, EndText, SetLines, At;
    var lines, last := LinesEnd(st, buf, p);
    LinesAreRead(st, buf, p, lines, last);
    LinesAreRead(st', buf, p, lines, last);
  }

  /** A torn version: what is left of it is refused, unless nothing is left, which passes for 1.1. */
  lemma TornVersion(g: Parser, a: Data, b: Data)
    requires Torn(g, a, b) && 5 <= g.cs <= 12 && !Run(g, a + b, |a|).st.error
    ensures Accepts(Execute(g, b))
    ensures var r, s := Run(g, a + b, |a|).st, Execute(g, b).st;
      && (g.cs < 12 ==> s.error)
      && (g.cs == 12 ==> !s.error && s.request == r.request.(version := 0x11) && (r.request.version == 0x11 <==> a[|a| - 1] == 49))
  {
    SecondIs(g, a, b);
    VersionStateOf(g.cs);
    TornMark(g, a, b);
    hide *;
    var whole, rest, p := VersionTexts(g, Moved(g, |a|), a + b, |a|);
    var r13, s13 := OnVersion(g, whole).(cs := 13), OnVersion(Moved(g, |a|), rest).(cs := 13);
    VersionKeepsHeaders(g, whole);
    VersionKeepsHeaders(Moved(g, |a|), rest);
    VersionSticks(r13, s13, a + b, p);
    VersionOfWhole(g, whole);
    VersionOfRest(Moved(g, |a|), rest);
  }

  /** The texts that a run with the mark at the start of the version and one with a moved mark take for it. */
  lemma VersionTexts(g: Parser, s: Parser, w: Data, q: nat) returns (whole: Data, rest: Data, p: nat)
    requires 5 <= g.cs <= 12 && s.cs == g.cs && q <= |w| && Accepts(Run(g, w, q))
    requires 0 <= g.mark == q - (g.cs - 4) && s.mark == q
    ensures |whole| == 8 && |rest| == 12 - g.cs && (rest != [] ==> rest[0] != 72) && (rest == [] ==> whole[7] == w[q - 1])
    ensures p <= |w| && Run(g, w, q) == Run(OnVersion(g, whole).(cs := 13), w, p)
    ensures Run(s, w, q) == Run(OnVersion(s, rest).(cs := 13), w, p)
  {
    hide *;
    var v := q + (12 - g.cs);
    var end := VersionRestEnds(g, w, q);
    VersionRestStarts(g.cs, w, q, end);
    VersionSlices(w, g.mark, q, g.cs);
    whole := VersionTaken(g, w, q, v, end);
    rest := VersionTaken(s, w, q, v, end);
    p := v + |EndText(end)|;
  }

  lemma VersionSlices(w: Data, m: nat, q: nat, cs: int)
    requires 5 <= cs <= 12 && m == q - (cs - 4) && q + (12 - cs) <= |w|
    ensures var v := q + (12 - cs);
      |w[m..v]| == 8 && |w[q..v]| == 12 - cs && w[m..v][7] == w[v - 1] && (q < v ==> w[q..v][0] == w[q])
  {
  }

  lemma VersionStateOf(cs: int)
    requires 5 <= cs <= 12
    ensures Needed(cs).mark
  {
  }

  lemma VersionKeepsHeaders(st: Parser, t: Data)
    ensures var r := OnVersion(st, t); r.request == st.request.(version := r.request.version)
  {
    hide SameText;
  }

  // ---------- The header line ----------

  /** What is left of a header line torn in its name (`given`), its blanks or its value (`rest`), and what
      follows it. */
  datatype HeaderRest = HeaderRest(given: Data, blanks: Data, rest: Data, end: LineEnd, later: seq<Line>, last: LineEnd)

  function RestText(inName: bool, t: HeaderRest): Data {
    (if inName then t.given + [58] else []) + LineRestText(t)
  }

  function LineRestText(t: HeaderRest): Data {
    t.blanks + (t.rest + (EndText(t.end) + (LinesText(t.later) + EndText(t.last))))
  }

  predicate WellFormedRest(t: HeaderRest) {
    && (forall i | 0 <= i < |t.given| :: Token(t.given[i]))
    && (forall i | 0 <= i < |t.blanks| :: Blank(t.blanks[i]))
    && (forall i | 0 <= i < |t.rest| :: ValueChar(t.rest[i]))
    && (forall i | 0 <= i < |t.later| :: WellFormedLine(t.later[i]))
  }

  /** What parser `st` makes of a line whose name and value it takes for these, and of the lines behind it. */
  predicate Stored(r: Parser, st: Parser, name: Data, value: Data, later: seq<Line>) {
    var h := st.request.headers;
    r.error == st.error && r.request == st.request.(headers := SetLines(if name == [] then h else Set(h, name, value), later))
  }

  /** The lines behind a header line do not depend on what was taken for the line. */
  lemma FieldSticks(st: Parser, st': Parser, buf: Data, p: nat, t: HeaderRest, v: int, v': int, name: Data,
                    name': Data, value: Data, value': Data) returns (r: HeaderRest)
    requires p <= |buf| && Accepts(Run(WithField(st, v, name, value), buf, p))
    ensures r == t.(later := r.later, last := r.last) && (forall i | 0 <= i < |r.later| :: WellFormedLine(r.later[i]))
    ensures At(buf, p, LinesText(r.later) + EndText(r.last))
    ensures Stored(Run(WithField(st, v, name, value), buf, p).st, st, name, value, r.later)
    ensures Stored(Run(WithField(st', v', name', value'), buf, p).st, st', name', value', r.later)
  {
    hide Run, SetLines, WellFormedLine, LinesText, EndText, At;
    var lines, last := LinesEnd(WithField(st, v, name, value), buf, p);
    LinesAreRead(WithField(st, v, name, value), buf, p, lines, last);
    LinesAreRead(WithField(st', v', name', value'), buf, p, lines, last);
    r := t.(later := lines, last := last);
  }

  /** The name a parser has marked. */
  function NameOf(st: Parser, buf: Data): Data {
    Span(buf, st.fieldStart, st.fieldStart + st.fieldLen)
  }

  /** Two runs behind the colon of a line, with names of their own. */
  lemma BehindColon(st: Parser, st': Parser, buf: Data, p: nat) returns (t: HeaderRest)
    requires st.cs == 15 && st'.cs == 15 && st'.relaxed == st.relaxed && p <= |buf| && Accepts(Run(st, buf, p))
    ensures WellFormedRest(t) && t.given == [] && At(buf, p, LineRestText(t)) && (t.rest != [] ==> !Blank(t.rest[0]))
    ensures Stored(Run(st, buf, p).st, st, NameOf(st, buf), t.rest, t.later)
    ensures Stored(Run(st', buf, p).st, st', NameOf(st', buf), t.rest, t.later)
  {
    hide Run, LinesText, WellFormedLine, Token, Blank, ValueChar, Stored, NameOf, EndText, Set, SetLines;
    var v, q, end := ValueEndsAtLine(st, buf, p);
    t := HeaderRest([], buf[p..v], buf[v..q], end, [], Lf);
    Glue(buf, v, t.rest, EndText(end));
    Glue(buf, p, t.blanks, t.rest + EndText(end));
    assert p + |t.blanks| + |t.rest| == q;
    NameIs(st, buf);
    NameIs(st', buf);
    ValuePart(st, buf, p, NameOf(st, buf), t.blanks, t.rest, end);
    ValuePart(st', buf, p, NameOf(st', buf), t.blanks, t.rest, end);
    var e := q + |EndText(end)|;
    t := FieldSticks(st, st', buf, e, t, v, v, NameOf(st, buf), NameOf(st', buf), t.rest, t.rest);
    RestLies(buf, p, t);
  }

  lemma RestLies(buf: Data, p: nat, t: HeaderRest)
    requires At(buf, p, t.blanks) && At(buf, p + |t.blanks|, t.rest)
    requires var q := p + |t.blanks| + |t.rest|;
      At(buf, q, EndText(t.end)) && At(buf, q + |EndText(t.end)|, LinesText(t.later) + EndText(t.last))
    ensures At(buf, p, LineRestText(t))
  {
    hide At, LinesText, EndText;
    var tail := EndText(t.end) + (LinesText(t.later) + EndText(t.last));
    Glue(buf, p + |t.blanks| + |t.rest|, EndText(t.end), LinesText(t.later) + EndText(t.last));
    Glue(buf, p + |t.blanks|, t.rest, tail);
    Glue(buf, p, t.blanks, t.rest + tail);
  }

  lemma NameIs(st: Parser, buf: Data)
    ensures NameOf(st, buf) == Span(buf, st.fieldStart, st.fieldStart + st.fieldLen)
  {
  }

  lemma ValueStored(st: Parser, buf: Data, q: nat, e: nat, end: LineEnd)
    requires st.cs == 16 && 0 <= st.mark <= q <= e < |buf| && At(buf, e, EndText(end)) && buf[e] == EndText(end)[0]
    requires forall i | q <= i < e :: ValueChar(buf[i])
    ensures e + |EndText(end)| <= |buf|
    ensures Run(st, buf, q) == Run(WithField(st, st.mark, NameOf(st, buf), buf[st.mark..e]), buf, e + |EndText(end)|)
  {
    hide Run, NameOf, EndText, Set, At, ValueChar;
    ValueRuns(st, buf, q, e);
    NameIs(st, buf);
    ValueCloses(st, buf, st.mark, e, NameOf(st, buf), buf[st.mark..e], end);
  }

  /** Two runs in the middle of a value, with names and marks of their own. */
  lemma InsideValue(st: Parser, st': Parser, buf: Data, q: nat) returns (t: HeaderRest)
    requires st.cs == 16 && st'.cs == 16 && st'.relaxed == st.relaxed && q <= |buf| && Accepts(Run(st, buf, q))
    requires 0 <= st.mark <= q && 0 <= st'.mark <= q
    ensures WellFormedRest(t) && t.given == [] && t.blanks == [] && At(buf, q, LineRestText(t))
    ensures q + |t.rest| <= |buf|
    ensures Stored(Run(st, buf, q).st, st, NameOf(st, buf), buf[st.mark..q + |t.rest|], t.later)
    ensures Stored(Run(st', buf, q).st, st', NameOf(st', buf), buf[st'.mark..q + |t.rest|], t.later)
  {
    hide Run, LinesText, WellFormedLine, Token, Blank, Stored, NameOf, EndText, Set, SetLines, Next, At;
    var e := ValueEnds(st, buf, q);
    ValueRuns(st, buf, q, e);
    ValueEdges(buf[e], st.relaxed);
    var end := LineEndEnds(st, buf, e);
    EndIsNotEmpty(end);
    Indices(buf, e, EndText(end));
    ValueStored(st, buf, q, e, end);
    ValueStored(st', buf, q, e, end);
    t := HeaderRest([], [], buf[q..e], end, [], Lf);
    t := FieldSticks(st, st', buf, e + |EndText(end)|, t, st.mark, st'.mark, NameOf(st, buf), NameOf(st', buf),
                     buf[st.mark..e], buf[st'.mark..e]);
    NothingLies(buf, q);
    assert At(buf, q, buf[q..e]) by { SliceLies(buf, q, e); }
    RestLies(buf, q, t);
  }

  lemma SliceLies(buf: Data, q: nat, e: nat)
    requires q <= e <= |buf|
    ensures At(buf, q, buf[q..e])
  {
  }

  /** Two runs in the middle of a name, with starts of their own. */
  lemma InsideName(st: Parser, st': Parser, buf: Data, q: nat) returns (t: HeaderRest)
    requires st.cs == 14 && st'.cs == 14 && st'.relaxed == st.relaxed && q <= |buf| && Accepts(Run(st, buf, q))
    requires 0 <= st.fieldStart <= q && 0 <= st'.fieldStart <= q
    ensures WellFormedRest(t) && At(buf, q, RestText(true, t)) && (t.rest != [] ==> !Blank(t.rest[0]))
    ensures q + |t.given| <= |buf|
    ensures Stored(Run(st, buf, q).st, st, buf[st.fieldStart..q + |t.given|], t.rest, t.later)
    ensures Stored(Run(st', buf, q).st, st', buf[st'.fieldStart..q + |t.given|], t.rest, t.later)
  {
    hide Run, WellFormedLine, Token, Blank, ValueChar, Stored, LineRestText;
    var n := NameEnds(st, buf, q);
    NameRuns(st, buf, q, n);
    NameRuns(st', buf, q, n);
    var s15, s15' := st.(fieldLen := n - st.fieldStart, cs := 15), st'.(fieldLen := n - st'.fieldStart, cs := 15);
    var r := BehindColon(s15, s15', buf, n + 1);
    t := r.(given := buf[q..n]);
    SameRest(r, t);
    assert At(buf, n, [58]);
    Glue(buf, q, t.given, [58]);
    Glue(buf, q, t.given + [58], LineRestText(t));
    StoredAlike(Run(st, buf, q).st, s15, st, buf[st.fieldStart..n], t.rest, t.later);
    StoredAlike(Run(st', buf, q).st, s15', st', buf[st'.fieldStart..n], t.rest, t.later);
  }

  lemma SameRest(r: HeaderRest, t: HeaderRest)
    requires t == r.(given := t.given)
    ensures LineRestText(t) == LineRestText(r)
  {
  }

  lemma StoredAlike(r: Parser, st: Parser, st': Parser, name: Data, value: Data, later: seq<Line>)
    requires st.request == st'.request && st.error == st'.error && Stored(r, st, name, value, later)
    ensures Stored(r, st', name, value, later)
  {
  }

  predicate InName(cs: int) {
    cs == 14 || cs == 18
  }

  /** The whole name and value of a line torn behind `a`. */
  function WholeName(g: Parser, a: Data, t: HeaderRest): Data
    requires BegunField(g, a, |a|) && (InName(g.cs) || g.cs == 15 || g.cs == 16)
  {
    if InName(g.cs) then a[g.fieldStart..] + t.given else a[g.fieldStart..g.fieldStart + g.fieldLen]
  }

  function WholeValue(g: Parser, a: Data, t: HeaderRest): Data
    requires g.cs == 16 ==> 0 <= g.mark <= |a|
  {
    if g.cs == 16 then a[g.mark..] + t.rest else t.rest
  }

  predicate InHeader(g: Parser, b: Data) {
    14 <= g.cs <= 16 || (g.cs == 18 && b != [] && b[0] != 10)
  }

  lemma LiesBehind(a: Data, b: Data, t: Data)
    requires At(a + b, |a|, t)
    ensures t <= b
  {
    assert (a + b)[|a|..|a| + |t|] == b[..|t|];
  }

  lemma TornInName(g: Parser, a: Data, b: Data) returns (t: HeaderRest)
    requires Torn(g, a, b) && InHeader(g, b) && InName(g.cs)
    ensures WellFormedRest(t) && RestText(true, t) <= b && (t.rest != [] ==> !Blank(t.rest[0])) && BegunField(g, a, |a|)
    ensures Stored(Run(g, a + b, |a|).st, g, WholeName(g, a, t), t.rest, t.later)
    ensures Stored(Run(Moved(g, |a|), a + b, |a|).st, g, t.given, t.rest, t.later)
  {
    hide Run, Next, WellFormedRest, RestText, Blank, Stored, At;
    var w, q := a + b, |a|;
    var h := g.(cs := 14);
    if g.cs == 18 {
      LineEdges(w[q], g.relaxed);
      SameEdge(g, h, w, q);
      SameEdge(Moved(g, q), Moved(h, q), w, q);
    }
    t := InsideName(h, Moved(h, q), w, q);
    LiesBehind(a, b, RestText(true, t));
    GivenIsFirst(t, b);
    Joins(a, b, g.fieldStart, |t.given|);
    assert b[..|t.given|] == t.given;
    assert w[g.fieldStart..q + |t.given|] == WholeName(g, a, t);
    assert g.cs == 14 ==> h == g;
    StoredAlike(Run(g, w, q).st, h, g, w[g.fieldStart..q + |t.given|], t.rest, t.later);
    StoredAlike(Run(Moved(g, q), w, q).st, Moved(h, q), g, w[q..q + |t.given|], t.rest, t.later);
  }

  lemma GivenIsFirst(t: HeaderRest, b: Data)
    requires RestText(true, t) <= b
    ensures t.given <= b
  {
    assert RestText(true, t)[..|t.given|] == t.given;
  }

  lemma Joins(a: Data, b: Data, m: nat, n: nat)
    requires m <= |a| && n <= |b|
    ensures (a + b)[m..|a| + n] == a[m..] + b[..n] && (a + b)[|a|..|a| + n] == b[..n]
  {
  }

  lemma TornInBlanks(g: Parser, a: Data, b: Data) returns (t: HeaderRest)
    requires Torn(g, a, b) && g.cs == 15
    ensures WellFormedRest(t) && RestText(false, t) <= b && (t.rest != [] ==> !Blank(t.rest[0])) && BegunField(g, a, |a|)
    ensures t.given == []
    ensures Stored(Run(g, a + b, |a|).st, g, WholeName(g, a, t), t.rest, t.later)
    ensures Stored(Run(Moved(g, |a|), a + b, |a|).st, g, t.given, t.rest, t.later)
  {
    hide Run, WellFormedRest, Blank, Stored, At, LineRestText;
    var w, q := a + b, |a|;
    t := BehindColon(g, Moved(g, q), w, q);
    LiesBehind(a, b, LineRestText(t));
    assert RestText(false, t) == LineRestText(t);
    assert NameOf(g, w) == WholeName(g, a, t);
    assert NameOf(Moved(g, q), w) == [];
    StoredAlike(Run(Moved(g, q), w, q).st, Moved(g, q), g, [], t.rest, t.later);
  }

  lemma TornInValue(g: Parser, a: Data, b: Data) returns (t: HeaderRest)
    requires Torn(g, a, b) && g.cs == 16
    ensures WellFormedRest(t) && RestText(false, t) <= b && BegunField(g, a, |a|) && 0 <= g.mark < |a|
    ensures t.given == [] && t.blanks == []
    ensures Stored(Run(g, a + b, |a|).st, g, WholeName(g, a, t), WholeValue(g, a, t), t.later)
    ensures Stored(Run(Moved(g, |a|), a + b, |a|).st, g, t.given, t.rest, t.later)
  {
    hide Run, WellFormedRest, Stored, At, LineRestText;
    var w, q := a + b, |a|;
    t := InsideValue(g, Moved(g, q), w, q);
    LiesBehind(a, b, LineRestText(t));
    assert RestText(false, t) == LineRestText(t);
    RestIsFirst(t, b);
    Joins(a, b, g.mark, |t.rest|);
    assert b[..|t.rest|] == t.rest;
    assert w[g.mark..q + |t.rest|] == WholeValue(g, a, t);
    assert NameOf(g, w) == WholeName(g, a, t);
    assert NameOf(Moved(g, q), w) == [];
    StoredAlike(Run(Moved(g, q), w, q).st, Moved(g, q), g, [], t.rest, t.later);
  }

  lemma RestIsFirst(t: HeaderRest, b: Data)
    requires LineRestText(t) <= b && t.blanks == []
    ensures t.rest <= b
  {
    assert LineRestText(t)[..|t.rest|] == t.rest;
  }

  lemma StoredInOther(r: Parser, s: Parser, st: Parser, name: Data, value: Data, later: seq<Line>)
    requires r.request == s.request && r.error == s.error && Stored(r, st, name, value, later)
    ensures Stored(s, st, name, value, later)
  {
  }

  /** A torn header line: the second call takes for the name what it sees of it. Where it sees nothing of it, it
      drops the line. */
  lemma TornHeader(g: Parser, a: Data, b: Data) returns (t: HeaderRest)
    requires Torn(g, a, b) && InHeader(g, b)
    ensures WellFormedRest(t) && RestText(InName(g.cs), t) <= b && (!InName(g.cs) ==> t.given == [])
    ensures g.cs != 16 && t.rest != [] ==> !Blank(t.rest[0])
    ensures BegunField(g, a, |a|) && (g.cs == 16 ==> 0 <= g.mark < |a|) && Accepts(Execute(g, b))
    ensures Stored(Run(g, a + b, |a|).st, g, WholeName(g, a, t), WholeValue(g, a, t), t.later)
    ensures Stored(Execute(g, b).st, g, t.given, t.rest, t.later)
  {
    SecondIs(g, a, b);
    hide *;
    if InName(g.cs) {
      t := TornInName(g, a, b);
    } else if g.cs == 15 {
      t := TornInBlanks(g, a, b);
    } else {
      t := TornInValue(g, a, b);
    }
    StoredInOther(Run(Moved(g, |a|), a + b, |a|).st, Execute(g, b).st, g, t.given, t.rest, t.later);
  }

  /** A cut between the two bytes of the empty line tears nothing. */
  lemma TornEmptyLine(g: Parser, a: Data, b: Data)
    requires Torn(g, a, b) && g.cs == 18 && b[0] == 10
    ensures var r, s := Run(g, a + b, |a|).st, Execute(g, b).st;
      r.request == g.request && s.request == g.request && r.error == g.error && s.error == g.error
  {
    var w := a + b;
    assert w[|a|] == b[0];
    LineEdges(10, g.relaxed);
    EmptyLineEnds(g, w, |a|);
    EmptyLineEnds(Unmarked(g), b, 0);
    hide Run, Begun;
  }

  lemma EmptyLineEnds(st: Parser, buf: Data, p: nat)
    requires st.cs == 18 && p < |buf| && buf[p] == 10
    ensures var r := Run(st, buf, p); r.exit.Returned? && r.st.request == st.request && r.st.error == st.error
  {
    LineEdges(10, st.relaxed);
    hide Next;
  }

  // ---------- What a reader of the request sees ----------

  predicate Mentions(lines: seq<Line>, name: Data) {
    exists i :: 0 <= i < |lines| && Key(lines[i].name) == Key(name)
  }

  /** Whether a line with this name and value was read makes no difference in the end: it is given again later,
      or was there already. */
  predicate Settled(h: Headers, name: Data, value: Data, later: seq<Line>) {
    Mentions(later, name) || Get(h, name) == Found(value)
  }

  /** Lines that mention a name decide its value, others keep it. */
  lemma {:induction false} GetBehind(h: Headers, h': Headers, lines: seq<Line>, name: Data)
    requires Sorted(h) && Sorted(h')
    ensures if Mentions(lines, name) then Get(SetLines(h, lines), name) == Get(SetLines(h', lines), name)
            else Get(SetLines(h, lines), name) == Get(h, name)
    decreases |lines|
  {
    assert lines == [] ==> !Mentions(lines, name);
    hide Key, Set, Get, Sorted, Mentions;
    if lines != [] {
      var l := lines[0];
      SetKeepsSorted(h, l.name, l.value);
      SetKeepsSorted(h', l.name, l.value);
      GetAfterSet(h, l.name, l.value, name);
      GetAfterSet(h', l.name, l.value, name);
      GetBehind(Set(h, l.name, l.value), Set(h', l.name, l.value), lines[1..], name);
      GetBehind(Set(h', l.name, l.value), Set(h, l.name, l.value), lines[1..], name);
      MentionsSplits(lines, name);
    }
  }

  lemma MentionsSplits(lines: seq<Line>, name: Data)
    requires lines != []
    ensures Mentions(lines, name) <==> Key(lines[0].name) == Key(name) || Mentions(lines[1..], name)
  {
    hide Key;
    if Mentions(lines[1..], name) {
      var i :| 0 <= i < |lines[1..]| && Key(lines[1..][i].name) == Key(name);
      assert lines[i + 1] == lines[1..][i];
    }
    if Mentions(lines, name) {
      var i :| 0 <= i < |lines| && Key(lines[i].name) == Key(name);
      assert i > 0 ==> lines[1..][i - 1] == lines[i];
    }
  }

  lemma {:induction false} GetByKey(h: Headers, name: Data, other: Data)
    requires Key(name) == Key(other)
    ensures Get(h, name) == Get(h, other)
  {
    hide Key;
    if h != [] {
      GetByKey(h[1..], name, other);
    }
  }

  /** The headers with a whole line and with what was made of the torn one. */
  function WholeHeaders(h: Headers, name: Data, value: Data, later: seq<Line>): Headers {
    SetLines(Set(h, name, value), later)
  }

  function TornHeaders(h: Headers, given: Data, value: Data, later: seq<Line>): Headers {
    SetLines(if given == [] then h else Set(h, given, value), later)
  }

  ghost predicate SameLookups(h: Headers, h': Headers) {
    forall name :: Get(h, name) == Get(h', name)
  }

  /** They answer every lookup alike if and only if neither the name nor what was taken for it matters. */
  lemma LookupsAgreeIff(h: Headers, name: Data, given: Data, value: Data, value': Data, later: seq<Line>)
    requires Sorted(h) && (given != [] ==> Key(given) != Key(name))
    ensures SameLookups(WholeHeaders(h, name, value, later), TornHeaders(h, given, value', later)) <==>
            Settled(h, name, value, later) && (given != [] ==> Settled(h, given, value', later))
  {
    hide Key, Set, Get, Sorted, SetLines, Mentions;
    var h1, h2 := Set(h, name, value), if given == [] then h else Set(h, given, value');
    SetKeepsSorted(h, name, value);
    SetKeepsSorted(h, given, value');
    LookupAgreesIff(h, name, given, value, value', later, name);
    LookupAgreesIff(h, name, given, value, value', later, given);
    if Settled(h, name, value, later) && (given != [] ==> Settled(h, given, value', later)) {
      forall x
        ensures Get(WholeHeaders(h, name, value, later), x) == Get(TornHeaders(h, given, value', later), x)
      {
        LookupAgreesIff(h, name, given, value, value', later, x);
        if Key(x) == Key(name) {
          SettledByKey(h, name, value, later, x);
        }
        if given != [] && Key(x) == Key(given) {
          SettledByKey(h, given, value', later, x);
        }
      }
    }
  }

  lemma SettledByKey(h: Headers, name: Data, value: Data, later: seq<Line>, x: Data)
    requires Settled(h, name, value, later) && Key(x) == Key(name)
    ensures Settled(h, x, value, later)
  {
    GetByKey(h, name, x);
    hide Key, Get;
  }

  lemma LookupAgreesIff(h: Headers, name: Data, given: Data, value: Data, value': Data, later: seq<Line>, x: Data)
    requires Sorted(h) && (given != [] ==> Key(given) != Key(name))
    ensures Get(WholeHeaders(h, name, value, later), x) == Get(TornHeaders(h, given, value', later), x) <==>
            (Key(x) == Key(name) ==> Settled(h, x, value, later))
            && (given != [] && Key(x) == Key(given) ==> Settled(h, x, value', later))
  {
    hide Key, Set, Get, Sorted, SetLines, Mentions;
    var h1, h2 := Set(h, name, value), if given == [] then h else Set(h, given, value');
    SetKeepsSorted(h, name, value);
    SetKeepsSorted(h, given, value');
    GetAfterSet(h, name, value, x);
    GetAfterSet(h, given, value', x);
    GetBehind(h1, h2, later, x);
    GetBehind(h2, h1, later, x);
  }

  // ---------- When a cut does no harm ----------

  /** Two requests that no reader can tell apart but by the spelling and order of their header names. */
  ghost predicate SameRequest(r: Request, s: Request) {
    s == r.(headers := s.headers) && SameLookups(r.headers, s.headers)
  }

  /** The calls on the pieces end as the single call does, with the same request. */
  ghost predicate Harmless(whole: Stop, parts: Stop) {
    && parts.exit == whole.exit && parts.at == whole.at && parts.st.cs == whole.st.cs
    && parts.st.error == whole.st.error && SameRequest(whole.st.request, parts.st.request)
  }

  /** The condition, on the parser `g` that the first call leaves, its input and what follows: no token is torn,
      or a method whose rest is read as the same method, or a version 1.1 that is complete, or the empty line, or
      a header line that makes no difference. */
  predicate HarmlessCut(g: Parser, a: Data, b: Data, t: HeaderRest)
    requires a != [] && b != [] && Begun(g, a, |a|)
  {
    || Needed(g.cs) == NONE
    || ((g.cs == 2 || 175 <= g.cs <= 193) && CharsToMethod(b) == CharsToMethod(a[g.mark..] + b))
    || (g.cs == 12 && a[|a| - 1] == 49)
    || (g.cs == 18 && b[0] == 10)
    || (InHeader(g, b) && HarmlessLine(g, a, t))
  }

  predicate HarmlessLine(g: Parser, a: Data, t: HeaderRest)
    requires Begun(g, a, |a|) && 14 <= g.cs <= 18 && g.cs != 17
  {
    var h := g.request.headers;
    Settled(h, WholeName(g, a, t), WholeValue(g, a, t), t.later) && (t.given != [] ==> Settled(h, t.given, t.rest, t.later))
  }

  /** The rest of the input as the rest of a torn header line. */
  predicate IsRest(g: Parser, b: Data, t: HeaderRest) {
    WellFormedRest(t) && RestText(InName(g.cs), t) <= b && (!InName(g.cs) ==> t.given == [])
    && (g.cs != 16 && t.rest != [] ==> !Blank(t.rest[0]))
  }

  lemma StoredAgreeIff(r: Parser, s: Parser, g: Parser, name: Data, given: Data, value: Data, value': Data, later: seq<Line>)
    requires Stored(r, g, name, value, later) && Stored(s, g, given, value', later) && name != []
    requires Sorted(g.request.headers) && (given != [] ==> Key(given) != Key(name))
    ensures s.error == r.error
    ensures SameRequest(r.request, s.request) <==>
            Settled(g.request.headers, name, value, later) && (given != [] ==> Settled(g.request.headers, given, value', later))
  {
    hide Settled, Set, SetLines, SameLookups, Sorted, Key;
    LookupsAgreeIff(g.request.headers, name, given, value, value', later);
  }

  lemma HeaderHarmIff(g: Parser, a: Data, b: Data) returns (t: HeaderRest)
    requires Torn(g, a, b) && InHeader(g, b)
    ensures IsRest(g, b, t)
    ensures var r, s := Run(g, a + b, |a|).st, Execute(g, b).st;
      s.error == r.error && (SameRequest(r.request, s.request) <==> HarmlessLine(g, a, t))
  {
    t := TornHeader(g, a, b);
    hide Run, Execute, Stored, SameRequest, Settled, WellFormedRest, RestText, Sorted, WholeName, WholeValue;
    NamesDiffer(g, a, b, t);
    StoredAgreeIff(Run(g, a + b, |a|).st, Execute(g, b).st, g, WholeName(g, a, t), t.given, WholeValue(g, a, t), t.rest, t.later);
  }

  lemma NamesDiffer(g: Parser, a: Data, b: Data, t: HeaderRest)
    requires Begun(g, a, |a|) && InHeader(g, b) && WellFormedRest(t) && (!InName(g.cs) ==> t.given == [])
    ensures WholeName(g, a, t) != [] && (t.given != [] ==> Key(t.given) != Key(WholeName(g, a, t)))
  {
    hide Key, Sorted;
    if t.given != [] {
      KeysOfDifferentLength(t.given, WholeName(g, a, t));
    }
  }

  /** Torn parts of the target always show. */
  lemma TargetHarms(g: Parser, a: Data, b: Data)
    requires Torn(g, a, b) && Needed(g.cs) != NONE && (21 <= g.cs <= 23 || 26 <= g.cs <= 33)
    ensures Execute(g, b).exit.Threw? || !SameRequest(Run(g, a + b, |a|).st.request, Execute(g, b).st.request)
  {
    hide Run, Execute, Begun, Get;
    if 21 <= g.cs <= 23 {
      var t := TornFragment(g, a, b);
    } else if 30 <= g.cs <= 32 {
      var t := TornQuery(g, a, b);
    } else {
      var t := TornPath(g, a, b);
    }
  }

  lemma VerbHarmIff(g: Parser, a: Data, b: Data)
    requires Torn(g, a, b) && (g.cs == 2 || 175 <= g.cs <= 193) && !Run(g, a + b, |a|).st.error
    ensures 0 <= g.mark < |a|
    ensures var r, s := Run(g, a + b, |a|).st, Execute(g, b).st;
      s.error == r.error && SameRequest(r.request, s.request) <==> CharsToMethod(b) == CharsToMethod(a[g.mark..] + b)
  {
    hide Run, Execute, Begun, Get, CharsToMethod;
    TornVerb(g, a, b);
  }

  lemma VersionHarmIff(g: Parser, a: Data, b: Data)
    requires Torn(g, a, b) && 5 <= g.cs <= 12 && !Run(g, a + b, |a|).st.error
    ensures var r, s := Run(g, a + b, |a|).st, Execute(g, b).st;
      s.error == r.error && SameRequest(r.request, s.request) <==> g.cs == 12 && a[|a| - 1] == 49
  {
    hide Run, Execute, Begun, Get;
    TornVersion(g, a, b);
  }

  lemma SecondStops(g: Parser, a: Data, b: Data)
    requires Torn(g, a, b)
    ensures Stopped(Execute(g, b)) && (!(30 <= g.cs <= 32) ==> !Execute(g, b).exit.Threw?)
    ensures !Execute(g, b).exit.Threw? ==> ControlOf(Run(g, a + b, |a|)) == Shift(ControlOf(Execute(g, b)), |a|)
  {
    hide Run, Begun;
    if !(30 <= g.cs <= 32) {
      RunDoesNotThrow(Unmarked(g), b, 0);
    }
    if !Execute(g, b).exit.Threw? {
      GoingOnIsExecuting(g, b);
      assert (a + b)[|a|..] == b == b[0..];
      RunControl(g, g, b, a + b, 0, |a|);
    }
  }

  /** Of an input that a single call reads as a request, cut once behind at least one byte: the two calls read
      the same request if and only if the cut is harmless. */
  lemma CutIsHarmlessIff(st: Parser, a: Data, b: Data) returns (t: HeaderRest)
    requires Ready(st) && a != [] && !Stopped(Execute(st, a))
    requires Accepts(Execute(st, a + b)) && !Execute(st, a + b).st.error
    ensures var g := Execute(st, a).st;
      && b != [] && Begun(g, a, |a|) && (InHeader(g, b) ==> IsRest(g, b, t))
      && (Harmless(Execute(st, a + b), FeedAll(st, [a, b])) <==> HarmlessCut(g, a, b, t))
  {
    hide Run, Execute, Begun, SameLookups, CharsToMethod, IsRest, HarmlessLine, Needed;
    WholeGoesOn(st, a, b);
    NoMarkNoThrow(st, a + b);
    var g := Execute(st, a).st;
    SecondStops(g, a, b);
    FeedTwo(st, a, b);
    t := HeaderRest([], [], [], Lf, [], Lf);
    StatesThatNeed(g.cs);
    if Needed(g.cs) == NONE {
      SafePair(st, a, b);
    } else {
      if g.cs == 2 || 175 <= g.cs <= 193 {
        VerbHarmIff(g, a, b);
      } else if 5 <= g.cs <= 12 {
        VersionHarmIff(g, a, b);
      } else if g.cs == 18 && b[0] == 10 {
        TornEmptyLine(g, a, b);
        EqualIsSame(g.request);
      } else if InHeader(g, b) {
        t := HeaderHarmIff(g, a, b);
      } else {
        TargetHarms(g, a, b);
      }
    }
  }

  lemma EqualIsSame(r: Request)
    ensures SameRequest(r, r)
  {
  }

  lemma StatesThatNeed(cs: int)
    requires cs != FIRST_FINAL
    ensures Needed(cs) != NONE <==> cs == 2 || 175 <= cs <= 193 || 5 <= cs <= 12 || 14 <= cs <= 16 || cs == 18 || 21 <= cs <= 23 || 26 <= cs <= 28 || 30 <= cs <= 33
  {
  }

  lemma SafePair(st: Parser, a: Data, b: Data)
    requires Ready(st) && !Stopped(Execute(st, a)) && Needed(Execute(st, a).st.cs) == NONE
    ensures Harmless(Execute(st, a + b), FeedAll(st, [a, b]))
  {
    hide Execute, Needed, Sorted;
    FeedTwo(st, a, b);
    PairIsSafe(st, a, b);
    SafeCutsDoNotMatter(st, [a, b]);
  }
}
