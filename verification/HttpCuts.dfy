/** Where the input may be cut into calls without a change to the request. Each call puts the marks back to
    zero, so a cut is harmless as long as no mark is still needed. */
module HttpCuts {
  import opened Wrappers
  import opened Bytes
  import opened HttpTable
  import opened HttpRequest
  import opened HttpParser
  import opened HttpGrammar
  import opened HttpSplit

  /** Which of the marks are set: the start of a token, of a header name, its length, the start of a query. */
  datatype Marks = Marks(mark: bool, field: bool, len: bool, query: bool)

  const NONE := Marks(false, false, false, false)

  /** The marks a state still needs. */
  function Needed(cs: int): Marks {
    Marks(cs == 2 || 175 <= cs <= 193 || 5 <= cs <= 12 || cs == 16 || 21 <= cs <= 23 || 26 <= cs <= 28 || cs == 33,
          cs == 14 || cs == 15 || cs == 16 || cs == 18 || cs == FIRST_FINAL, cs == 15 || cs == 16, 30 <= cs <= 32)
  }

  function Set1(l: Marks, a: Action): Marks {
    match a
    case MarkToken => l.(mark := true)
    case StartField => l.(field := true)
    case WriteField => l.(len := true)
    case StartQuery => l.(query := true)
    case _ => l
  }

  predicate CanDo(l: Marks, a: Action) {
    match a
    case WriteField => l.field
    case WriteValue => l.mark && l.field && l.len
    case QueryString => l.query
    case RequestMethod | RequestPath | FragmentText | HttpVersion => l.mark
    case _ => true
  }

  predicate Within(l: Marks, m: Marks) {
    (l.mark ==> m.mark) && (l.field ==> m.field) && (l.len ==> m.len) && (l.query ==> m.query)
  }

  /** Every edge of the table finds the marks its actions use. */
  lemma EdgesFindMarks(cs: int, c: int, relaxed: bool)
    requires Modelled(cs)
    ensures var e, l := Next(cs, c, relaxed), Needed(cs);
      && (RequestMethod in {e.first, e.second, e.third} ==> c == 32)
      && CanDo(l, e.first) && CanDo(Set1(l, e.first), e.second) && CanDo(Set1(Set1(l, e.first), e.second), e.third)
  {
  }

  /** And it leaves those its target needs. */
  lemma EdgesLeaveMarks(cs: int, c: int, relaxed: bool)
    requires Modelled(cs)
    ensures var e, l := Next(cs, c, relaxed), Needed(cs);
      e.to != ERROR && e.to != FIRST_FINAL && Modelled(e.to) ==>
        Within(Needed(e.to), Set1(Set1(Set1(l, e.first), e.second), e.third))
  {
    EdgesLeaveToken(cs, c, relaxed);
    EdgesLeaveField(cs, c, relaxed);
    QueryIsEntered(cs, c, relaxed);
    hide Next, Modelled;
  }

  lemma EdgesLeaveToken(cs: int, c: int, relaxed: bool)
    requires Modelled(cs)
    ensures var e := Next(cs, c, relaxed);
      e.to != ERROR && e.to != FIRST_FINAL && Needed(e.to).mark ==> MarkToken in {e.first, e.second, e.third} || Needed(cs).mark
  {
  }

  lemma EdgesLeaveField(cs: int, c: int, relaxed: bool)
    requires Modelled(cs)
    ensures var e, l := Next(cs, c, relaxed), Needed(cs);
      e.to != ERROR && e.to != FIRST_FINAL ==>
        && (Needed(e.to).field ==> StartField in {e.first, e.second, e.third} || l.field)
        && (Needed(e.to).len ==> WriteField in {e.first, e.second, e.third} || l.len)
  {
  }

  /** Two parsers in the same place of two buffers, the second lying at offset `k` of the first: they agree
      but for the marks, and the set marks point to the same bytes not behind offset `p` of the second. */
  predicate Tied(st: Parser, st': Parser, k: nat, p: int, l: Marks) {
    && st.cs == st'.cs && st.relaxed == st'.relaxed && st.request == st'.request && st.error == st'.error
    && (l.mark ==> st.mark == st'.mark + k && 0 <= st'.mark <= p)
    && (l.field ==> st.fieldStart == st'.fieldStart + k && 0 <= st'.fieldStart <= p)
    && (l.len ==> st.fieldLen == st'.fieldLen && 0 <= st'.fieldLen && (l.field ==> st'.fieldStart + st'.fieldLen <= p))
    && (l.query ==> st.queryStart == st'.queryStart + k && 0 <= st'.queryStart <= p)
  }

  /** The second buffer lies at offset `k` of the first. */
  predicate LiesAt(buf: Data, k: nat, buf': Data) {
    k + |buf'| <= |buf| && buf[k..k + |buf'|] == buf'
  }

  lemma SpansAgree(buf: Data, k: nat, buf': Data, m: nat, p: nat)
    requires LiesAt(buf, k, buf') && m <= p <= |buf'|
    ensures Span(buf, m + k, p + k) == Span(buf', m, p)
  {
    SameBytes(buf, k, buf', m, p);
  }

  lemma SameBytes(buf: Data, k: nat, buf': Data, m: nat, p: nat)
    requires LiesAt(buf, k, buf') && m <= p <= |buf'|
    ensures buf[m + k..p + k] == buf'[m..p]
    ensures p < |buf'| ==> buf[p + k] == buf'[p]
  {
    forall i | 0 <= i < |buf'|
      ensures buf'[i] == buf[k + i]
    {
      assert buf[k..k + |buf'|][i] == buf[k + i];
    }
  }

  /** The callback for the method looks at all that follows in the buffer, but only up to the blank. */
  lemma MethodsAgree(buf: Data, k: nat, buf': Data, m: nat, p: nat)
    requires LiesAt(buf, k, buf') && m <= p < |buf'| && buf'[p] == 32
    ensures CharsToMethod(Span(buf, m + k, |buf|)) == CharsToMethod(Span(buf', m, |buf'|))
  {
    var verb := buf'[m..p];
    SameBytes(buf, k, buf', m, p);
    hide CharsToMethod;
    assert buf'[m..|buf'|] == verb + ([32] + buf'[p + 1..]);
    assert buf[m + k..|buf|] == buf[m + k..p + k] + ([buf[p + k]] + buf[p + k + 1..]);
    MethodOfToken(verb, buf'[p + 1..]);
    MethodOfToken(verb, buf[p + k + 1..]);
  }

  lemma ActionTied(st: Parser, st': Parser, a: Action, buf: Data, k: nat, buf': Data, p: nat, l: Marks)
    requires LiesAt(buf, k, buf') && p < |buf'| && Tied(st, st', k, p, l) && CanDo(l, a) && (a == RequestMethod ==> buf'[p] == 32)
    requires a.StartField? ==> !l.len
    ensures Tied(Apply(st, a, buf, p + k), Apply(st', a, buf', p), k, p, Set1(l, a))
  {
    hide LiesAt, Span, CharsToMethod, SameText, Set;
    match a
    case RequestMethod => MethodsAgree(buf, k, buf', st'.mark, p);
    case WriteValue =>
      SpansAgree(buf, k, buf', st'.mark, p) by { assert p <= |buf'|; }
      FieldSpansAgree(st, st', buf, k, buf', p, l);
    case RequestPath | FragmentText | HttpVersion => SpansAgree(buf, k, buf', st'.mark, p);
    case QueryString => SpansAgree(buf, k, buf', st'.queryStart, p);
    case _ =>
  }

  lemma FieldSpansAgree(st: Parser, st': Parser, buf: Data, k: nat, buf': Data, p: nat, l: Marks)
    requires LiesAt(buf, k, buf') && p < |buf'| && Tied(st, st', k, p, l) && l.field && l.len
    ensures Span(buf, st.fieldStart, st.fieldStart + st.fieldLen) == Span(buf', st'.fieldStart, st'.fieldStart + st'.fieldLen)
  {
    hide LiesAt, Span;
    SpansAgree(buf, k, buf', st'.fieldStart, st'.fieldStart + st'.fieldLen);
  }

  lemma ThreeTied(st: Parser, st': Parser, e: Edge, buf: Data, k: nat, buf': Data, p: nat, l: Marks, m: Marks)
    requires LiesAt(buf, k, buf') && p < |buf'| && Tied(st, st', k, p, l)
    requires RequestMethod in {e.first, e.second, e.third} ==> buf'[p] == 32
    requires CanDo(l, e.first) && CanDo(Set1(l, e.first), e.second) && CanDo(Set1(Set1(l, e.first), e.second), e.third)
    requires (e.first == StartField ==> !l.len) && (e.second == StartField ==> !Set1(l, e.first).len)
    requires e.third == StartField ==> !Set1(Set1(l, e.first), e.second).len
    requires Within(m, Set1(Set1(Set1(l, e.first), e.second), e.third))
    ensures Tied(Take(st, e, buf, p + k), Take(st', e, buf', p), k, p + 1, m)
  {
    TakeIs(st, e, buf, p + k);
    TakeIs(st', e, buf', p);
    hide Apply, Take, Tied, LiesAt, Set1, CanDo;
    var l1 := Set1(l, e.first);
    var a, a' := Apply(st, e.first, buf, p + k), Apply(st', e.first, buf', p);
    var b, b' := Apply(a, e.second, buf, p + k), Apply(a', e.second, buf', p);
    ActionTied(st, st', e.first, buf, k, buf', p, l);
    ActionTied(a, a', e.second, buf, k, buf', p, l1);
    ActionTied(b, b', e.third, buf, k, buf', p, Set1(l1, e.second));
    Weaker(Apply(b, e.third, buf, p + k), Apply(b', e.third, buf', p), k, p, Set1(Set1(l1, e.second), e.third), m, e.to);
  }

  lemma EdgeTied(st: Parser, st': Parser, e: Edge, buf: Data, k: nat, buf': Data, p: nat)
    requires LiesAt(buf, k, buf') && p < |buf'| && Modelled(st.cs) && Tied(st, st', k, p, Needed(st.cs))
    requires e == Next(st.cs, Signed(buf'[p]), st.relaxed) && e.to != ERROR
    ensures !Throws(st, e.first, p + k) && !Throws(st', e.first, p)
    ensures var r, r' := Take(st, e, buf, p + k), Take(st', e, buf', p);
      && Tied(r, r', k, p + 1, NONE)
      && (e.to != FIRST_FINAL && Modelled(e.to) ==> Tied(r, r', k, p + 1, Needed(e.to)))
  {
    EdgesFindMarks(st.cs, Signed(buf'[p]), st.relaxed);
    EdgesLeaveMarks(st.cs, Signed(buf'[p]), st.relaxed);
    StartsBeforeLength(st.cs, Signed(buf'[p]), st.relaxed);
    QueryIsMarked(st, st', k, p, Needed(st.cs), e.first);
    hide Next, Take, Tied, Needed, LiesAt, Set1, CanDo, Throws, Modelled;
    ThreeTied(st, st', e, buf, k, buf', p, Needed(st.cs), NONE);
    if e.to != FIRST_FINAL && Modelled(e.to) {
      ThreeTied(st, st', e, buf, k, buf', p, Needed(st.cs), Needed(e.to));
    }
  }

  lemma TakeIs(st: Parser, e: Edge, buf: Data, p: nat)
    ensures Take(st, e, buf, p) == Apply(Apply(Apply(st, e.first, buf, p), e.second, buf, p), e.third, buf, p).(cs := e.to)
  {
  }

  lemma QueryIsMarked(st: Parser, st': Parser, k: nat, p: nat, l: Marks, a: Action)
    requires Tied(st, st', k, p, l) && CanDo(l, a)
    ensures !Throws(st, a, p + k) && !Throws(st', a, p)
  {
  }

  lemma StartsBeforeLength(cs: int, c: int, relaxed: bool)
    requires Modelled(cs)
    ensures var e, l := Next(cs, c, relaxed), Needed(cs);
      && (e.first == StartField ==> !l.len)
      && (e.second == StartField ==> !Set1(l, e.first).len)
      && (e.third == StartField ==> !Set1(Set1(l, e.first), e.second).len)
  {
  }

  lemma Weaker(st: Parser, st': Parser, k: nat, p: int, l: Marks, m: Marks, to: int)
    requires Tied(st, st', k, p, l) && Within(m, l)
    ensures Tied(st.(cs := to), st'.(cs := to), k, p + 1, m)
  {
  }

  /** Running from the same place of two buffers: where the run over the second stops, so does the other,
      with the same request; where it reaches the end of its buffer, the other goes on from there. */
  lemma {:induction false} RunTied(st: Parser, st': Parser, buf: Data, k: nat, buf': Data, p: nat) returns (next: Parser)
    requires LiesAt(buf, k, buf') && p <= |buf'| && Tied(st, st', k, p, Needed(st.cs))
    requires st.cs != ERROR && st.cs != FIRST_FINAL
    ensures !Run(st', buf', p).exit.Threw?
    ensures var r, r' := Run(st, buf, p + k), Run(st', buf', p);
      if Stopped(r') then Agree(r, r', k)
      else r == Run(next, buf, k + |buf'|) && Tied(next, r'.st, k, |buf'|, Needed(r'.st.cs))
    decreases |buf'| - p
  {
    hide Next, Take, LiesAt, Modelled;
    next := st;
    LiesInside(buf, k, buf');
    if p < |buf'| && Modelled(st.cs) {
      SameBytes(buf, k, buf', p, p);
      var e := Next(st.cs, Signed(buf'[p]), st.relaxed);
      if e.to != ERROR {
        EdgeTied(st, st', e, buf, k, buf', p);
        TakeEnters(st, e, buf, p + k);
        TakeEnters(st', e, buf', p);
        if e.to != FIRST_FINAL {
          if !Modelled(e.to) {
            UnmodelledNeedsNothing(e.to);
          }
          if Modelled(e.to) {
            next := RunTied(Take(st, e, buf, p + k), Take(st', e, buf', p), buf, k, buf', p + 1);
          } else {
            next := Take(st, e, buf, p + k);
          }
        }
      }
    }
  }

  lemma UnmodelledNeedsNothing(cs: int)
    requires !Modelled(cs)
    ensures Needed(cs) == NONE
  {
  }

  lemma LiesInside(buf: Data, k: nat, buf': Data)
    requires LiesAt(buf, k, buf')
    ensures k + |buf'| <= |buf|
  {
  }

  /** The same stop, but for marks. */
  predicate Agree(r: Stop, r': Stop, k: nat) {
    r.exit == r'.exit && r.at == r'.at + k && r.st.cs == r'.st.cs && r.st.relaxed == r'.st.relaxed
    && r.st.request == r'.st.request && r.st.error == r'.st.error
  }

  // ---------- Any number of cuts ----------

  /** One call for each chunk until one of them stops the machine; `at` counts all bytes consumed. */
  function FeedAll(st: Parser, chunks: seq<Data>): Stop
    decreases |chunks|
  {
    if chunks == [] then Stop(st, 0, Returned)
    else
      var r := Execute(st, chunks[0]);
      if Stopped(r) then r
      else
        var rest := FeedAll(r.st, chunks[1..]);
        rest.(at := r.at + rest.at)
  }

  lemma FeedOne(st: Parser, a: Data)
    ensures FeedAll(st, [a]) == Execute(st, a)
  {
    hide Execute;
    assert [a][1..] == [];
    assert FeedAll(Execute(st, a).st, []) == Stop(Execute(st, a).st, 0, Returned);
  }

  lemma FeedTwo(st: Parser, a: Data, b: Data)
    ensures Join([a, b]) == a + b
    ensures var e := Execute(st, a);
      FeedAll(st, [a, b]) == if Stopped(e) then e else Execute(e.st, b).(at := e.at + Execute(e.st, b).at)
  {
    hide Execute;
    assert [a, b][1..] == [b] && [b][1..] == [];
    assert Join([]) == [] && Join([b]) == b + Join([]) && b + [] == b;
    FeedOne(Execute(st, a).st, b);
  }

  /** Between two calls no mark is needed. */
  predicate SafeCuts(st: Parser, chunks: seq<Data>)
    decreases |chunks|
  {
    |chunks| <= 1 || var r := Execute(st, chunks[0]);
    Stopped(r) || (Needed(r.st.cs) == NONE && SafeCuts(r.st, chunks[1..]))
  }

  /** Going on in a new call, with no mark needed, is going on. */
  lemma GoOn(st: Parser, st': Parser, a: Data, b: Data)
    requires Tied(st, st', 0, |a|, NONE) && Needed(st.cs) == NONE && st.cs != ERROR && st.cs != FIRST_FINAL
    ensures Agree(Run(st, a + b, |a|), Execute(st', b), |a|)
  {
    hide Run;
    if b == [] {
      assert a + b == a;
      RunAtEnd(st, a);
    } else {
      assert LiesAt(a + b, |a|, b);
      var next := RunTied(st, Unmarked(st'), a + b, |a|, b, 0);
      UnfinishedConsumesAll(Unmarked(st'), b, 0);
      RunAtEnd(next, a + b);
    }
  }

  lemma PairIsSafe(st: Parser, a: Data, b: Data)
    requires var e := Execute(st, a); Stopped(e) || Needed(e.st.cs) == NONE
    ensures SafeCuts(st, [a, b])
  {
    hide Execute, Needed;
    assert [a, b][1..] == [b];
  }

  lemma NoMarkNoThrow(st: Parser, buf: Data)
    requires Needed(st.cs) == NONE
    ensures !Execute(st, buf).exit.Threw?
  {
    hide Run;
    if st.cs != ERROR {
      RunDoesNotThrow(Unmarked(st), buf, 0);
    }
  }

  /** Where the input is cut only in states that need no mark, that is between method, target parts, version
      and lines, the request, the error flag, the state and the bytes consumed are those of one call. */
  lemma {:induction false} SafeCutsDoNotMatter(st: Parser, chunks: seq<Data>)
    requires st.cs != ERROR && st.cs != FIRST_FINAL && Needed(st.cs) == NONE && SafeCuts(st, chunks)
    ensures Agree(Execute(st, Join(chunks)), FeedAll(st, chunks), 0) && !FeedAll(st, chunks).exit.Threw?
    decreases |chunks|
  {
    hide Run, Needed;
    if chunks != [] {
      var a, b := chunks[0], Join(chunks[1..]);
      if |chunks| == 1 {
        assert a + b == a;
        NoMarkNoThrow(st, a);
      } else if a == [] {
        assert a + b == b;
        SafeCutsDoNotMatter(st, chunks[1..]);
      } else {
        var st0 := Unmarked(st);
        assert LiesAt(a + b, 0, a);
        var next := RunTied(st0, st0, a + b, 0, a, 0);
        var r := Run(st0, a, 0);
        UnfinishedConsumesAll(st0, a, 0);
        if !Stopped(r) {
          SafeCutsDoNotMatter(r.st, chunks[1..]);
          GoOn(next, r.st, a, b);
        }
      }
    }
  }

  // ---------- A cut inside a token ----------

  /** A path cut in two calls: the second call takes what it sees for the path, and finds no error. */
  lemma CutPathIsLost(relaxed: bool, queryStart: nat)
    ensures var a, b: Data := [71, 69, 84, 32, 47, 97], [98, 32];
      var st := Execute(Fresh(relaxed, queryStart), a).st;
      && st.cs == 26
      && Execute(st, b).st.request.path == [98] && !HasError(Execute(st, b).st)
      && Execute(Fresh(relaxed, queryStart), a + b).st.request.path == [47, 97, 98]
  {
    hide Run, CharsToMethod, Next;
    var a, b: Data := [71, 69, 84, 32, 47, 97], [98, 32];
    var verb: Data := [71, 69, 84];
    var st := AfterMethod(Fresh(relaxed, queryStart).(mark := 0), verb);
    GetIsKnown();
    PathEdges(relaxed);
    VerbPart(Fresh(relaxed, queryStart), a, verb, a[4..]);
    VerbPart(Fresh(relaxed, queryStart), a + b, verb, (a + b)[4..]);
    FirstHalf(st, a);
    WholePath(st, a + b);
    SecondHalf(Unmarked(st).(cs := 26), b);
  }

  lemma PathEdges(relaxed: bool)
    ensures Next(3, 47, relaxed) == Edge(MarkToken, Nothing, Nothing, 33)
    ensures Next(33, 97, relaxed) == Edge(Nothing, Nothing, Nothing, 26)
    ensures Next(26, 98, relaxed) == Edge(Nothing, Nothing, Nothing, 26)
    ensures Next(26, 32, relaxed) == Edge(RequestPath, RequestUri, Nothing, 4)
  {
  }

  lemma FirstHalf(st: Parser, a: Data)
    requires st.cs == 3 && |a| == 6 && a[4] == 47 && a[5] == 97
    ensures Run(st, a, 4) == Stop(st.(mark := 4, cs := 26), 6, Returned)
  {
    hide Run, Next;
    PathEdges(st.relaxed);
    var t := st.(mark := 4, cs := 33);
    Step(st, a, 4, Edge(MarkToken, Nothing, Nothing, 33));
    Step(t, a, 5, Edge(Nothing, Nothing, Nothing, 26));
    RunAtEnd(t.(cs := 26), a);
  }

  lemma WholePath(st: Parser, buf: Data)
    requires st.cs == 3 && |buf| == 8 && buf[4..] == [47, 97, 98, 32]
    ensures Run(st, buf, 4) == Stop(st.(mark := 4, cs := 4, request := st.request.(path := [47, 97, 98])), 8, Returned)
  {
    hide Run, Next;
    PathEdges(st.relaxed);
    assert buf[4] == buf[4..][0] && buf[5] == buf[4..][1] && buf[6] == buf[4..][2] && buf[7] == buf[4..][3];
    var t := st.(mark := 4, cs := 33);
    Step(st, buf, 4, Edge(MarkToken, Nothing, Nothing, 33));
    Step(t, buf, 5, Edge(Nothing, Nothing, Nothing, 26));
    Step(t.(cs := 26), buf, 6, Edge(Nothing, Nothing, Nothing, 26));
    Step(t.(cs := 26), buf, 7, Edge(RequestPath, RequestUri, Nothing, 4));
    assert Span(buf, 4, 7) == [47, 97, 98];
    RunAtEnd(t.(cs := 4, request := t.request.(path := [47, 97, 98])), buf);
  }

  lemma SecondHalf(st: Parser, b: Data)
    requires st.cs == 26 && st.mark == 0 && b == [98, 32]
    ensures Run(st, b, 0) == Stop(st.(cs := 4, request := st.request.(path := [98])), 2, Returned)
  {
    hide Run, Next;
    PathEdges(st.relaxed);
    Step(st, b, 0, Edge(Nothing, Nothing, Nothing, 26));
    Step(st, b, 1, Edge(RequestPath, RequestUri, Nothing, 4));
    assert Span(b, 0, 1) == [98];
    RunAtEnd(st.(cs := 4, request := st.request.(path := [98])), b);
  }

  lemma GetIsKnown()
    ensures CharsToMethod([71, 69, 84]) != INVALID
  {
    CharsToMethodIsPrefix([71, 69, 84], GET);
    assert HasPrefix(MethodName(GET), [71, 69, 84]);
  }
}
