/** The execution of the table over a buffer, with the callbacks that fill in the request. */
module HttpParser {
  import opened Bytes
  import opened HttpTable
  import opened HttpRequest

  /** The fields of the parser structure that matter to a run, with the request under construction
      and the callback error flag. Marks are offsets into the buffer of the current call. */
  datatype Parser = Parser(
    cs: int, mark: int, fieldStart: int, fieldLen: int, bodyStart: int, queryStart: nat, relaxed: bool,
    request: Request, error: bool)

  /** `relaxed` and `queryStart` are never assigned before the first run: they hold anything. */
  function Fresh(relaxed: bool, queryStart: nat): Parser {
    Parser(START, 0, 0, 0, 0, queryStart, relaxed, NEW_REQUEST, false)
  }

  /** `strncmp(text, literal, |text|) == 0`. */
  predicate SameText(text: Data, literal: Data) {
    if |text| <= |literal| then text == literal[..|text|]
    else text[..|literal|] == literal && text[|literal|] == 0
  }

  function OnMethod(st: Parser, at: Data): Parser {
    var m := CharsToMethod(at);
    if m == INVALID then st.(error := true) else st.(request := st.request.(verb := m))
  }

  function OnVersion(st: Parser, at: Data): Parser {
    if SameText(at, Text("HTTP/1.1")) then st.(request := st.request.(version := 0x11))
    else if SameText(at, Text("HTTP/1.0")) then st.(request := st.request.(version := 0x10))
    else st.(error := true)
  }

  function OnField(st: Parser, name: Data, value: Data): Parser {
    if name == [] then st else st.(request := st.request.(headers := Set(st.request.headers, name, value)))
  }

  function Apply(st: Parser, a: Action, buf: Data, p: nat): Parser {
    match a
    case Nothing => st
    case MarkToken => st.(mark := p)
    case StartField => st.(fieldStart := p)
    case StartQuery => st.(queryStart := p)
    case WriteField => st.(fieldLen := p - st.fieldStart)
    case WriteValue => OnField(st, Span(buf, st.fieldStart, st.fieldStart + st.fieldLen), Span(buf, st.mark, p))
    case RequestMethod => OnMethod(st, Span(buf, st.mark, |buf|))
    case RequestPath => st.(request := st.request.(path := Span(buf, st.mark, p)))
    case QueryString => st.(request := st.request.(query := Span(buf, st.queryStart, p)))
    case FragmentText => st.(request := st.request.(fragment := Span(buf, st.mark, p)))
    case HttpVersion => OnVersion(st, Span(buf, st.mark, p))
    case RequestUri => st
    case Done => st.(bodyStart := p + 1)
  }

  function Take(st: Parser, e: Edge, buf: Data, p: nat): Parser {
    Apply(Apply(Apply(st, e.first, buf, p), e.second, buf, p), e.third, buf, p).(cs := e.to)
  }

  /** How a run ends: it returns, it leaves the part of the table that is modelled, or a callback throws. */
  datatype Exit = Returned | Left | Threw

  /** Where a run stopped: the parser, the offset reached, and how. */
  datatype Stop = Stop(st: Parser, at: int, exit: Exit)

  /** The length of a query that ends in front of its start wraps around: no string is that long. */
  predicate Throws(st: Parser, a: Action, p: nat) {
    a == QueryString && p < st.queryStart
  }

  function Run(st: Parser, buf: Data, p: nat): Stop
    requires p <= |buf|
    decreases |buf| - p
  {
    if p == |buf| then Stop(st, p, Returned)
    else if !Modelled(st.cs) then Stop(st, p, Left)
    else
      var e := Next(st.cs, Signed(buf[p]), st.relaxed);
      if e.to == ERROR then Stop(st.(cs := ERROR), p, Returned)
      else if Throws(st, e.first, p) then Stop(st, p, Threw)
      else if e.to == FIRST_FINAL then Stop(Take(st, e, buf, p), p + 1, Returned)
      else Run(Take(st, e, buf, p), buf, p + 1)
  }

  /** A call that throws assigns neither the control state nor the number of bytes read. */
  function Unwound(cs: int, r: Stop): Stop {
    if r.exit.Threw? then Stop(r.st.(cs := cs), 0, Threw) else r
  }

  /** One `http_parser_execute` call: the marks restart at zero, an error state consumes nothing. The start
      of a query is the one mark that stays. */
  function Execute(st: Parser, buf: Data): Stop {
    if buf == [] then Stop(st, 0, Returned)
    else if st.cs == ERROR then Stop(Unmarked(st), 0, Returned)
    else Unwound(st.cs, Run(Unmarked(st), buf, 0))
  }

  function Unmarked(st: Parser): Parser {
    st.(mark := 0, fieldLen := 0, fieldStart := 0)
  }

  lemma RunAtEnd(st: Parser, buf: Data)
    ensures Run(st, buf, |buf|) == Stop(st, |buf|, Returned)
  {
  }

  /** Only the first action of an edge can throw: behind it a query is taken only where it starts. */
  lemma LaterActionsDoNotThrow(cs: int, c: int, relaxed: bool)
    requires Modelled(cs)
    ensures var e := Next(cs, c, relaxed);
      && e.third != QueryString && (e.second == QueryString ==> e.first == StartQuery)
      && (e.first == QueryString ==> cs == 30 && (e.to == 4 || e.to == 20))
  {
  }

  predicate Finished(st: Parser) {
    st.cs >= FIRST_FINAL
  }

  predicate HasError(st: Parser) {
    st.error || st.cs == ERROR
  }

  // ---------- The imperative form ----------

  class RequestParser {
    var cs: int
    var mark: int
    var fieldStart: int
    var fieldLen: int
    var bodyStart: int
    var queryStart: nat
    var nread: int
    const relaxed: bool
    var request: Request
    var error: bool
    var exit: Exit

    function View(): Parser
      reads this
    {
      Parser(cs, mark, fieldStart, fieldLen, bodyStart, queryStart, relaxed, request, error)
    }

    constructor (relaxed: bool, queryStart: nat)
      ensures View() == Fresh(relaxed, queryStart) && exit.Returned?
    {
      this.relaxed := relaxed;
      this.queryStart := queryStart;
      cs, mark, fieldStart, fieldLen, bodyStart, nread := START, 0, 0, 0, 0, 0;
      request, error, exit := NEW_REQUEST, false, Returned;
    }

    /** One action; the callback for the query may throw instead. */
    method Perform(a: Action, buf: Data, p: nat) returns (threw: bool)
      requires p <= |buf|
      modifies this
      ensures exit == old(exit) && nread == old(nread) && (threw <==> Throws(old(View()), a, p))
      ensures View() == if threw then old(View()) else Apply(old(View()), a, buf, p)
    {
      hide CharsToMethod, SameText, Set, Text, Span;
      threw := false;
      match a
      case MarkToken => mark := p;
      case StartField => fieldStart := p;
      case StartQuery => queryStart := p;
      case WriteField => fieldLen := p - fieldStart;
      case Done => bodyStart := p + 1;
      case WriteValue =>
        var name := Span(buf, fieldStart, fieldStart + fieldLen);
        if name != [] {
          request := request.(headers := Set(request.headers, name, Span(buf, mark, p)));
        }
      case RequestMethod =>
        var m := CharsToMethod(Span(buf, mark, |buf|));
        if m == INVALID {
          error := true;
        } else {
          request := request.(verb := m);
        }
      case RequestPath => request := request.(path := Span(buf, mark, p));
      case QueryString =>
        if p < queryStart {
          return true;
        }
        request := request.(query := Span(buf, queryStart, p));
      case FragmentText => request := request.(fragment := Span(buf, mark, p));
      case HttpVersion =>
        var text := Span(buf, mark, p);
        if SameText(text, Text("HTTP/1.1")) {
          request := request.(version := 0x11);
        } else if SameText(text, Text("HTTP/1.0")) {
          request := request.(version := 0x10);
        } else {
          error := true;
        }
      case _ =>
    }

    /** One pass through the goto machine: the byte at `p` decides the next state. */
    method Advance(buf: Data, p: nat) returns (next: nat, out: bool)
      requires p < |buf| && exit.Returned?
      modifies this
      ensures nread == old(nread)
      ensures out ==> Stop(View(), next, exit) == Run(old(View()), buf, p)
      ensures !out ==> exit.Returned? && next == p + 1 && Run(View(), buf, next) == Run(old(View()), buf, p)
    {
      if !Modelled(cs) {
        exit := Left;
        return p, true;
      }
      var e := Next(cs, Signed(buf[p]), relaxed);
      if e.to == ERROR {
        cs := ERROR;
        return p, true;
      }
      LaterActionsDoNotThrow(cs, Signed(buf[p]), relaxed);
      var threw := Perform(e.first, buf, p);
      if threw {
        exit := Threw;
        return p, true;
      }
      threw := Perform(e.second, buf, p);
      threw := Perform(e.third, buf, p);
      cs := e.to;
      assert View() == Take(old(View()), e, buf, p);
      return p + 1, cs == FIRST_FINAL;
    }

    /** `http_parser_execute`: the goto machine, one edge per byte. */
    method ExecuteTable(buf: Data)
      requires buf != []
      modifies this
      ensures var r := Execute(old(View()), buf);
              View() == r.st && nread == r.at && exit == r.exit
    {
      hide Run, Next, Apply, Signed;
      nread, mark, fieldLen, fieldStart := 0, 0, 0, 0;
      exit := Returned;
      var was, p := cs, 0;
      ghost var st0 := View();
      var out := cs == ERROR;
      while p < |buf| && !out
        invariant 0 <= p <= |buf|
        invariant nread == 0
        invariant st0.cs == ERROR ==> out && p == 0 && View() == st0 && exit.Returned?
        invariant st0.cs != ERROR && out ==> Stop(View(), p, exit) == Run(st0, buf, 0)
        invariant st0.cs != ERROR && !out ==> exit.Returned? && Run(View(), buf, p) == Run(st0, buf, 0)
        decreases |buf| - p, !out
      {
        RunStaysInside(View(), buf, p);
        p, out := Advance(buf, p);
      }
      RunAtEnd(View(), buf);
      if exit.Threw? {
        cs := was;
      } else {
        nread := p;
      }
    }

    /** `HttpRequestParser::execute`: consume what the table accepts and move the rest of the
        `len` valid bytes to the front of the buffer. `ok` tells whether the assertions at the end of a call
        that gets there hold. */
    method ExecuteInPlace(data: array<byte>, len: nat) returns (n: nat, ok: bool)
      requires len <= data.Length
      modifies this, data
      ensures var r := Execute(old(View()), old(data[..len]));
              View() == r.st && n == r.at && n <= len && exit == r.exit
      ensures exit.Returned? ==> (ok <==> AssertionsHold(Execute(old(View()), old(data[..len])), len))
      ensures data[..len - n] == old(data[n..len])
    {
      ghost var before := data[..len];
      if len == 0 {
        n, ok, exit := 0, true, Returned;
        assert data[..len] == [];
        return;
      }
      ExecuteTable(data[..len]);
      ExecuteStaysInside(old(View()), before);
      n := nread;
      if exit.Threw? {
        return n, true;
      }
      ok := n <= len && bodyStart <= len && mark < len && fieldLen <= len && fieldStart < len;
      MoveToFront(data, n, len);
    }
  }

  /** `memmove(data, data + n, len - n)`. */
  method MoveToFront(data: array<byte>, n: nat, len: nat)
    requires n <= len <= data.Length
    modifies data
    ensures data[..len - n] == old(data[n..len])
  {
    var i := 0;
    while i < len - n
      invariant 0 <= i <= len - n
      invariant forall k | 0 <= k < i :: data[k] == old(data[n + k])
      invariant forall k | i <= k < len :: data[k] == old(data[k])
    {
      data[i] := data[n + i];
      i := i + 1;
    }
  }

  lemma {:induction false} RunStaysInside(st: Parser, buf: Data, p: nat)
    requires p <= |buf|
    ensures p <= Run(st, buf, p).at <= |buf|
    decreases |buf| - p
  {
    hide Next, Take;
    if p < |buf| && Modelled(st.cs) {
      var e := Next(st.cs, Signed(buf[p]), st.relaxed);
      RunStaysInside(Take(st, e, buf, p), buf, p + 1);
    }
  }

  lemma ExecuteStaysInside(st: Parser, buf: Data)
    ensures 0 <= Execute(st, buf).at <= |buf|
  {
    if buf != [] {
      RunStaysInside(Unmarked(st), buf, 0);
    }
  }

  /** The marks lie inside the buffer: the field's start not behind offset `p`, its end not behind it. */
  predicate MarksInside(st: Parser, p: int, len: int) {
    0 <= st.mark < len && 0 <= st.fieldStart < len && st.fieldStart <= p && 0 <= st.fieldLen <= len
  }

  lemma ActionKeepsMarks(st: Parser, a: Action, buf: Data, p: nat)
    requires p < |buf| && MarksInside(st, p, |buf|)
    ensures MarksInside(Apply(st, a, buf, p), p, |buf|)
  {
    hide CharsToMethod, Set, SameText, Span;
  }

  lemma {:induction false} RunKeepsMarks(st: Parser, buf: Data, p: nat)
    requires p < |buf| && MarksInside(st, p, |buf|)
    ensures MarksInside(Run(st, buf, p).st, |buf|, |buf|)
    decreases |buf| - p
  {
    hide Next, Apply;
    if Modelled(st.cs) {
      var e := Next(st.cs, Signed(buf[p]), st.relaxed);
      ActionKeepsMarks(st, e.first, buf, p);
      ActionKeepsMarks(Apply(st, e.first, buf, p), e.second, buf, p);
      ActionKeepsMarks(Apply(Apply(st, e.first, buf, p), e.second, buf, p), e.third, buf, p);
      if e.to != ERROR && e.to != FIRST_FINAL && p + 1 < |buf| {
        RunKeepsMarks(Take(st, e, buf, p), buf, p + 1);
      }
    }
  }

  /** The assertions that end `http_parser_execute`, which returns before them when there is no input. */
  predicate AssertionsHold(r: Stop, len: nat) {
    len > 0 ==>
      r.at <= len && r.st.bodyStart <= len && r.st.mark < len && r.st.fieldLen <= len && r.st.fieldStart < len
  }

  /** The end of the request is noted on exactly the edges into the final state. */
  lemma FinalEdges(cs: int, c: int, relaxed: bool)
    requires Modelled(cs)
    ensures var e := Next(cs, c, relaxed);
      e.to == FIRST_FINAL <==> e.first == Done || e.second == Done || e.third == Done
  {
  }

  lemma TakeNotesTheEnd(st: Parser, e: Edge, buf: Data, p: nat)
    ensures Take(st, e, buf, p).bodyStart ==
            if e.first == Done || e.second == Done || e.third == Done then p + 1 else st.bodyStart
  {
    ApplyNotesTheEnd(st, e.first, buf, p);
    ApplyNotesTheEnd(Apply(st, e.first, buf, p), e.second, buf, p);
    ApplyNotesTheEnd(Apply(Apply(st, e.first, buf, p), e.second, buf, p), e.third, buf, p);
    hide Apply;
  }

  lemma ApplyNotesTheEnd(st: Parser, a: Action, buf: Data, p: nat)
    ensures Apply(st, a, buf, p).bodyStart == if a == Done then p + 1 else st.bodyStart
  {
    hide CharsToMethod, Set, SameText, Span;
  }

  /** A run changes the start of the body only by finishing a request. */
  lemma {:induction false} RunNotesTheEnd(st: Parser, buf: Data, p: nat)
    requires p < |buf|
    ensures var r := Run(st, buf, p);
      r.exit.Returned? ==> r.st.bodyStart == if r.st.cs == FIRST_FINAL then r.at else st.bodyStart
    decreases |buf| - p
  {
    hide Next, Apply, Take;
    if Modelled(st.cs) {
      var e := Next(st.cs, Signed(buf[p]), st.relaxed);
      FinalEdges(st.cs, Signed(buf[p]), st.relaxed);
      TakeNotesTheEnd(st, e, buf, p);
      TakeEnters(st, e, buf, p);
      if e.to != ERROR && e.to != FIRST_FINAL && p + 1 < |buf| {
        RunNotesTheEnd(Take(st, e, buf, p), buf, p + 1);
      }
    }
  }

  lemma TakeEnters(st: Parser, e: Edge, buf: Data, p: nat)
    ensures Take(st, e, buf, p).cs == e.to
  {
  }

  /** The closing assertions hold after a call, whatever its input, if and only if the body start left by
      earlier calls lies inside the new input, or this call finishes a request. */
  lemma ClosingAssertionsHoldIff(st: Parser, buf: Data)
    requires buf != []
    ensures var r := Execute(st, buf);
      r.exit.Returned? ==> (AssertionsHold(r, |buf|) <==> st.bodyStart <= |buf| || r.st.cs == FIRST_FINAL)
  {
    ExecuteStaysInside(st, buf);
    hide Run;
    RunKeepsMarks(Unmarked(st), buf, 0);
    RunNotesTheEnd(Unmarked(st), buf, 0);
  }

  /** As long as no request has been finished they hold. */
  lemma AssertionsHoldAtFirst(st: Parser, buf: Data)
    requires st.bodyStart == 0
    ensures var r := Execute(st, buf);
      && (r.exit.Returned? ==> AssertionsHold(r, |buf|))
      && (r.exit.Returned? && r.st.cs < FIRST_FINAL && st.cs != FIRST_FINAL ==> r.st.bodyStart == 0)
  {
    if buf != [] {
      ClosingAssertionsHoldIff(st, buf);
      hide Run;
      RunNotesTheEnd(Unmarked(st), buf, 0);
    }
  }

  /** The error flag of the callbacks is never taken back. */
  lemma {:induction false} RunKeepsError(st: Parser, buf: Data, p: nat)
    requires p <= |buf| && st.error
    ensures Run(st, buf, p).st.error
    decreases |buf| - p
  {
    hide Next, Take;
    if p < |buf| && Modelled(st.cs) {
      var e := Next(st.cs, Signed(buf[p]), st.relaxed);
      TakeKeepsError(st, e, buf, p);
      if e.to != ERROR && e.to != FIRST_FINAL {
        RunKeepsError(Take(st, e, buf, p), buf, p + 1);
      }
    }
  }

  lemma TakeKeepsError(st: Parser, e: Edge, buf: Data, p: nat)
    ensures st.error ==> Take(st, e, buf, p).error
  {
    ActionKeepsError(st, e.first, buf, p);
    ActionKeepsError(Apply(st, e.first, buf, p), e.second, buf, p);
    ActionKeepsError(Apply(Apply(st, e.first, buf, p), e.second, buf, p), e.third, buf, p);
    hide Apply;
  }

  lemma ActionKeepsError(st: Parser, a: Action, buf: Data, p: nat)
    ensures st.error ==> Apply(st, a, buf, p).error
  {
    hide CharsToMethod, Set, SameText, Span;
  }

  /** A request is not finished without input. */
  lemma {:induction false} FinishingConsumes(st: Parser, buf: Data)
    requires st.cs != FIRST_FINAL
    ensures var r := Execute(st, buf); r.st.cs == FIRST_FINAL ==> r.at > 0
  {
    if buf != [] && st.cs != ERROR && Modelled(st.cs) {
      var st0 := Unmarked(st);
      var e := Next(st.cs, Signed(buf[0]), st.relaxed);
      if e.to != ERROR && e.to != FIRST_FINAL {
        RunStaysInside(Take(st0, e, buf, 0), buf, 1);
      }
      hide Next, Take;
    }
  }

  /** No state lies above the final one. */
  lemma {:induction false} RunStaysBelow(st: Parser, buf: Data, p: nat)
    requires p <= |buf| && st.cs <= FIRST_FINAL
    ensures Run(st, buf, p).st.cs <= FIRST_FINAL
    decreases |buf| - p
  {
    hide Take, Next;
    if p < |buf| && Modelled(st.cs) {
      var e := Next(st.cs, Signed(buf[p]), st.relaxed);
      TakeEnters(st, e, buf, p);
      EdgesStayBelow(st.cs, Signed(buf[p]), st.relaxed);
      if e.to != ERROR && e.to != FIRST_FINAL {
        RunStaysBelow(Take(st, e, buf, p), buf, p + 1);
      }
    }
  }

  lemma EdgesStayBelow(cs: int, c: int, relaxed: bool)
    requires Modelled(cs)
    ensures Next(cs, c, relaxed).to <= FIRST_FINAL
  {
  }
}
