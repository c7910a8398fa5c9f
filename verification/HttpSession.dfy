/** The session that receives one request from a connection. */
module HttpSession {
  import opened Wrappers
  import opened Bytes
  import opened HttpTable
  import opened HttpRequest
  import opened HttpParser
  import opened HttpGrammar
  import opened HttpSplit
  import opened HttpCuts
  import opened HttpRoundTrip
  import opened Streams

  // ---------- Receiving a request ----------

  /** `Outside` means that the input drove the parser into states the model does not hold, `Raised` that an
      exception leaves the session. */
  datatype Outcome = Closed | Outside | Raised | Received(request: Request)

  datatype Head = NoHead(why: Outcome) | Head(request: Request, rest: Data)

  datatype HeadReading = HeadReading(head: Head, source: Source)

  /** The loop of `recvRequest`: read into the buffer behind the carried-over bytes, parse, repeat. */
  function ReceiveHead(st: Parser, carry: Data, s: Source, size: nat): HeadReading
    requires |carry| <= size
    decreases |s.plan|
  {
    var r := Receive(s, size - |carry|);
    if r.ret <= 0 then HeadReading(NoHead(Closed), r.source)
    else
      var data := carry + r.data;
      var e := Execute(st, data);
      ExecuteStaysInside(st, data);
      var rest := data[e.at..];
      if e.exit.Left? then HeadReading(NoHead(Outside), r.source)
      else if e.exit.Threw? then HeadReading(NoHead(Raised), r.source)
      else if HasError(e.st) || |rest| == size then HeadReading(NoHead(Closed), r.source)
      else if Finished(e.st) then HeadReading(Head(e.st.request, rest), r.source)
      else ReceiveHead(e.st, rest, r.source, size)
  }

  /** The assertions at the end of `http_parser_execute` hold in every call of the loop that gets there. */
  predicate NoCallAborts(st: Parser, carry: Data, s: Source, size: nat)
    requires |carry| <= size
    decreases |s.plan|
  {
    var r := Receive(s, size - |carry|);
    r.ret <= 0 ||
    var data := carry + r.data;
    var e := Execute(st, data);
    ExecuteStaysInside(st, data);
    var rest := data[e.at..];
    !e.exit.Returned? || (AssertionsHold(e, |data|)
               && (HasError(e.st) || |rest| == size || Finished(e.st) || NoCallAborts(e.st, rest, r.source, size)))
  }

  /** `recvRequest` makes no call that fails them: it stops at the first request a parser finishes. */
  lemma {:induction false} RecvRequestDoesNotAbort(st: Parser, carry: Data, s: Source, size: nat)
    requires |carry| <= size && st.bodyStart == 0 && st.cs < FIRST_FINAL
    ensures NoCallAborts(st, carry, s, size)
    decreases |s.plan|
  {
    hide Execute, Receive;
    var r := Receive(s, size - |carry|);
    if r.ret > 0 {
      var data := carry + r.data;
      var e := Execute(st, data);
      ExecuteStaysInside(st, data);
      AssertionsHoldAtFirst(st, data);
      if e.exit.Returned? && !HasError(e.st) && |data[e.at..]| != size && !Finished(e.st) {
        RecvRequestDoesNotAbort(e.st, data[e.at..], r.source, size);
      }
    }
  }

  /** Some call of the loop goes on with a query that ends in it below the offset at which it started. */
  predicate SomeReadRaises(st: Parser, carry: Data, s: Source, size: nat)
    requires |carry| <= size
    decreases |s.plan|
  {
    var r := Receive(s, size - |carry|);
    r.ret > 0 &&
    var data := carry + r.data;
    var e := Execute(st, data);
    ExecuteStaysInside(st, data);
    var rest := data[e.at..];
    QueryEndsEarly(st, data)
    || (e.exit.Returned? && !HasError(e.st) && |rest| != size && !Finished(e.st) && SomeReadRaises(e.st, rest, r.source, size))
  }

  lemma {:induction false} HeadRaisesIff(st: Parser, carry: Data, s: Source, size: nat)
    requires |carry| <= size
    ensures ReceiveHead(st, carry, s, size).head == NoHead(Raised) <==> SomeReadRaises(st, carry, s, size)
    decreases |s.plan|
  {
    hide Execute, Receive, QueryEndsEarly;
    var r := Receive(s, size - |carry|);
    if r.ret > 0 {
      var data := carry + r.data;
      var e := Execute(st, data);
      ExecuteStaysInside(st, data);
      ThrowsIff(st, data);
      if e.exit.Returned? && !HasError(e.st) && |data[e.at..]| != size && !Finished(e.st) {
        HeadRaisesIff(e.st, data[e.at..], r.source, size);
      }
    }
  }

  /** `recvRequest` ends with the exception of the query callback if and only if one of its reads brings the
      end of a query at an offset below the one at which the query started in an earlier read. */
  lemma RecvRequestRaisesIff(s: Source, size: nat, relaxed: bool, queryStart: nat, cast: Data -> nat)
    ensures ReceiveRequest(s, size, relaxed, queryStart, cast).outcome.Raised? <==>
            SomeReadRaises(Fresh(relaxed, queryStart), [], s, size)
  {
    hide ReceiveHead;
    HeadRaisesIff(Fresh(relaxed, queryStart), [], s, size);
  }

  const CUT_HEAD: Data := [71, 69, 84, 32, 47, 63, 97, 98, 99]
  const CUT_TAIL: Data := [100, 32, 72, 84, 84, 80, 47, 49, 46, 49, 10, 10]

  /** For one: `GET /?abc`, then `d HTTP/1.1` and the line ends, a well-formed message in two reads. */
  lemma CutQueryRaises(relaxed: bool, queryStart: nat, cast: Data -> nat)
    ensures exists m :: WellFormed(m, relaxed) && MessageText(m) == CUT_HEAD + CUT_TAIL
    ensures ReceiveRequest(Source(CUT_HEAD + CUT_TAIL, [9, 12]), BUFFER_SIZE, relaxed, queryStart, cast).outcome.Raised?
  {
    hide ReceiveHead, Run, CharsToMethod, WellFormed, MessageText, SomeReadRaises, QueryEndsEarly, Execute;
    var s := Source(CUT_HEAD + CUT_TAIL, [9, 12]);
    var m := CutMessage(relaxed);
    var st := Fresh(relaxed, queryStart);
    FirstHalfOfQuery(st, CUT_HEAD);
    TailRaises(Execute(st, CUT_HEAD).st);
    assert Receive(s, BUFFER_SIZE) == Reading(9, CUT_HEAD, Source(CUT_TAIL, [12]));
    GoesOnToRaise(st, s, BUFFER_SIZE);
    RecvRequestRaisesIff(s, BUFFER_SIZE, relaxed, queryStart, cast);
  }

  lemma GoesOnToRaise(st: Parser, s: Source, size: nat)
    requires var r := Receive(s, size);
      var e := Execute(st, r.data);
      && r.ret > 0 && e.exit.Returned? && e.at == |r.data| && |r.data| > 0 && !HasError(e.st) && !Finished(e.st)
      && size > 0 && SomeReadRaises(e.st, [], r.source, size)
    ensures SomeReadRaises(st, [], s, size)
  {
    hide Execute, QueryEndsEarly, Receive;
    var data := Receive(s, size).data;
    assert [] + data == data && data[|data|..] == [];
  }

  lemma TailRaises(st: Parser)
    requires st.cs == 30 && st.queryStart == 6
    ensures SomeReadRaises(st, [], Source(CUT_TAIL, [12]), BUFFER_SIZE)
  {
    hide Execute, QueryEndsEarly, Receive;
    TailIsRead();
    assert [] + CUT_TAIL == CUT_TAIL;
    TailEndsEarly(st);
  }

  lemma TailIsRead()
    ensures Receive(Source(CUT_TAIL, [12]), BUFFER_SIZE) == Reading(12, CUT_TAIL, Source([], []))
  {
  }

  lemma TailEndsEarly(st: Parser)
    requires st.cs == 30 && st.queryStart == 6
    ensures QueryEndsEarly(st, CUT_TAIL)
  {
    QueryLetters(st.relaxed);
    hide UriText;
    assert CUT_TAIL[..1] == [100];
    assert QueryEndsAt(st, CUT_TAIL, 1);
  }

  lemma CutMessage(relaxed: bool) returns (m: Message)
    ensures WellFormed(m, relaxed) && MessageText(m) == CUT_HEAD + CUT_TAIL
  {
    m := Message([71, 69, 84], [47], Some([97, 98, 99, 100]), None, 49, Lf, [], Lf);
    CutMessageText(m);
    QueryLetters(relaxed);
    SlashIsPath(relaxed);
    assert WellFormedVerb(m.verb);
    hide UriText, WellFormedPath, WellFormedVerb, MessageText, WellFormedLine;
    assert UriText(m.query.value, false, relaxed);
  }

  lemma CutMessageText(m: Message)
    requires m == Message([71, 69, 84], [47], Some([97, 98, 99, 100]), None, 49, Lf, [], Lf)
    ensures MessageText(m) == CUT_HEAD + CUT_TAIL
  {
    assert TargetText(m) == [47, 63, 97, 98, 99, 100];
    assert AfterTarget(m) == [72, 84, 84, 80, 47, 49, 46, 49, 10, 10];
    hide TargetText, AfterTarget;
  }

  lemma SlashIsPath(relaxed: bool)
    ensures WellFormedPath([47], relaxed)
  {
  }

  lemma QueryLetters(relaxed: bool)
    ensures UriText([100], false, relaxed) && UriText([97, 98, 99], false, relaxed) && UriText([97, 98, 99, 100], false, relaxed)
  {
    var t: Data := [97, 98, 99, 100];
    assert t[1..] == [98, 99, 100] && t[1..][1..] == [99, 100] && t[1..][1..][1..] == [100] && t[1..][1..][1..][1..] == [];
    var u: Data := [97, 98, 99];
    assert u[1..] == [98, 99] && u[1..][1..] == [99] && u[1..][1..][1..] == [];
  }

  lemma LetterGoesOn(relaxed: bool)
    ensures Next(30, Signed(97), relaxed) == Edge(Nothing, Nothing, Nothing, 30)
  {
  }

  lemma FirstHalfOfQuery(st: Parser, a: Data)
    requires st.cs == START && a == [71, 69, 84, 32, 47, 63, 97, 98, 99]
    ensures var r := Execute(st, a);
      r.exit.Returned? && r.at == 9 && r.st.cs == 30 && r.st.queryStart == 6 && r.st.relaxed == st.relaxed && r.st.error == st.error
  {
    hide Run, CharsToMethod, Next, UriText, WellFormedPath;
    GetIsKnown();
    var verb: Data := [71, 69, 84];
    assert a == verb + ([32] + a[4..]);
    VerbPart(Unmarked(st), a, verb, a[4..]);
    var s3 := AfterMethod(Unmarked(st).(mark := 0), verb);
    assert a[4..5] == [47];
    assert a[5] == 63 && s3.relaxed == st.relaxed && s3.cs == 3;
    SlashIsPath(st.relaxed);
    assert WellFormedPath(a[4..5], s3.relaxed);
    PathRuns(s3, a, 4, 5);
    var s29 := WithPath(s3, a, 4, 5);
    QueryLetters(st.relaxed);
    assert a[6..9] == [97, 98, 99];
    assert a[6] == 97;
    LetterGoesOn(st.relaxed);
    EnterQuery(s29, a, 6);
    UriRuns(s29.(queryStart := 6, cs := 30), a, 6, 9, QueryLoop);
    RunAtEnd(s29.(queryStart := 6, cs := 30), a);
  }

  /** A finished parser must not be called again with less input than the request had: the body start is
      never put back, and unless the new input finishes a request, too, an assertion fails. */
  lemma SecondCallAborts(relaxed: bool, queryStart: nat, m: Message, next: Data)
    requires WellFormed(m, relaxed) && 0 < |next| < |MessageText(m)|
    ensures var r := Execute(Execute(Fresh(relaxed, queryStart), MessageText(m)).st, next);
      r.exit.Returned? ==> (AssertionsHold(r, |next|) <==> r.st.cs == FIRST_FINAL)
  {
    hide Run, WellFormed, MessageText, Meaning, CharsToMethod;
    MessageIsAccepted(relaxed, queryStart, m, []);
    assert MessageText(m) + [] == MessageText(m);
    var st0 := Fresh(relaxed, queryStart);
    RunNotesTheEnd(Unmarked(st0), MessageText(m), 0);
    ClosingAssertionsHoldIff(Execute(st0, MessageText(m)).st, next);
  }

  /** `GET / HTTP/1.1` and two line feeds. */
  const SHORT := Message([71, 69, 84], [47], None, None, 49, Lf, [], Lf)

  lemma ShortMessage(relaxed: bool)
    ensures WellFormed(SHORT, relaxed) && |MessageText(SHORT)| == 16
    ensures Meaning(SHORT).headers == [] && Meaning(SHORT).body == [] && CharsToMethod(SHORT.verb) != INVALID
  {
    SlashIsPath(relaxed);
    GetIsKnown();
    hide CharsToMethod, WellFormedPath;
  }

  /** For one: a request of 16 bytes, then a call with the single byte NUL. */
  lemma OneByteAborts(relaxed: bool, queryStart: nat)
    ensures var st := Execute(Fresh(relaxed, queryStart), MessageText(SHORT)).st;
      && WellFormed(SHORT, relaxed) && |MessageText(SHORT)| == 16
      && Execute(st, [0]).exit.Returned? && !AssertionsHold(Execute(st, [0]), 1)
  {
    ShortMessage(relaxed);
    hide Run, CharsToMethod, MessageText, WellFormed, Meaning;
    MessageIsAccepted(relaxed, queryStart, SHORT, []);
    assert MessageText(SHORT) + [] == MessageText(SHORT);
    SecondCallAborts(relaxed, queryStart, SHORT, [0]);
    NulIsRejected(Execute(Fresh(relaxed, queryStart), MessageText(SHORT)).st);
  }

  lemma NulIsRejected(st: Parser)
    requires st.cs == FIRST_FINAL
    ensures var r := Execute(st, [0]); r.exit.Returned? && r.st.cs == ERROR
  {
  }

  /** `uint64_t` assigned to `int64_t`. */
  function AsInt64(n: nat): int {
    var m := n % 0x1_0000_0000_0000_0000;
    if m < 0x8000_0000_0000_0000 then m else m - 0x1_0000_0000_0000_0000
  }

  /** `getHeaderAs<uint64_t>("content-length", 0)`, for the conversion `cast` of a text to a number,
      which yields 0 for a text that is none. */
  function ContentLength(r: Request, cast: Data -> nat): int {
    var v := Get(r.headers, CONTENT_LENGTH);
    AsInt64(if v.Absent? then 0 else cast(v.value))
  }

  /** A keep-alive header is the only thing that turns the close flag off. */
  function WithClose(r: Request): Request {
    var v := Get(r.headers, CONNECTION);
    var text := if v.Absent? then [] else v.value;
    if Key(text) == Key(Text("keep-alive")) then r.(close := false) else r
  }

  datatype BodyReading = BodyReading(outcome: Outcome, source: Source)

  function ReceiveBody(r: Request, rest: Data, s: Source, cast: Data -> nat): BodyReading {
    var length := ContentLength(r, cast);
    if length <= 0 then BodyReading(Received(WithClose(r)), s)
    else if length <= |rest| then BodyReading(Received(WithClose(r.(body := rest[..length]))), s)
    else
      var g := Gather(s, length - |rest|);
      var ret := if |g.data| == length - |rest| then AsInt32(length - |rest|) else g.ret;
      if ret <= 0 then BodyReading(Closed, g.source)
      else BodyReading(Received(WithClose(r.(body := rest + g.data))), g.source)
  }

  function ReceiveRequest(s: Source, size: nat, relaxed: bool, queryStart: nat, cast: Data -> nat): BodyReading {
    var h := ReceiveHead(Fresh(relaxed, queryStart), [], s, size);
    match h.head
    case NoHead(why) => BodyReading(why, h.source)
    case Head(r, rest) => ReceiveBody(r, rest, h.source, cast)
  }

  const BUFFER_SIZE := 4096

  class Session {
    const connection: Connection
    const cast: Data -> nat
    const relaxed: bool
    const queryStart: nat

    constructor (connection: Connection, cast: Data -> nat, relaxed: bool, queryStart: nat)
      ensures this.connection == connection && this.cast == cast
      ensures this.relaxed == relaxed && this.queryStart == queryStart
    {
      this.connection, this.cast, this.relaxed, this.queryStart := connection, cast, relaxed, queryStart;
    }

    /** `read(data + offset, buff_size - offset)`. */
    method ReadBehind(buffer: array<byte>, offset: nat) returns (len: int, ghost part: Data)
      requires offset <= buffer.Length
      modifies connection`source, buffer
      ensures Receive(old(connection.source), buffer.Length - offset) == Reading(len, part, connection.source)
      ensures len > 0 ==> offset + len <= buffer.Length && buffer[..offset + len] == old(buffer[..offset]) + part
    {
      var ret, bytes := connection.Read(buffer.Length - offset);
      len, part := ret, bytes;
      if ret > 0 {
        forall k | 0 <= k < ret {
          buffer[offset + k] := bytes[k];
        }
      }
    }

    /** One round of the header loop over the buffer of the session. */
    method Round(parser: RequestParser, buffer: array<byte>, offset: nat) returns (out: bool, head: Head, next: nat)
      requires offset <= buffer.Length && parser.bodyStart == 0 && parser.cs < FIRST_FINAL
      modifies connection`source, parser, buffer
      ensures !out ==> parser.bodyStart == 0 && parser.cs < FIRST_FINAL
      ensures next <= buffer.Length
      ensures out ==> ReceiveHead(old(parser.View()), old(buffer[..offset]), old(connection.source), buffer.Length) ==
                      HeadReading(head, connection.source)
      ensures out && head.Head? ==> head.rest == buffer[..next]
      ensures !out ==> |connection.source.plan| < |old(connection.source.plan)|
      ensures !out ==>
        ReceiveHead(old(parser.View()), old(buffer[..offset]), old(connection.source), buffer.Length) ==
           ReceiveHead(parser.View(), buffer[..next], connection.source, buffer.Length)
    {
      ghost var st, carry, source := parser.View(), buffer[..offset], connection.source;
      var len, part := ReadBehind(buffer, offset);
      if len <= 0 {
        return true, NoHead(Closed), 0;
      }
      var n, ok := parser.ExecuteInPlace(buffer, offset + len);
      ghost var e := Execute(st, carry + part);
      AssertionsHoldAtFirst(st, carry + part);
      assert parser.exit.Returned? ==> ok;
      next := offset + len - n;
      assert (carry + part)[e.at..] == buffer[..next];
      if parser.exit.Left? {
        return true, NoHead(Outside), next;
      }
      if parser.exit.Threw? {
        return true, NoHead(Raised), next;
      }
      if parser.error || parser.cs == ERROR || next == buffer.Length {
        return true, NoHead(Closed), next;
      }
      if parser.cs >= FIRST_FINAL {
        return true, Head(parser.request, buffer[..next]), next;
      }
      return false, NoHead(Closed), next;
    }

    /** `HttpSession::recvRequest`. */
    method RecvRequest() returns (outcome: Outcome)
      modifies connection`source
      ensures BodyReading(outcome, connection.source) ==
              ReceiveRequest(old(connection.source), BUFFER_SIZE, relaxed, queryStart, cast)
    {
      var parser := new RequestParser(relaxed, queryStart);
      var buffer := new byte[BUFFER_SIZE];
      var offset := 0;
      ghost var all := ReceiveHead(parser.View(), [], connection.source, BUFFER_SIZE);
      assert buffer[..offset] == [];
      var out, head, next := Round(parser, buffer, offset);
      while !out
        invariant 0 <= next <= buffer.Length && fresh(parser) && fresh(buffer)
        invariant !out ==> parser.bodyStart == 0 && parser.cs < FIRST_FINAL
        invariant out ==> all == HeadReading(head, connection.source)
        invariant out && head.Head? ==> head.rest == buffer[..next]
        invariant !out ==> all == ReceiveHead(parser.View(), buffer[..next], connection.source, BUFFER_SIZE)
        decreases if out then 0 else 1, |connection.source.plan|
      {
        out, head, next := Round(parser, buffer, next);
      }
      offset := next;
      if head.NoHead? {
        return head.why;
      }
      outcome := FinishRequest(head.request, buffer, offset);
    }

    /** The body: what is already in the buffer, then exactly the missing bytes. */
    method FinishRequest(request: Request, buffer: array<byte>, offset: nat) returns (outcome: Outcome)
      requires offset <= buffer.Length
      modifies connection`source
      ensures BodyReading(outcome, connection.source) ==
              ReceiveBody(request, buffer[..offset], old(connection.source), cast)
    {
      hide WithClose, ContentLength, Gather, AsInt32;
      var r := request;
      var length := ContentLength(request, cast);
      if length > 0 {
        var body := buffer[..Min(length, offset)];
        assert body == buffer[..offset][..Min(length, offset)];
        assert buffer[..offset][..offset] == buffer[..offset];
        length := length - offset;
        if length > 0 {
          GatherIsExact(connection.source, length);
          var ret, part := connection.ReadFixSize(length);
          if ret <= 0 {
            return Closed;
          }
          body := body + part;
        }
        r := r.(body := body);
      }
      outcome := Received(WithClose(r));
    }
  }

  // ---------- What a session guarantees ----------

  /** The loop never carries bytes over: as long as it goes on, its next round starts at offset 0. */
  lemma NothingIsCarriedOver(st: Parser, s: Source, size: nat)
    requires st.cs != ERROR && st.cs != FIRST_FINAL
    ensures var r := Receive(s, size);
      var e := Execute(st, r.data);
      r.ret > 0 && e.exit.Returned? && !HasError(e.st) && !Finished(e.st) ==>
        e.at == |r.data| && ReceiveHead(st, [], s, size) == ReceiveHead(e.st, [], r.source, size)
  {
    hide Execute, Receive;
    var r := Receive(s, size);
    var e := Execute(st, r.data);
    assert [] + r.data == r.data;
    if r.ret > 0 && e.exit.Returned? && !HasError(e.st) && !Finished(e.st) {
      UnfinishedExecute(st, r.data);
      assert r.data[e.at..] == [];
    }
  }

  lemma UnfinishedExecute(st: Parser, data: Data)
    requires st.cs != ERROR && st.cs != FIRST_FINAL
    ensures var e := Execute(st, data);
      e.exit.Returned? && !HasError(e.st) && !Finished(e.st) ==> e.at == |data|
  {
    hide Run;
    UnfinishedConsumesAll(Unmarked(st), data, 0);
  }

  /** The reads go on until the parser stops, and end in between only where no mark is needed: between the
      parts of the request line and the header lines. */
  predicate CutsAreSafe(st: Parser, s: Source, size: nat)
    decreases |s.plan|
  {
    var r := Receive(s, size);
    r.ret > 0 && var e := Execute(st, r.data);
    Stopped(e) || (Needed(e.st.cs) == NONE && CutsAreSafe(e.st, r.source, size))
  }

  /** The head arrives: at once, or cut in safe places. */
  predicate HeadArrives(s: Source, relaxed: bool, queryStart: nat) {
    CutsAreSafe(Fresh(relaxed, queryStart), s, BUFFER_SIZE)
  }

  /** Receiving the head in pieces is parsing, in one call, as much of the input as was read. */
  lemma {:induction false} HeadInPieces(st: Parser, s: Source, size: nat) returns (all: Data, rest: Data, tail: Source)
    requires CutsAreSafe(st, s, size) && st.cs != ERROR && st.cs < FIRST_FINAL && Needed(st.cs) == NONE
    ensures all <= s.input
    ensures var e := Execute(st, all);
      && Stopped(e)
      && (e.st.cs == FIRST_FINAL && e.exit.Returned? && !e.st.error ==>
            && ReceiveHead(st, [], s, size) == HeadReading(Head(e.st.request, rest), tail)
            && 0 <= e.at <= |s.input| && rest + tail.input == s.input[e.at..])
    decreases |s.plan|
  {
    hide Execute, Receive, Needed;
    var r := Receive(s, size);
    var e := Execute(st, r.data);
    ExecuteStaysInside(st, r.data);
    assert [] + r.data == r.data;
    if Stopped(e) {
      all, rest, tail := r.data, r.data[e.at..], r.source;
      if e.st.cs == FIRST_FINAL && e.exit.Returned? && !e.st.error {
        FinishedHead(st, s, size);
      }
      assert s.input[e.at..] == rest + tail.input;
    } else {
      StoppedOrAll(st, r.data);
      StoppedOrBelow(st, r.data);
      var later: Data;
      later, rest, tail := HeadInPieces(e.st, r.source, size);
      all := r.data + later;
      TwoPieces(st, r.data, later);
      ExecuteStaysInside(e.st, later);
      if !e.st.error {
        NothingIsCarriedOver(st, s, size);
      }
      assert s.input[|r.data|..] == r.source.input;
      assert all <= s.input;
    }
  }

  lemma FinishedHead(st: Parser, s: Source, size: nat)
    requires st.cs != FIRST_FINAL && Receive(s, size).ret > 0
    requires var e := Execute(st, Receive(s, size).data); e.st.cs == FIRST_FINAL && e.exit.Returned? && !e.st.error
    ensures var r := Receive(s, size);
      var e := Execute(st, r.data);
      0 <= e.at <= |r.data| && ReceiveHead(st, [], s, size) == HeadReading(Head(e.st.request, r.data[e.at..]), r.source)
  {
    hide Execute, Receive;
    var r := Receive(s, size);
    assert [] + r.data == r.data;
    ExecuteStaysInside(st, r.data);
    FinishingConsumes(st, r.data);
  }

  lemma StoppedOrBelow(st: Parser, data: Data)
    requires st.cs < FIRST_FINAL
    ensures !Stopped(Execute(st, data)) ==> Execute(st, data).st.cs < FIRST_FINAL
  {
    hide Run;
    RunStaysBelow(Unmarked(st), data, 0);
  }

  lemma StoppedOrAll(st: Parser, data: Data)
    requires st.cs != ERROR && st.cs != FIRST_FINAL
    ensures !Stopped(Execute(st, data)) ==> Execute(st, data).at == |data|
  {
    hide Run;
    UnfinishedConsumesAll(Unmarked(st), data, 0);
  }

  /** Two calls with a safe cut between them are one. */
  lemma TwoPieces(st: Parser, a: Data, b: Data)
    requires st.cs != ERROR && st.cs != FIRST_FINAL && Needed(st.cs) == NONE
    requires var e := Execute(st, a); !Stopped(e) && Needed(e.st.cs) == NONE && e.at == |a|
    ensures Agree(Execute(st, a + b), Execute(Execute(st, a).st, b), |a|)
    ensures Execute(st, a).st.error ==> Execute(Execute(st, a).st, b).st.error
    ensures Execute(Execute(st, a).st, b).at <= |b|
  {
    hide Run, Needed;
    var e := Execute(st, a);
    FeedTwo(st, a, b);
    PairIsSafe(st, a, b);
    SafeCutsDoNotMatter(st, [a, b]);
    ExecuteStaysInside(e.st, b);
    ExecuteKeepsError(e.st, b);
  }

  lemma ExecuteKeepsError(st: Parser, b: Data)
    ensures st.error ==> Execute(st, b).st.error
  {
    hide Run;
    if st.error && b != [] {
      RunKeepsError(Unmarked(st), b, 0);
    }
  }

  lemma HeadOfMessage(s: Source, relaxed: bool, queryStart: nat, m: Message, content: Data) returns (rest: Data, tail: Source)
    requires WellFormed(m, relaxed) && CharsToMethod(m.verb) != INVALID
    requires s.input == MessageText(m) + content && HeadArrives(s, relaxed, queryStart)
    ensures ReceiveHead(Fresh(relaxed, queryStart), [], s, BUFFER_SIZE) == HeadReading(Head(Meaning(m), rest), tail)
    ensures rest + tail.input == content
    ensures |MessageText(m)| > 0
  {
    hide Run, WellFormed, MessageText, Meaning, CharsToMethod, Needed;
    MessageIsNotEmpty(m);
    var st := Fresh(relaxed, queryStart);
    FreshNeedsNothing(relaxed, queryStart);
    var all;
    all, rest, tail := HeadInPieces(st, s, BUFFER_SIZE);
    MessageIsAccepted(relaxed, queryStart, m, content);
    StoppedOnPrefix(st, all, s.input);
    assert s.input[|MessageText(m)|..] == content;
  }

  lemma FreshNeedsNothing(relaxed: bool, queryStart: nat)
    ensures var st := Fresh(relaxed, queryStart); st.cs != ERROR && st.cs < FIRST_FINAL && Needed(st.cs) == NONE
  {
  }

  /** A call that stops on the beginning of an input stops in the same way on all of it. */
  lemma StoppedOnPrefix(st: Parser, all: Data, input: Data)
    requires all <= input && st.cs != ERROR && st.cs != FIRST_FINAL && Needed(st.cs) == NONE && Stopped(Execute(st, all))
    ensures Agree(Execute(st, input), Execute(st, all), 0)
  {
    hide Run, Needed;
    assert all != [];
    assert LiesAt(input, 0, all);
    var next := RunTied(Unmarked(st), Unmarked(st), input, 0, all, 0);
  }

  /** A head that comes with the first read arrives. */
  lemma OneReadIsSafe(s: Source, relaxed: bool, queryStart: nat, m: Message, content: Data)
    requires WellFormed(m, relaxed) && s.input == MessageText(m) + content
    requires s.plan != [] && |MessageText(m)| <= s.plan[0] && |MessageText(m)| <= BUFFER_SIZE
    ensures HeadArrives(s, relaxed, queryStart)
  {
    hide Run, WellFormed, MessageText, Meaning, CharsToMethod, Execute, Receive, CutsAreSafe, Needed;
    MessageIsNotEmpty(m);
    FirstRead(s, |MessageText(m)|);
    var data := Receive(s, BUFFER_SIZE).data;
    var rest := data[|MessageText(m)|..];
    assert data == MessageText(m) + rest;
    MessageIsAccepted(relaxed, queryStart, m, rest);
    StopsAtOnce(Fresh(relaxed, queryStart), s, BUFFER_SIZE);
  }

  lemma FirstRead(s: Source, n: nat)
    requires 0 < n && s.plan != [] && n <= s.plan[0] && n <= BUFFER_SIZE && n <= |s.input|
    ensures var r := Receive(s, BUFFER_SIZE);
      r.ret > 0 && n <= |r.data| <= |s.input| && r.data == s.input[..|r.data|]
  {
  }

  lemma StopsAtOnce(st: Parser, s: Source, size: nat)
    requires Receive(s, size).ret > 0 && Stopped(Execute(st, Receive(s, size).data))
    ensures CutsAreSafe(st, s, size)
  {
    hide Execute, Receive;
  }

  lemma MessageIsNotEmpty(m: Message)
    ensures |MessageText(m)| > 0
  {
  }

  /** Reading `n` more bytes fails: the transport gave up, or `n` does not fit the `int` result. */
  predicate TransferFails(s: Source, n: nat) {
    |Gather(s, n).data| < n || AsInt32(n) <= 0
  }

  lemma BodyIsPrefix(r: Request, rest: Data, tail: Source, cast: Data -> nat, content: Data)
    requires rest + tail.input == content
    ensures var o, length := ReceiveBody(r, rest, tail, cast).outcome, ContentLength(r, cast);
      && (length <= 0 ==> o == Received(WithClose(r)))
      && (length > 0 ==> if length > |rest| && TransferFails(tail, length - |rest|) then o == Closed
                         else length <= |content| && o == Received(WithClose(r.(body := content[..length]))))
    ensures var b, used := ReceiveBody(r, rest, tail, cast), Max(ContentLength(r, cast), |rest|);
      b.outcome.Received? ==> used <= |content| && b.source.input == content[used..]
  {
    hide WithClose, ContentLength, Gather, AsInt32;
    var length := ContentLength(r, cast);
    if length > |rest| {
      var left := length - |rest|;
      GatherIsExact(tail, left);
      var g := Gather(tail, left);
      assert content == rest + (g.data + g.source.input);
      if |g.data| == left {
        assert content[..length] == rest + tail.input[..left];
        assert content[length..] == g.source.input;
      }
    } else {
      assert content[|rest|..] == tail.input;
      if length > 0 {
        assert rest[..length] == content[..length];
      }
    }
  }

  /** Framing: when the head arrives, at once or cut in safe places, the body is exactly the first Content-Length bytes
      behind the empty line, however the transport cuts the rest; a request without a positive length has
      no body; and the only other outcome is that fetching the missing bytes failed. The connection goes on
      behind the body or behind what came with the head, whichever is longer. */
  lemma BodyFraming(s: Source, relaxed: bool, queryStart: nat, cast: Data -> nat, m: Message, content: Data)
    returns (rest: Data, tail: Source)
    requires WellFormed(m, relaxed) && CharsToMethod(m.verb) != INVALID
    requires s.input == MessageText(m) + content && HeadArrives(s, relaxed, queryStart)
    ensures ReceiveHead(Fresh(relaxed, queryStart), [], s, BUFFER_SIZE) == HeadReading(Head(Meaning(m), rest), tail)
    ensures rest + tail.input == content
    ensures var o, length := ReceiveRequest(s, BUFFER_SIZE, relaxed, queryStart, cast).outcome, ContentLength(Meaning(m), cast);
      && (length <= 0 ==> o == Received(WithClose(Meaning(m))))
      && (length > 0 ==> if length > |rest| && TransferFails(tail, length - |rest|) then o == Closed
                         else length <= |content| && o == Received(WithClose(Meaning(m).(body := content[..length]))))
    ensures var b := ReceiveRequest(s, BUFFER_SIZE, relaxed, queryStart, cast);
      var used := Max(ContentLength(Meaning(m), cast), |rest|);
      b.outcome.Received? ==> used <= |content| && b.source.input == content[used..]
  {
    hide WellFormed, MessageText, Meaning, CharsToMethod, ReceiveHead, ReceiveBody, ContentLength, WithClose,
         TransferFails, HeadArrives;
    rest, tail := HeadOfMessage(s, relaxed, queryStart, m, content);
    BodyIsPrefix(Meaning(m), rest, tail, cast, content);
  }

  /** So bytes behind the body are lost, neither in the request nor left on the connection, if and only if
      more came with the head than the body. */
  lemma BytesAreLostIff(s: Source, relaxed: bool, queryStart: nat, cast: Data -> nat, m: Message, content: Data)
    returns (rest: Data, tail: Source)
    requires WellFormed(m, relaxed) && CharsToMethod(m.verb) != INVALID
    requires s.input == MessageText(m) + content && HeadArrives(s, relaxed, queryStart)
    ensures ReceiveHead(Fresh(relaxed, queryStart), [], s, BUFFER_SIZE) == HeadReading(Head(Meaning(m), rest), tail)
    ensures rest + tail.input == content
    ensures var b := ReceiveRequest(s, BUFFER_SIZE, relaxed, queryStart, cast);
      b.outcome.Received? ==> (b.outcome.request.body + b.source.input != content <==> |rest| > |b.outcome.request.body|)
  {
    hide WellFormed, MessageText, CharsToMethod, ReceiveHead, ReceiveRequest, ContentLength, TransferFails, HeadArrives, WithClose, Meaning;
    rest, tail := BodyFraming(s, relaxed, queryStart, cast, m, content);
    var b := ReceiveRequest(s, BUFFER_SIZE, relaxed, queryStart, cast);
    var length := ContentLength(Meaning(m), cast);
    MeaningHasNoBody(m);
    WithCloseKeepsBody(Meaning(m));
    if b.outcome.Received? {
      var body := if length > 0 then content[..length] else [];
      WithCloseKeepsBody(Meaning(m).(body := body));
      assert b.outcome.request.body == body;
    }
  }

  /** For one: a request of 16 bytes and one byte more in the same read, which is in neither. */
  lemma ByteIsLost(relaxed: bool, queryStart: nat, cast: Data -> nat)
    ensures var b := ReceiveRequest(Source(MessageText(SHORT) + [65], [17]), BUFFER_SIZE, relaxed, queryStart, cast);
      WellFormed(SHORT, relaxed) && b.outcome.Received? && b.outcome.request.body == [] && b.source.input == []
  {
    ShortMessage(relaxed);
    hide ReceiveHead, Run, Execute, WellFormed, MessageText, Meaning, CharsToMethod, WithClose;
    var s := Source(MessageText(SHORT) + [65], [17]);
    var st := Fresh(relaxed, queryStart);
    assert Receive(s, BUFFER_SIZE) == Reading(17, s.input, Source([], []));
    MessageIsAccepted(relaxed, queryStart, SHORT, [65]);
    FinishedHead(st, s, BUFFER_SIZE);
    WithCloseKeepsBody(Meaning(SHORT));
  }

  lemma MeaningHasNoBody(m: Message)
    ensures Meaning(m).body == []
  {
  }

  lemma WithCloseKeepsBody(r: Request)
    ensures WithClose(r).body == r.body
  {
  }

  /** The conversion behind `getHeaderAs` undoes the decimal printing of a 64-bit length. */
  ghost predicate ReadsDecimals(cast: Data -> nat) {
    forall n: nat | n < 0x1_0000_0000_0000_0000 :: cast(Decimal(n)) == n
  }

  /** There is such a conversion: the usual one. */
  lemma DecimalsCanBeRead()
    ensures ReadsDecimals((d: Data) => if Digits(d) then DigitsValue(d) else 0)
  {
    forall n: nat | n < 0x1_0000_0000_0000_0000
      ensures Digits(Decimal(n)) && DigitsValue(Decimal(n)) == n
    {
      DecimalValue(n);
    }
  }

  lemma CloseFlagComesBack(close: bool)
    ensures Key(ConnectionValue(close)) == Key(Text("keep-alive")) <==> !close
  {
    assert Text("close") == [99, 108, 111, 115, 101];
    assert Text("keep-alive") == [107, 101, 101, 112, 45, 97, 108, 105, 118, 101];
    hide Key;
    KeysOfDifferentLength(Text("close"), Text("keep-alive"));
  }

  /** What the parser announces as the length of a printed request. */
  lemma AnnouncedLength(r: Request, cast: Data -> nat)
    requires Sorted(r.headers) && ReadsDecimals(cast) && |r.body| < 0x8000_0000_0000_0000
    ensures ContentLength(Meaning(MessageOf(r)), cast) == if r.body == [] then ContentLength(r, cast) else |r.body|
  {
    hide Get, PrintedFields, CharsToMethod, Sorted, SetLines, Key;
    HeadersComeBack(r, CONTENT_LENGTH);
    LiteralKeysDiffer();
  }

  lemma AnnouncedClose(r: Request, body: Data)
    requires Sorted(r.headers)
    ensures WithClose(Meaning(MessageOf(r)).(body := body)) == Meaning(MessageOf(r)).(body := body, close := r.close)
    ensures WithClose(Meaning(MessageOf(r))) == Meaning(MessageOf(r)).(close := r.close)
  {
    hide Get, PrintedFields, CharsToMethod, Sorted, SetLines, Key, Text;
    HeadersComeBack(r, CONNECTION);
    LiteralKeysDiffer();
    CloseFlagComesBack(r.close);
  }

  /** End to end: a printed request sent over any connection on which the head arrives, at once or cut in
      safe places, is either received with the same method, target, version, close flag, body and headers, or
      the session closes, and the latter exactly if fetching what of the body did not come with the head
      fails. A request printed without a body must not announce one. */
  lemma SentRequestIsReceived(s: Source, relaxed: bool, queryStart: nat, cast: Data -> nat, r: Request, more: Data, name: Data)
    returns (rest: Data, tail: Source)
    requires Printable(r, relaxed) && ReadsDecimals(cast) && |r.body| < 0x8000_0000_0000_0000
    requires r.body == [] ==> ContentLength(r, cast) <= 0
    requires s.input == PrintedHead(r) + (r.body + more) && HeadArrives(s, relaxed, queryStart)
    ensures ReceiveHead(Fresh(relaxed, queryStart), [], s, BUFFER_SIZE) == HeadReading(Head(Meaning(MessageOf(r)), rest), tail)
    ensures rest + tail.input == r.body + more
    ensures var o := ReceiveRequest(s, BUFFER_SIZE, relaxed, queryStart, cast).outcome;
      && !o.Outside? && !o.Raised?
      && (o.Received? <==> |r.body| <= |rest| || !TransferFails(tail, |r.body| - |rest|))
      && (o.Received? ==>
            && o.request.verb == r.verb && o.request.version == r.version && o.request.close == r.close
            && o.request.path == r.path && o.request.query == r.query && o.request.fragment == r.fragment
            && o.request.body == r.body && Get(o.request.headers, name) == Expected(r, name))
  {
    hide WellFormed, MessageText, CharsToMethod, HeadArrives, PrintedHead, ReceiveHead, ReceiveRequest, PrintedFields, UriText,
         WellFormedPath, Key, Get, Text, TransferFails, ContentLength, WithClose, ReadsDecimals, Expected, Sorted, PrintableField;
    var m := MessageOf(r);
    PrintedIsMessage(r);
    PrintedIsWellFormed(r, relaxed);
    NameIsVerb(r.verb);
    HeadersComeBack(r, name);
    AnnouncedLength(r, cast);
    AnnouncedClose(r, r.body);
    rest, tail := BodyFraming(s, relaxed, queryStart, cast, m, r.body + more);
    assert (r.body + more)[..|r.body|] == r.body;
  }

  /** For one, the request every request object starts as, sent in one piece, is received. */
  lemma NewRequestIsReceived(relaxed: bool, queryStart: nat)
    ensures var cast := (d: Data) => if Digits(d) then DigitsValue(d) else 0;
      var s := Source(PrintedHead(NEW_REQUEST), [BUFFER_SIZE]);
      ReceiveRequest(s, BUFFER_SIZE, relaxed, queryStart, cast).outcome.Received?
  {
    var r := NEW_REQUEST;
    var cast := (d: Data) => if Digits(d) then DigitsValue(d) else 0;
    var s := Source(PrintedHead(r), [BUFFER_SIZE]);
    DecimalsCanBeRead();
    NewRequestIsShort(relaxed);
    NothingAnnounced(cast);
    hide PrintedHead, ReceiveRequest, ContentLength, Printable, ReadsDecimals, Text, MessageText, WellFormed, MessageOf,
         TransferFails, Expected, Get, ReceiveHead;
    assert s.input == PrintedHead(r) + (r.body + []);
    PrintedIsMessage(r);
    PrintedIsWellFormed(r, relaxed);
    OneReadIsSafe(s, relaxed, queryStart, MessageOf(r), []);
    hide HeadArrives;
    var rest, tail := SentRequestIsReceived(s, relaxed, queryStart, cast, r, [], []);
  }

  lemma NothingAnnounced(cast: Data -> nat)
    ensures ContentLength(NEW_REQUEST, cast) == 0
  {
  }

  lemma NewRequestIsShort(relaxed: bool)
    ensures Printable(NEW_REQUEST, relaxed) && |PrintedHead(NEW_REQUEST)| <= BUFFER_SIZE
  {
    assert Text("/") == [47];
    assert OtherFields([]) == [];
    assert PrintedFields(NEW_REQUEST) == [Field(CONNECTION, ConnectionValue(true))];
    var fs := PrintedFields(NEW_REQUEST);
    assert fs[1..] == [];
    assert FieldLines(fs) == FieldLine(fs[0]) + FieldLines([]);
    hide Text;
  }
}
