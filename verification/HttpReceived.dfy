/** What a received request tells of its header lines, and which messages are refused. */
module HttpReceived {
  import opened Wrappers
  import opened Bytes
  import opened HttpRequest
  import opened HttpTable
  import opened HttpParser
  import opened HttpGrammar
  import opened HttpSession
  import opened Streams

  // ---------- What the header lines say ----------

  /** `connection`, `keep-alive` and `content-length`. */
  const CONNECTION_NAME: Data := [99, 111, 110, 110, 101, 99, 116, 105, 111, 110]
  const KEEP_ALIVE: Data := [107, 101, 101, 112, 45, 97, 108, 105, 118, 101]
  const LENGTH_NAME: Data := [99, 111, 110, 116, 101, 110, 116, 45, 108, 101, 110, 103, 116, 104]

  /** The last of the lines named `name`, in any spelling. */
  predicate LastNamed(lines: seq<Line>, name: Data, i: int) {
    && 0 <= i < |lines| && SameButCase(lines[i].name, name)
    && forall j | i < j < |lines| :: !SameButCase(lines[j].name, name)
  }

  predicate NoneNamed(lines: seq<Line>, name: Data) {
    forall i | 0 <= i < |lines| :: !SameButCase(lines[i].name, name)
  }

  predicate LinesOk(lines: seq<Line>) {
    forall i | 0 <= i < |lines| :: NulFree(lines[i].name) && NulFree(lines[i].value)
  }

  lemma {:induction false} WhereNamed(lines: seq<Line>, name: Data) returns (i: int)
    ensures LastNamed(lines, name, i) || NoneNamed(lines, name)
  {
    if lines == [] {
      i := 0;
    } else {
      i := WhereNamed(lines[1..], name);
      assert forall j | 0 < j < |lines| :: lines[j] == lines[1..][j - 1];
      i := if LastNamed(lines[1..], name, i) then i + 1 else 0;
    }
  }

  lemma {:induction false} LineIsFound(h: Headers, lines: seq<Line>, name: Data, i: int)
    requires Sorted(h) && LinesOk(lines) && NulFree(name)
    ensures NoneNamed(lines, name) ==> Get(SetLines(h, lines), name) == Get(h, name)
    ensures LastNamed(lines, name, i) ==> Get(SetLines(h, lines), name) == Found(lines[i].value)
    decreases |lines|
  {
    hide Key, Set, Get, Sorted, SameButCase, NulFree;
    if lines != [] {
      var l := lines[0];
      SetKeepsSorted(h, l.name, l.value);
      GetAfterSet(h, l.name, l.value, name);
      KeyIsCaseless(l.name, name);
      assert forall j | 0 < j < |lines| :: lines[j] == lines[1..][j - 1];
      LineIsFound(Set(h, l.name, l.value), lines[1..], name, i - 1);
      assert LastNamed(lines, name, i) ==> if i == 0 then NoneNamed(lines[1..], name) else LastNamed(lines[1..], name, i - 1);
    }
  }

  lemma MessageLinesAreOk(m: Message, relaxed: bool)
    requires WellFormed(m, relaxed)
    ensures LinesOk(m.lines)
  {
    hide WellFormedVerb, WellFormedPath, UriText;
  }

  /** The header lines ask for the connection to be kept: the last one named `connection`, in any spelling, has
      the value `keep-alive`, in any case. */
  predicate AsksToKeep(lines: seq<Line>) {
    exists i :: 0 <= i < |lines| && LastNamed(lines, CONNECTION_NAME, i)
                && SameButCase(lines[i].value, KEEP_ALIVE)
  }

  lemma CloseLiterals()
    ensures CONNECTION == CONNECTION_NAME && NulFree(CONNECTION_NAME)
    ensures Text("keep-alive") == KEEP_ALIVE && NulFree(KEEP_ALIVE)
    ensures CONTENT_LENGTH == LENGTH_NAME && NulFree(LENGTH_NAME)
  {
  }

  lemma CloseOfLines(r: Request, lines: seq<Line>)
    requires LinesOk(lines) && r.headers == SetLines([], lines)
    ensures WithClose(r).close <==> r.close && !AsksToKeep(lines)
  {
    CloseLiterals();
    var i := WhereNamed(lines, CONNECTION);
    LineIsFound([], lines, CONNECTION, i);
    KeyIsCaseless([], Text("keep-alive"));
    if LastNamed(lines, CONNECTION, i) {
      KeyIsCaseless(lines[i].value, Text("keep-alive"));
      OneLast(lines, CONNECTION, i);
    }
    hide Key, Text, SetLines, SameButCase;
  }

  lemma OneLast(lines: seq<Line>, name: Data, i: int)
    requires LastNamed(lines, name, i)
    ensures forall j :: LastNamed(lines, name, j) ==> j == i
  {
    hide SameButCase;
  }

  /** The close flag of every received request, however its head arrives: it is off if and only if its header
      lines ask for the connection to be kept. */
  lemma CloseFlagIsAsked(s: Source, relaxed: bool, queryStart: nat, cast: Data -> nat, m: Message, content: Data)
    requires WellFormed(m, relaxed) && CharsToMethod(m.verb) != INVALID
    requires s.input == MessageText(m) + content && HeadArrives(s, relaxed, queryStart)
    ensures var o := ReceiveRequest(s, BUFFER_SIZE, relaxed, queryStart, cast).outcome;
      o.Received? ==> (!o.request.close <==> AsksToKeep(m.lines))
  {
    MessageLinesAreOk(m, relaxed);
    MeaningOfLines(m);
    hide WellFormed, MessageText, CharsToMethod, ReceiveHead, ReceiveRequest, ContentLength, TransferFails, HeadArrives,
         WithClose, Meaning, AsksToKeep, SetLines;
    var rest, tail := BodyFraming(s, relaxed, queryStart, cast, m, content);
    CloseOfLines(Meaning(m), m.lines);
    var length := ContentLength(Meaning(m), cast);
    if 0 < length <= |content| {
      CloseOfLines(Meaning(m).(body := content[..length]), m.lines);
    }
  }

  lemma MeaningOfLines(m: Message)
    ensures Meaning(m).headers == SetLines([], m.lines) && Meaning(m).close
  {
    hide SetLines, CharsToMethod;
  }

  lemma ApplyKeepsClose(st: Parser, a: Action, buf: Data, p: nat)
    ensures Apply(st, a, buf, p).request.close == st.request.close
  {
    hide CharsToMethod, SameText, Set, Span;
  }

  lemma {:induction false} RunKeepsClose(st: Parser, buf: Data, p: nat)
    requires p <= |buf|
    ensures Run(st, buf, p).st.request.close == st.request.close
    decreases |buf| - p
  {
    hide Next, Apply;
    if p < |buf| && Modelled(st.cs) {
      var e := Next(st.cs, Signed(buf[p]), st.relaxed);
      ApplyKeepsClose(st, e.first, buf, p);
      ApplyKeepsClose(Apply(st, e.first, buf, p), e.second, buf, p);
      ApplyKeepsClose(Apply(Apply(st, e.first, buf, p), e.second, buf, p), e.third, buf, p);
      if e.to != ERROR && e.to != FIRST_FINAL && !Throws(st, e.first, p) {
        RunKeepsClose(Take(st, e, buf, p), buf, p + 1);
      }
    }
  }

  lemma {:induction false} HeadKeepsClose(st: Parser, carry: Data, s: Source, size: nat)
    requires |carry| <= size
    ensures var h := ReceiveHead(st, carry, s, size).head; if h.Head? then h.request.close == st.request.close else !h.why.Received?
    decreases |s.plan|
  {
    var r := Receive(s, size - |carry|);
    if r.ret > 0 {
      var data := carry + r.data;
      var e := Execute(st, data);
      ExecuteStaysInside(st, data);
      if data != [] {
        RunKeepsClose(Unmarked(st), data, 0);
      }
      assert e.st.request.close == st.request.close;
      hide Execute, Receive;
      if e.exit.Returned? && !HasError(e.st) && |data[e.at..]| != size && !Finished(e.st) {
        HeadKeepsClose(e.st, data[e.at..], r.source, size);
      }
    }
  }

  lemma {:induction false} CStringHasNoNul(s: Data)
    ensures NulFree(CString(s)) && CString(CString(s)) == CString(s)
  {
    if s != [] && s[0] != 0 {
      CStringHasNoNul(s[1..]);
    }
  }

  /** The close flag is off if and only if the header `connection` has the value `keep-alive`, in any case. */
  predicate ClosesRightly(r: Request) {
    var v := Get(r.headers, CONNECTION_NAME);
    !r.close <==> v.Found? && SameButCase(CString(v.value), KEEP_ALIVE)
  }

  /** So it is in every received request, whatever arrived and however it was cut. */
  lemma EveryCloseFlag(s: Source, relaxed: bool, queryStart: nat, cast: Data -> nat)
    ensures var o := ReceiveRequest(s, BUFFER_SIZE, relaxed, queryStart, cast).outcome;
      o.Received? ==> ClosesRightly(o.request)
  {
    HeadKeepsClose(Fresh(relaxed, queryStart), [], s, BUFFER_SIZE);
    hide ReceiveHead, ReceiveBody, ClosesRightly;
    var h := ReceiveHead(Fresh(relaxed, queryStart), [], s, BUFFER_SIZE);
    if h.head.Head? {
      BodyKeepsClose(h.head.request, h.head.rest, h.source, cast);
    }
  }

  lemma BodyKeepsClose(r: Request, rest: Data, s: Source, cast: Data -> nat)
    requires r.close
    ensures var o := ReceiveBody(r, rest, s, cast).outcome;
      o.Received? ==> ClosesRightly(o.request)
  {
    hide ContentLength, Gather, AsInt32, WithClose, ClosesRightly;
    var length := ContentLength(r, cast);
    if length <= 0 {
      CloseOfHeaders(r);
    } else if length <= |rest| {
      CloseOfHeaders(r.(body := rest[..length]));
    } else {
      CloseOfHeaders(r.(body := rest + Gather(s, length - |rest|).data));
    }
  }

  lemma CloseOfHeaders(r: Request)
    requires r.close
    ensures ClosesRightly(WithClose(r))
  {
    CloseLiterals();
    var v := Get(r.headers, CONNECTION_NAME);
    var text := if v.Absent? then [] else v.value;
    CStringHasNoNul(text);
    KeyIsCaseless(CString(text), KEEP_ALIVE);
    hide FoldAll, Get, Text, SameButCase;
    if v.Absent? {
      assert CString([]) == [];
      KeyIsCaseless([], KEEP_ALIVE);
      NothingIsNotKept();
    }
  }

  lemma NothingIsNotKept()
    ensures !SameButCase([], KEEP_ALIVE)
  {
  }

  /** The length that is announced is the value of the last line named `content-length`, read as a signed
      number of 64 bits; without such a line it is 0. */
  lemma LengthOfLines(m: Message, relaxed: bool, cast: Data -> nat) returns (i: int)
    requires WellFormed(m, relaxed)
    ensures var n := ContentLength(Meaning(m), cast);
      && (if NoneNamed(m.lines, LENGTH_NAME) then n == 0
          else LastNamed(m.lines, LENGTH_NAME, i) && (n - cast(m.lines[i].value)) % 0x1_0000_0000_0000_0000 == 0)
      && -0x8000_0000_0000_0000 <= n < 0x8000_0000_0000_0000
  {
    hide *;
    MessageLinesAreOk(m, relaxed);
    MeaningOfLines(m);
    CloseLiterals();
    i := WhereNamed(m.lines, LENGTH_NAME);
    NothingIsSorted();
    LineIsFound([], m.lines, LENGTH_NAME, i);
    LengthIs(Meaning(m), cast);
    NotBoth(m.lines, LENGTH_NAME, i);
    if LastNamed(m.lines, LENGTH_NAME, i) {
      WrapsBySteps(cast(m.lines[i].value));
    }
  }

  lemma NothingIsSorted()
    ensures Sorted([]) && Get([], LENGTH_NAME) == Absent && Get([], CONNECTION_NAME) == Absent
  {
  }

  lemma NotBoth(lines: seq<Line>, name: Data, i: int)
    ensures !(NoneNamed(lines, name) && LastNamed(lines, name, i))
    ensures LastNamed(lines, name, i) ==> 0 <= i < |lines|
  {
    hide SameButCase;
  }

  lemma LengthIs(r: Request, cast: Data -> nat)
    ensures var v := Get(r.headers, LENGTH_NAME);
      ContentLength(r, cast) == if v.Absent? then 0 else AsInt64(cast(v.value))
  {
    CloseLiterals();
    hide AsInt64, Get, Text;
    ZeroIsZero();
  }

  lemma ZeroIsZero()
    ensures AsInt64(0) == 0
  {
  }

  lemma WrapsBySteps(n: nat)
    ensures (AsInt64(n) - n) % 0x1_0000_0000_0000_0000 == 0
    ensures -0x8000_0000_0000_0000 <= AsInt64(n) < 0x8000_0000_0000_0000
  {
  }

  /** For one: `GET / HTTP/1.1` and `Host: x`, in one read, is received with the close flag on. */
  lemma HostAloneCloses(relaxed: bool, queryStart: nat, cast: Data -> nat)
    ensures var m := SHORT.(lines := [Line([72, 111, 115, 116], [32], [120], CrLf)]);
      var o := ReceiveRequest(Source(MessageText(m), [BUFFER_SIZE]), BUFFER_SIZE, relaxed, queryStart, cast).outcome;
      WellFormed(m, relaxed) && o.Received? && o.request.close
  {
    var line := Line([72, 111, 115, 116], [32], [120], CrLf);
    var m := SHORT.(lines := [line]);
    HostMessage(relaxed);
    hide WellFormed, MessageText, CharsToMethod, ReceiveRequest, HeadArrives, WithClose, Meaning, ContentLength, TransferFails,
         ReceiveHead, SameButCase;
    var s := Source(MessageText(m), [BUFFER_SIZE]);
    assert MessageText(m) == MessageText(m) + [];
    OneReadIsSafe(s, relaxed, queryStart, m, []);
    var i := LengthOfLines(m, relaxed, cast);
    var rest, tail := BodyFraming(s, relaxed, queryStart, cast, m, []);
    CloseFlagIsAsked(s, relaxed, queryStart, cast, m, []);
  }

  lemma HostMessage(relaxed: bool)
    ensures var m := SHORT.(lines := [Line([72, 111, 115, 116], [32], [120], CrLf)]);
      && WellFormed(m, relaxed) && CharsToMethod(m.verb) != INVALID && |MessageText(m)| <= BUFFER_SIZE && !AsksToKeep(m.lines)
      && NoneNamed(m.lines, LENGTH_NAME)
  {
    var line := Line([72, 111, 115, 116], [32], [120], CrLf);
    var m := SHORT.(lines := [line]);
    ShortMessage(relaxed);
    assert WellFormedLine(line);
    assert |LineText(line)| == 9;
    assert LinesText([line]) == LineText(line) + LinesText([]) by {
      assert [line][1..] == [];
    }
    hide CharsToMethod, WellFormedPath, UriText, WellFormedLine, LineText, WellFormedVerb;
    assert |MessageText(m)| == |MessageText(SHORT)| + 9;
  }

  // ---------- What a session refuses ----------

  /** A call of the loop that finds an error closes the session. */
  lemma ErrorCloses(st: Parser, s: Source, size: nat)
    requires Receive(s, size).ret > 0
    requires var e := Execute(st, Receive(s, size).data); e.exit.Returned? && HasError(e.st)
    ensures ReceiveHead(st, [], s, size) == HeadReading(NoHead(Closed), Receive(s, size).source)
  {
    hide Execute, Receive;
    assert [] + Receive(s, size).data == Receive(s, size).data;
  }

  /** A message with an unknown method, its head in the first read, closes the session. */
  lemma UnknownMethodCloses(s: Source, relaxed: bool, queryStart: nat, cast: Data -> nat, m: Message, content: Data)
    requires WellFormed(m, relaxed) && CharsToMethod(m.verb) == INVALID && s.input == MessageText(m) + content
    requires s.plan != [] && |MessageText(m)| <= s.plan[0] && |MessageText(m)| <= BUFFER_SIZE
    ensures ReceiveRequest(s, BUFFER_SIZE, relaxed, queryStart, cast).outcome == Closed
  {
    hide Run, WellFormed, MessageText, Meaning, CharsToMethod, Execute, Receive, ReceiveHead;
    MessageIsNotEmpty(m);
    FirstRead(s, |MessageText(m)|);
    var data := Receive(s, BUFFER_SIZE).data;
    var rest := data[|MessageText(m)|..];
    assert data == MessageText(m) + rest;
    MessageIsAccepted(relaxed, queryStart, m, rest);
    ErrorCloses(Fresh(relaxed, queryStart), s, BUFFER_SIZE);
  }
}
