/** The language of the modelled fragment, written as the grammar writes it, and the proof that the
    table accepts exactly that language and hands every token to the right callback. */
module HttpGrammar {
  import opened Wrappers
  import opened Bytes
  import opened HttpTable
  import opened HttpRequest
  import opened HttpParser

  datatype LineEnd = Lf | CrLf

  /** One header line: `name ":" blanks value line-end`. */
  datatype Line = Line(name: Data, blanks: Data, value: Data, end: LineEnd)

  datatype Message = Message(
    verb: Data, path: Data, query: Option<Data>, fragment: Option<Data>, minor: byte, end: LineEnd,
    lines: seq<Line>, last: LineEnd)

  // ---------- The alphabet ----------

  predicate Upper(b: byte) {
    65 <= b <= 90
  }

  predicate Alpha(b: byte) {
    Upper(b) || 97 <= b <= 122
  }

  predicate Digit(b: byte) {
    48 <= b <= 57
  }

  predicate Xdigit(b: byte) {
    Digit(b) || 65 <= b <= 70 || 97 <= b <= 102
  }

  predicate VerbChar(b: byte) {
    Upper(b) || Digit(b)
  }

  /** Letters, digits and `-` `.` `_` `~`. */
  predicate Unreserved(b: byte) {
    Alpha(b) || Digit(b) || b in {45, 46, 95, 126}
  }

  /** `{` `}` and `^`, when URIs are relaxed. */
  predicate MoreDelim(b: byte, relaxed: bool) {
    relaxed && b in {123, 125, 94}
  }

  /** `!` `$` `&` `'` `(` `)` `*` `+` `,` `;` `=` and the relaxed ones. */
  predicate SubDelim(b: byte, relaxed: bool) {
    b in {33, 36, 38, 39, 40, 41, 42, 43, 44, 59, 61} || MoreDelim(b, relaxed)
  }

  /** A path character other than a percent-encoded one; bytes outside ASCII are allowed. */
  predicate Pchar(b: byte, relaxed: bool) {
    b >= 128 || Unreserved(b) || SubDelim(b, relaxed) || b == 58 || b == 64
  }

  /** The grammar's set difference of NUL and 31, and DEL. */
  predicate Control(b: byte) {
    b == 0 || b == 127
  }

  /** `(` `)` `<` `>` `@` `,` `;` `:` backslash, the double quote, `/` `[` `]` `?` `=` `{` `}` and blanks. */
  predicate Separator(b: byte) {
    b in {40, 41, 60, 62, 64, 44, 59, 58, 92, 34, 47, 91, 93, 63, 61, 123, 125, 32, 9}
  }

  predicate Token(b: byte) {
    b < 128 && !Control(b) && !Separator(b)
  }

  // ---------- The grammar ----------

  /** A run of URI characters and percent-encoded triples. */
  predicate UriText(t: Data, slashOnly: bool, relaxed: bool) {
    if t == [] then true
    else if t[0] == 37 then
      |t| >= 3 && Xdigit(t[1]) && Xdigit(t[2]) && UriText(t[3..], slashOnly, relaxed)
    else UriChar(t[0], slashOnly, relaxed) && UriText(t[1..], slashOnly, relaxed)
  }

  /** A path may hold `/` but not `?`; a query or a fragment may hold both. */
  predicate UriChar(b: byte, slashOnly: bool, relaxed: bool) {
    Pchar(b, relaxed) || b == 47 || (!slashOnly && b == 63)
  }

  predicate WellFormedPath(t: Data, relaxed: bool) {
    t == [] || (t[0] == 47 && (|t| == 1 || t[1] != 47) && UriText(t[1..], true, relaxed))
  }

  predicate WellFormedVerb(t: Data) {
    1 <= |t| <= 20 && forall i | 0 <= i < |t| :: VerbChar(t[i])
  }

  /** A name is a token that the line parser cannot take for the empty line. */
  predicate WellFormedName(t: Data) {
    |t| > 0 && (forall i | 0 <= i < |t| :: Token(t[i])) &&
    t[0] != 10 && (t[0] == 13 && |t| > 1 ==> t[1] != 10)
  }

  predicate Blank(b: byte) {
    b == 9 || b == 32
  }

  predicate ValueChar(b: byte) {
    !Control(b) && b != 10 && b != 13
  }

  predicate WellFormedValue(t: Data) {
    (forall i | 0 <= i < |t| :: ValueChar(t[i])) && (|t| > 0 ==> !Blank(t[0]))
  }

  predicate WellFormedLine(l: Line) {
    WellFormedName(l.name) && (forall i | 0 <= i < |l.blanks| :: Blank(l.blanks[i])) && WellFormedValue(l.value)
  }

  predicate WellFormed(m: Message, relaxed: bool) {
    WellFormedVerb(m.verb) && WellFormedPath(m.path, relaxed) &&
    (m.query.Some? ==> UriText(m.query.value, false, relaxed)) &&
    (m.fragment.Some? ==> UriText(m.fragment.value, false, relaxed)) &&
    (m.minor == 48 || m.minor == 49) &&
    forall i | 0 <= i < |m.lines| :: WellFormedLine(m.lines[i])
  }

  // ---------- The ranges of the table ----------

  /** The ranges the table tests for URI characters are the grammar's classes. */
  lemma UriRangesAreGrammar(b: byte, relaxed: bool)
    ensures PathChar(Widen(Signed(b), relaxed)) <==> UriChar(b, true, relaxed)
    ensures QueryChar(Widen(Signed(b), relaxed)) <==> UriChar(b, false, relaxed)
    ensures Hex(Signed(b)) <==> Xdigit(b)
  {
  }

  /** So are those for methods and header names. */
  lemma TokenRangesAreGrammar(b: byte)
    ensures MethodChar(Signed(b)) <==> VerbChar(b)
    ensures TokenChar(Signed(b)) <==> Token(b)
  {
  }

  // ---------- Its text ----------

  function EndText(e: LineEnd): Data {
    if e == Lf then [10] else [13, 10]
  }

  function LineText(l: Line): Data {
    l.name + ([58] + (l.blanks + (l.value + EndText(l.end))))
  }

  function LinesText(ls: seq<Line>): Data {
    if ls == [] then [] else LineText(ls[0]) + LinesText(ls[1..])
  }

  function OptionalText(mark: byte, t: Option<Data>): Data {
    if t.None? then [] else [mark] + t.value
  }

  function TargetText(m: Message): Data {
    m.path + (OptionalText(63, m.query) + OptionalText(35, m.fragment))
  }

  const HTTP_SLASH: Data := [72, 84, 84, 80, 47, 49, 46]

  function VersionText(m: Message): Data {
    HTTP_SLASH + ([m.minor] + EndText(m.end))
  }

  function MessageText(m: Message): Data {
    m.verb + ([32] + AfterVerb(m))
  }

  function AfterVerb(m: Message): Data {
    TargetText(m) + ([32] + AfterTarget(m))
  }

  function AfterTarget(m: Message): Data {
    VersionText(m) + HeaderText(m)
  }

  function HeaderText(m: Message): Data {
    LinesText(m.lines) + EndText(m.last)
  }

  // ---------- Its meaning ----------

  function SetLines(h: Headers, ls: seq<Line>): Headers
    decreases |ls|
  {
    if ls == [] then h else SetLines(Set(h, ls[0].name, ls[0].value), ls[1..])
  }

  function Value(t: Option<Data>): Data {
    if t.None? then [] else t.value
  }

  /** What the callbacks make of a message: an unknown method leaves the default and sets the error. */
  function Meaning(m: Message): Request {
    var verb := CharsToMethod(m.verb);
    NEW_REQUEST.(
      verb := if verb == INVALID then GET else verb,
      path := m.path, query := Value(m.query), fragment := Value(m.fragment),
      version := if m.minor == 49 then 0x11 else 0x10,
      headers := SetLines([], m.lines))
  }

  // ---------- The table follows the grammar ----------

  predicate Accepts(r: Stop) {
    r.st.cs == FIRST_FINAL
  }

  predicate GoesFar(r: Stop) {
    Accepts(r) || r.exit.Threw?
  }

  predicate At(buf: Data, p: nat, t: Data) {
    p + |t| <= |buf| && buf[p..p + |t|] == t
  }

  datatype Loop = PathLoop | QueryLoop | FragmentLoop

  function Home(k: Loop): int {
    match k case PathLoop => 26 case QueryLoop => 30 case FragmentLoop => 21
  }

  function Triple(k: Loop): int {
    match k case PathLoop => 27 case QueryLoop => 31 case FragmentLoop => 22
  }

  lemma Cut(buf: Data, p: nat, t: Data, u: Data)
    requires At(buf, p, t + u)
    ensures At(buf, p, t) && At(buf, p + |t|, u)
  {
    assert buf[p..p + |t + u|][..|t|] == t;
    assert buf[p..p + |t + u|][|t|..] == u;
  }

  lemma Glue(buf: Data, p: nat, t: Data, u: Data)
    requires At(buf, p, t) && At(buf, p + |t|, u)
    ensures At(buf, p, t + u)
  {
    assert buf[p..p + |t + u|] == buf[p..p + |t|] + buf[p + |t|..p + |t| + |u|];
  }

  /** One edge of a run that goes on. */
  lemma Step(st: Parser, buf: Data, p: nat, e: Edge)
    requires p < |buf| && Modelled(st.cs) && e.to != ERROR && e.to != FIRST_FINAL
    requires Next(st.cs, Signed(buf[p]), st.relaxed) == e && !Throws(st, e.first, p)
    ensures Run(st, buf, p) == Run(Take(st, e, buf, p), buf, p + 1)
  {
    hide Next, Apply;
  }

  /** One edge without actions. */
  lemma Silent(st: Parser, buf: Data, p: nat, to: int)
    requires p < |buf| && Modelled(st.cs) && to != ERROR && to != FIRST_FINAL
    requires Next(st.cs, Signed(buf[p]), st.relaxed) == Edge(Nothing, Nothing, Nothing, to)
    ensures Run(st, buf, p) == Run(st.(cs := to), buf, p + 1)
  {
    hide Next;
  }

  /** A run that is accepted or throws is not at the end of the buffer, and its next edge is no rejection. */
  lemma NotStuck(st: Parser, buf: Data, p: nat)
    requires p <= |buf| && st.cs != FIRST_FINAL && GoesFar(Run(st, buf, p))
    ensures p < |buf| && Modelled(st.cs)
    ensures var e := Next(st.cs, Signed(buf[p]), st.relaxed);
            e.to != ERROR && (e.to == FIRST_FINAL || Modelled(e.to))
  {
    if p < |buf| && Modelled(st.cs) {
      LaterActionsDoNotThrow(st.cs, Signed(buf[p]), st.relaxed);
    }
    hide Next, Apply;
  }

  /** The edges of the three URI loops. */
  lemma UriEdges(k: Loop, b: byte, relaxed: bool)
    ensures var c, h, t := Signed(b), Home(k), Triple(k);
      && (b == 37 ==> Next(h, c, relaxed) == Edge(Nothing, Nothing, Nothing, t))
      && (b != 37 && UriChar(b, k.PathLoop?, relaxed) ==> Next(h, c, relaxed) == Edge(Nothing, Nothing, Nothing, h))
      && (b != 37 && !UriChar(b, k.PathLoop?, relaxed) && !EndsLoop(b, k) ==> Next(h, c, relaxed) == REJECT)
      && Next(t, c, relaxed) == (if Xdigit(b) then Edge(Nothing, Nothing, Nothing, t + 1) else REJECT)
      && Next(t + 1, c, relaxed) == (if Xdigit(b) then Edge(Nothing, Nothing, Nothing, h) else REJECT)
  {
    hide Next, UriChar, Xdigit;
    HomeEdges(k, b, relaxed);
    TripleEdges(k, b, relaxed);
  }

  lemma HomeEdges(k: Loop, b: byte, relaxed: bool)
    ensures var c, h := Signed(b), Home(k);
      && (b == 37 ==> Next(h, c, relaxed) == Edge(Nothing, Nothing, Nothing, Triple(k)))
      && (b != 37 && UriChar(b, k.PathLoop?, relaxed) ==> Next(h, c, relaxed) == Edge(Nothing, Nothing, Nothing, h))
      && (b != 37 && !UriChar(b, k.PathLoop?, relaxed) && !EndsLoop(b, k) ==> Next(h, c, relaxed) == REJECT)
  {
    UriRangesAreGrammar(b, relaxed);
    hide UriChar;
  }

  lemma TripleEdges(k: Loop, b: byte, relaxed: bool)
    ensures var c, h, t := Signed(b), Home(k), Triple(k);
      && Next(t, c, relaxed) == (if Xdigit(b) then Edge(Nothing, Nothing, Nothing, t + 1) else REJECT)
      && Next(t + 1, c, relaxed) == (if Xdigit(b) then Edge(Nothing, Nothing, Nothing, h) else REJECT)
  {
    UriRangesAreGrammar(b, relaxed);
    hide UriChar, Xdigit;
  }

  predicate EndsLoop(b: byte, k: Loop) {
    b == 32 || (b == 35 && k != FragmentLoop) || (b == 63 && k == PathLoop)
  }

  /** URI text is skipped by its loop without any action. */
  lemma {:induction false} UriRuns(st: Parser, buf: Data, p: nat, e: nat, k: Loop)
    requires p <= e <= |buf| && st.cs == Home(k)
    requires UriText(buf[p..e], k.PathLoop?, st.relaxed)
    ensures Run(st, buf, p) == Run(st, buf, e)
    decreases e - p
  {
    hide Run, Next, UriChar;
    if p < e {
      var t := buf[p..e];
      UriEdges(k, t[0], st.relaxed);
      if t[0] == 37 {
        UriEdges(k, t[1], st.relaxed);
        UriEdges(k, t[2], st.relaxed);
        Silent(st, buf, p, Triple(k));
        Silent(st.(cs := Triple(k)), buf, p + 1, Triple(k) + 1);
        Silent(st.(cs := Triple(k) + 1), buf, p + 2, Home(k));
        assert t[3..] == buf[p + 3..e];
        UriRuns(st, buf, p + 3, e, k);
      } else {
        Silent(st, buf, p, Home(k));
        assert t[1..] == buf[p + 1..e];
        UriRuns(st, buf, p + 1, e, k);
      }
    }
  }

  /** Such a run leaves a URI loop at a delimiter, having read URI text. */
  lemma {:induction false} UriEnds(st: Parser, buf: Data, p: nat, k: Loop) returns (e: nat)
    requires p <= |buf| && st.cs == Home(k) && GoesFar(Run(st, buf, p))
    ensures p <= e < |buf| && EndsLoop(buf[e], k) && UriText(buf[p..e], k.PathLoop?, st.relaxed)
    decreases |buf| - p
  {
    hide Run, Next, UriChar;
    NotStuck(st, buf, p);
    UriEdges(k, buf[p], st.relaxed);
    if EndsLoop(buf[p], k) {
      e := p;
    } else if buf[p] == 37 {
      var s1, s2 := st.(cs := Triple(k)), st.(cs := Triple(k) + 1);
      Silent(st, buf, p, Triple(k));
      NotStuck(s1, buf, p + 1);
      UriEdges(k, buf[p + 1], st.relaxed);
      Silent(s1, buf, p + 1, Triple(k) + 1);
      NotStuck(s2, buf, p + 2);
      UriEdges(k, buf[p + 2], st.relaxed);
      Silent(s2, buf, p + 2, Home(k));
      e := UriEnds(st, buf, p + 3, k);
      assert buf[p..e][3..] == buf[p + 3..e];
    } else {
      Silent(st, buf, p, Home(k));
      e := UriEnds(st, buf, p + 1, k);
      assert buf[p..e][1..] == buf[p + 1..e];
    }
  }

  // ---------- The method ----------

  /** The state after `k` method characters. */
  function VerbState(k: nat): int {
    if k == 0 then START else if k == 1 then 2 else 173 + k
  }

  lemma VerbEdges(k: nat, b: byte, relaxed: bool)
    requires 1 <= k <= 20
    ensures var e := Next(VerbState(k), Signed(b), relaxed);
      e == if b == 32 then Edge(RequestMethod, Nothing, Nothing, 3)
           else if VerbChar(b) && k < 20 then Edge(Nothing, Nothing, Nothing, VerbState(k + 1))
           else REJECT
  {
  }

  lemma {:induction false} VerbRuns(st: Parser, buf: Data, p: nat, k: nat, n: nat)
    requires 1 <= k && k + n <= 20 && st.cs == VerbState(k) && p + n <= |buf|
    requires forall i | p <= i < p + n :: VerbChar(buf[i])
    ensures Run(st, buf, p) == Run(st.(cs := VerbState(k + n)), buf, p + n)
    decreases n
  {
    hide Run, Next;
    if n > 0 {
      VerbEdges(k, buf[p], st.relaxed);
      Silent(st, buf, p, VerbState(k + 1));
      VerbRuns(st.(cs := VerbState(k + 1)), buf, p + 1, k + 1, n - 1);
    }
  }

  lemma {:induction false} VerbEnds(st: Parser, buf: Data, p: nat, k: nat) returns (e: nat)
    requires 1 <= k <= 20 && st.cs == VerbState(k) && p <= |buf| && Accepts(Run(st, buf, p))
    ensures p <= e < |buf| && k + (e - p) <= 20 && buf[e] == 32
    ensures forall i | p <= i < e :: VerbChar(buf[i])
    decreases |buf| - p
  {
    hide Run, Next;
    NotStuck(st, buf, p);
    VerbEdges(k, buf[p], st.relaxed);
    if buf[p] == 32 {
      e := p;
    } else {
      Silent(st, buf, p, VerbState(k + 1));
      e := VerbEnds(st.(cs := VerbState(k + 1)), buf, p + 1, k + 1);
    }
  }

  // ---------- The target ----------

  /** The state entered after the delimiter `b` of a target part. */
  function After(b: byte): int {
    if b == 32 then 4 else if b == 35 then 20 else 29
  }

  lemma TargetEdges(b: byte, relaxed: bool)
    ensures var c := Signed(b);
      && (EndsLoop(b, PathLoop) ==>
            && Next(3, c, relaxed) == Edge(MarkToken, RequestPath, if b == 63 then Nothing else RequestUri, After(b))
            && Next(26, c, relaxed) == Edge(RequestPath, if b == 63 then Nothing else RequestUri, Nothing, After(b)))
      && Next(3, 47, relaxed) == Edge(MarkToken, Nothing, Nothing, 33)
      && (b != 47 && !EndsLoop(b, PathLoop) ==> var e := Next(3, c, relaxed); e.to == ERROR || (!Modelled(e.to) && e.to != FIRST_FINAL))
      && (b != 47 ==> Next(33, c, relaxed) == Next(26, c, relaxed))
      && Next(33, 47, relaxed).to == 34
  {
  }

  lemma QueryEdges(b: byte, relaxed: bool)
    ensures var c := Signed(b);
      && (EndsLoop(b, QueryLoop) ==> Next(30, c, relaxed) == Edge(QueryString, RequestUri, Nothing, After(b)))
      && (var e := Next(30, c, relaxed);
          Next(29, c, relaxed) == if e.to == ERROR then REJECT else Edge(StartQuery, e.first, e.second, e.to))
      && Next(30, c, relaxed).third == Nothing
  {
  }

  lemma FragmentEdges(b: byte, relaxed: bool)
    ensures var c := Signed(b);
      && (EndsLoop(b, FragmentLoop) ==> Next(21, c, relaxed) == Edge(FragmentText, Nothing, Nothing, 4))
      && (var e := Next(21, c, relaxed);
          Next(20, c, relaxed) == if e.to == ERROR then REJECT else Edge(MarkToken, e.first, e.second, e.to))
      && Next(21, c, relaxed).third == Nothing
  {
  }

  /** Two states with the same edge on the next byte run alike. */
  lemma SameEdge(st: Parser, st': Parser, buf: Data, p: nat)
    requires p < |buf| && Modelled(st.cs) && Modelled(st'.cs) && st' == st.(cs := st'.cs)
    requires Next(st.cs, Signed(buf[p]), st.relaxed) == Next(st'.cs, Signed(buf[p]), st.relaxed)
    requires st.cs != 30
    ensures Run(st, buf, p) == Run(st', buf, p)
  {
    hide Next, Apply;
    LaterActionsDoNotThrow(st.cs, Signed(buf[p]), st.relaxed);
    var e := Next(st.cs, Signed(buf[p]), st.relaxed);
    TakeIgnoresState(st, st', e, buf, p);
  }

  lemma TakeIgnoresState(st: Parser, st': Parser, e: Edge, buf: Data, p: nat)
    requires st' == st.(cs := st'.cs)
    ensures Take(st, e, buf, p) == Take(st', e, buf, p)
  {
    ApplyIgnoresState(st, e.first, buf, p, st'.cs);
    var a := Apply(st, e.first, buf, p);
    ApplyIgnoresState(a, e.second, buf, p, st'.cs);
    var b := Apply(a, e.second, buf, p);
    ApplyIgnoresState(b, e.third, buf, p, st'.cs);
    hide Apply;
  }

  lemma ApplyIgnoresState(st: Parser, a: Action, buf: Data, p: nat, cs: int)
    ensures Apply(st.(cs := cs), a, buf, p) == Apply(st, a, buf, p).(cs := cs)
  {
    hide Span, CharsToMethod, SameText, Set, Text;
  }

  /** The parser after the path `buf[p..e]` and its delimiter. */
  function WithPath(st: Parser, buf: Data, p: nat, e: nat): Parser
    requires p <= e < |buf|
  {
    st.(mark := p, cs := After(buf[e]), request := st.request.(path := buf[p..e]))
  }

  /** A path is handed over whole, whatever it is followed by. */
  lemma PathRuns(st: Parser, buf: Data, p: nat, e: nat)
    requires p <= e < |buf| && st.cs == 3 && EndsLoop(buf[e], PathLoop)
    requires WellFormedPath(buf[p..e], st.relaxed)
    ensures Run(st, buf, p) == Run(WithPath(st, buf, p, e), buf, e + 1)
  {
    hide Run, Next, UriText;
    TargetEdges(buf[e], st.relaxed);
    if p == e {
      Step(st, buf, p, Next(3, Signed(buf[e]), st.relaxed));
    } else {
      Step(st, buf, p, Edge(MarkToken, Nothing, Nothing, 33));
      var s33, s26 := st.(mark := p, cs := 33), st.(mark := p, cs := 26);
      TargetEdges(buf[p + 1], st.relaxed);
      SameEdge(s33, s26, buf, p + 1);
      assert buf[p..e][1..] == buf[p + 1..e];
      UriRuns(s26, buf, p + 1, e, PathLoop);
      Step(s26, buf, e, Next(26, Signed(buf[e]), st.relaxed));
    }
  }

  lemma PathEnds(st: Parser, buf: Data, p: nat) returns (e: nat)
    requires p <= |buf| && st.cs == 3 && Accepts(Run(st, buf, p))
    ensures p <= e < |buf| && EndsLoop(buf[e], PathLoop) && WellFormedPath(buf[p..e], st.relaxed)
  {
    hide Run, Next, UriText;
    NotStuck(st, buf, p);
    TargetEdges(buf[p], st.relaxed);
    if EndsLoop(buf[p], PathLoop) {
      e := p;
    } else {
      var s33, s26 := st.(mark := p, cs := 33), st.(mark := p, cs := 26);
      Step(st, buf, p, Edge(MarkToken, Nothing, Nothing, 33));
      NotStuck(s33, buf, p + 1);
      TargetEdges(buf[p + 1], st.relaxed);
      SameEdge(s33, s26, buf, p + 1);
      e := UriEnds(s26, buf, p + 1, PathLoop);
      assert buf[p..e][1..] == buf[p + 1..e];
    }
  }

  function WithQuery(st: Parser, buf: Data, p: nat, e: nat): Parser
    requires p <= e < |buf|
  {
    st.(queryStart := p, cs := After(buf[e]), request := st.request.(query := buf[p..e]))
  }

  /** The query start is marked on entry: from then on state 29 behaves like state 30. */
  lemma EnterQuery(st: Parser, buf: Data, p: nat)
    requires p < |buf| && st.cs == 29 && Next(30, Signed(buf[p]), st.relaxed).to != ERROR
    ensures Run(st, buf, p) == Run(st.(queryStart := p, cs := 30), buf, p)
  {
    QueryEdges(buf[p], st.relaxed);
    var s30 := st.(queryStart := p, cs := 30);
    var e := Next(30, Signed(buf[p]), st.relaxed);
    assert e.to != FIRST_FINAL;
    Step(st, buf, p, Next(29, Signed(buf[p]), st.relaxed));
    Step(s30, buf, p, e);
    hide Run, Next, Apply;
    assert Apply(st, StartQuery, buf, p) == st.(queryStart := p) by { StartQueryMarks(st, buf, p); }
    TakeIgnoresState(st.(queryStart := p), s30, e, buf, p);
    NothingDoesNothing(Apply(Apply(st.(queryStart := p), e.first, buf, p), e.second, buf, p), buf, p);
  }

  lemma StartQueryMarks(st: Parser, buf: Data, p: nat)
    ensures Apply(st, StartQuery, buf, p) == st.(queryStart := p)
    ensures Apply(st, MarkToken, buf, p) == st.(mark := p)
  {
  }

  lemma NothingDoesNothing(st: Parser, buf: Data, p: nat)
    ensures Apply(st, Nothing, buf, p) == st
  {
  }

  lemma QueryRuns(st: Parser, buf: Data, p: nat, e: nat)
    requires p <= e < |buf| && st.cs == 29 && EndsLoop(buf[e], QueryLoop)
    requires UriText(buf[p..e], false, st.relaxed)
    ensures Run(st, buf, p) == Run(WithQuery(st, buf, p, e), buf, e + 1)
  {
    hide Run, Next;
    UriEdges(QueryLoop, buf[p], st.relaxed);
    QueryEdges(buf[p], st.relaxed);
    QueryEdges(buf[e], st.relaxed);
    EnterQuery(st, buf, p);
    var s30 := st.(queryStart := p, cs := 30);
    UriRuns(s30, buf, p, e, QueryLoop);
    Step(s30, buf, e, Edge(QueryString, RequestUri, Nothing, After(buf[e])));
  }

  lemma QueryEnds(st: Parser, buf: Data, p: nat) returns (e: nat)
    requires p <= |buf| && st.cs == 29 && Accepts(Run(st, buf, p))
    ensures p <= e < |buf| && EndsLoop(buf[e], QueryLoop) && UriText(buf[p..e], false, st.relaxed)
  {
    hide Run, Next;
    NotStuck(st, buf, p);
    QueryEdges(buf[p], st.relaxed);
    EnterQuery(st, buf, p);
    e := UriEnds(st.(queryStart := p, cs := 30), buf, p, QueryLoop);
  }

  function WithFragment(st: Parser, buf: Data, p: nat, e: nat): Parser
    requires p <= e <= |buf|
  {
    st.(mark := p, cs := 4, request := st.request.(fragment := buf[p..e]))
  }

  lemma EnterFragment(st: Parser, buf: Data, p: nat)
    requires p < |buf| && st.cs == 20 && Next(21, Signed(buf[p]), st.relaxed).to != ERROR
    ensures Run(st, buf, p) == Run(st.(mark := p, cs := 21), buf, p)
  {
    FragmentEdges(buf[p], st.relaxed);
    var s21 := st.(mark := p, cs := 21);
    var e := Next(21, Signed(buf[p]), st.relaxed);
    assert e.to != FIRST_FINAL;
    Step(st, buf, p, Next(20, Signed(buf[p]), st.relaxed));
    Step(s21, buf, p, e);
    hide Run, Next, Apply;
    StartQueryMarks(st, buf, p);
    TakeIgnoresState(st.(mark := p), s21, e, buf, p);
    NothingDoesNothing(Apply(Apply(st.(mark := p), e.first, buf, p), e.second, buf, p), buf, p);
  }

  lemma FragmentRuns(st: Parser, buf: Data, p: nat, e: nat)
    requires p <= e < |buf| && st.cs == 20 && buf[e] == 32
    requires UriText(buf[p..e], false, st.relaxed)
    ensures Run(st, buf, p) == Run(WithFragment(st, buf, p, e), buf, e + 1)
  {
    hide Run, Next;
    UriEdges(FragmentLoop, buf[p], st.relaxed);
    FragmentEdges(buf[p], st.relaxed);
    FragmentEdges(buf[e], st.relaxed);
    EnterFragment(st, buf, p);
    var s21 := st.(mark := p, cs := 21);
    UriRuns(s21, buf, p, e, FragmentLoop);
    Step(s21, buf, e, Edge(FragmentText, Nothing, Nothing, 4));
  }

  lemma FragmentEnds(st: Parser, buf: Data, p: nat) returns (e: nat)
    requires p <= |buf| && st.cs == 20 && Accepts(Run(st, buf, p))
    ensures p <= e < |buf| && buf[e] == 32 && UriText(buf[p..e], false, st.relaxed)
  {
    hide Run, Next;
    NotStuck(st, buf, p);
    FragmentEdges(buf[p], st.relaxed);
    EnterFragment(st, buf, p);
    e := UriEnds(st.(mark := p, cs := 21), buf, p, FragmentLoop);
  }

  // ---------- The version ----------

  lemma VersionEdges(i: nat, b: byte, relaxed: bool)
    requires i < 7
    ensures Next(4 + i, Signed(b), relaxed) ==
            if b == HTTP_SLASH[i] then Edge(if i == 0 then MarkToken else Nothing, Nothing, Nothing, 5 + i) else REJECT
    ensures Next(11, Signed(b), relaxed) ==
            if b == 48 || b == 49 then Edge(Nothing, Nothing, Nothing, 12) else REJECT
    ensures Next(12, Signed(b), relaxed) ==
            if b == 10 then Edge(HttpVersion, Nothing, Nothing, 13)
            else if b == 13 then Edge(HttpVersion, Nothing, Nothing, 17) else REJECT
    ensures Next(17, Signed(b), relaxed) == if b == 10 then Edge(Nothing, Nothing, Nothing, 13) else REJECT
  {
  }

  lemma {:induction false} SlashRuns(st: Parser, buf: Data, p: nat, i: nat)
    requires i <= 7 && st.cs == 4 + i && At(buf, p, HTTP_SLASH[i..])
    ensures Run(st, buf, p) == Run(st.(cs := 11, mark := if i == 0 then p else st.mark), buf, p + (7 - i))
    decreases 7 - i
  {
    hide Run, Next;
    if i < 7 {
      assert buf[p..p + |HTTP_SLASH[i..]|][0] == HTTP_SLASH[i];
      assert HTTP_SLASH[i..] == [HTTP_SLASH[i]] + HTTP_SLASH[i + 1..];
      Cut(buf, p, [HTTP_SLASH[i]], HTTP_SLASH[i + 1..]);
      VersionEdges(i, buf[p], st.relaxed);
      Step(st, buf, p, Next(4 + i, Signed(buf[p]), st.relaxed));
      SlashRuns(st.(cs := 5 + i, mark := if i == 0 then p else st.mark), buf, p + 1, i + 1);
    }
  }

  lemma NothingLies(buf: Data, p: nat)
    requires p <= |buf|
    ensures At(buf, p, [])
  {
  }

  lemma ByteLies(buf: Data, p: nat, b: byte)
    requires p < |buf| && buf[p] == b
    ensures At(buf, p, [b])
  {
  }

  lemma {:induction false} SlashEnds(st: Parser, buf: Data, p: nat, i: nat)
    requires i <= 7 && st.cs == 4 + i && p <= |buf| && Accepts(Run(st, buf, p))
    ensures At(buf, p, HTTP_SLASH[i..])
    decreases 7 - i
  {
    hide Run, Next, At;
    if i == 7 {
      assert HTTP_SLASH[i..] == [];
      NothingLies(buf, p);
    } else {
      NotStuck(st, buf, p);
      VersionEdges(i, buf[p], st.relaxed);
      Step(st, buf, p, Next(4 + i, Signed(buf[p]), st.relaxed));
      SlashEnds(st.(cs := 5 + i, mark := if i == 0 then p else st.mark), buf, p + 1, i + 1);
      assert HTTP_SLASH[i..] == [HTTP_SLASH[i]] + HTTP_SLASH[i + 1..];
      ByteLies(buf, p, HTTP_SLASH[i]);
      Glue(buf, p, [HTTP_SLASH[i]], HTTP_SLASH[i + 1..]);
    }
  }

  /** The line feed, alone or after a carriage return, that ends a line in state `from`. */
  lemma LineEndRuns(st: Parser, buf: Data, p: nat, end: LineEnd, done: Edge, after: Parser)
    requires At(buf, p, EndText(end)) && Modelled(st.cs)
    requires done == Next(st.cs, Signed(buf[p]), st.relaxed)
    requires done.to == if end == Lf then 13 else 17
    requires after == Take(st, done, buf, p)
    ensures Run(st, buf, p) == Run(after.(cs := 13), buf, p + |EndText(end)|)
  {
    hide Run, Next, Apply;
    LaterActionsDoNotThrow(st.cs, Signed(buf[p]), st.relaxed);
    assert buf[p..p + |EndText(end)|][0] == buf[p];
    Step(st, buf, p, done);
    if end == CrLf {
      assert buf[p..p + 2][1] == buf[p + 1];
      VersionEdges(0, buf[p + 1], after.relaxed);
      Silent(after, buf, p + 1, 13);
    }
  }

  lemma LineEndEnds(st: Parser, buf: Data, p: nat) returns (end: LineEnd)
    requires p < |buf| && (buf[p] == 10 || buf[p] == 13) && Modelled(st.cs)
    requires Accepts(Run(st, buf, p))
    requires var e := Next(st.cs, Signed(buf[p]), st.relaxed); e.to == if buf[p] == 10 then 13 else 17
    ensures At(buf, p, EndText(end)) && (end == Lf <==> buf[p] == 10)
  {
    hide Run, Next, Apply;
    LaterActionsDoNotThrow(st.cs, Signed(buf[p]), st.relaxed);
    var e := Next(st.cs, Signed(buf[p]), st.relaxed);
    if buf[p] == 10 {
      end := Lf;
    } else {
      end := CrLf;
      Step(st, buf, p, e);
      var next := Take(st, e, buf, p);
      NotStuck(next, buf, p + 1);
      VersionEdges(0, buf[p + 1], next.relaxed);
    }
  }

  function WithVersion(st: Parser, p: nat, minor: byte): Parser {
    st.(mark := p, cs := 13, request := st.request.(version := if minor == 49 then 0x11 else 0x10))
  }

  /** The callback reads the eight bytes of the version. */
  lemma VersionCallback(st: Parser, buf: Data, p: nat, minor: byte)
    requires At(buf, p, HTTP_SLASH + [minor]) && (minor == 48 || minor == 49) && st.mark == p
    ensures Apply(st, HttpVersion, buf, p + 8) ==
            st.(request := st.request.(version := if minor == 49 then 0x11 else 0x10))
  {
    var text := Span(buf, p, p + 8);
    assert text == HTTP_SLASH + [minor];
    assert Text("HTTP/1.1") == [72, 84, 84, 80, 47, 49, 46, 49];
    assert Text("HTTP/1.0") == [72, 84, 84, 80, 47, 49, 46, 48];
    assert text[7] == minor;
    assert Text("HTTP/1.1")[..8] == Text("HTTP/1.1");
    assert Text("HTTP/1.0")[..8] == Text("HTTP/1.0");
  }

  lemma VersionRuns(st: Parser, buf: Data, p: nat, minor: byte, end: LineEnd)
    requires st.cs == 4 && (minor == 48 || minor == 49)
    requires At(buf, p, HTTP_SLASH + ([minor] + EndText(end)))
    ensures Run(st, buf, p) == Run(WithVersion(st, p, minor), buf, p + 8 + |EndText(end)|)
  {
    hide Run, Next, Apply, At, EndText;
    VersionLies(buf, p, minor, end);
    var s11 := st.(mark := p, cs := 11);
    var s12 := s11.(cs := 12);
    assert HTTP_SLASH[0..] == HTTP_SLASH;
    SlashRuns(st, buf, p, 0);
    VersionEdges(0, buf[p + 7], st.relaxed);
    Silent(s11, buf, p + 7, 12);
    VersionEdges(0, buf[p + 8], st.relaxed);
    var e := Next(12, Signed(buf[p + 8]), st.relaxed);
    VersionCallback(s12, buf, p, minor);
    NothingDoesNothing(Apply(s12, HttpVersion, buf, p + 8), buf, p + 8);
    EndStarts(end);
    LineEndRuns(s12, buf, p + 8, end, e, Take(s12, e, buf, p + 8));
  }

  lemma EndStarts(end: LineEnd)
    ensures |EndText(end)| > 0 && EndText(end)[0] == if end == Lf then 10 else 13
  {
  }

  /** Where the parts of a version lie. */
  lemma VersionLies(buf: Data, p: nat, minor: byte, end: LineEnd)
    requires At(buf, p, HTTP_SLASH + ([minor] + EndText(end)))
    ensures p + 8 < |buf| && At(buf, p, HTTP_SLASH) && At(buf, p, HTTP_SLASH + [minor]) && At(buf, p + 8, EndText(end))
    ensures buf[p + 7] == minor && buf[p + 8] == EndText(end)[0]
  {
    EndStarts(end);
    hide At, EndText;
    Cut(buf, p, HTTP_SLASH, [minor] + EndText(end));
    Cut(buf, p + 7, [minor], EndText(end));
    ByteIs(buf, p + 7, minor);
    Indices(buf, p + 8, EndText(end));
    AtIs(buf, p + 8, EndText(end));
    Glue(buf, p, HTTP_SLASH, [minor]);
  }

  lemma VersionEnds(st: Parser, buf: Data, p: nat) returns (minor: byte, end: LineEnd)
    requires st.cs == 4 && p <= |buf| && Accepts(Run(st, buf, p))
    ensures (minor == 48 || minor == 49) && At(buf, p, HTTP_SLASH + ([minor] + EndText(end)))
  {
    hide Run, Next, Apply;
    SlashEnds(st, buf, p, 0);
    assert HTTP_SLASH[0..] == HTTP_SLASH;
    SlashRuns(st, buf, p, 0);
    var s11 := st.(mark := p, cs := 11);
    NotStuck(s11, buf, p + 7);
    VersionEdges(0, buf[p + 7], st.relaxed);
    minor := buf[p + 7];
    Silent(s11, buf, p + 7, 12);
    var s12 := s11.(cs := 12);
    NotStuck(s12, buf, p + 8);
    VersionEdges(0, buf[p + 8], st.relaxed);
    end := LineEndEnds(s12, buf, p + 8);
    assert At(buf, p + 7, [minor]);
    Glue(buf, p + 7, [minor], EndText(end));
    Glue(buf, p, HTTP_SLASH, [minor] + EndText(end));
  }

  // ---------- The header lines ----------

  lemma LineEdges(b: byte, relaxed: bool)
    ensures var c := Signed(b);
      && (Token(b) && b != 10 && b != 13 ==> Next(13, c, relaxed) == Edge(StartField, Nothing, Nothing, 14))
      && (b == 13 ==> Next(13, c, relaxed) == Edge(StartField, Nothing, Nothing, 18))
      && (b == 10 ==> Next(13, c, relaxed) == Edge(StartField, Done, Nothing, FIRST_FINAL))
      && (!Token(b) ==> Next(13, c, relaxed) == REJECT)
      && (b == 10 ==> Next(18, c, relaxed) == Edge(Done, Nothing, Nothing, FIRST_FINAL))
      && (b != 10 ==> Next(18, c, relaxed) == Next(14, c, relaxed))
      && Next(14, c, relaxed) ==
         (if b == 58 then Edge(WriteField, Nothing, Nothing, 15)
          else if Token(b) then Edge(Nothing, Nothing, Nothing, 14) else REJECT)
      && !Token(58)
  {
  }

  lemma ValueEdges(b: byte, relaxed: bool)
    ensures var c := Signed(b);
      && (Blank(b) ==> Next(15, c, relaxed) == Edge(MarkToken, Nothing, Nothing, 15))
      && (var e := Next(16, c, relaxed);
          (!Blank(b) ==> Next(15, c, relaxed) == if e.to == ERROR then REJECT else Edge(MarkToken, e.first, Nothing, e.to))
          && e.second == Nothing)
      && Next(16, c, relaxed) ==
         (if b == 0 || b == 127 then REJECT
          else if b == 10 then Edge(WriteValue, Nothing, Nothing, 13)
          else if b == 13 then Edge(WriteValue, Nothing, Nothing, 17)
          else Edge(Nothing, Nothing, Nothing, 16))
  {
  }

  lemma {:induction false} NameRuns(st: Parser, buf: Data, p: nat, e: nat)
    requires p <= e < |buf| && st.cs == 14 && buf[e] == 58
    requires forall i | p <= i < e :: Token(buf[i])
    ensures Run(st, buf, p) == Run(st.(fieldLen := e - st.fieldStart, cs := 15), buf, e + 1)
    decreases e - p
  {
    hide Run, Next, Token;
    LineEdges(buf[p], st.relaxed);
    if p < e {
      Silent(st, buf, p, 14);
      NameRuns(st, buf, p + 1, e);
    } else {
      Step(st, buf, p, Edge(WriteField, Nothing, Nothing, 15));
    }
  }

  lemma {:induction false} NameEnds(st: Parser, buf: Data, p: nat) returns (e: nat)
    requires p <= |buf| && st.cs == 14 && Accepts(Run(st, buf, p))
    ensures p <= e < |buf| && buf[e] == 58 && forall i | p <= i < e :: Token(buf[i])
    decreases |buf| - p
  {
    hide Run, Next, Token;
    NotStuck(st, buf, p);
    LineEdges(buf[p], st.relaxed);
    if buf[p] == 58 {
      e := p;
    } else {
      Silent(st, buf, p, 14);
      e := NameEnds(st, buf, p + 1);
    }
  }

  lemma {:induction false} BlanksRun(st: Parser, buf: Data, p: nat, e: nat)
    requires p <= e <= |buf| && st.cs == 15
    requires forall i | p <= i < e :: Blank(buf[i])
    ensures Run(st, buf, p) == Run(st.(mark := if p < e then e - 1 else st.mark), buf, e)
    decreases e - p
  {
    hide Run, Next;
    if p < e {
      ValueEdges(buf[p], st.relaxed);
      Step(st, buf, p, Edge(MarkToken, Nothing, Nothing, 15));
      BlanksRun(st.(mark := p), buf, p + 1, e);
    }
  }

  lemma {:induction false} BlanksEnd(st: Parser, buf: Data, p: nat) returns (e: nat)
    requires p <= |buf| && st.cs == 15 && Accepts(Run(st, buf, p))
    ensures p <= e < |buf| && !Blank(buf[e]) && forall i | p <= i < e :: Blank(buf[i])
    decreases |buf| - p
  {
    hide Run, Next;
    NotStuck(st, buf, p);
    if Blank(buf[p]) {
      ValueEdges(buf[p], st.relaxed);
      Step(st, buf, p, Edge(MarkToken, Nothing, Nothing, 15));
      e := BlanksEnd(st.(mark := p), buf, p + 1);
    } else {
      e := p;
    }
  }

  /** The value is marked at its first byte: from then on state 15 behaves like state 16. */
  lemma EnterValue(st: Parser, buf: Data, p: nat)
    requires p < |buf| && st.cs == 15 && !Blank(buf[p]) && Next(16, Signed(buf[p]), st.relaxed).to != ERROR
    ensures Run(st, buf, p) == Run(st.(mark := p, cs := 16), buf, p)
  {
    ValueEdges(buf[p], st.relaxed);
    var s16 := st.(mark := p, cs := 16);
    var e := Next(16, Signed(buf[p]), st.relaxed);
    assert e.to != FIRST_FINAL;
    Step(st, buf, p, Next(15, Signed(buf[p]), st.relaxed));
    Step(s16, buf, p, e);
    hide Run, Next, Apply;
    StartQueryMarks(st, buf, p);
    TakeIgnoresState(st.(mark := p), s16, e, buf, p);
    NothingDoesNothing(Apply(st.(mark := p), e.first, buf, p), buf, p);
  }

  lemma {:induction false} ValueRuns(st: Parser, buf: Data, p: nat, e: nat)
    requires p <= e <= |buf| && st.cs == 16
    requires forall i | p <= i < e :: ValueChar(buf[i])
    ensures Run(st, buf, p) == Run(st, buf, e)
    decreases e - p
  {
    hide Run, Next;
    if p < e {
      ValueEdges(buf[p], st.relaxed);
      Silent(st, buf, p, 16);
      ValueRuns(st, buf, p + 1, e);
    }
  }

  lemma {:induction false} ValueEnds(st: Parser, buf: Data, p: nat) returns (e: nat)
    requires p <= |buf| && st.cs == 16 && Accepts(Run(st, buf, p))
    ensures p <= e < |buf| && (buf[e] == 10 || buf[e] == 13) && forall i | p <= i < e :: ValueChar(buf[i])
    decreases |buf| - p
  {
    hide Run, Next;
    NotStuck(st, buf, p);
    ValueEdges(buf[p], st.relaxed);
    if buf[p] == 10 || buf[p] == 13 {
      e := p;
    } else {
      Silent(st, buf, p, 16);
      e := ValueEnds(st, buf, p + 1);
    }
  }

  /** A name may start with a carriage return: state 18 then behaves like state 14. */
  lemma EnterName(st: Parser, buf: Data, p: nat)
    requires p < |buf| && st.cs == 13 && Token(buf[p]) && buf[p] != 10
    requires buf[p] == 13 ==> p + 1 < |buf| && buf[p + 1] != 10
    ensures Run(st, buf, p) == Run(st.(fieldStart := p, cs := 14), buf, p + 1)
  {
    hide Run, Next, Token;
    LineEdges(buf[p], st.relaxed);
    Step(st, buf, p, Next(13, Signed(buf[p]), st.relaxed));
    if buf[p] == 13 {
      LineEdges(buf[p + 1], st.relaxed);
      SameEdge(st.(fieldStart := p, cs := 18), st.(fieldStart := p, cs := 14), buf, p + 1);
    }
  }

  lemma Indices(buf: Data, p: nat, t: Data)
    requires At(buf, p, t)
    ensures forall i | 0 <= i < |t| :: buf[p + i] == t[i]
    ensures forall i | p <= i < p + |t| :: buf[i] == t[i - p]
  {
    forall i | 0 <= i < |t|
      ensures buf[p + i] == t[i]
    {
      assert buf[p..p + |t|][i] == buf[p + i];
    }
  }

  lemma NamePart(st: Parser, buf: Data, p: nat, name: Data)
    requires st.cs == 13 && WellFormedName(name) && At(buf, p, name + [58])
    ensures Run(st, buf, p) ==
            Run(st.(fieldStart := p, fieldLen := |name|, cs := 15), buf, p + |name| + 1)
  {
    hide Run, Next, Token;
    Cut(buf, p, name, [58]);
    Indices(buf, p, name);
    Indices(buf, p + |name|, [58]);
    assert Token(name[0]);
    EnterName(st, buf, p) by {
      LineEdges(58, st.relaxed);
    }
    NameRuns(st.(fieldStart := p, cs := 14), buf, p + 1, p + |name|);
  }

  /** The parser after the value `value` ending at `q`. */
  function WithField(st: Parser, mark: int, name: Data, value: Data): Parser {
    OnField(st.(mark := mark, cs := 13), name, value)
  }

  /** Where the parts of a header value lie. */
  lemma ValueCuts(buf: Data, p: nat, blanks: Data, value: Data, end: LineEnd)
    requires At(buf, p, blanks + (value + EndText(end)))
    ensures var v := p + |blanks|;
      var q := v + |value|;
      && q < |buf| && At(buf, q, EndText(end)) && buf[v..q] == value
      && (forall i | p <= i < v :: buf[i] == blanks[i - p])
      && (forall i | v <= i < q :: buf[i] == value[i - v])
      && buf[q] == EndText(end)[0]
  {
    hide EndText;
    assert |EndText(end)| > 0 by { EndIsNotEmpty(end); }
    Cut(buf, p, blanks, value + EndText(end));
    Cut(buf, p + |blanks|, value, EndText(end));
    Indices(buf, p, blanks);
    Indices(buf, p + |blanks|, value);
    Indices(buf, p + |blanks| + |value|, EndText(end));
  }

  lemma EndIsNotEmpty(end: LineEnd)
    ensures |EndText(end)| > 0
  {
  }

  lemma ValueFrom(st: Parser, buf: Data, p: nat, v: nat, q: nat, name: Data, end: LineEnd)
    requires st.cs == 15 && p <= v <= q < |buf| && At(buf, q, EndText(end)) && buf[q] == EndText(end)[0]
    requires (forall i | p <= i < v :: Blank(buf[i])) && (forall i | v <= i < q :: ValueChar(buf[i]))
    requires !Blank(buf[v]) && Next(16, Signed(buf[v]), st.relaxed).to != ERROR
    requires Span(buf, st.fieldStart, st.fieldStart + st.fieldLen) == name
    ensures q + |EndText(end)| <= |buf| && Run(st, buf, p) == Run(WithField(st, v, name, buf[v..q]), buf, q + |EndText(end)|)
  {
    hide Run, Next, Set, Signed, At, EndText, WithField, Blank, ValueChar;
    BlanksRun(st, buf, p, v);
    var s15 := st.(mark := if p < v then v - 1 else st.mark);
    EnterValue(s15, buf, v);
    var s16 := s15.(mark := v, cs := 16);
    ValueRuns(s16, buf, v, q);
    ValueCloses(s16, buf, v, q, name, buf[v..q], end);
    SameField(s16, st, v, name, buf[v..q]);
  }

  lemma ValuePart(st: Parser, buf: Data, p: nat, name: Data, blanks: Data, value: Data, end: LineEnd)
    requires st.cs == 15 && At(buf, p, blanks + (value + EndText(end)))
    requires (forall i | 0 <= i < |blanks| :: Blank(blanks[i])) && WellFormedValue(value)
    requires Span(buf, st.fieldStart, st.fieldStart + st.fieldLen) == name
    ensures var q := p + |blanks| + |value| + |EndText(end)|;
            q <= |buf| && Run(st, buf, p) == Run(WithField(st, p + |blanks|, name, value), buf, q)
  {
    hide *;
    ValueCuts(buf, p, blanks, value, end);
    var v := p + |blanks|;
    var q := v + |value|;
    assert value != [] ==> buf[v] == value[0];
    ValueStarts(buf[v], value, end, st.relaxed);
    ValueChars(value);
    ValueFrom(st, buf, p, v, q, name, end);
  }

  lemma ValueChars(value: Data)
    requires WellFormedValue(value)
    ensures forall i | 0 <= i < |value| :: ValueChar(value[i])
  {
    hide ValueChar;
  }

  lemma SameField(st: Parser, st': Parser, v: int, name: Data, value: Data)
    requires st == st'.(mark := v, cs := 16)
    ensures WithField(st, v, name, value) == WithField(st', v, name, value)
  {
  }

  /** The first byte of a value, or of the line end behind an empty one. */
  lemma ValueStarts(b: byte, value: Data, end: LineEnd, relaxed: bool)
    requires WellFormedValue(value) && b == if value == [] then EndText(end)[0] else value[0]
    ensures !Blank(b) && Next(16, Signed(b), relaxed).to != ERROR
  {
    ValueEdges(b, relaxed);
    hide Next, Signed;
  }

  /** The line end writes the field. */
  lemma ValueCloses(st: Parser, buf: Data, v: nat, q: nat, name: Data, value: Data, end: LineEnd)
    requires st.cs == 16 && st.mark == v <= q < |buf| && At(buf, q, EndText(end)) && buf[v..q] == value
    requires buf[q] == EndText(end)[0]
    requires Span(buf, st.fieldStart, st.fieldStart + st.fieldLen) == name
    ensures q + |EndText(end)| <= |buf| && Run(st, buf, q) == Run(WithField(st, v, name, value), buf, q + |EndText(end)|)
  {
    hide Run, Next, Set, Signed;
    ValueEdges(buf[q], st.relaxed);
    var e := Next(16, Signed(buf[q]), st.relaxed);
    LineEndRuns(st, buf, q, end, e, Take(st, e, buf, q));
    assert Span(buf, v, q) == value;
  }

  /** One header line is one assignment to the header map. */
  lemma LineRuns(st: Parser, buf: Data, p: nat, l: Line) returns (next: Parser)
    requires st.cs == 13 && WellFormedLine(l) && At(buf, p, LineText(l))
    ensures Run(st, buf, p) == Run(next, buf, p + |LineText(l)|)
    ensures next.cs == 13 && next.relaxed == st.relaxed && next.error == st.error
    ensures next.request == st.request.(headers := Set(st.request.headers, l.name, l.value))
  {
    hide Run, Set, WellFormedValue, Token;
    var tail := l.blanks + (l.value + EndText(l.end));
    ConcatAssociative(l.name, [58], tail);
    Cut(buf, p, l.name + [58], tail);
    NamePart(st, buf, p, l.name);
    Cut(buf, p, l.name, [58]);
    var s15 := st.(fieldStart := p, fieldLen := |l.name|, cs := 15);
    ValuePart(s15, buf, p + |l.name| + 1, l.name, l.blanks, l.value, l.end);
    next := WithField(s15, p + |l.name| + 1 + |l.blanks|, l.name, l.value);
  }

  lemma NameEndsAtColon(st: Parser, buf: Data, p: nat) returns (n: nat)
    requires st.cs == 13 && p < |buf| && buf[p] != 10 && !(buf[p] == 13 && p + 1 < |buf| && buf[p + 1] == 10)
    requires Accepts(Run(st, buf, p))
    ensures p < n <= |buf| && WellFormedName(buf[p..n]) && At(buf, p, buf[p..n] + [58])
  {
    hide Run, Next, Token;
    NotStuck(st, buf, p);
    LineEdges(buf[p], st.relaxed);
    if buf[p] == 13 {
      Step(st, buf, p, Next(13, Signed(buf[p]), st.relaxed));
      NotStuck(st.(fieldStart := p, cs := 18), buf, p + 1);
    }
    EnterName(st, buf, p);
    n := NameEnds(st.(fieldStart := p, cs := 14), buf, p + 1);
    assert At(buf, p, buf[p..n]) && At(buf, n, [58]);
    Glue(buf, p, buf[p..n], [58]);
    Indices(buf, p, buf[p..n]);
  }

  lemma ValueEndsAtLine(st: Parser, buf: Data, p: nat) returns (v: nat, q: nat, end: LineEnd)
    requires st.cs == 15 && p <= |buf| && Accepts(Run(st, buf, p))
    ensures p <= v <= q <= |buf| && (forall i | p <= i < v :: Blank(buf[i])) && WellFormedValue(buf[v..q])
    ensures At(buf, q, EndText(end))
  {
    hide Run, Next, ValueChar;
    v := BlanksEnd(st, buf, p);
    BlanksRun(st, buf, p, v);
    var s15 := st.(mark := if p < v then v - 1 else st.mark);
    NotStuck(s15, buf, v);
    ValueEdges(buf[v], st.relaxed);
    EnterValue(s15, buf, v);
    var s16 := s15.(mark := v, cs := 16);
    q := ValueEnds(s16, buf, v);
    ValueRuns(s16, buf, v, q);
    ValueEdges(buf[q], st.relaxed);
    end := LineEndEnds(s16, buf, q);
  }

  lemma LineEnds(st: Parser, buf: Data, p: nat) returns (l: Line)
    requires st.cs == 13 && p < |buf| && buf[p] != 10 && !(buf[p] == 13 && p + 1 < |buf| && buf[p + 1] == 10)
    requires Accepts(Run(st, buf, p))
    ensures WellFormedLine(l) && At(buf, p, LineText(l))
  {
    hide Run, Next, Modelled, WellFormedName, WellFormedValue, EndText, Blank, Signed, Accepts;
    var n := NameEndsAtColon(st, buf, p);
    NamePart(st, buf, p, buf[p..n]);
    var v, q, end := ValueEndsAtLine(st.(fieldStart := p, fieldLen := n - p, cs := 15), buf, n + 1);
    l := Line(buf[p..n], buf[n + 1..v], buf[v..q], end);
    Glue(buf, v, l.value, EndText(end));
    Glue(buf, n + 1, l.blanks, l.value + EndText(end));
    var tail := l.blanks + (l.value + EndText(end));
    Glue(buf, p, l.name + [58], tail);
    ConcatAssociative(l.name, [58], tail);
  }

  lemma {:induction false} LinesRun(st: Parser, buf: Data, p: nat, ls: seq<Line>) returns (next: Parser)
    requires st.cs == 13 && (forall i | 0 <= i < |ls| :: WellFormedLine(ls[i])) && At(buf, p, LinesText(ls))
    ensures Run(st, buf, p) == Run(next, buf, p + |LinesText(ls)|)
    ensures next.cs == 13 && next.relaxed == st.relaxed && next.error == st.error
    ensures next.request == st.request.(headers := SetLines(st.request.headers, ls))
    decreases |ls|
  {
    hide Run, LineText, WellFormedLine, Set;
    if ls == [] {
      next := st;
    } else {
      Cut(buf, p, LineText(ls[0]), LinesText(ls[1..]));
      var mid := LineRuns(st, buf, p, ls[0]);
      next := LinesRun(mid, buf, p + |LineText(ls[0])|, ls[1..]);
    }
  }

  /** The empty line stops the run just behind it. */
  lemma EmptyLineRuns(st: Parser, buf: Data, p: nat, last: LineEnd)
    requires st.cs == 13 && At(buf, p, EndText(last))
    ensures var r := Run(st, buf, p);
      && Accepts(r) && r.at == p + |EndText(last)| && r.exit.Returned?
      && r.st.request == st.request && r.st.error == st.error && r.st.relaxed == st.relaxed
  {
    hide Next;
    Indices(buf, p, EndText(last));
    LineEdges(buf[p], st.relaxed);
    if last == CrLf {
      LineEdges(buf[p + 1], st.relaxed);
      Step(st, buf, p, Edge(StartField, Nothing, Nothing, 18));
    }
  }

  lemma {:induction false} LinesEnd(st: Parser, buf: Data, p: nat) returns (ls: seq<Line>, last: LineEnd)
    requires st.cs == 13 && p <= |buf| && Accepts(Run(st, buf, p))
    ensures forall i | 0 <= i < |ls| :: WellFormedLine(ls[i])
    ensures At(buf, p, LinesText(ls) + EndText(last))
    decreases |buf| - p
  {
    hide Run, Next, LineText, WellFormedLine, Set;
    NotStuck(st, buf, p);
    if buf[p] == 10 {
      ls, last := [], Lf;
    } else if buf[p] == 13 && p + 1 < |buf| && buf[p + 1] == 10 {
      ls, last := [], CrLf;
    } else {
      var l := LineEnds(st, buf, p);
      var next := LineRuns(st, buf, p, l);
      assert |LineText(l)| > 0 by { LineIsNotEmpty(l); }
      var rest, end := LinesEnd(next, buf, p + |LineText(l)|);
      ls, last := [l] + rest, end;
      Glue(buf, p, LineText(l), LinesText(rest) + EndText(end));
      ConcatAssociative(LineText(l), LinesText(rest), EndText(end));
    }
  }

  lemma LineIsNotEmpty(l: Line)
    ensures |LineText(l)| > 0
  {
  }

  // ---------- The whole message ----------

  /** The request once the target has been read. */
  function WithTarget(r: Request, m: Message): Request {
    r.(path := m.path,
       query := if m.query.Some? then m.query.value else r.query,
       fragment := if m.fragment.Some? then m.fragment.value else r.fragment)
  }

  predicate WellFormedTarget(m: Message, relaxed: bool) {
    WellFormedPath(m.path, relaxed) &&
    (m.query.Some? ==> UriText(m.query.value, false, relaxed)) &&
    (m.fragment.Some? ==> UriText(m.fragment.value, false, relaxed))
  }

  /** An optional query, from the delimiter at `e` to the one at `g`. */
  lemma QueryPart(st: Parser, buf: Data, e: nat, g: nat, query: Option<Data>) returns (next: Parser)
    requires e <= g < |buf| && st.cs == After(buf[e]) && EndsLoop(buf[g], QueryLoop)
    requires buf[e..g] == OptionalText(63, query) && (query.Some? ==> UriText(query.value, false, st.relaxed))
    ensures Run(st, buf, e + 1) == Run(next, buf, g + 1)
    ensures next.cs == After(buf[g]) && next.relaxed == st.relaxed && next.error == st.error
    ensures next.request == st.request.(query := if query.Some? then query.value else st.request.query)
  {
    hide Run, UriText;
    next := st;
    if query.Some? {
      assert buf[e] == buf[e..g][0] == 63;
      assert buf[e + 1..g] == buf[e..g][1..] == query.value;
      QueryRuns(st, buf, e + 1, g);
      next := WithQuery(st, buf, e + 1, g);
    }
  }

  lemma FragmentPart(st: Parser, buf: Data, g: nat, h: nat, fragment: Option<Data>) returns (next: Parser)
    requires g <= h < |buf| && st.cs == After(buf[g]) && buf[h] == 32
    requires buf[g..h] == OptionalText(35, fragment) && (fragment.Some? ==> UriText(fragment.value, false, st.relaxed))
    ensures Run(st, buf, g + 1) == Run(next, buf, h + 1)
    ensures next.cs == 4 && next.relaxed == st.relaxed && next.error == st.error
    ensures next.request == st.request.(fragment := if fragment.Some? then fragment.value else st.request.fragment)
  {
    hide Run, UriText;
    next := st;
    if fragment.Some? {
      assert buf[g] == buf[g..h][0] == 35;
      assert buf[g + 1..h] == buf[g..h][1..] == fragment.value;
      FragmentRuns(st, buf, g + 1, h);
      next := WithFragment(st, buf, g + 1, h);
    }
  }

  /** The byte that follows an optional part is its mark, or else the next delimiter. */
  lemma OptionalStarts(buf: Data, p: nat, mark: byte, t: Option<Data>, next: byte)
    requires At(buf, p, OptionalText(mark, t)) && p + |OptionalText(mark, t)| < |buf|
    requires buf[p + |OptionalText(mark, t)|] == next
    ensures buf[p] == if t.Some? then mark else next
  {
    if t.Some? {
      Indices(buf, p, OptionalText(mark, t));
    }
  }

  lemma AtIs(buf: Data, p: nat, t: Data)
    requires At(buf, p, t)
    ensures p + |t| <= |buf| && buf[p..p + |t|] == t
  {
  }

  lemma ThreeCuts(buf: Data, p: nat, all: Data, a: Data, b: Data, c: Data)
    requires all == a + (b + c) && At(buf, p, all + [32])
    ensures var e := p + |a|;
      var g := e + |b|;
      var h := g + |c|;
      && h == p + |all| < |buf| && buf[h] == 32
      && At(buf, p, a) && At(buf, e, b) && At(buf, g, c)
  {
    hide At;
    Cut(buf, p, all, [32]);
    Cut(buf, p, a, b + c);
    Cut(buf, p + |a|, b, c);
    ByteIs(buf, p + |all|, 32);
  }

  lemma ByteIs(buf: Data, p: nat, b: byte)
    requires At(buf, p, [b])
    ensures p < |buf| && buf[p] == b
  {
    assert buf[p..p + 1][0] == b;
  }

  /** Where the parts of a target lie. */
  lemma TargetCuts(buf: Data, p: nat, m: Message)
    requires At(buf, p, TargetText(m) + [32])
    ensures var qt, ft := OptionalText(63, m.query), OptionalText(35, m.fragment);
      var e := p + |m.path|;
      var g := e + |qt|;
      var h := g + |ft|;
      && h == p + |TargetText(m)| < |buf| && buf[h] == 32
      && buf[p..e] == m.path && buf[e..g] == qt && buf[g..h] == ft
      && buf[g] == (if m.fragment.Some? then 35 else 32)
      && buf[e] == (if m.query.Some? then 63 else buf[g])
  {
    TargetIs(m);
    hide *;
    var qt, ft := OptionalText(63, m.query), OptionalText(35, m.fragment);
    var e := p + |m.path|;
    var g := e + |qt|;
    ThreeCuts(buf, p, TargetText(m), m.path, qt, ft);
    AtIs(buf, p, m.path);
    AtIs(buf, e, qt);
    AtIs(buf, g, ft);
    OptionalStarts(buf, g, 35, m.fragment, 32);
    OptionalStarts(buf, e, 63, m.query, buf[g]);
  }

  lemma TargetIs(m: Message)
    ensures TargetText(m) == m.path + (OptionalText(63, m.query) + OptionalText(35, m.fragment))
  {
  }

  lemma TargetRuns(st: Parser, buf: Data, p: nat, m: Message) returns (next: Parser)
    requires st.cs == 3 && WellFormedTarget(m, st.relaxed) && At(buf, p, TargetText(m) + [32])
    ensures Run(st, buf, p) == Run(next, buf, p + |TargetText(m)| + 1)
    ensures next.cs == 4 && next.relaxed == st.relaxed && next.error == st.error
    ensures next.request == WithTarget(st.request, m)
  {
    hide Run, WellFormedPath, UriText, OptionalText, TargetText, Modelled, Next, At;
    TargetCuts(buf, p, m);
    var e := p + |m.path|;
    var g := e + |OptionalText(63, m.query)|;
    var h := g + |OptionalText(35, m.fragment)|;
    PathRuns(st, buf, p, e);
    next := WithPath(st, buf, p, e);
    next := QueryPart(next, buf, e, g, m.query);
    next := FragmentPart(next, buf, g, h, m.fragment);
  }

  lemma QueryPartEnds(st: Parser, buf: Data, e: nat) returns (query: Option<Data>, g: nat)
    requires e < |buf| && EndsLoop(buf[e], PathLoop) && st.cs == After(buf[e]) && Accepts(Run(st, buf, e + 1))
    ensures e <= g < |buf| && EndsLoop(buf[g], QueryLoop) && buf[e..g] == OptionalText(63, query)
    ensures query.Some? ==> UriText(query.value, false, st.relaxed)
  {
    hide Run, UriText;
    query, g := None, e;
    if buf[e] == 63 {
      g := QueryEnds(st, buf, e + 1);
      query := Some(buf[e + 1..g]);
      assert buf[e..g] == [63] + buf[e + 1..g];
    }
  }

  lemma FragmentPartEnds(st: Parser, buf: Data, g: nat) returns (fragment: Option<Data>, h: nat)
    requires g < |buf| && EndsLoop(buf[g], QueryLoop) && st.cs == After(buf[g]) && Accepts(Run(st, buf, g + 1))
    ensures g <= h < |buf| && buf[h] == 32 && buf[g..h] == OptionalText(35, fragment)
    ensures fragment.Some? ==> UriText(fragment.value, false, st.relaxed)
  {
    hide Run, UriText;
    fragment, h := None, g;
    if buf[g] == 35 {
      h := FragmentEnds(st, buf, g + 1);
      fragment := Some(buf[g + 1..h]);
      assert buf[g..h] == [35] + buf[g + 1..h];
    }
  }

  lemma TargetEnds(st: Parser, buf: Data, p: nat, m0: Message) returns (m: Message)
    requires st.cs == 3 && p <= |buf| && Accepts(Run(st, buf, p))
    ensures m == m0.(path := m.path, query := m.query, fragment := m.fragment)
    ensures WellFormedTarget(m, st.relaxed) && At(buf, p, TargetText(m) + [32])
  {
    hide Run, WellFormedPath, UriText, OptionalText;
    var e := PathEnds(st, buf, p);
    PathRuns(st, buf, p, e);
    var next := WithPath(st, buf, p, e);
    var query, g := QueryPartEnds(next, buf, e);
    next := QueryPart(next, buf, e, g, query);
    var fragment, h := FragmentPartEnds(next, buf, g);
    m := m0.(path := buf[p..e], query := query, fragment := fragment);
    assert buf[p..h + 1] == buf[p..e] + (buf[e..g] + buf[g..h]) + [32];
  }

  lemma NamesHoldNoBlank(v: Method)
    requires v != INVALID
    ensures forall k | 0 <= k < |MethodName(v)| :: MethodName(v)[k] != ' '
  {
    if v != MSEARCH {
      hide MethodName;
      NameLetters(v);
    }
  }

  lemma PrefixOfToken(v: Method, verb: Data, rest: Data)
    requires v != INVALID
    ensures HasPrefix(MethodName(v), verb + ([32] + rest)) <==> HasPrefix(MethodName(v), verb)
  {
    NamesHoldNoBlank(v);
    var name, text := MethodName(v), verb + ([32] + rest);
    if |name| > |verb| {
      assert text[|verb|] == 32;
      assert text[|verb|] != name[|verb|] as int;
    }
  }

  /** Looking for a method name never reaches past the blank that ends the token. */
  lemma MethodOfToken(verb: Data, rest: Data)
    ensures CharsToMethod(verb + ([32] + rest)) == CharsToMethod(verb)
  {
    hide CharsToMethod, MethodName, HasPrefix;
    var text := verb + ([32] + rest);
    var v, u := CharsToMethod(text), CharsToMethod(verb);
    if v != INVALID {
      CharsToMethodIsPrefix(text, v);
      PrefixOfToken(v, verb, rest);
      CharsToMethodIsPrefix(verb, v);
    } else if u != INVALID {
      CharsToMethodIsPrefix(verb, u);
      PrefixOfToken(u, verb, rest);
      CharsToMethodIsPrefix(text, u);
    }
  }

  lemma StartEdge(b: byte, relaxed: bool)
    requires VerbChar(b)
    ensures Next(START, Signed(b), relaxed) == Edge(MarkToken, Nothing, Nothing, 2)
  {
  }

  lemma VerbLies(buf: Data, verb: Data, rest: Data)
    requires WellFormedVerb(verb) && buf == verb + ([32] + rest)
    ensures 1 <= |verb| <= 20 && |verb| < |buf| && buf[|verb|] == 32 && buf[0] == verb[0]
    ensures forall i | 0 <= i < |verb| :: VerbChar(buf[i])
  {
    forall i | 0 <= i < |verb|
      ensures VerbChar(buf[i])
    {
      assert buf[i] == verb[i];
    }
  }

  lemma VerbPart(st: Parser, buf: Data, verb: Data, rest: Data)
    requires st.cs == START && WellFormedVerb(verb) && buf == verb + ([32] + rest)
    ensures Run(st, buf, 0) == Run(AfterMethod(st.(mark := 0), verb), buf, |verb| + 1)
  {
    VerbLies(buf, verb, rest);
    MethodOfToken(verb, rest);
    hide *;
    VerbRead(st, buf, |verb|, verb);
  }

  /** The parser once the method text `t` has been read. */
  function AfterMethod(st: Parser, t: Data): Parser {
    OnMethod(st, t).(cs := 3)
  }

  lemma VerbTaken(st: Parser, buf: Data, q: nat, k: nat, e: nat)
    requires 1 <= k && k + (e - q) <= 20 && st.cs == VerbState(k) && q <= e < |buf| && buf[e] == 32
    requires (forall i | q <= i < e :: VerbChar(buf[i])) && 0 <= st.mark <= |buf|
    ensures Run(st, buf, q) == Run(AfterMethod(st, buf[st.mark..]), buf, e + 1)
  {
    hide Run, Next, CharsToMethod;
    VerbRuns(st, buf, q, k, e - q);
    VerbEdges(k + (e - q), buf[e], st.relaxed);
    Step(st.(cs := VerbState(k + (e - q))), buf, e, Edge(RequestMethod, Nothing, Nothing, 3));
    assert Span(buf, st.mark, |buf|) == buf[st.mark..];
  }

  lemma VerbRead(st: Parser, buf: Data, n: nat, verb: Data)
    requires st.cs == START && 1 <= n <= 20 && n < |buf| && buf[n] == 32 && forall i | 0 <= i < n :: VerbChar(buf[i])
    requires CharsToMethod(buf) == CharsToMethod(verb)
    ensures Run(st, buf, 0) == Run(AfterMethod(st.(mark := 0), verb), buf, n + 1)
  {
    hide Run, CharsToMethod, Next, VerbChar;
    StartEdge(buf[0], st.relaxed);
    var s2 := st.(mark := 0, cs := 2);
    Step(st, buf, 0, Edge(MarkToken, Nothing, Nothing, 2));
    VerbTaken(s2, buf, 1, 1, n);
    assert buf[0..] == buf;
  }

  lemma VerbPartEnds(st: Parser, buf: Data) returns (verb: Data)
    requires st.cs == START && Accepts(Run(st, buf, 0))
    ensures WellFormedVerb(verb) && At(buf, 0, verb + [32])
  {
    hide Run;
    NotStuck(st, buf, 0);
    Step(st, buf, 0, Edge(MarkToken, Nothing, Nothing, 2));
    var e := VerbEnds(st.(mark := 0, cs := 2), buf, 1, 1);
    verb := buf[0..e];
    assert At(buf, e, [32]);
    Glue(buf, 0, verb, [32]);
  }

  lemma HeadersAreRead(st: Parser, buf: Data, p: nat, m: Message)
    requires st.cs == 13 && At(buf, p, HeaderText(m)) && forall i | 0 <= i < |m.lines| :: WellFormedLine(m.lines[i])
    ensures var r := Run(st, buf, p);
      && Accepts(r) && r.at == p + |HeaderText(m)| && r.exit.Returned? && r.st.error == st.error
      && r.st.request == st.request.(headers := SetLines(st.request.headers, m.lines))
  {
    hide Run, WellFormedLine, LinesText;
    Cut(buf, p, LinesText(m.lines), EndText(m.last));
    var next := LinesRun(st, buf, p, m.lines);
    EmptyLineRuns(next, buf, p + |LinesText(m.lines)|, m.last);
  }

  lemma AfterVerbIsRead(st: Parser, buf: Data, p: nat, m: Message)
    requires st.cs == 3 && WellFormed(m, st.relaxed) && At(buf, p, AfterVerb(m))
    ensures var r := Run(st, buf, p);
      && Accepts(r) && r.at == p + |AfterVerb(m)| && r.exit.Returned? && r.st.error == st.error
      && r.st.request == WithTarget(st.request, m).(
           version := if m.minor == 49 then 0x11 else 0x10, headers := SetLines(st.request.headers, m.lines))
  {
    hide Run, WellFormedVerb, WellFormedPath, UriText, WellFormedLine, TargetText, AfterTarget, At, SetLines;
    ConcatAssociative(TargetText(m), [32], AfterTarget(m));
    Cut(buf, p, TargetText(m) + [32], AfterTarget(m));
    var s4 := TargetRuns(st, buf, p, m);
    AfterTargetIsRead(s4, buf, p + |TargetText(m)| + 1, m);
  }

  lemma AfterTargetIsRead(st: Parser, buf: Data, q: nat, m: Message)
    requires st.cs == 4 && (m.minor == 48 || m.minor == 49) && At(buf, q, AfterTarget(m))
    requires forall i | 0 <= i < |m.lines| :: WellFormedLine(m.lines[i])
    ensures var r := Run(st, buf, q);
      && Accepts(r) && r.at == q + |AfterTarget(m)| && r.exit.Returned? && r.st.error == st.error
      && r.st.request == st.request.(
           version := if m.minor == 49 then 0x11 else 0x10, headers := SetLines(st.request.headers, m.lines))
  {
    hide Run, WellFormedLine, HeaderText, At, SetLines, EndText;
    Cut(buf, q, VersionText(m), HeaderText(m));
    VersionRuns(st, buf, q, m.minor, m.end);
    HeadersAreRead(WithVersion(st, q, m.minor), buf, q + |VersionText(m)|, m);
  }

  lemma WellFormedParts(m: Message, relaxed: bool)
    requires WellFormed(m, relaxed)
    ensures WellFormedVerb(m.verb) && (m.minor == 48 || m.minor == 49)
  {
    hide WellFormedVerb, WellFormedPath, UriText, WellFormedLine;
  }

  lemma MessageGoesOn(st: Parser, buf: Data, m: Message)
    requires st.request == NEW_REQUEST && !st.error && WellFormed(m, st.relaxed) && At(buf, |m.verb| + 1, AfterVerb(m))
    ensures var r := Run(AfterMethod(st.(mark := 0), m.verb), buf, |m.verb| + 1);
      && Accepts(r) && r.at == |m.verb| + 1 + |AfterVerb(m)| && r.exit.Returned?
      && r.st.request == Meaning(m) && r.st.error == (CharsToMethod(m.verb) == INVALID)
  {
    var s3 := AfterMethod(st.(mark := 0), m.verb);
    hide *;
    WellFormedParts(m, st.relaxed);
    ReadIsMeaning(st, m);
    AfterVerbIsRead(s3, buf, |m.verb| + 1, m);
  }

  /** Completeness, with every callback: a well-formed message is accepted whatever follows it, the
      run stops just behind it, and the request holds exactly its parts. */
  lemma MessageIsAccepted(relaxed: bool, queryStart: nat, m: Message, rest: Data)
    requires WellFormed(m, relaxed)
    ensures var r := Execute(Fresh(relaxed, queryStart), MessageText(m) + rest);
      && Accepts(r) && r.at == |MessageText(m)| && r.exit.Returned?
      && r.st.request == Meaning(m)
      && r.st.error == (CharsToMethod(m.verb) == INVALID)
  {
    var st := Fresh(relaxed, queryStart);
    var buf := MessageText(m) + rest;
    hide *;
    MessageParts(m, rest);
    WellFormedParts(m, relaxed);
    FreshExecutes(relaxed, queryStart, buf);
    MessageGoesOn(st, buf, m);
    VerbPart(st, buf, m.verb, AfterVerb(m) + rest);
  }

  lemma FreshExecutes(relaxed: bool, queryStart: nat, buf: Data)
    requires buf != []
    ensures var st := Fresh(relaxed, queryStart);
      && st.cs == START && st.relaxed == relaxed && st.request == NEW_REQUEST && !st.error
      && Execute(st, buf) == Unwound(st.cs, Run(st, buf, 0))
    ensures forall r: Stop, cs: int | r.exit.Returned? :: Unwound(cs, r) == r
  {
    hide Run;
  }

  lemma MessageParts(m: Message, rest: Data)
    ensures var buf := MessageText(m) + rest;
      && buf != [] && buf == m.verb + ([32] + (AfterVerb(m) + rest))
      && At(buf, |m.verb| + 1, AfterVerb(m)) && |MessageText(m)| == |m.verb| + 1 + |AfterVerb(m)|
  {
    hide AfterVerb;
    var buf := MessageText(m) + rest;
    assert buf == (m.verb + [32]) + (AfterVerb(m) + rest);
  }

  /** What a fresh parser makes of the method and the parts behind it is the meaning. */
  lemma ReadIsMeaning(st: Parser, m: Message)
    requires st.request == NEW_REQUEST && !st.error && (m.minor == 48 || m.minor == 49)
    ensures var s3 := AfterMethod(st.(mark := 0), m.verb);
      && s3.cs == 3 && s3.relaxed == st.relaxed && s3.error == (CharsToMethod(m.verb) == INVALID)
      && WithTarget(s3.request, m).(
           version := if m.minor == 49 then 0x11 else 0x10, headers := SetLines(s3.request.headers, m.lines)) == Meaning(m)
  {
    hide CharsToMethod, SetLines;
  }

  /** Soundness from the target on. */
  lemma AfterVerbEnds(st: Parser, buf: Data, p: nat, m0: Message) returns (m: Message)
    requires st.cs == 3 && p <= |buf| && Accepts(Run(st, buf, p)) && WellFormedVerb(m0.verb)
    ensures WellFormed(m, st.relaxed) && At(buf, p, AfterVerb(m)) && m.verb == m0.verb
  {
    hide Run, WellFormedVerb, WellFormedPath, UriText, WellFormedLine, TargetText, LinesText;
    m := TargetEnds(st, buf, p, m0);
    var s4 := TargetRuns(st, buf, p, m);
    var q := p + |TargetText(m)| + 1;
    var minor, end := VersionEnds(s4, buf, q);
    VersionRuns(s4, buf, q, minor, end);
    var target := m;
    m := m.(minor := minor, end := end);
    var lines, last := LinesEnd(WithVersion(s4, q, minor), buf, q + |VersionText(m)|);
    m := m.(lines := lines, last := last);
    assert TargetText(m) == TargetText(target) by { SameTarget(m, target); }
    Glue(buf, q, VersionText(m), HeaderText(m));
    Glue(buf, p, TargetText(m) + [32], AfterTarget(m));
    ConcatAssociative(TargetText(m), [32], AfterTarget(m));
  }

  lemma SameTarget(m: Message, m': Message)
    requires m.path == m'.path && m.query == m'.query && m.fragment == m'.fragment
    ensures TargetText(m) == TargetText(m')
  {
  }

  /** Soundness: an accepted input starts with a well-formed message. */
  lemma AcceptedIsMessage(relaxed: bool, queryStart: nat, buf: Data) returns (m: Message)
    requires Accepts(Execute(Fresh(relaxed, queryStart), buf))
    ensures WellFormed(m, relaxed) && MessageText(m) <= buf
  {
    hide Run, WellFormedVerb, WellFormed, AfterVerb, CharsToMethod;
    var st := Fresh(relaxed, queryStart);
    var verb := VerbPartEnds(st, buf);
    var p := |verb|;
    Cut(buf, 0, verb, [32]);
    assert buf[p] == buf[p..p + 1][0] == 32;
    assert buf == buf[0..p] + ([buf[p]] + buf[p + 1..]);
    VerbPart(st, buf, verb, buf[p + 1..]);
    m := AfterVerbEnds(AfterMethod(st.(mark := 0), verb), buf, p + 1,
                       Message(verb, [], None, None, 48, Lf, [], Lf));
    Glue(buf, p, [32], AfterVerb(m));
    Glue(buf, 0, verb, [32] + AfterVerb(m));
    assert buf[..|MessageText(m)|] == MessageText(m);
  }

  /** The table accepts exactly the inputs that start with a message of the grammar; the text it
      consumed is that message, and the request it built is the message's meaning. */
  lemma TableIsGrammar(relaxed: bool, queryStart: nat, buf: Data)
    ensures var r := Execute(Fresh(relaxed, queryStart), buf);
      && (Accepts(r) <==> exists m :: WellFormed(m, relaxed) && MessageText(m) <= buf)
      && (forall m | WellFormed(m, relaxed) && MessageText(m) <= buf ::
            r.at == |MessageText(m)| && r.st.request == Meaning(m))
  {
    var r := Execute(Fresh(relaxed, queryStart), buf);
    hide Run, Execute, WellFormed, MessageText, Meaning;
    if Accepts(r) {
      var m := AcceptedIsMessage(relaxed, queryStart, buf);
      assert WellFormed(m, relaxed) && MessageText(m) <= buf;
    }
    forall m | WellFormed(m, relaxed) && MessageText(m) <= buf
      ensures Accepts(r) && r.at == |MessageText(m)| && r.st.request == Meaning(m)
    {
      assert buf == MessageText(m) + buf[|MessageText(m)|..];
      MessageIsAccepted(relaxed, queryStart, m, buf[|MessageText(m)|..]);
    }
  }
}
