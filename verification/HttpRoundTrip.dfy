/** Printing a request and parsing the text gives the request back. */
module HttpRoundTrip {
  import opened Wrappers
  import opened Bytes
  import opened HttpRequest
  import opened HttpTable
  import opened HttpParser
  import opened HttpGrammar

  // ---------- What can be printed and read back ----------

  predicate PrintableField(f: Field) {
    Key(f.name) == Key(CONNECTION) || (WellFormedName(f.name) && WellFormedValue(f.value))
  }

  /** An origin-form request: any known method but `M-SEARCH`, a path that does not start with two
      slashes, URI text, version 1.0 or 1.1 and header fields of the grammar. */
  predicate Printable(r: Request, relaxed: bool) {
    r.verb != INVALID && r.verb != MSEARCH && (r.version == 0x10 || r.version == 0x11) &&
    WellFormedPath(r.path, relaxed) && UriText(r.query, false, relaxed) && UriText(r.fragment, false, relaxed) &&
    Sorted(r.headers) && forall i | 0 <= i < |r.headers| :: PrintableField(r.headers[i])
  }

  function LineOf(f: Field): Line {
    Line(f.name, [32], f.value, CrLf)
  }

  function LinesOf(fs: Headers): (ls: seq<Line>)
    ensures |ls| == |fs|
    ensures forall i | 0 <= i < |fs| :: ls[i] == LineOf(fs[i])
  {
    if fs == [] then [] else [LineOf(fs[0])] + LinesOf(fs[1..])
  }

  function Optional(t: Data): Option<Data> {
    if t == [] then None else Some(t)
  }

  /** The message a printed request is. */
  function MessageOf(r: Request): Message {
    Message(Text(MethodName(r.verb)), r.path, Optional(r.query), Optional(r.fragment),
            if r.version == 0x11 then 49 else 48, CrLf, LinesOf(PrintedFields(r)), CrLf)
  }

  lemma {:induction false} FieldLinesAreLines(fs: Headers)
    ensures FieldLines(fs) == LinesText(LinesOf(fs))
  {
    if fs != [] {
      FieldLinesAreLines(fs[1..]);
      var f := fs[0];
      assert LinesOf(fs)[1..] == LinesOf(fs[1..]);
      assert FieldLine(f) == LineText(LineOf(f));
    }
  }

  lemma VersionIsMessage(r: Request)
    requires r.version == 0x10 || r.version == 0x11
    ensures PrintedVersion(r) == [32] + VersionText(MessageOf(r))
  {
    hide PrintedFields;
    assert Decimal(1) == [49];
    assert r.version / 16 == 1 && r.version % 16 == r.version - 16;
    assert Decimal(r.version % 16) == [MessageOf(r).minor];
    assert Text(" HTTP/") == [32, 72, 84, 84, 80, 47];
  }

  lemma RequestLineIsMessage(r: Request)
    requires r.version == 0x10 || r.version == 0x11
    ensures var m := MessageOf(r); RequestLine(r) == m.verb + [32] + TargetText(m) + ([32] + VersionText(m))
  {
    hide PrintedFields, Text, MethodName, PrintedVersion, VersionText;
    VersionIsMessage(r);
    assert PrintedTarget(r) == TargetText(MessageOf(r));
  }

  /** The printer writes exactly the text of that message. */
  lemma PrintedIsMessage(r: Request)
    requires r.version == 0x10 || r.version == 0x11
    ensures PrintedHead(r) == MessageText(MessageOf(r))
  {
    var m := MessageOf(r);
    hide RequestLine, TargetText, VersionText, FieldLines, LinesText, LinesOf, PrintedFields, Text, MethodName;
    RequestLineIsMessage(r);
    FieldLinesAreLines(PrintedFields(r));
  }

  lemma NameIsVerb(v: Method)
    requires v != INVALID && v != MSEARCH
    ensures WellFormedVerb(Text(MethodName(v)))
    ensures CharsToMethod(Text(MethodName(v))) == v
  {
    hide MethodName, CharsToMethod;
    NameChars(v);
    CapitalsAreVerb(MethodName(v));
    CharsToMethodIsPrefix(Text(MethodName(v)), v);
  }

  lemma CapitalsAreVerb(name: string)
    requires 1 <= |name| <= 20 && forall k | 0 <= k < |name| :: 'A' <= name[k] <= 'Z'
    ensures WellFormedVerb(Text(name)) && HasPrefix(name, Text(name))
  {
    var t := Text(name);
    forall k | 0 <= k < |name|
      ensures t[k] == name[k] as int && VerbChar(t[k])
    {
      assert 'A' <= name[k] <= 'Z';
    }
  }

  lemma NameChars(v: Method)
    requires v != INVALID && v != MSEARCH
    ensures 1 <= |MethodName(v)| <= 20
    ensures forall k | 0 <= k < |MethodName(v)| :: 'A' <= MethodName(v)[k] <= 'Z'
  {
    hide MethodName;
    NameLetters(v);
  }

  lemma LiteralFields(r: Request)
    ensures PrintableHeader(Field(CONNECTION, ConnectionValue(r.close)))
    ensures PrintableHeader(Field(CONTENT_LENGTH, Decimal(|r.body|)))
  {
    LiteralNames();
    LiteralValues();
    hide WellFormedName, Text;
  }

  lemma LiteralNames()
    ensures WellFormedName(CONNECTION) && WellFormedName(CONTENT_LENGTH)
  {
    assert CONNECTION == [99, 111, 110, 110, 101, 99, 116, 105, 111, 110];
    assert CONTENT_LENGTH == [99, 111, 110, 116, 101, 110, 116, 45, 108, 101, 110, 103, 116, 104];
    TokenWord(CONNECTION);
    TokenWord(CONTENT_LENGTH);
    hide Token;
  }

  lemma TokenWord(name: Data)
    requires forall i | 0 <= i < |name| :: 97 <= name[i] <= 122 || name[i] == 45
    ensures forall i | 0 <= i < |name| :: Token(name[i])
  {
  }

  lemma LiteralValues()
    ensures WellFormedValue(Text("close")) && WellFormedValue(Text("keep-alive"))
  {
    assert Text("close") == [99, 108, 111, 115, 101];
    assert Text("keep-alive") == [107, 101, 101, 112, 45, 97, 108, 105, 118, 101];
  }

  predicate PrintableHeader(f: Field) {
    WellFormedName(f.name) && WellFormedValue(f.value)
  }

  lemma {:induction false} OtherFieldsArePrintable(h: Headers)
    requires forall i | 0 <= i < |h| :: PrintableField(h[i])
    ensures forall i | 0 <= i < |OtherFields(h)| :: PrintableHeader(OtherFields(h)[i])
  {
    hide WellFormedName, WellFormedValue, Key;
    if h != [] {
      OtherFieldsArePrintable(h[1..]);
      assert PrintableField(h[0]);
    }
  }

  lemma PrintedLines(r: Request)
    requires forall i | 0 <= i < |r.headers| :: PrintableField(r.headers[i])
    ensures forall i | 0 <= i < |PrintedFields(r)| :: WellFormedLine(LinesOf(PrintedFields(r))[i])
  {
    hide WellFormedName, WellFormedValue, OtherFields, Decimal, Text, PrintableField;
    LiteralFields(r);
    OtherFieldsArePrintable(r.headers);
    var fs := PrintedFields(r);
    forall i | 0 <= i < |fs|
      ensures WellFormedLine(LinesOf(fs)[i])
    {
      assert PrintableHeader(fs[i]);
      hide LinesOf;
    }
  }

  lemma PrintedTargetIsWellFormed(r: Request, relaxed: bool)
    requires Printable(r, relaxed)
    ensures var m := MessageOf(r);
      && WellFormedVerb(m.verb) && WellFormedPath(m.path, relaxed)
      && (m.query.Some? ==> UriText(m.query.value, false, relaxed))
      && (m.fragment.Some? ==> UriText(m.fragment.value, false, relaxed))
      && (m.minor == 48 || m.minor == 49)
  {
    hide WellFormedVerb, WellFormedPath, UriText, MethodName, Text, PrintedFields, LinesOf, PrintableField, Sorted;
    NameIsVerb(r.verb);
  }

  lemma PrintedIsWellFormed(r: Request, relaxed: bool)
    requires Printable(r, relaxed)
    ensures WellFormed(MessageOf(r), relaxed)
  {
    hide WellFormedVerb, WellFormedPath, UriText, WellFormedLine, MethodName, Text, PrintedFields, PrintableField, Sorted;
    PrintedLines(r);
    PrintedTargetIsWellFormed(r, relaxed);
  }

  // ---------- The header map ----------

  /** The value the last of the fields named `name` gives, or `otherwise`. */
  function Last(fs: Headers, name: Data, otherwise: Lookup): Lookup
    decreases |fs|
  {
    if fs == [] then otherwise
    else Last(fs[1..], name, if Key(fs[0].name) == Key(name) then Found(fs[0].value) else otherwise)
  }

  lemma {:induction false} LastOfConcat(a: Headers, b: Headers, name: Data, otherwise: Lookup)
    ensures Last(a + b, name, otherwise) == Last(b, name, Last(a, name, otherwise))
    decreases |a|
  {
    hide Key;
    if a == [] {
      assert a + b == b;
    } else {
      assert (a + b)[1..] == a[1..] + b;
      LastOfConcat(a[1..], b, name, if Key(a[0].name) == Key(name) then Found(a[0].value) else otherwise);
    }
  }

  lemma {:induction false} GetAfterLines(h: Headers, fs: Headers, name: Data)
    requires Sorted(h)
    ensures Sorted(SetLines(h, LinesOf(fs)))
    ensures Get(SetLines(h, LinesOf(fs)), name) == Last(fs, name, Get(h, name))
    decreases |fs|
  {
    hide Key, Set, Get, Sorted;
    if fs != [] {
      SetKeepsSorted(h, fs[0].name, fs[0].value);
      GetAfterSet(h, fs[0].name, fs[0].value, name);
      assert LinesOf(fs)[1..] == LinesOf(fs[1..]);
      GetAfterLines(Set(h, fs[0].name, fs[0].value), fs[1..], name);
    }
  }

  /** In a sorted map no later field can overrule an earlier one. */
  lemma {:induction false} LastOfOthers(h: Headers, name: Data, otherwise: Lookup)
    requires Sorted(h)
    ensures Last(OtherFields(h), name, otherwise) ==
            if Key(name) == Key(CONNECTION) || Get(h, name).Absent? then otherwise else Get(h, name)
    decreases |h|
  {
    hide Key;
    if h != [] {
      var other := if Key(h[0].name) == Key(name) then Found(h[0].value) else otherwise;
      if Key(h[0].name) == Key(name) {
        NoLaterField(h, name);
      }
      LastOfOthers(h[1..], name, if Key(h[0].name) == Key(CONNECTION) then otherwise else other);
      if Key(h[0].name) != Key(CONNECTION) {
        assert OtherFields(h)[1..] == OtherFields(h[1..]);
      } else {
        assert OtherFields(h) == OtherFields(h[1..]);
      }
    }
  }

  lemma NoLaterField(h: Headers, name: Data)
    requires Sorted(h) && h != [] && Key(h[0].name) == Key(name)
    ensures Get(h[1..], name).Absent?
  {
    hide Key, Less;
    GetFound(h[1..], name);
    forall f | f in h[1..]
      ensures Key(f.name) != Key(name)
    {
      var j :| 0 < j < |h| && h[j] == f;
      assert Less(Key(h[0].name), Key(h[j].name));
      LessTotal(Key(name), Key(name));
    }
  }

  lemma {:induction false} KeyLength(s: Data)
    requires forall i | 0 <= i < |s| :: s[i] != 0
    ensures |Key(s)| == |s|
  {
    CStringIsAll(s);
  }

  lemma KeysOfDifferentLength(s: Data, t: Data)
    requires (forall i | 0 <= i < |s| :: s[i] != 0) && forall i | 0 <= i < |t| :: t[i] != 0
    requires |s| != |t|
    ensures Key(s) != Key(t)
  {
    KeyLength(s);
    KeyLength(t);
  }

  lemma LiteralKeysDiffer()
    ensures Key(CONNECTION) != Key(CONTENT_LENGTH)
  {
    hide Key;
    LiteralFields(NEW_REQUEST);
    assert |CONNECTION| == 10 && |CONTENT_LENGTH| == 14;
    KeysOfDifferentLength(CONNECTION, CONTENT_LENGTH);
  }

  /** What a lookup must find after the round trip: the stored value, except that `connection` tells
      the close flag and a non-empty body determines `content-length`. */
  function Expected(r: Request, name: Data): Lookup {
    if Key(name) == Key(CONTENT_LENGTH) && r.body != [] then Found(Decimal(|r.body|))
    else if Key(name) == Key(CONNECTION) then Found(ConnectionValue(r.close))
    else Get(r.headers, name)
  }

  lemma HeadersComeBack(r: Request, name: Data)
    requires Sorted(r.headers)
    ensures Sorted(SetLines([], LinesOf(PrintedFields(r))))
    ensures Get(SetLines([], LinesOf(PrintedFields(r))), name) == Expected(r, name)
  {
    var first := [Field(CONNECTION, ConnectionValue(r.close))];
    var last := if r.body == [] then [] else [Field(CONTENT_LENGTH, Decimal(|r.body|))];
    GetAfterLines([], PrintedFields(r), name);
    LastOfConcat(first + OtherFields(r.headers), last, name, Absent);
    LastOfConcat(first, OtherFields(r.headers), name, Absent);
    LastOfOthers(r.headers, name, Last(first, name, Absent));
    LiteralKeysDiffer();
    hide Key, OtherFields, Decimal;
    assert Last(first, name, Absent) == if Key(CONNECTION) == Key(name) then Found(ConnectionValue(r.close)) else Absent;
  }

  /** `POST /a?b#c HTTP/1.0`, `connection: keep-alive`, `Host: x` and `content-length: 2`, with their line ends. */
  const POST_LINE: Data := [80, 79, 83, 84, 32, 47, 97, 63, 98, 35, 99, 32, 72, 84, 84, 80, 47, 49, 46, 48, 13, 10]
  const KEEP_LINE: Data := [99, 111, 110, 110, 101, 99, 116, 105, 111, 110, 58, 32, 107, 101, 101, 112, 45, 97, 108, 105, 118, 101, 13, 10]
  const HOST_LINE: Data := [72, 111, 115, 116, 58, 32, 120, 13, 10]
  const LENGTH_LINE: Data := [99, 111, 110, 116, 101, 110, 116, 45, 108, 101, 110, 103, 116, 104, 58, 32, 50, 13, 10]

  const EXAMPLE := Request(POST, 0x10, false, [47, 97], [98], [99], [121, 122], [Field([72, 111, 115, 116], [120])])

  /** A request and its print: request line, connection line, the stored headers, the length, the empty line and
      the body. */
  lemma PrintExample()
    ensures PrintedHead(EXAMPLE) + EXAMPLE.body == POST_LINE + KEEP_LINE + HOST_LINE + LENGTH_LINE + [13, 10] + [121, 122]
  {
    ExampleLine(EXAMPLE);
    ExampleFields(EXAMPLE);
    Assembled(EXAMPLE, POST_LINE, KEEP_LINE, HOST_LINE, LENGTH_LINE);
    assert EXAMPLE.body == [121, 122];
    hide *;
  }

  lemma Assembled(r: Request, a: Data, b: Data, c: Data, d: Data)
    requires RequestLine(r) == a && FieldLines(PrintedFields(r)) == b + c + d
    ensures PrintedHead(r) == a + b + c + d + [13, 10]
  {
    hide RequestLine, FieldLines, PrintedFields;
    ConcatAssociative(a, b + c, d);
    ConcatAssociative(a, b, c);
  }

  lemma ExampleLine(r: Request)
    requires r.verb == POST && r.version == 0x10 && r.path == [47, 97] && r.query == [98] && r.fragment == [99]
    ensures RequestLine(r) == POST_LINE
  {
    NamesAreBytes(POST);
    assert NameBytes(POST) == [80, 79, 83, 84];
    ExampleTarget(r);
    ExampleVersion(r);
    PostLine();
    hide Text, Decimal, MethodName, NameBytes, PrintedTarget, PrintedVersion;
  }

  lemma PostLine()
    ensures var verb: Data, target: Data := [80, 79, 83, 84], [47, 97, 63, 98, 35, 99];
      verb + [32] + target + [32, 72, 84, 84, 80, 47, 49, 46, 48, 13, 10] == POST_LINE
  {
    var verb: Data, target: Data := [80, 79, 83, 84], [47, 97, 63, 98, 35, 99];
    assert verb + [32] == [80, 79, 83, 84, 32];
    assert verb + [32] + target == [80, 79, 83, 84, 32, 47, 97, 63, 98, 35, 99];
  }

  lemma ExampleTarget(r: Request)
    requires r.path == [47, 97] && r.query == [98] && r.fragment == [99]
    ensures PrintedTarget(r) == [47, 97, 63, 98, 35, 99]
  {
  }

  lemma ExampleVersion(r: Request)
    requires r.version == 0x10
    ensures PrintedVersion(r) == [32, 72, 84, 84, 80, 47, 49, 46, 48, 13, 10]
  {
    assert Text(" HTTP/") == [32, 72, 84, 84, 80, 47];
    assert Decimal(1) == [49] && Decimal(0) == [48];
    hide Text, Decimal;
  }

  lemma ExampleFields(r: Request)
    requires !r.close && r.body == [121, 122] && r.headers == [Field([72, 111, 115, 116], [120])]
    ensures FieldLines(PrintedFields(r)) == KEEP_LINE + HOST_LINE + LENGTH_LINE
  {
    var a, b, c := Field(CONNECTION, ConnectionValue(false)), r.headers[0], Field(CONTENT_LENGTH, Decimal(2));
    ExamplePrinted(r);
    ExampleLines(b);
    ThreeLines(a, b, c);
    hide *;
  }

  lemma ExamplePrinted(r: Request)
    requires !r.close && |r.body| == 2 && r.headers == [Field([72, 111, 115, 116], [120])]
    ensures PrintedFields(r) == [Field(CONNECTION, ConnectionValue(false)), r.headers[0], Field(CONTENT_LENGTH, Decimal(2))]
  {
    ExampleOthers(r.headers[0]);
    hide OtherFields, Text, Decimal, ConnectionValue;
    assert r.headers == [r.headers[0]];
  }

  lemma ExampleLines(host: Field)
    requires host == Field([72, 111, 115, 116], [120])
    ensures FieldLine(Field(CONNECTION, ConnectionValue(false))) == KEEP_LINE
    ensures FieldLine(host) == HOST_LINE
    ensures FieldLine(Field(CONTENT_LENGTH, Decimal(2))) == LENGTH_LINE
  {
    ExampleNames();
    hide Text, Decimal, ConnectionValue;
  }

  lemma ExampleNames()
    ensures CONNECTION == [99, 111, 110, 110, 101, 99, 116, 105, 111, 110]
    ensures ConnectionValue(false) == [107, 101, 101, 112, 45, 97, 108, 105, 118, 101] && Decimal(2) == [50]
    ensures CONTENT_LENGTH == [99, 111, 110, 116, 101, 110, 116, 45, 108, 101, 110, 103, 116, 104]
  {
    assert Text("keep-alive") == [107, 101, 101, 112, 45, 97, 108, 105, 118, 101];
  }

  lemma ExampleOthers(host: Field)
    requires host.name == [72, 111, 115, 116]
    ensures OtherFields([host]) == [host]
  {
    ExampleNames();
    KeysOfDifferentLength(host.name, CONNECTION);
    assert [host][1..] == [];
    hide Key, Text;
  }

  lemma ThreeLines(a: Field, b: Field, c: Field)
    ensures FieldLines([a, b, c]) == FieldLine(a) + FieldLine(b) + FieldLine(c)
  {
    hide FieldLine;
    assert [a, b, c][1..] == [b, c] && [b, c][1..] == [c] && [c][1..] == [];
    assert FieldLines([c]) == FieldLine(c) + FieldLines([]);
    assert FieldLines([b, c]) == FieldLine(b) + FieldLines([c]);
  }

  // ---------- The round trip ----------

  /** Parsing what was printed finishes without an error just behind the empty line, whatever follows,
      and rebuilds method, path, query, fragment, version and every header. */
  lemma PrintParseRoundTrip(r: Request, relaxed: bool, queryStart: nat, rest: Data, name: Data)
    requires Printable(r, relaxed)
    ensures var s := Execute(Fresh(relaxed, queryStart), PrintedHead(r) + rest);
      && Finished(s.st) && !HasError(s.st) && s.exit.Returned? && s.at == |PrintedHead(r)|
      && s.st.request.verb == r.verb && s.st.request.version == r.version
      && s.st.request.path == r.path && s.st.request.query == r.query && s.st.request.fragment == r.fragment
      && Sorted(s.st.request.headers)
      && Get(s.st.request.headers, name) == Expected(r, name)
      && s.st.request.close && s.st.request.body == []
  {
    hide Execute, PrintedHead, MessageText, WellFormed, UriText, WellFormedPath, CharsToMethod, PrintedFields, Key, Get, Expected;
    var m := MessageOf(r);
    PrintedIsMessage(r);
    PrintedIsWellFormed(r, relaxed);
    MessageIsAccepted(relaxed, queryStart, m, rest);
    NameIsVerb(r.verb);
    HeadersComeBack(r, name);
  }
}
