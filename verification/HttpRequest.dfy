/** The request object: its method names, its case-insensitive header map and its printer. */
module HttpRequest {
  import opened Bytes

  // ---------- Methods ----------

  datatype Method =
    | DELETE | GET | HEAD | POST | PUT | CONNECT | OPTIONS | TRACE | COPY | LOCK | MKCOL | MOVE
    | PROPFIND | PROPPATCH | SEARCH | UNLOCK | BIND | REBIND | UNBIND | ACL | REPORT | MKACTIVITY
    | CHECKOUT | MERGE | MSEARCH | NOTIFY | SUBSCRIBE | UNSUBSCRIBE | PATCH | PURGE | MKCALENDAR
    | LINK | UNLINK | SOURCE | INVALID

  function MethodName(m: Method): string {
    match m
    case DELETE => "DELETE" case GET => "GET" case HEAD => "HEAD" case POST => "POST" case PUT => "PUT"
    case CONNECT => "CONNECT" case OPTIONS => "OPTIONS" case TRACE => "TRACE" case COPY => "COPY"
    case LOCK => "LOCK" case MKCOL => "MKCOL" case MOVE => "MOVE" case PROPFIND => "PROPFIND"
    case PROPPATCH => "PROPPATCH" case SEARCH => "SEARCH" case UNLOCK => "UNLOCK" case BIND => "BIND"
    case REBIND => "REBIND" case UNBIND => "UNBIND" case ACL => "ACL" case REPORT => "REPORT"
    case MKACTIVITY => "MKACTIVITY" case CHECKOUT => "CHECKOUT" case MERGE => "MERGE"
    case MSEARCH => "M-SEARCH" case NOTIFY => "NOTIFY" case SUBSCRIBE => "SUBSCRIBE"
    case UNSUBSCRIBE => "UNSUBSCRIBE" case PATCH => "PATCH" case PURGE => "PURGE"
    case MKCALENDAR => "MKCALENDAR" case LINK => "LINK" case UNLINK => "UNLINK" case SOURCE => "SOURCE"
    case INVALID => "<unknown>"
  }

  /** The bytes of each method's name, as they stand in a request. */
  function NameBytes(m: Method): Data {
    match m
    case DELETE => [68, 69, 76, 69, 84, 69]
    case GET => [71, 69, 84]
    case HEAD => [72, 69, 65, 68]
    case POST => [80, 79, 83, 84]
    case PUT => [80, 85, 84]
    case CONNECT => [67, 79, 78, 78, 69, 67, 84]
    case OPTIONS => [79, 80, 84, 73, 79, 78, 83]
    case TRACE => [84, 82, 65, 67, 69]
    case COPY => [67, 79, 80, 89]
    case LOCK => [76, 79, 67, 75]
    case MKCOL => [77, 75, 67, 79, 76]
    case MOVE => [77, 79, 86, 69]
    case PROPFIND => [80, 82, 79, 80, 70, 73, 78, 68]
    case PROPPATCH => [80, 82, 79, 80, 80, 65, 84, 67, 72]
    case SEARCH => [83, 69, 65, 82, 67, 72]
    case UNLOCK => [85, 78, 76, 79, 67, 75]
    case BIND => [66, 73, 78, 68]
    case REBIND => [82, 69, 66, 73, 78, 68]
    case UNBIND => [85, 78, 66, 73, 78, 68]
    case ACL => [65, 67, 76]
    case REPORT => [82, 69, 80, 79, 82, 84]
    case MKACTIVITY => [77, 75, 65, 67, 84, 73, 86, 73, 84, 89]
    case CHECKOUT => [67, 72, 69, 67, 75, 79, 85, 84]
    case MERGE => [77, 69, 82, 71, 69]
    case MSEARCH => [77, 45, 83, 69, 65, 82, 67, 72]
    case NOTIFY => [78, 79, 84, 73, 70, 89]
    case SUBSCRIBE => [83, 85, 66, 83, 67, 82, 73, 66, 69]
    case UNSUBSCRIBE => [85, 78, 83, 85, 66, 83, 67, 82, 73, 66, 69]
    case PATCH => [80, 65, 84, 67, 72]
    case PURGE => [80, 85, 82, 71, 69]
    case MKCALENDAR => [77, 75, 67, 65, 76, 69, 78, 68, 65, 82]
    case LINK => [76, 73, 78, 75]
    case UNLINK => [85, 78, 76, 73, 78, 75]
    case SOURCE => [83, 79, 85, 82, 67, 69]
    case INVALID => [60, 117, 110, 107, 110, 111, 119, 110, 62]
  }

  /** Those are the names that are printed, and that the parser looks for. */
  lemma NamesAreBytes(m: Method)
    ensures Text(MethodName(m)) == NameBytes(m)
  {
    hide MethodName, NameBytes, Text;
    match m
    case DELETE | GET | HEAD | POST | PUT | CONNECT | OPTIONS | TRACE => CommonNames(m);
    case COPY | LOCK | MKCOL | MOVE | PROPFIND | PROPPATCH | SEARCH | UNLOCK | BIND => WebdavNames(m);
    case REBIND | UNBIND | ACL | REPORT => MoreNames(m);
    case MKACTIVITY | CHECKOUT | MERGE | MSEARCH => ReportNames(m);
    case NOTIFY | SUBSCRIBE | UNSUBSCRIBE | PATCH | PURGE => OtherNames(m);
    case MKCALENDAR | LINK | UNLINK | SOURCE | INVALID => LastNames(m);
  }

  lemma CommonNames(m: Method)
    requires m in {DELETE, GET, HEAD, POST, PUT, CONNECT, OPTIONS, TRACE}
    ensures Text(MethodName(m)) == NameBytes(m)
  {
    assert |Text(MethodName(m))| == |NameBytes(m)|;
  }

  lemma WebdavNames(m: Method)
    requires m in {COPY, LOCK, MKCOL, MOVE, PROPFIND, PROPPATCH, SEARCH, UNLOCK, BIND}
    ensures Text(MethodName(m)) == NameBytes(m)
  {
    assert |Text(MethodName(m))| == |NameBytes(m)|;
  }

  lemma MoreNames(m: Method)
    requires m in {REBIND, UNBIND, ACL, REPORT}
    ensures Text(MethodName(m)) == NameBytes(m)
  {
    assert |Text(MethodName(m))| == |NameBytes(m)|;
  }

  lemma ReportNames(m: Method)
    requires m in {MKACTIVITY, CHECKOUT, MERGE, MSEARCH}
    ensures Text(MethodName(m)) == NameBytes(m)
  {
    assert |Text(MethodName(m))| == |NameBytes(m)|;
  }

  lemma OtherNames(m: Method)
    requires m in {NOTIFY, SUBSCRIBE, UNSUBSCRIBE, PATCH, PURGE}
    ensures Text(MethodName(m)) == NameBytes(m)
  {
    assert |Text(MethodName(m))| == |NameBytes(m)|;
  }

  lemma LastNames(m: Method)
    requires m in {MKCALENDAR, LINK, UNLINK, SOURCE, INVALID}
    ensures Text(MethodName(m)) == NameBytes(m)
  {
    assert |Text(MethodName(m))| == |NameBytes(m)|;
  }

  /** The order in which the prefixes are tried. */
  const COMMON: seq<Method> := [DELETE, GET, HEAD, POST, PUT, CONNECT, OPTIONS, TRACE]
  const WEBDAV: seq<Method> := [COPY, LOCK, MKCOL, MOVE, PROPFIND, PROPPATCH, SEARCH, UNLOCK, BIND]
  const MORE_WEBDAV: seq<Method> := [REBIND, UNBIND, ACL, REPORT, MKACTIVITY, CHECKOUT, MERGE, MSEARCH]
  const OTHERS: seq<Method> :=
    [NOTIFY, SUBSCRIBE, UNSUBSCRIBE, PATCH, PURGE, MKCALENDAR, LINK, UNLINK, SOURCE]
  const METHODS: seq<Method> := COMMON + WEBDAV + MORE_WEBDAV + OTHERS

  predicate HasPrefix(prefix: string, text: Data) {
    |prefix| <= |text| && forall k :: 0 <= k < |prefix| ==> text[k] == prefix[k] as int
  }

  /** `strncmp` against each known name, for the length of that name: a prefix test. */
  function FirstMatch(candidates: seq<Method>, text: Data): Method {
    if candidates == [] then INVALID
    else if HasPrefix(MethodName(candidates[0]), text) then candidates[0]
    else FirstMatch(candidates[1..], text)
  }

  function CharsToMethod(text: Data): Method {
    FirstMatch(METHODS, text)
  }

  function Initial(m: Method): char
    requires m != INVALID
  {
    match m
    case ACL => 'A'
    case BIND => 'B'
    case CONNECT | COPY | CHECKOUT => 'C'
    case DELETE => 'D'
    case GET => 'G'
    case HEAD => 'H'
    case LOCK | LINK => 'L'
    case MKCOL | MOVE | MKACTIVITY | MERGE | MSEARCH | MKCALENDAR => 'M'
    case NOTIFY => 'N'
    case OPTIONS => 'O'
    case POST | PUT | PROPFIND | PROPPATCH | PATCH | PURGE => 'P'
    case REBIND | REPORT => 'R'
    case SEARCH | SUBSCRIBE | SOURCE => 'S'
    case TRACE => 'T'
    case _ => 'U'
  }

  lemma InitialIsFirst(m: Method)
    requires m != INVALID
    ensures |MethodName(m)| > 2 && MethodName(m)[0] == Initial(m)
  {
  }

  predicate Letters(s: string) {
    1 <= |s| <= 20 && forall k | 0 <= k < |s| :: 'A' <= s[k] <= 'Z'
  }

  /** All method names but one are words of capital letters. */
  lemma NameLetters(m: Method)
    requires m != INVALID && m != MSEARCH
    ensures Letters(MethodName(m))
  {
    hide MethodName, Letters;
    match m
    case DELETE | GET | HEAD | POST | PUT | CONNECT | OPTIONS | TRACE => CommonLetters(m);
    case COPY | LOCK | MKCOL | MOVE | PROPFIND | PROPPATCH | SEARCH | UNLOCK | BIND => WebdavLetters(m);
    case REBIND | UNBIND | ACL | REPORT | MKACTIVITY | CHECKOUT | MERGE => MoreLetters(m);
    case _ => OtherLetters(m);
  }

  lemma CommonLetters(m: Method)
    requires m in {DELETE, GET, HEAD, POST, PUT, CONNECT, OPTIONS, TRACE}
    ensures Letters(MethodName(m))
  {
  }

  lemma WebdavLetters(m: Method)
    requires m in {COPY, LOCK, MKCOL, MOVE, PROPFIND, PROPPATCH, SEARCH, UNLOCK, BIND}
    ensures Letters(MethodName(m))
  {
  }

  lemma MoreLetters(m: Method)
    requires m in {REBIND, UNBIND, ACL, REPORT, MKACTIVITY, CHECKOUT, MERGE}
    ensures Letters(MethodName(m))
  {
  }

  lemma OtherLetters(m: Method)
    requires m in {NOTIFY, SUBSCRIBE, UNSUBSCRIBE, PATCH, PURGE, MKCALENDAR, LINK, UNLINK, SOURCE}
    ensures Letters(MethodName(m))
  {
  }

  /** Two different method names differ within their common length. */
  lemma NamesDiverge(a: Method, b: Method) returns (k: int)
    requires a != b && a != INVALID && b != INVALID
    ensures 0 <= k < |MethodName(a)| && k < |MethodName(b)|
    ensures MethodName(a)[k] != MethodName(b)[k]
  {
    InitialIsFirst(a);
    InitialIsFirst(b);
    if Initial(a) != Initial(b) {
      k := 0;
    } else {
      k := NamesDivergeLater(a, b);
    }
  }

  lemma NamesDivergeLater(a: Method, b: Method) returns (k: int)
    requires a != b && a != INVALID && b != INVALID && Initial(a) == Initial(b)
    ensures 0 <= k < |MethodName(a)| && k < |MethodName(b)|
    ensures MethodName(a)[k] != MethodName(b)[k]
  {
    hide MethodName, Initial;
    match a
    case CONNECT | COPY | CHECKOUT | LOCK | LINK => k := DivergeCL(a, b);
    case MKCOL | MKACTIVITY | MKCALENDAR => k := DivergeMK(a, b);
    case MOVE | MERGE | MSEARCH => k := DivergeM(a, b);
    case POST | PUT | PROPFIND | PROPPATCH | PATCH | PURGE => k := DivergeP(a, b);
    case REBIND | REPORT | SEARCH | SUBSCRIBE | SOURCE => k := DivergeRS(a, b);
    case _ => k := DivergeU(a, b);
  }

  lemma DivergeCL(a: Method, b: Method) returns (k: int)
    requires a != b && b != INVALID && (a in {CONNECT, COPY, CHECKOUT, LOCK, LINK}) && Initial(a) == Initial(b)
    ensures 0 <= k < |MethodName(a)| && k < |MethodName(b)| && MethodName(a)[k] != MethodName(b)[k]
  {
    k := if (a == CONNECT && b == COPY) || (a == COPY && b == CONNECT) then 2 else 1;
  }

  lemma DivergeM(a: Method, b: Method) returns (k: int)
    requires a != b && b != INVALID && (a in {MOVE, MERGE, MSEARCH}) && Initial(a) == Initial(b)
    ensures 0 <= k < |MethodName(a)| && k < |MethodName(b)| && MethodName(a)[k] != MethodName(b)[k]
  {
    k := 1;
  }

  lemma DivergeMK(a: Method, b: Method) returns (k: int)
    requires a != b && b != INVALID && (a in {MKCOL, MKACTIVITY, MKCALENDAR}) && Initial(a) == Initial(b)
    ensures 0 <= k < |MethodName(a)| && k < |MethodName(b)| && MethodName(a)[k] != MethodName(b)[k]
  {
    k := if b in {MOVE, MERGE, MSEARCH} then 1 else if a == MKACTIVITY || b == MKACTIVITY then 2 else 3;
  }

  lemma DivergeP(a: Method, b: Method) returns (k: int)
    requires a != b && b != INVALID && (a in {POST, PUT, PROPFIND, PROPPATCH, PATCH, PURGE}) && Initial(a) == Initial(b)
    ensures 0 <= k < |MethodName(a)| && k < |MethodName(b)| && MethodName(a)[k] != MethodName(b)[k]
  {
    k := if a in {PROPFIND, PROPPATCH} && b in {PROPFIND, PROPPATCH} then 4
         else if a in {PUT, PURGE} && b in {PUT, PURGE} then 2 else 1;
  }

  lemma DivergeRS(a: Method, b: Method) returns (k: int)
    requires a != b && b != INVALID && (a in {REBIND, REPORT, SEARCH, SUBSCRIBE, SOURCE}) && Initial(a) == Initial(b)
    ensures 0 <= k < |MethodName(a)| && k < |MethodName(b)| && MethodName(a)[k] != MethodName(b)[k]
  {
    k := if a in {REBIND, REPORT} then 2 else 1;
  }

  lemma DivergeU(a: Method, b: Method) returns (k: int)
    requires a != b && a != INVALID && b != INVALID && Initial(a) == Initial(b)
    requires a in {ACL, BIND, DELETE, GET, HEAD, NOTIFY, OPTIONS, TRACE, UNLOCK, UNLINK, UNBIND, UNSUBSCRIBE}
    ensures 0 <= k < |MethodName(a)| && k < |MethodName(b)| && MethodName(a)[k] != MethodName(b)[k]
  {
    k := if a in {UNLOCK, UNLINK} && b in {UNLOCK, UNLINK} then 3 else 2;
  }

  lemma {:induction false} FirstMatchIs(candidates: seq<Method>, text: Data, m: Method)
    requires m in candidates && HasPrefix(MethodName(m), text)
    requires forall c | c in candidates && c != m :: !HasPrefix(MethodName(c), text)
    ensures FirstMatch(candidates, text) == m
  {
    if candidates[0] != m {
      FirstMatchIs(candidates[1..], text, m);
    }
  }

  lemma {:induction false} FirstMatchHasPrefix(candidates: seq<Method>, text: Data)
    requires INVALID !in candidates
    ensures var m := FirstMatch(candidates, text);
            m != INVALID ==> HasPrefix(MethodName(m), text)
  {
    if candidates != [] {
      FirstMatchHasPrefix(candidates[1..], text);
    }
  }

  /** No known name is a prefix of another, so the order of the tests never matters: a text is read
      as `m` exactly when it starts with the name of `m`. */
  lemma CharsToMethodIsPrefix(text: Data, m: Method)
    requires m != INVALID
    ensures CharsToMethod(text) == m <==> HasPrefix(MethodName(m), text)
  {
    if HasPrefix(MethodName(m), text) {
      forall c | c in METHODS && c != m
        ensures !HasPrefix(MethodName(c), text)
      {
        var k := NamesDiverge(c, m);
      }
      FirstMatchIs(METHODS, text, m);
    } else {
      FirstMatchHasPrefix(METHODS, text);
    }
  }

  // ---------- Headers ----------

  datatype Field = Field(name: Data, value: Data)

  /** A header map: fields in increasing order of their case-folded names. */
  type Headers = seq<Field>

  /** What a C string keeps of a buffer: everything up to the first NUL. */
  function CString(s: Data): Data {
    if s == [] || s[0] == 0 then [] else [s[0]] + CString(s[1..])
  }

  function Fold(b: byte): byte {
    if 65 <= b <= 90 then b + 32 else b
  }

  /** Two names are the same header exactly when their keys are equal. */
  function Key(name: Data): Data {
    FoldAll(CString(name))
  }

  function FoldAll(s: Data): (r: Data)
    ensures |r| == |s|
  {
    if s == [] then [] else [Fold(s[0])] + FoldAll(s[1..])
  }

  predicate Less(a: Data, b: Data) {
    if b == [] then false
    else if a == [] then true
    else a[0] < b[0] || (a[0] == b[0] && Less(a[1..], b[1..]))
  }

  lemma {:induction false} LessTransitive(a: Data, b: Data, c: Data)
    requires Less(a, b) && Less(b, c)
    ensures Less(a, c)
  {
    if a != [] && a[0] == b[0] && b[0] == c[0] {
      LessTransitive(a[1..], b[1..], c[1..]);
    }
  }

  lemma {:induction false} LessTotal(a: Data, b: Data)
    ensures Less(a, b) || Less(b, a) || a == b
    ensures !(Less(a, b) && Less(b, a))
    ensures !Less(a, a)
  {
    if a != [] {
      LessTotal(a[1..], a[1..]);
      if b != [] && a[0] == b[0] {
        LessTotal(a[1..], b[1..]);
        assert a == [a[0]] + a[1..] && b == [b[0]] + b[1..];
      }
    }
  }

  predicate Sorted(h: Headers) {
    forall i, j | 0 <= i < j < |h| :: Less(Key(h[i].name), Key(h[j].name))
  }

  datatype Lookup = Absent | Found(value: Data)

  function Get(h: Headers, name: Data): Lookup {
    if h == [] then Absent
    else if Key(h[0].name) == Key(name) then Found(h[0].value)
    else Get(h[1..], name)
  }

  /** `m_headers[name] = value`: an existing entry keeps its place and its spelling. */
  function Set(h: Headers, name: Data, value: Data): (r: Headers)
    ensures forall f | f in r :: Key(f.name) == Key(name) || f in h
  {
    if h == [] || Less(Key(name), Key(h[0].name)) then [Field(name, value)] + h
    else if Key(h[0].name) == Key(name) then [h[0].(value := value)] + h[1..]
    else [h[0]] + Set(h[1..], name, value)
  }

  lemma {:induction false} SetKeepsSorted(h: Headers, name: Data, value: Data)
    requires Sorted(h)
    ensures Sorted(Set(h, name, value))
  {
    hide Key, Less;
    if h == [] {
    } else if Less(Key(name), Key(h[0].name)) {
      var r := [Field(name, value)] + h;
      forall i, j | 0 <= i < j < |r|
        ensures Less(Key(r[i].name), Key(r[j].name))
      {
        if i == 0 && j > 1 {
          LessTransitive(Key(name), Key(h[0].name), Key(h[j - 1].name));
        }
      }
    } else if Key(h[0].name) != Key(name) {
      SetKeepsSorted(h[1..], name, value);
      LessTotal(Key(name), Key(h[0].name));
      var t := Set(h[1..], name, value);
      forall j | 0 <= j < |t|
        ensures Less(Key(h[0].name), Key(t[j].name))
      {
        assert t[j] in t;
      }
    }
  }

  /** Assignment changes the value under `name` and nothing else. */
  lemma {:induction false} GetAfterSet(h: Headers, name: Data, value: Data, other: Data)
    requires Sorted(h)
    ensures Get(Set(h, name, value), other) ==
            if Key(other) == Key(name) then Found(value) else Get(h, other)
  {
    LessTotal(Key(name), Key(name));
    if h == [] {
    } else if Less(Key(name), Key(h[0].name)) {
      assert ([Field(name, value)] + h)[1..] == h;
    } else if Key(h[0].name) == Key(name) {
    } else {
      GetAfterSet(h[1..], name, value, other);
      assert Set(h, name, value)[1..] == Set(h[1..], name, value);
    }
  }

  lemma {:induction false} GetFound(h: Headers, name: Data)
    ensures Get(h, name).Absent? <==> forall f | f in h :: Key(f.name) != Key(name)
    ensures Get(h, name).Found? ==> exists f | f in h :: Key(f.name) == Key(name)
  {
    if h != [] && Key(h[0].name) != Key(name) {
      GetFound(h[1..], name);
      assert forall f :: f in h <==> f == h[0] || f in h[1..];
    }
  }

  /** The names of the fields as they were first spelled. */
  function Names(h: Headers): seq<Data> {
    if h == [] then [] else [h[0].name] + Names(h[1..])
  }

  /** Assignment to a name that is there, in any spelling, leaves all names as they are spelled; to another it
      puts the new one in. */
  lemma {:induction false} SetKeepsSpelling(h: Headers, name: Data, value: Data) returns (i: nat)
    requires Sorted(h)
    ensures Get(h, name).Found? ==> Names(Set(h, name, value)) == Names(h)
    ensures Get(h, name).Absent? ==>
      i <= |Names(h)| && Names(Set(h, name, value)) == Names(h)[..i] + [name] + Names(h)[i..]
  {
    hide Key, Less;
    i := 0;
    if h == [] {
      assert Set(h, name, value)[1..] == [];
    } else if Less(Key(name), Key(h[0].name)) {
      assert ([Field(name, value)] + h)[1..] == h;
      LowNameIsAbsent(h, name);
    } else if Key(h[0].name) != Key(name) {
      i := SetKeepsSpelling(h[1..], name, value);
      var later := Set(h[1..], name, value);
      assert Set(h, name, value) == [h[0]] + later;
      FirstName(h[0], later);
      hide Set, Get, Sorted;
      if i <= |Names(h[1..])| {
        InsertBehind(h[0].name, Names(h[1..]), name, i);
      }
      i := i + 1;
    } else {
      assert Set(h, name, value)[1..] == h[1..];
    }
  }

  lemma FirstName(f: Field, h: Headers)
    ensures Names([f] + h) == [f.name] + Names(h)
  {
    assert ([f] + h)[1..] == h;
  }

  lemma InsertBehind<T>(first: T, xs: seq<T>, x: T, i: nat)
    requires i <= |xs|
    ensures [first] + (xs[..i] + [x] + xs[i..]) == ([first] + xs)[..i + 1] + [x] + ([first] + xs)[i + 1..]
  {
  }

  lemma LowNameIsAbsent(h: Headers, name: Data)
    requires Sorted(h) && h != [] && Less(Key(name), Key(h[0].name))
    ensures Get(h, name).Absent?
  {
    hide Key, Less;
    GetFound(h, name);
    forall f | f in h
      ensures Key(f.name) != Key(name)
    {
      var j :| 0 <= j < |h| && h[j] == f;
      LessTotal(Key(name), Key(name));
      if j > 0 {
        assert Less(Key(h[0].name), Key(h[j].name));
        LessTransitive(Key(name), Key(h[0].name), Key(h[j].name));
      }
    }
  }

  /** Same text but for the case of ASCII letters. */
  predicate SameButCase(a: Data, b: Data) {
    |a| == |b| && forall i | 0 <= i < |a| ::
      a[i] == b[i] || (65 <= a[i] <= 90 && b[i] == a[i] + 32) || (65 <= b[i] <= 90 && a[i] == b[i] + 32)
  }

  predicate NulFree(s: Data) {
    forall i | 0 <= i < |s| :: s[i] != 0
  }

  lemma {:induction false} CStringIsAll(s: Data)
    requires NulFree(s)
    ensures CString(s) == s
  {
    if s != [] {
      CStringIsAll(s[1..]);
    }
  }

  lemma {:induction false} FoldAllAt(s: Data, k: nat)
    requires k < |s|
    ensures FoldAll(s)[k] == Fold(s[k])
  {
    if k > 0 {
      FoldAllAt(s[1..], k - 1);
    }
  }

  /** Two names without NUL are the same header exactly if they differ in nothing but case. */
  lemma KeyIsCaseless(a: Data, b: Data)
    requires NulFree(a) && NulFree(b)
    ensures Key(a) == Key(b) <==> SameButCase(a, b)
  {
    CStringIsAll(a);
    CStringIsAll(b);
    hide FoldAll, CString, Fold;
    forall i | 0 <= i < |a| && i < |b|
      ensures FoldAll(a)[i] == FoldAll(b)[i] <==>
        a[i] == b[i] || (65 <= a[i] <= 90 && b[i] == a[i] + 32) || (65 <= b[i] <= 90 && a[i] == b[i] + 32)
    {
      FoldAllAt(a, i);
      FoldAllAt(b, i);
      FoldsAlike(a[i], b[i]);
    }
    if SameButCase(a, b) {
      assert FoldAll(a) == FoldAll(b);
    }
  }

  lemma FoldsAlike(x: byte, y: byte)
    ensures Fold(x) == Fold(y) <==> x == y || (65 <= x <= 90 && y == x + 32) || (65 <= y <= 90 && x == y + 32)
  {
  }

  /** The first `k` bytes agree. */
  predicate AgreeUpTo(a: Data, b: Data, k: nat) {
    k <= |a| && k <= |b| && forall i | 0 <= i < k :: a[i] == b[i]
  }

  /** The order of the map is decided by the first byte in which the keys differ; a beginning comes first. */
  lemma LessIff(a: Data, b: Data)
    ensures Less(a, b) <==>
      (|a| < |b| && AgreeUpTo(a, b, |a|)) || exists k :: 0 <= k < |a| && k < |b| && AgreeUpTo(a, b, k) && a[k] < b[k]
  {
    hide Less, AgreeUpTo;
    if Less(a, b) {
      var k := WhereLess(a, b);
    }
    if |a| < |b| && AgreeUpTo(a, b, |a|) {
      LessFrom(a, b, |a|);
    }
    forall k | 0 <= k < |a| && k < |b| && AgreeUpTo(a, b, k) && a[k] < b[k]
      ensures Less(a, b)
    {
      LessFrom(a, b, k);
    }
  }

  lemma {:induction false} WhereLess(a: Data, b: Data) returns (k: nat)
    requires Less(a, b)
    ensures k <= |a| && k < |b| && AgreeUpTo(a, b, k) && (k < |a| ==> a[k] < b[k])
  {
    k := 0;
    if a != [] && a[0] == b[0] {
      k := WhereLess(a[1..], b[1..]);
      assert forall i | 0 < i <= k :: a[i] == a[1..][i - 1] == b[1..][i - 1] == b[i] || i == k;
      k := k + 1;
    }
  }

  lemma {:induction false} LessFrom(a: Data, b: Data, k: nat)
    requires AgreeUpTo(a, b, k) && k < |b| && (k < |a| ==> a[k] < b[k])
    ensures Less(a, b)
  {
    if k > 0 {
      LessFrom(a[1..], b[1..], k - 1);
    }
  }

  // ---------- The request ----------

  datatype Request = Request(
    verb: Method, version: nat, close: bool,
    path: Data, query: Data, fragment: Data, body: Data, headers: Headers)

  /** A freshly built request. */
  const NEW_REQUEST := Request(GET, 0x11, true, Text("/"), [], [], [], [])

  // ---------- Decimal numbers ----------

  function Decimal(n: nat): (r: Data)
    ensures |r| > 0 && Digits(r)
  {
    if n < 10 then [48 + n] else Decimal(n / 10) + [48 + n % 10]
  }

  predicate Digits(s: Data) {
    forall i | 0 <= i < |s| :: 48 <= s[i] <= 57
  }

  function DigitsValue(s: Data): nat
    requires Digits(s)
  {
    if s == [] then 0
    else
      DigitsValue(s[..|s| - 1]) * 10 + (s[|s| - 1] as int - 48)
  }

  lemma {:induction false} DecimalValue(n: nat)
    ensures DigitsValue(Decimal(n)) == n
  {
    if n >= 10 {
      DecimalValue(n / 10);
      assert Decimal(n)[..|Decimal(n)| - 1] == Decimal(n / 10);
    }
  }

  // ---------- The printer ----------

  const CRLF: Data := [13, 10]
  const CONNECTION: Data := Text("connection")
  const CONTENT_LENGTH: Data := Text("content-length")

  function ConnectionValue(close: bool): Data {
    if close then Text("close") else Text("keep-alive")
  }

  function FieldLine(f: Field): Data {
    f.name + [58, 32] + f.value + CRLF
  }

  function FieldLines(h: Headers): Data {
    if h == [] then [] else FieldLine(h[0]) + FieldLines(h[1..])
  }

  /** The header fields as printed: `connection` comes first and replaces any stored one,
      and a non-empty body adds its length at the end. */
  function PrintedFields(r: Request): Headers {
    [Field(CONNECTION, ConnectionValue(r.close))] + OtherFields(r.headers) +
    (if r.body == [] then [] else [Field(CONTENT_LENGTH, Decimal(|r.body|))])
  }

  function OtherFields(h: Headers): Headers {
    if h == [] then []
    else (if Key(h[0].name) == Key(CONNECTION) then [] else [h[0]]) + OtherFields(h[1..])
  }

  function PrintedTarget(r: Request): Data {
    r.path +
    ((if r.query == [] then [] else [63] + r.query) + (if r.fragment == [] then [] else [35] + r.fragment))
  }

  function PrintedVersion(r: Request): Data {
    Text(" HTTP/") + (Decimal(r.version / 16) + ([46] + (Decimal(r.version % 16) + CRLF)))
  }

  function RequestLine(r: Request): Data {
    Text(MethodName(r.verb)) + [32] + PrintedTarget(r) + PrintedVersion(r)
  }

  /** Everything up to and including the empty line. */
  function PrintedHead(r: Request): Data {
    RequestLine(r) + FieldLines(PrintedFields(r)) + CRLF
  }

  lemma {:induction false} FieldLinesConcat(a: Headers, b: Headers)
    ensures FieldLines(a + b) == FieldLines(a) + FieldLines(b)
  {
    if a == [] {
      assert a + b == b;
    } else {
      assert (a + b)[1..] == a[1..] + b;
      FieldLinesConcat(a[1..], b);
      ConcatAssociative(FieldLine(a[0]), FieldLines(a[1..]), FieldLines(b));
    }
  }

  lemma {:induction false} OtherFieldsConcat(a: Headers, b: Headers)
    ensures OtherFields(a + b) == OtherFields(a) + OtherFields(b)
  {
    if a == [] {
      assert a + b == b;
    } else {
      assert (a + b)[1..] == a[1..] + b;
      OtherFieldsConcat(a[1..], b);
    }
  }

  lemma AppendField(h: Headers, f: Field)
    ensures FieldLines(h + [f]) == FieldLines(h) + FieldLine(f)
  {
    FieldLinesConcat(h, [f]);
    assert FieldLines([f]) == FieldLine(f) + FieldLines([]);
  }

  /** One step of the printing loop: a stored `connection` field is skipped. */
  lemma OtherFieldsStep(h: Headers, i: nat)
    requires i < |h|
    ensures OtherFields(h[..i + 1]) ==
            if Key(h[i].name) == Key(CONNECTION) then OtherFields(h[..i]) else OtherFields(h[..i]) + [h[i]]
  {
    assert h[..i + 1] == h[..i] + [h[i]];
    OtherFieldsConcat(h[..i], [h[i]]);
    assert OtherFields(h[..i]) + [] == OtherFields(h[..i]);
  }

  /** The loop of `HttpRequest::dump` over the stored headers. */
  method DumpStored(h: Headers) returns (lines: Data)
    ensures lines == FieldLines(OtherFields(h))
  {
    lines := [];
    var i := 0;
    while i < |h|
      invariant 0 <= i <= |h|
      invariant lines == FieldLines(OtherFields(h[..i]))
    {
      OtherFieldsStep(h, i);
      if Key(h[i].name) != Key(CONNECTION) {
        AppendField(OtherFields(h[..i]), h[i]);
        lines := lines + FieldLine(h[i]);
      }
      i := i + 1;
    }
    assert h[..i] == h;
  }

  /** `HttpRequest::dump`: the stream only ever grows, one header after the other. */
  method Dump(r: Request) returns (os: Data)
    ensures os == PrintedHead(r) + r.body
  {
    var connection := Field(CONNECTION, ConnectionValue(r.close));
    var stored := DumpStored(r.headers);
    os := RequestLine(r) + (FieldLine(connection) + stored);
    ghost var fields := [connection] + OtherFields(r.headers);
    FieldLinesConcat([connection], OtherFields(r.headers));
    assert FieldLines([connection]) == FieldLine(connection) + FieldLines([]);
    if r.body != [] {
      var length := Field(CONTENT_LENGTH, Decimal(|r.body|));
      AppendField(fields, length);
      assert fields + [length] == PrintedFields(r);
      ConcatAssociative(RequestLine(r), FieldLine(connection) + stored, FieldLine(length));
      os := os + FieldLine(length);
    } else {
      assert fields == PrintedFields(r);
    }
    os := os + CRLF + r.body;
  }
}
