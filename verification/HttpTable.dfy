/** The generated table of the request parser, restricted to the states an origin-form request can
    reach: the method chain (1, 2, 175-193), the target (3, 20-23, 26-33), the version (4-12) and the
    header lines (13-18), plus the final state 348. An edge to any other state leaves the model. */
module HttpTable {
  import opened Bytes

  const START := 1
  const FIRST_FINAL := 348
  const ERROR := 0

  /** The actions attached to the edges. */
  datatype Action =
    | Nothing | MarkToken | RequestMethod | RequestPath | RequestUri | StartQuery | QueryString
    | FragmentText | HttpVersion | StartField | WriteField | WriteValue | Done

  /** An edge runs its actions in order, then enters `to`. */
  datatype Edge = Edge(first: Action, second: Action, third: Action, to: int)

  const REJECT := Edge(Nothing, Nothing, Nothing, ERROR)

  predicate Modelled(cs: int) {
    1 <= cs <= 18 || 20 <= cs <= 23 || 26 <= cs <= 33 || 175 <= cs <= 193 || cs == FIRST_FINAL
  }

  /** `{`, `}` and `^` are moved to a wide code that tells whether `uri_relaxed` is set. */
  function Widen(c: int, relaxed: bool): int {
    if c == 94 || c == 123 || c == 125 then 128 + (c + 128) + (if relaxed then 256 else 0) else c
  }

  predicate MethodChar(c: int) {
    65 <= c <= 90 || 48 <= c <= 57
  }

  predicate Hex(c: int) {
    48 <= c <= 57 || 65 <= c <= 70 || 97 <= c <= 102
  }

  /** A character that stays in the path loop of state 26. */
  predicate PathChar(w: int) {
    w == 33 || w == 61 || w == 95 || w == 126 || w == 606 || w == 635 || w == 637 ||
    w <= -1 || (36 <= w <= 59 && w != 37) || 64 <= w <= 90 || 97 <= w <= 122
  }

  /** A character that stays in the query loop of state 30 or the fragment loop of state 21. */
  predicate QueryChar(w: int) {
    PathChar(w) || w == 63
  }

  /** A header-name character: ASCII without NUL, DEL and the separators. */
  predicate TokenChar(c: int) {
    c == 33 || c == 124 || c == 126 || 1 <= c <= 8 || 10 <= c <= 31 || 35 <= c <= 39 || 42 <= c <= 43 ||
    45 <= c <= 46 || 48 <= c <= 57 || 65 <= c <= 90 || 94 <= c <= 122
  }

  function Next(cs: int, c: int, relaxed: bool): Edge
    requires Modelled(cs)
  {
    var w := Widen(c, relaxed);
    if cs == 1 then
      if c == 60 then Edge(MarkToken, Nothing, Nothing, 194)
      else if c == 64 then Edge(MarkToken, Nothing, Nothing, 198)
      else if MethodChar(c) then Edge(MarkToken, Nothing, Nothing, 2)
      else REJECT
    else if cs == 2 || 175 <= cs <= 193 then
      if c == 32 then Edge(RequestMethod, Nothing, Nothing, 3)
      else if MethodChar(c) && cs == 2 then Edge(Nothing, Nothing, Nothing, 175)
      else if MethodChar(c) && cs < 193 then Edge(Nothing, Nothing, Nothing, cs + 1)
      else REJECT
    else if cs == 3 then
      if w == 32 then Edge(MarkToken, RequestPath, RequestUri, 4)
      else if w == 35 then Edge(MarkToken, RequestPath, RequestUri, 20)
      else if w == 37 then Edge(MarkToken, Nothing, Nothing, 24)
      else if w == 47 then Edge(MarkToken, Nothing, Nothing, 33)
      else if w == 63 then Edge(MarkToken, RequestPath, Nothing, 29)
      else if w == 33 || w == 59 || w == 61 || w == 64 || w == 95 || w == 126 ||
              w == 606 || w == 635 || w == 637 || 36 <= w <= 57 then Edge(MarkToken, Nothing, Nothing, 19)
      else if 65 <= w <= 90 || 97 <= w <= 122 then Edge(MarkToken, Nothing, Nothing, 173)
      else REJECT
    else if cs == 4 then if c == 72 then Edge(MarkToken, Nothing, Nothing, 5) else REJECT
    else if cs == 5 then if c == 84 then Edge(Nothing, Nothing, Nothing, 6) else REJECT
    else if cs == 6 then if c == 84 then Edge(Nothing, Nothing, Nothing, 7) else REJECT
    else if cs == 7 then if c == 80 then Edge(Nothing, Nothing, Nothing, 8) else REJECT
    else if cs == 8 then if c == 47 then Edge(Nothing, Nothing, Nothing, 9) else REJECT
    else if cs == 9 then if c == 49 then Edge(Nothing, Nothing, Nothing, 10) else REJECT
    else if cs == 10 then if c == 46 then Edge(Nothing, Nothing, Nothing, 11) else REJECT
    else if cs == 11 then if 48 <= c <= 49 then Edge(Nothing, Nothing, Nothing, 12) else REJECT
    else if cs == 12 then
      if c == 10 then Edge(HttpVersion, Nothing, Nothing, 13)
      else if c == 13 then Edge(HttpVersion, Nothing, Nothing, 17)
      else REJECT
    else if cs == 13 then
      if c == 10 then Edge(StartField, Done, Nothing, FIRST_FINAL)
      else if c == 13 then Edge(StartField, Nothing, Nothing, 18)
      else if TokenChar(c) then Edge(StartField, Nothing, Nothing, 14)
      else REJECT
    else if cs == 14 || cs == FIRST_FINAL then
      if c == 58 then Edge(WriteField, Nothing, Nothing, 15)
      else if TokenChar(c) then Edge(Nothing, Nothing, Nothing, 14)
      else REJECT
    else if cs == 15 then
      if c == 0 || c == 127 then REJECT
      else if c == 9 || c == 32 then Edge(MarkToken, Nothing, Nothing, 15)
      else if c == 10 then Edge(MarkToken, WriteValue, Nothing, 13)
      else if c == 13 then Edge(MarkToken, WriteValue, Nothing, 17)
      else Edge(MarkToken, Nothing, Nothing, 16)
    else if cs == 16 then
      if c == 0 || c == 127 then REJECT
      else if c == 10 then Edge(WriteValue, Nothing, Nothing, 13)
      else if c == 13 then Edge(WriteValue, Nothing, Nothing, 17)
      else Edge(Nothing, Nothing, Nothing, 16)
    else if cs == 17 then if c == 10 then Edge(Nothing, Nothing, Nothing, 13) else REJECT
    else if cs == 18 then
      if c == 10 then Edge(Done, Nothing, Nothing, FIRST_FINAL)
      else if c == 58 then Edge(WriteField, Nothing, Nothing, 15)
      else if TokenChar(c) then Edge(Nothing, Nothing, Nothing, 14)
      else REJECT
    else if cs == 20 then
      if w == 32 then Edge(MarkToken, FragmentText, Nothing, 4)
      else if w == 37 then Edge(MarkToken, Nothing, Nothing, 22)
      else if QueryChar(w) then Edge(MarkToken, Nothing, Nothing, 21)
      else REJECT
    else if cs == 21 then
      if w == 32 then Edge(FragmentText, Nothing, Nothing, 4)
      else if w == 37 then Edge(Nothing, Nothing, Nothing, 22)
      else if QueryChar(w) then Edge(Nothing, Nothing, Nothing, 21)
      else REJECT
    else if cs == 22 then if Hex(c) then Edge(Nothing, Nothing, Nothing, 23) else REJECT
    else if cs == 23 then if Hex(c) then Edge(Nothing, Nothing, Nothing, 21) else REJECT
    else if cs == 26 || cs == 33 then
      if w == 32 then Edge(RequestPath, RequestUri, Nothing, 4)
      else if w == 35 then Edge(RequestPath, RequestUri, Nothing, 20)
      else if w == 37 then Edge(Nothing, Nothing, Nothing, 27)
      else if w == 63 then Edge(RequestPath, Nothing, Nothing, 29)
      else if w == 47 && cs == 33 then Edge(Nothing, Nothing, Nothing, 34)
      else if PathChar(w) then Edge(Nothing, Nothing, Nothing, 26)
      else REJECT
    else if cs == 27 then if Hex(c) then Edge(Nothing, Nothing, Nothing, 28) else REJECT
    else if cs == 28 then if Hex(c) then Edge(Nothing, Nothing, Nothing, 26) else REJECT
    else if cs == 29 then
      if w == 32 then Edge(StartQuery, QueryString, RequestUri, 4)
      else if w == 35 then Edge(StartQuery, QueryString, RequestUri, 20)
      else if w == 37 then Edge(StartQuery, Nothing, Nothing, 31)
      else if QueryChar(w) then Edge(StartQuery, Nothing, Nothing, 30)
      else REJECT
    else if cs == 30 then
      if w == 32 then Edge(QueryString, RequestUri, Nothing, 4)
      else if w == 35 then Edge(QueryString, RequestUri, Nothing, 20)
      else if w == 37 then Edge(Nothing, Nothing, Nothing, 31)
      else if QueryChar(w) then Edge(Nothing, Nothing, Nothing, 30)
      else REJECT
    else if cs == 31 then if Hex(c) then Edge(Nothing, Nothing, Nothing, 32) else REJECT
    else if Hex(c) then Edge(Nothing, Nothing, Nothing, 30) else REJECT
  }
}
