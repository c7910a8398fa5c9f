/** Typed values in a byte array: what writing one puts there, what reading one takes away, and when the
    two undo each other. */
module TypedValues {
  import opened Bytes
  import opened Blocks
  import opened Codec
  import opened ByteArray

  datatype Value =
    | Fixed(width: nat, signed: bool, n: int)
    | Uint(bits: nat, n: int)
    | Int(bits: nat, n: int)
    | Prefixed(width: nat, s: Data)
    | VarPrefixed(s: Data)

  datatype Kind =
    | FixedKind(width: nat, signed: bool)
    | UintKind(bits: nat)
    | IntKind(bits: nat)
    | PrefixedKind(width: nat)
    | VarPrefixedKind

  function KindOf(v: Value): Kind {
    match v
    case Fixed(width, signed, _) => FixedKind(width, signed)
    case Uint(bits, _) => UintKind(bits)
    case Int(bits, _) => IntKind(bits)
    case Prefixed(width, _) => PrefixedKind(width)
    case VarPrefixed(_) => VarPrefixedKind
  }

  /** The kinds there are operations for. */
  predicate IsKind(k: Kind) {
    match k
    case FixedKind(width, _) => width in {1, 2, 4, 8}
    case UintKind(bits) => bits in {32, 64}
    case IntKind(bits) => bits in {32, 64}
    case PrefixedKind(width) => width in {2, 4, 8}
    case VarPrefixedKind => true
  }

  /** What the type system of the program gives: the number lies in its type, a size in 64 bits. */
  predicate InType(v: Value) {
    && IsKind(KindOf(v))
    && match v
       case Fixed(width, signed, n) => if signed then IsSigned(n, 8 * width) else 0 <= n < Pow2(8 * width)
       case Uint(bits, n) => 0 <= n < Pow2(bits)
       case Int(bits, n) => IsSigned(n, bits)
       case Prefixed(_, s) => |s| < Pow2(64)
       case VarPrefixed(s) => |s| < Pow2(64)
  }

  predicate AllInType(vs: seq<Value>) {
    forall i | 0 <= i < |vs| :: InType(vs[i])
  }

  /** The size of a string fits its prefix. */
  predicate Fits(v: Value) {
    v.Prefixed? ==> |v.s| < Pow2(8 * v.width)
  }

  predicate IsEmptyString(v: Value) {
    (v.Prefixed? || v.VarPrefixed?) && v.s == []
  }

  function Encode(v: Value, order: Order): (r: Data)
    requires InType(v)
    ensures |r| > 0
  {
    match v
    case Fixed(width, _, n) => Memory(Wrap(n, 8 * width), width, order)
    case Uint(_, n) => Varint(n)
    case Int(bits, n) => Varint(Zigzag(n, bits))
    case Prefixed(width, s) => Memory(|s|, width, order) + s
    case VarPrefixed(s) => Varint(|s|) + s
  }

  /** The byte order may be set anew before each value. */
  function EncodeAll(vs: seq<Value>, os: seq<Order>): Data
    requires AllInType(vs) && |os| == |vs|
  {
    if vs == [] then [] else Encode(vs[0], os[0]) + EncodeAll(vs[1..], os[1..])
  }

  // ---------- Reading ----------

  /** How a read ends, and the array after it. */
  datatype Outcome<+T> = Outcome(result: ReadResult<T>, buffer: Buffer)

  function TakeBytes(b: Buffer, n: nat): (r: Outcome<Data>)
    requires Sound(b)
    ensures Sound(r.buffer) && (r.result.Ok? ==> |r.result.value| == n)
  {
    var r := ReadOutcome(b, n);
    Outcome(r, if r.Ok? then b.(position := b.position + n) else b)
  }

  /** `readUint32/64`: byte after byte until one without the top bit, or until the width is used up. */
  function TakeVarint(b: Buffer, bits: nat): (r: Outcome<nat>)
    requires Sound(b)
    ensures Sound(r.buffer) && (r.result.Ok? ==> r.result.value < Pow2(bits))
  {
    match ScanVarint(Readable(b), 0, bits)
    case Missing => Outcome(OutOfRange, b.(position := b.size))
    case Scanned(value, used) =>
      ScanStaysInside(Readable(b), 0, bits);
      ScanFits(Readable(b), bits);
      Outcome(Ok(value), b.(position := b.position + used))
  }

  lemma {:induction false} ScanStaysInside(data: Data, i: nat, bits: nat)
    ensures ScanVarint(data, i, bits).Scanned? ==> ScanVarint(data, i, bits).used <= |data|
    decreases |data|
  {
    if data != [] {
      ScanStaysInside(data[1..], i + 7, bits);
    }
  }

  lemma ScanFits(data: Data, bits: nat)
    ensures var r := ScanVarint(data, 0, bits); r.Scanned? ==> r.value < Pow2(bits)
  {
    if bits > 0 {
      var q := ScanInType(data, 0, bits);
    }
  }

  function NumberValue(d: Data, signed: bool, order: Order): Value
    requires |d| > 0
  {
    HostDoesNotMatterBack(d, order, order);
    var u := Number(d, order);
    Fixed(|d|, signed, if signed then AsSigned(u, 8 * |d|) else u)
  }

  function Decode(k: Kind, order: Order, b: Buffer): (r: Outcome<Value>)
    requires Sound(b) && IsKind(k)
    ensures Sound(r.buffer)
  {
    match k
    case FixedKind(width, signed) =>
      var t := TakeBytes(b, width);
      Outcome(if t.result.Ok? then Ok(NumberValue(t.result.value, signed, order)) else Fail(t.result), t.buffer)
    case UintKind(bits) =>
      var t := TakeVarint(b, bits);
      Outcome(if t.result.Ok? then Ok(Uint(bits, t.result.value)) else Fail(t.result), t.buffer)
    case IntKind(bits) =>
      var t := TakeVarint(b, bits);
      Outcome(if t.result.Ok? then Ok(Int(bits, Unzigzag(t.result.value, bits))) else Fail(t.result), t.buffer)
    case PrefixedKind(width) =>
      var t := TakeBytes(b, width);
      if !t.result.Ok? then Outcome(Fail(t.result), t.buffer)
      else
        var u := TakeBytes(t.buffer, Number(t.result.value, order));
        Outcome(if u.result.Ok? then Ok(Prefixed(width, u.result.value)) else Fail(u.result), u.buffer)
    case VarPrefixedKind =>
      var t := TakeVarint(b, 64);
      if !t.result.Ok? then Outcome(Fail(t.result), t.buffer)
      else
        var u := TakeBytes(t.buffer, t.result.value);
        Outcome(if u.result.Ok? then Ok(VarPrefixed(u.result.value)) else Fail(u.result), u.buffer)
  }

  function Fail<T, U>(r: ReadResult<T>): ReadResult<U>
    requires !r.Ok?
  {
    if r.OutOfRange? then OutOfRange else NullDeref
  }

  function DecodeAll(ks: seq<Kind>, os: seq<Order>, b: Buffer): Outcome<seq<Value>>
    requires Sound(b) && |os| == |ks| && forall i | 0 <= i < |ks| :: IsKind(ks[i])
  {
    if ks == [] then Outcome(Ok([]), b)
    else
      var first := Decode(ks[0], os[0], b);
      if !first.result.Ok? then Outcome(Fail(first.result), first.buffer)
      else
        var rest := DecodeAll(ks[1..], os[1..], first.buffer);
        Outcome(if rest.result.Ok? then Ok([first.result.value] + rest.result.value) else rest.result, rest.buffer)
  }

  function Kinds(vs: seq<Value>): (r: seq<Kind>)
    requires AllInType(vs)
    ensures forall i | 0 <= i < |r| :: IsKind(r[i])
    ensures |r| == |vs| && forall i | 0 <= i < |vs| :: r[i] == KindOf(vs[i])
  {
    seq(|vs|, i requires 0 <= i < |vs| => KindOf(vs[i]))
  }

  // ---------- The round trip ----------

  function Moved(b: Buffer, n: nat): Buffer {
    b.(position := b.position + n)
  }

  lemma MovedOn(b: Buffer, m: nat, n: int)
    requires Sound(b)
    ensures Moved(b, m).position == b.position + m && Moved(b, m).contents == b.contents
    ensures n >= 0 ==> Moved(Moved(b, m), n) == Moved(b, m + n)
    ensures Moved(b, 0) == b && b.position + |Readable(b)| <= |b.contents|
  {
  }

  lemma TakesText(b: Buffer, t: Data, rest: Data)
    requires Sound(b) && Readable(b) == t + rest
    ensures Sound(Moved(b, |t|)) && Readable(Moved(b, |t|)) == rest
    ensures TakeBytes(b, |t|) ==
            if b.position == |b.contents| then Outcome(NullDeref, b) else Outcome(Ok(t), Moved(b, |t|))
  {
    assert b.contents[b.position..b.position + |t|] == (t + rest)[..|t|] == t;
    assert Readable(Moved(b, |t|)) == (t + rest)[|t|..];
  }

  lemma TakesVarint(b: Buffer, v: nat, bits: nat, rest: Data)
    requires Sound(b) && Readable(b) == Varint(v) + rest && 0 < bits && v < Pow2(bits)
    ensures Sound(Moved(b, |Varint(v)|)) && Readable(Moved(b, |Varint(v)|)) == rest
    ensures TakeVarint(b, bits) == Outcome(Ok(v), Moved(b, |Varint(v)|))
  {
    assert v * Pow2(0) == v;
    VarintRoundTrip(v, 0, bits, rest);
    assert Readable(Moved(b, |Varint(v)|)) == (Varint(v) + rest)[|Varint(v)|..];
  }

  /** What the prefix of a string says, and the string behind it. */
  lemma TakesString(b: Buffer, s: Data, len: nat, rest: Data)
    requires Sound(b) && Readable(b) == s + rest
    ensures var t := TakeBytes(b, len);
      t == Outcome(Ok(s), Moved(b, |s|)) <==> len == |s| && b.position < |b.contents|
    ensures var t := TakeBytes(b, len);
      t.result == Ok(s) <==> len == |s| && b.position < |b.contents|
  {
    TakesText(b, s, rest);
  }

  /** One value: reading it gives it back, behind its last byte, exactly when a string fits its prefix
      and an empty string does not end at the end of the capacity. */
  lemma ValueRoundTrip(v: Value, order: Order, b: Buffer, rest: Data)
    requires Sound(b) && InType(v) && Readable(b) == Encode(v, order) + rest
    ensures var r := Decode(KindOf(v), order, b);
      r.result == Ok(v) <==>
      Fits(v) && !(IsEmptyString(v) && b.position + |Encode(v, order)| == |b.contents|)
    ensures var r := Decode(KindOf(v), order, b);
      r.result == Ok(v) ==> r.buffer == Moved(b, |Encode(v, order)|)
    ensures Sound(Moved(b, |Encode(v, order)|)) && Readable(Moved(b, |Encode(v, order)|)) == rest
  {
    hide TakeVarint, TakeBytes, Varint, Memory, Number, Readable, Codec.Zigzag, Unzigzag, NumberValue, Wrap;
    TakesText(b, Encode(v, order), rest);
    match v
    case Fixed(width, signed, n) => FixedValueRoundTrip(v, order);
    case Uint(bits, n) => TakesVarint(b, n, bits, rest);
    case Int(bits, n) =>
      TakesVarint(b, Codec.Zigzag(n, bits), bits, rest);
      ZigzagIsBijection(n, 0, bits);
    case Prefixed(width, s) =>
      var prefix := Memory(|s|, width, order);
      ConcatAssociative(prefix, s, rest);
      TakesText(b, prefix, s + rest);
      FixedTruncates(|s|, width, order);
      if Fits(v) {
        WrapSmall(|s|, 8 * width);
      }
      TakesString(Moved(b, width), s, Number(prefix, order), rest);
    case VarPrefixed(s) =>
      ConcatAssociative(Varint(|s|), s, rest);
      TakesVarint(b, |s|, 64, s + rest);
      TakesString(Moved(b, |Varint(|s|)|), s, |s|, rest);
  }

  lemma FixedValueRoundTrip(v: Value, order: Order)
    requires InType(v) && v.Fixed?
    ensures NumberValue(Encode(v, order), v.signed, order) == v
  {
    FixedRoundTrip(Wrap(v.n, 8 * v.width), v.width, order);
    if v.signed {
      SignedBits(v.n, 8 * v.width);
    } else {
      WrapSmall(v.n, 8 * v.width);
    }
  }

  /** The list ends in an empty string whose place is the end of the capacity. */
  predicate EndsAtEdge(vs: seq<Value>, os: seq<Order>, b: Buffer)
    requires AllInType(vs) && |os| == |vs|
  {
    vs != [] && IsEmptyString(vs[|vs| - 1]) && b.position + |EncodeAll(vs, os)| == |b.contents|
  }

  /** Any list of typed values: reading with the same types gives the same list and ends behind it,
      exactly when every string fits its prefix and the list does not end at the edge. */
  lemma {:induction false} ListRoundTrip(vs: seq<Value>, os: seq<Order>, b: Buffer, rest: Data)
    requires Sound(b) && AllInType(vs) && |os| == |vs| && Readable(b) == EncodeAll(vs, os) + rest
    ensures var r := DecodeAll(Kinds(vs), os, b);
      r.result == Ok(vs) <==> (forall i | 0 <= i < |vs| :: Fits(vs[i])) && !EndsAtEdge(vs, os, b)
    ensures var r := DecodeAll(Kinds(vs), os, b);
      r.result == Ok(vs) ==> r.buffer == Moved(b, |EncodeAll(vs, os)|)
  {
    if vs == [] {
      assert Moved(b, 0) == b;
    } else {
      var v, later := vs[0], vs[1..];
      var first := Encode(v, os[0]);
      ConcatAssociative(first, EncodeAll(later, os[1..]), rest);
      ListStep(vs, os, b, rest);
      DecodeStep(vs, os, b);
      hide *;
      ValueRoundTrip(v, os[0], b, EncodeAll(later, os[1..]) + rest);
      ListRoundTrip(later, os[1..], Moved(b, |first|), rest);
      MovedOn(b, |first|, |EncodeAll(later, os[1..])|);
    }
  }

  /** The text of a list and its edge, one value at a time. */
  lemma ListStep(vs: seq<Value>, os: seq<Order>, b: Buffer, rest: Data)
    requires Sound(b) && vs != [] && AllInType(vs) && |os| == |vs| && Readable(b) == EncodeAll(vs, os) + rest
    ensures AllInType(vs[1..]) && InType(vs[0]) && vs == [vs[0]] + vs[1..]
    ensures var v, later := vs[0], vs[1..];
      var n := |Encode(v, os[0])|;
      && EncodeAll(vs, os) == Encode(v, os[0]) + EncodeAll(later, os[1..])
      && ((forall i | 0 <= i < |vs| :: Fits(vs[i])) <==> Fits(v) && forall i | 0 <= i < |later| :: Fits(later[i]))
      && (EndsAtEdge(vs, os, b) <==>
          (later == [] && IsEmptyString(v) && b.position + n == |b.contents|) || EndsAtEdge(later, os[1..], Moved(b, n)))
      && (later != [] ==> b.position + n < |b.contents|)
  {
    hide Encode, InType, Fits, IsEmptyString;
    assert vs[1..] != [] ==> |EncodeAll(vs[1..], os[1..])| > 0;
  }

  /** Reading a list, one value at a time. */
  lemma DecodeStep(vs: seq<Value>, os: seq<Order>, b: Buffer)
    requires Sound(b) && vs != [] && AllInType(vs) && |os| == |vs| && AllInType(vs[1..])
    ensures var first := Decode(KindOf(vs[0]), os[0], b);
      var r := DecodeAll(Kinds(vs), os, b);
      if !first.result.Ok? then !r.result.Ok?
      else
        var rest := DecodeAll(Kinds(vs[1..]), os[1..], first.buffer);
        && r.buffer == rest.buffer
        && r.result == if rest.result.Ok? then Ok([first.result.value] + rest.result.value) else rest.result
  {
    hide Decode, InType, IsKind, KindOf, Sound;
    assert Kinds(vs)[1..] == Kinds(vs[1..]);
  }

  /** The whole trip through an array: write the list, seek back, read it with the same types. */
  lemma WrittenListIsReadBack(vs: seq<Value>, os: seq<Order>, before: Buffer, after: Buffer)
    requires Sound(before) && AllInType(vs) && |os| == |vs| && IsWrite(before, EncodeAll(vs, os), after)
    ensures Sound(after)
    ensures var back := after.(position := before.position);
      var r := DecodeAll(Kinds(vs), os, back);
      && (r.result == Ok(vs) <==> (forall i | 0 <= i < |vs| :: Fits(vs[i])) && !EndsAtEdge(vs, os, back))
      && (r.result == Ok(vs) ==> r.buffer == after)
  {
    WrittenIsReadable(before, EncodeAll(vs, os), after);
    var back := after.(position := before.position);
    var rest := Readable(back)[|EncodeAll(vs, os)|..];
    assert Readable(back) == EncodeAll(vs, os) + rest;
    ListRoundTrip(vs, os, back, rest);
  }

  /** Where it fails: an empty string in an array of one byte is the null dereference. */
  lemma EmptyStringAtEdge()
    ensures var vs, os, b := [VarPrefixed([])], [Big], Buffer([0], 0, 1);
      && AllInType(vs) && Sound(b) && Readable(b) == EncodeAll(vs, os) && EndsAtEdge(vs, os, b)
      && DecodeAll(Kinds(vs), os, b).result == NullDeref
  {
    var vs, os, b := [VarPrefixed([])], [Big], Buffer([0], 0, 1);
    assert Varint(0) == [0];
    assert EncodeAll(vs, os) == Encode(vs[0], Big) + EncodeAll([], []);
    assert vs[1..] == [] && os[1..] == [];
    assert Readable(b) == [0];
    TakesVarint(b, 0, 64, []);
    TakesText(Moved(b, 1), [], []);
  }

  /** And a string of 65536 bytes with a prefix of two. */
  lemma LongStringIsCut(s: Data, order: Order, b: Buffer)
    requires |s| == 0x1_0000 && Sound(b) && InType(Prefixed(2, s)) && Readable(b) == Encode(Prefixed(2, s), order)
    ensures b.position + 2 < |b.contents| && Decode(PrefixedKind(2), order, b).result == Ok(Prefixed(2, []))
  {
    hide Memory, Number, TakeBytes, Readable, Pow2, InType;
    var prefix := Memory(|s|, 2, order);
    PrefixIsZero(order);
    TakesText(b, prefix, s);
    assert s == [] + s;
    TakesText(Moved(b, 2), [], s);
    assert b.position + 2 + |s| <= |b.contents| by { MovedOn(Moved(b, 2), 0, 0); }
  }

  lemma PrefixIsZero(order: Order)
    ensures Number(Memory(0x1_0000, 2, order), order) == 0
  {
    FixedTruncates(0x1_0000, 2, order);
    assert Pow2(8) == 0x100;
    Pow2Adds(8, 8);
    hide Memory, Number;
  }
}
