/** The typed operations of the byte array, as the loops and calls they are made of. The machine's own
    byte order is a parameter; nothing that is written or read depends on it. */
module TypedStream {
  import opened Bytes
  import opened Blocks
  import opened Codec
  import opened ByteArray
  import opened TypedValues

  // ---------- Writing ----------

  method WriteFixed(ba: ByteArray, u: nat, width: nat, order: Order, host: Order)
    requires ba.Valid()
    modifies ba.Repr
    ensures ba.Valid() && fresh(ba.Repr - old(ba.Repr))
    ensures IsWrite(old(ba.View()), Memory(u, width, order), ba.View())
  {
    hide Memory, Swapped, ByteArray.Valid, ByteArray.View, IsWrite;
    var value := u;
    HostDoesNotMatter(u, width, order, host);
    if width > 1 && order != host {
      value := Swapped(value, width);
    }
    ba.Write(Memory(value, width, host));
  }

  /** The loop of `writeUint32` and `writeUint64`; the buffer is large enough for every number of the type. */
  method FillVarint(u: nat, tmp: array<byte>) returns (i: nat)
    requires 0 < tmp.Length && u < Pow2(7 * tmp.Length)
    modifies tmp
    ensures i <= tmp.Length && tmp[..i] == Varint(u)
  {
    var value := u;
    i := 0;
    VarintLength(u, tmp.Length);
    while value >= 0x80
      invariant 0 <= value && 0 <= i && i + |Varint(value)| <= tmp.Length
      invariant tmp[..i] + Varint(value) == Varint(u)
    {
      assert Varint(value) == [value % 0x80 + 0x80] + Varint(value / 0x80);
      tmp[i] := value % 0x80 + 0x80;
      i := i + 1;
      value := value / 0x80;
    }
    tmp[i] := value;
    i := i + 1;
  }

  method WriteUint(ba: ByteArray, u: nat, bits: nat)
    requires ba.Valid() && bits in {32, 64} && u < Pow2(bits)
    modifies ba.Repr
    ensures ba.Valid() && fresh(ba.Repr - old(ba.Repr))
    ensures IsWrite(old(ba.View()), Varint(u), ba.View())
  {
    hide *;
    RoomForVarint(u, bits);
    var n := if bits == 32 then 5 else 10;
    var tmp := new byte[n];
    var i := FillVarint(u, tmp);
    ba.Write(tmp[..i]);
  }

  lemma RoomForVarint(u: nat, bits: nat)
    requires bits in {32, 64} && u < Pow2(bits)
    ensures u < Pow2(7 * if bits == 32 then 5 else 10)
  {
    Pow2Grows(bits, 7 * if bits == 32 then 5 else 10);
  }

  method WriteValue(ba: ByteArray, v: Value, order: Order, host: Order)
    requires ba.Valid() && InType(v)
    modifies ba.Repr
    ensures ba.Valid() && fresh(ba.Repr - old(ba.Repr))
    ensures IsWrite(old(ba.View()), Encode(v, order), ba.View())
  {
    hide Memory, Wrap, Varint, IsWrite, Pow2, Codec.Zigzag;
    match v
    case Fixed(width, _, n) => WriteFixed(ba, Wrap(n, 8 * width), width, order, host);
    case Uint(bits, n) => WriteUint(ba, n, bits);
    case Int(bits, n) => WriteUint(ba, Codec.Zigzag(n, bits), bits);
    case Prefixed(width, s) => WritePrefixed(ba, s, width, order, host);
    case VarPrefixed(s) => WriteVarPrefixed(ba, s);
  }

  /** `writeStringF16/32/64`: the size, cut to the width of the prefix, then the bytes. */
  method WritePrefixed(ba: ByteArray, s: Data, width: nat, order: Order, host: Order)
    requires ba.Valid()
    modifies ba.Repr
    ensures ba.Valid() && fresh(ba.Repr - old(ba.Repr))
    ensures IsWrite(old(ba.View()), Memory(|s|, width, order) + s, ba.View())
  {
    hide *;
    ghost var before := ba.View();
    WriteFixed(ba, |s|, width, order, host);
    ghost var mid := ba.View();
    ba.Write(s);
    WritesJoin(before, Memory(|s|, width, order), mid, s, ba.View());
  }

  /** `writeStringVint`. */
  method WriteVarPrefixed(ba: ByteArray, s: Data)
    requires ba.Valid() && |s| < Pow2(64)
    modifies ba.Repr
    ensures ba.Valid() && fresh(ba.Repr - old(ba.Repr))
    ensures IsWrite(old(ba.View()), Varint(|s|) + s, ba.View())
  {
    hide *;
    ghost var before := ba.View();
    WriteUint(ba, |s|, 64);
    ghost var mid := ba.View();
    ba.Write(s);
    WritesJoin(before, Varint(|s|), mid, s, ba.View());
  }

  // ---------- Reading ----------

  /** `read` as an outcome. */
  method ReadBytes(ba: ByteArray, n: nat) returns (r: ReadResult<Data>)
    requires ba.Valid()
    modifies ba`position, ba`cur, ba`at
    ensures ba.Valid() && Outcome(r, ba.View()) == TakeBytes(old(ba.View()), n)
  {
    hide Flat;
    r := ba.Read(n);
  }

  method ReadFixed(ba: ByteArray, width: nat, order: Order, host: Order) returns (r: ReadResult<nat>)
    requires ba.Valid()
    modifies ba`position, ba`cur, ba`at
    ensures ba.Valid()
    ensures var t := TakeBytes(old(ba.View()), width);
      && ba.View() == t.buffer
      && r == if t.result.Ok? then Ok(Number(t.result.value, order)) else Fail(t.result)
    ensures r.Ok? ==> r.value < Pow2(8 * width)
  {
    hide Number, ByteArray.Valid, ByteArray.View, TakeBytes;
    var t := ReadBytes(ba, width);
    match t
    case OutOfRange => return OutOfRange;
    case NullDeref => return NullDeref;
    case Ok(data) =>
      HostDoesNotMatterBack(data, order, host);
      r := Ok(ReadBackFixed(data, order, host));
  }

  /** The rest of a varint, after `k` of its bytes. */
  ghost function Continued(result: nat, k: nat, rest: Scanned): Scanned {
    match rest
    case Missing => Missing
    case Scanned(value, used) => Scanned(result + value, k + used)
  }

  /** One more byte of a varint. */
  lemma ScanStep(all: Data, k: nat, result: nat, i: nat, bits: nat)
    requires k < |all| && i < bits
    requires ScanVarint(all, 0, bits) == Continued(result, k, ScanVarint(all[k..], i, bits))
    ensures all[k] < 0x80 ==> ScanVarint(all, 0, bits) == Scanned(result + Shifted(all[k], i, bits), k + 1)
    ensures all[k] >= 0x80 ==>
              ScanVarint(all, 0, bits) ==
              Continued(result + Shifted(all[k] % 0x80, i, bits), k + 1, ScanVarint(all[k + 1..], i + 7, bits))
  {
    assert all[k..][1..] == all[k + 1..];
  }

  /** The next byte of what was readable at the start. */
  lemma NextByte(start: Buffer, k: nat)
    requires Sound(start) && k <= |Readable(start)|
    ensures Sound(Moved(start, k))
    ensures TakeBytes(Moved(start, k), 1) ==
            if k == |Readable(start)| then Outcome(OutOfRange, start.(position := start.size))
            else Outcome(Ok([Readable(start)[k]]), Moved(start, k + 1))
  {
    if k < |Readable(start)| {
      assert start.contents[start.position + k..start.position + k + 1] == [Readable(start)[k]];
    }
  }

  /** The loop of `readUint32` and `readUint64`. */
  method ReadUint(ba: ByteArray, bits: nat) returns (r: ReadResult<nat>)
    requires ba.Valid() && bits in {32, 64}
    modifies ba`position, ba`cur, ba`at
    ensures ba.Valid() && Outcome(r, ba.View()) == TakeVarint(old(ba.View()), bits)
  {
    hide ScanVarint, Shifted, Readable, TakeBytes, ByteArray.Valid, ByteArray.View;
    ghost var start := ba.View();
    ghost var all := Readable(start);
    var result, i := 0, 0;
    ghost var k := 0;
    assert all[0..] == all;
    while i < bits
      invariant ba.Valid() && 0 <= i && 0 <= k <= |all| && 0 <= result && ba.View() == Moved(start, k)
      invariant ScanVarint(all, 0, bits) == Continued(result, k, ScanVarint(all[k..], i, bits))
      decreases bits - i
    {
      NextByte(start, k);
      var b := ReadBytes(ba, 1);
      if b.OutOfRange? {
        ScanNothing(all, k, i, bits);
        return OutOfRange;
      }
      ScanStep(all, k, result, i, bits);
      var byte := b.value[0];
      k := k + 1;
      if byte < 0x80 {
        return Ok(result + Shifted(byte, i, bits));
      }
      result := result + Shifted(byte % 0x80, i, bits);
      i := i + 7;
    }
    ScanEnds(all, k, i, bits);
    return Ok(result);
  }

  lemma ScanNothing(all: Data, k: nat, i: nat, bits: nat)
    requires k == |all| && i < bits
    ensures ScanVarint(all[k..], i, bits) == Missing
  {
  }

  lemma ScanEnds(all: Data, k: nat, i: nat, bits: nat)
    requires k <= |all| && i >= bits
    ensures ScanVarint(all[k..], i, bits) == Scanned(0, 0)
  {
  }

  method ReadValue(ba: ByteArray, kind: Kind, order: Order, host: Order) returns (r: ReadResult<Value>)
    requires ba.Valid() && IsKind(kind)
    modifies ba`position, ba`cur, ba`at
    ensures ba.Valid() && Outcome(r, ba.View()) == Decode(kind, order, old(ba.View()))
  {
    hide TakeBytes, TakeVarint, Number, AsSigned, Unzigzag, Wrap, ByteArray.Valid, ByteArray.View, Pow2;
    match kind
    case FixedKind(width, signed) =>
      var u := ReadFixed(ba, width, order, host);
      r := if u.Ok? then Ok(Fixed(width, signed, if signed then AsSigned(u.value, 8 * width) else u.value)) else Fail(u);
    case UintKind(bits) =>
      var u := ReadUint(ba, bits);
      r := if u.Ok? then Ok(Uint(bits, u.value)) else Fail(u);
    case IntKind(bits) =>
      var u := ReadUint(ba, bits);
      r := if u.Ok? then Ok(Int(bits, Unzigzag(u.value, bits))) else Fail(u);
    case PrefixedKind(width) =>
      var n := ReadFixed(ba, width, order, host);
      if !n.Ok? {
        return Fail(n);
      }
      var s := ReadBytes(ba, n.value);
      r := if s.Ok? then Ok(Prefixed(width, s.value)) else Fail(s);
    case VarPrefixedKind =>
      var n := ReadUint(ba, 64);
      if !n.Ok? {
        return Fail(n);
      }
      var s := ReadBytes(ba, n.value);
      r := if s.Ok? then Ok(VarPrefixed(s.value)) else Fail(s);
  }

  // ---------- Lists of values ----------

  method WriteAll(ba: ByteArray, vs: seq<Value>, os: seq<Order>, host: Order)
    requires ba.Valid() && AllInType(vs) && |os| == |vs|
    modifies ba.Repr
    ensures ba.Valid() && fresh(ba.Repr - old(ba.Repr))
    ensures IsWrite(old(ba.View()), EncodeAll(vs, os), ba.View())
    decreases |vs|
  {
    EncodeAllIs(vs, os);
    hide *;
    ghost var before := ba.View();
    if vs == [] {
      NothingWritten(before);
      return;
    }
    WriteValue(ba, vs[0], os[0], host);
    ghost var mid := ba.View();
    WriteAll(ba, vs[1..], os[1..], host);
    WritesJoin(before, Encode(vs[0], os[0]), mid, EncodeAll(vs[1..], os[1..]), ba.View());
  }

  lemma EncodeAllIs(vs: seq<Value>, os: seq<Order>)
    requires AllInType(vs) && |os| == |vs|
    ensures vs == [] ==> EncodeAll(vs, os) == []
    ensures vs != [] ==> InType(vs[0]) && AllInType(vs[1..]) && EncodeAll(vs, os) == Encode(vs[0], os[0]) + EncodeAll(vs[1..], os[1..])
  {
    hide InType, Encode;
  }

  lemma NothingWritten(b: Buffer)
    requires Sound(b)
    ensures IsWrite(b, [], b)
  {
  }

  method ReadAll(ba: ByteArray, kinds: seq<Kind>, os: seq<Order>, host: Order) returns (r: ReadResult<seq<Value>>)
    requires ba.Valid() && |os| == |kinds| && forall i | 0 <= i < |kinds| :: IsKind(kinds[i])
    modifies ba`position, ba`cur, ba`at
    ensures ba.Valid() && Outcome(r, ba.View()) == DecodeAll(kinds, os, old(ba.View()))
    decreases |kinds|
  {
    hide Decode, ByteArray.Valid, ByteArray.View, IsKind;
    if kinds == [] {
      return Ok([]);
    }
    var first := ReadValue(ba, kinds[0], os[0], host);
    if !first.Ok? {
      return Fail(first);
    }
    var rest := ReadAll(ba, kinds[1..], os[1..], host);
    r := if rest.Ok? then Ok([first.value] + rest.value) else rest;
  }

  /** The whole trip: write a list of values, seek back to where it starts, and read as many values of the same
      kinds. The list comes back if and only if every string fits its prefix and the list does not end, in an
      empty string, at the end of the capacity. */
  method WriteAndReadBack(ba: ByteArray, vs: seq<Value>, os: seq<Order>, host: Order) returns (r: ReadResult<seq<Value>>)
    requires ba.Valid() && AllInType(vs) && |os| == |vs|
    modifies ba.Repr
    ensures ba.Valid() && fresh(ba.Repr - old(ba.Repr))
    ensures r == Ok(vs) <==>
            (forall i | 0 <= i < |vs| :: Fits(vs[i]))
            && !(vs != [] && IsEmptyString(vs[|vs| - 1]) && old(ba.position) + |EncodeAll(vs, os)| == ba.capacity)
    ensures r == Ok(vs) ==> IsWrite(old(ba.View()), EncodeAll(vs, os), ba.View())
  {
    hide EncodeAll, DecodeAll, IsWrite, Fits, IsEmptyString, InType, Readable, Flat;
    ghost var before := ba.View();
    var start := ba.position;
    WriteAll(ba, vs, os, host);
    ghost var after := ba.View();
    WrittenListIsReadBack(vs, os, before, after);
    WriteGoesBehind(before, EncodeAll(vs, os), after);
    var ok := ba.SetPosition(start);
    assert ok && ba.View() == after.(position := start);
    r := ReadAll(ba, Kinds(vs), os, host);
  }

  lemma WriteGoesBehind(before: Buffer, t: Data, after: Buffer)
    requires Sound(before) && IsWrite(before, t, after)
    ensures before.position <= after.size && after.position == before.position + |t|
  {
  }
}
