/** How numbers and strings become bytes. Machine integers are written as `int` with their wrap-around
    spelled out; `|` of numbers without common bits is `+`, and a shift by `i` is a product with 2^i. */
module Codec {
  import opened Bytes

  function Pow2(n: nat): (r: nat)
    ensures r > 0
  {
    if n == 0 then 1 else 2 * Pow2(n - 1)
  }

  lemma {:induction false} Pow2Adds(a: nat, b: nat)
    ensures Pow2(a + b) == Pow2(a) * Pow2(b)
  {
    if a > 0 {
      Pow2Adds(a - 1, b);
      Pow2Step(a - 1 + b);
      Pow2Step(a - 1);
      assert a - 1 + b + 1 == a + b;
      hide Pow2;
      DoubleProduct(Pow2(a - 1), Pow2(b));
    }
  }

  lemma Pow2Step(n: nat)
    ensures Pow2(n + 1) == 2 * Pow2(n)
  {
  }

  lemma DoubleProduct(p: nat, q: nat)
    ensures 2 * (p * q) == (2 * p) * q
  {
  }

  lemma {:induction false} Pow2Grows(a: nat, b: nat)
    requires a < b
    ensures 2 * Pow2(a) <= Pow2(b)
  {
    if a + 1 < b {
      Pow2Grows(a, b - 1);
    }
  }

  /** The value of `n` in an unsigned type of `bits` bits. */
  function Wrap(n: int, bits: nat): (r: nat)
    ensures r < Pow2(bits)
  {
    n % Pow2(bits)
  }

  lemma WrapUnique(n: int, bits: nat, r: nat, k: int)
    requires r < Pow2(bits) && n == k * Pow2(bits) + r
    ensures Wrap(n, bits) == r
  {
    RemainderIsUnique(n, Pow2(bits), r, k);
  }

  lemma RemainderIsUnique(n: int, m: nat, r: nat, k: int)
    requires r < m && n == k * m + r
    ensures n % m == r
  {
    var q := n / m;
    assert q * m - k * m == r - n % m;
    if q > k {
      MultipleAtLeast(q, k, m);
    } else if q < k {
      MultipleAtLeast(k, q, m);
    }
  }

  lemma MultipleAtLeast(a: int, b: int, m: nat)
    requires a > b
    ensures a * m - b * m >= m
  {
    var d: nat := a - b - 1;
    assert a * m - b * m == d * m + m;
    assert d * m >= 0;
  }

  lemma WrapSmall(n: nat, bits: nat)
    requires n < Pow2(bits)
    ensures Wrap(n, bits) == n
  {
    WrapUnique(n, bits, n, 0);
  }

  /** The signed number with the same bits, in two's complement. */
  function AsSigned(u: nat, bits: nat): int
    requires bits > 0 && u < Pow2(bits)
  {
    if u < Pow2(bits - 1) then u else u - Pow2(bits)
  }

  predicate IsSigned(n: int, bits: nat) {
    bits > 0 && 0 <= n + Pow2(bits - 1) && n < Pow2(bits - 1)
  }

  lemma SignedRange(n: int, bits: nat)
    ensures IsSigned(n, bits) <==> (bits > 0 && -2 * n <= Pow2(bits) && 2 * n < Pow2(bits))
  {
  }

  /** A signed number and its bits determine each other. */
  lemma SignedBits(n: int, bits: nat)
    requires IsSigned(n, bits)
    ensures AsSigned(Wrap(n, bits), bits) == n
  {
    if n < 0 {
      WrapUnique(n, bits, n + Pow2(bits), -1);
    } else {
      WrapSmall(n, bits);
    }
  }

  // ---------- Zigzag ----------

  /** `EncodeZigzag32/64`: the negation and the doublings wrap around. */
  function Zigzag(n: int, bits: nat): (r: nat)
    ensures r < Pow2(bits)
  {
    if n < 0 then Wrap(Wrap(-n, bits) * 2 - 1, bits) else Wrap(n * 2, bits)
  }

  /** `DecodeZigzag32/64`: the exclusive or is with all zeros or with all ones. */
  function Unzigzag(u: nat, bits: nat): int
    requires bits > 0 && u < Pow2(bits)
  {
    var mask := Wrap(-(u % 2), bits);
    AsSigned(if mask == 0 then u / 2 else Pow2(bits) - 1 - u / 2, bits)
  }

  /** The order of the code: 0, -1, 1, -2, 2, and so on, down to the most negative number. */
  lemma ZigzagOrder(n: int, bits: nat)
    requires IsSigned(n, bits)
    ensures Zigzag(n, bits) == if n < 0 then -2 * n - 1 else 2 * n
  {
    assert Pow2(bits) == 2 * Pow2(bits - 1);
    if n < 0 {
      WrapSmall(-n, bits);
      WrapSmall(-2 * n - 1, bits);
    } else {
      WrapSmall(2 * n, bits);
    }
  }

  lemma UnzigzagOrder(u: nat, bits: nat)
    requires bits > 0 && u < Pow2(bits)
    ensures Unzigzag(u, bits) == if u % 2 == 0 then u / 2 else -(u / 2) - 1
  {
    assert Pow2(bits) == 2 * Pow2(bits - 1);
    if u % 2 == 0 {
      WrapSmall(0, bits);
    } else {
      WrapUnique(-1, bits, Pow2(bits) - 1, -1);
    }
  }

  /** Zigzag is a bijection between the signed and the unsigned numbers of the same width. */
  lemma ZigzagIsBijection(n: int, u: nat, bits: nat)
    requires IsSigned(n, bits) && u < Pow2(bits)
    ensures Unzigzag(Zigzag(n, bits), bits) == n
    ensures IsSigned(Unzigzag(u, bits), bits) && Zigzag(Unzigzag(u, bits), bits) == u
  {
    hide *;
    SignedRange(n, bits);
    ZigzagOrder(n, bits);
    UnzigzagOrder(Zigzag(n, bits), bits);
    UnzigzagOrder(u, bits);
    SignedRange(Unzigzag(u, bits), bits);
    ZigzagOrder(Unzigzag(u, bits), bits);
  }

  // ---------- Varint ----------

  /** `writeUint32/64`: seven bits a byte, the lowest first, the top bit set on all but the last. */
  function Varint(v: nat): (r: Data)
    ensures |r| > 0
  {
    if v < 0x80 then [v] else [v % 0x80 + 0x80] + Varint(v / 0x80)
  }

  /** The contribution of a byte at shift `i` to a number of `bits` bits. */
  function Shifted(b: nat, i: nat, bits: nat): nat {
    Wrap(b * Pow2(i), bits)
  }

  /** What the reading loop adds to its result from shift `i` on, and how many bytes it takes. */
  datatype Scanned = Scanned(value: nat, used: nat) | Missing

  function ScanVarint(data: Data, i: nat, bits: nat): Scanned
    decreases |data|
  {
    if i >= bits then Scanned(0, 0)
    else if data == [] then Missing
    else if data[0] < 0x80 then Scanned(Shifted(data[0], i, bits), 1)
    else
      match ScanVarint(data[1..], i + 7, bits)
      case Missing => Missing
      case Scanned(value, used) => Scanned(Shifted(data[0] % 0x80, i, bits) + value, used + 1)
  }

  /** Reading a written number gives it back and takes exactly its bytes, whatever follows. */
  lemma {:induction false} VarintRoundTrip(v: nat, i: nat, bits: nat, rest: Data)
    requires i < bits && v * Pow2(i) < Pow2(bits)
    ensures ScanVarint(Varint(v) + rest, i, bits) == Scanned(v * Pow2(i), |Varint(v)|)
  {
    hide Pow2, Wrap, Shifted;
    var t := Varint(v) + rest;
    if v < 0x80 {
      ShiftedSmall(v, i, bits);
      assert t[0] == v;
    } else {
      var high, low := v / 0x80, v % 0x80;
      GroupFits(v, high, low, i, bits);
      VarintRoundTrip(high, i + 7, bits, rest);
      VarintSplits(v, rest);
      assert t[0] == low + 0x80 && t[1..] == Varint(high) + rest;
      ScanStep(t, i, bits);
    }
  }

  lemma ScanStep(data: Data, i: nat, bits: nat)
    requires i < bits && data != [] && data[0] >= 0x80
    ensures var r := ScanVarint(data[1..], i + 7, bits);
      ScanVarint(data, i, bits) ==
        if r.Missing? then Missing else Scanned(Shifted(data[0] % 0x80, i, bits) + r.value, r.used + 1)
  {
  }

  lemma VarintSplits(v: nat, rest: Data)
    requires v >= 0x80
    ensures var t := Varint(v) + rest; t[0] == v % 0x80 + 0x80 && t[1..] == Varint(v / 0x80) + rest
    ensures |Varint(v)| == 1 + |Varint(v / 0x80)|
  {
    assert (Varint(v) + rest)[1..] == Varint(v)[1..] + rest;
  }

  lemma ShiftedSmall(b: nat, i: nat, bits: nat)
    requires b * Pow2(i) < Pow2(bits)
    ensures Shifted(b, i, bits) == b * Pow2(i)
  {
    WrapSmall(b * Pow2(i), bits);
  }

  /** The lowest group of a number that fits, and the rest of it. */
  lemma GroupFits(v: nat, high: nat, low: nat, i: nat, bits: nat)
    requires v >= 0x80 && high == v / 0x80 && low == v % 0x80 && v * Pow2(i) < Pow2(bits)
    ensures i + 7 < bits && high * Pow2(i + 7) < Pow2(bits) && Shifted(low, i, bits) == low * Pow2(i)
    ensures v * Pow2(i) == low * Pow2(i) + high * Pow2(i + 7)
  {
    assert Pow2(7) == 0x80;
    Pow2Adds(i, 7);
    hide Pow2;
    var p := Pow2(i);
    SplitProduct(v, high, low, p);
    ProductAtLeast(high, Pow2(i + 7));
    if i + 7 > bits {
      Pow2Grows(bits, i + 7);
    }
    assert i + 7 != bits;
    WrapSmall(low * p, bits);
  }

  lemma SplitProduct(v: nat, high: nat, low: nat, p: nat)
    requires v == 0x80 * high + low
    ensures v * p == low * p + high * (p * 0x80)
    ensures low * p <= v * p && high * (p * 0x80) <= v * p
  {
    assert v * p == (0x80 * high) * p + low * p;
    assert (0x80 * high) * p == high * (p * 0x80);
  }

  lemma ProductAtLeast(a: nat, p: nat)
    requires a > 0
    ensures a * p >= p
  {
  }

  /** One byte for each started group of seven bits: `k` bytes are enough exactly for the numbers of at
      most `7 * k` bits. Hence five bytes for 32 bits and ten for 64. */
  lemma {:induction false} VarintLength(v: nat, k: nat)
    requires k > 0
    ensures |Varint(v)| <= k <==> v < Pow2(7 * k)
  {
    assert Pow2(7) == 0x80;
    Pow2Adds(7, 7 * (k - 1));
    if v >= 0x80 {
      if k > 1 {
        VarintLength(v / 0x80, k - 1);
        DivideBelow(v, Pow2(7 * (k - 1)));
      }
    } else {
      ProductAtLeast(Pow2(7 * (k - 1)), 0x80);
    }
  }

  lemma DivideBelow(v: nat, p: nat)
    ensures v / 0x80 < p <==> v < 0x80 * p
  {
  }

  /** A byte at shift `i` fills bits from `i` on, without those that do not fit. */
  lemma ShiftedBits(b: nat, i: nat, bits: nat)
    requires i < bits
    ensures Shifted(b, i, bits) == Wrap(b, bits - i) * Pow2(i)
  {
    Pow2Adds(bits - i, i);
    ScaledRemainder(b, Pow2(bits - i), Pow2(i));
  }

  lemma ScaledRemainder(b: nat, m: nat, p: nat)
    requires m > 0 && p > 0
    ensures m * p > 0 && (b * p) % (m * p) == (b % m) * p
  {
    var k, r := Quotient(b, m);
    ProductBelow(r, m, p);
    RemainderIsUnique(b * p, m * p, r * p, k);
  }

  lemma Quotient(b: nat, m: nat) returns (k: nat, r: nat)
    requires m > 0
    ensures b == k * m + r && r == b % m < m
  {
    k, r := b / m, b % m;
  }

  lemma ProductBelow(r: nat, m: nat, p: nat)
    requires r < m && p > 0
    ensures 0 <= r * p < m * p
  {
    assert m * p == r * p + (m - r) * p;
    ProductAtLeast(m - r, p);
  }

  /** Whatever bytes are read: the result is a number of the type, from at most one byte for each started
      group of seven bits, and the groups do not overlap: what comes from shift `i` on is `q` at shift `i`. */
  lemma {:induction false} ScanInType(data: Data, i: nat, bits: nat) returns (q: nat)
    requires i < bits
    ensures var r := ScanVarint(data, i, bits);
      r.Scanned? ==> r.value == q * Pow2(i) && q < Pow2(bits - i) && r.value < Pow2(bits) && r.used <= (bits - i + 6) / 7
    decreases |data|
  {
    q := 0;
    if data != [] {
      var low := if data[0] < 0x80 then data[0] else data[0] % 0x80;
      ShiftedBits(low, i, bits);
      q := Wrap(low, bits - i);
      if data[0] >= 0x80 && i + 7 < bits {
        var high := ScanInType(data[1..], i + 7, bits);
        GroupsJoin(low, high, i, bits);
        q := low + 0x80 * high;
      }
      Pow2Adds(bits - i, i);
      if q < Pow2(bits - i) {
        ProductBelow(q, Pow2(bits - i), Pow2(i));
      }
    }
  }

  lemma GroupsJoin(low: nat, high: nat, i: nat, bits: nat)
    requires i + 7 < bits && low < 0x80
    ensures Wrap(low, bits - i) == low
    ensures low * Pow2(i) + high * Pow2(i + 7) == (low + 0x80 * high) * Pow2(i)
    ensures high < Pow2(bits - (i + 7)) ==> low + 0x80 * high < Pow2(bits - i)
  {
    assert Pow2(7) == 0x80;
    Pow2Adds(i, 7);
    Pow2Adds(bits - i - 7, 7);
    ProductAtLeast(Pow2(bits - i - 7), 0x80);
    WrapSmall(low, bits - i);
  }

  // ---------- Fixed width ----------

  /** The `width` low bytes of a number, lowest first. */
  function LowFirst(u: nat, width: nat): (r: Data)
    ensures |r| == width
  {
    if width == 0 then [] else [u % 0x100] + LowFirst(u / 0x100, width - 1)
  }

  function FromLowFirst(data: Data): nat {
    if data == [] then 0 else data[0] + 0x100 * FromLowFirst(data[1..])
  }

  lemma {:induction false} LowFirstInverse(u: nat, width: nat)
    requires u < Pow2(8 * width)
    ensures FromLowFirst(LowFirst(u, width)) == u
  {
    LowFirstTruncates(u, width);
    WrapSmall(u, 8 * width);
  }

  lemma {:induction false} FromLowFirstInverse(data: Data)
    ensures FromLowFirst(data) < Pow2(8 * |data|) && LowFirst(FromLowFirst(data), |data|) == data
  {
    if data != [] {
      FromLowFirstInverse(data[1..]);
      ByteInFront(data[0], FromLowFirst(data[1..]), |data|);
      hide Pow2;
    }
  }

  /** One more low byte. */
  lemma ByteInFront(b: byte, high: nat, width: nat)
    requires width > 0 && high < Pow2(8 * (width - 1))
    ensures b + 0x100 * high < Pow2(8 * width)
    ensures (b + 0x100 * high) % 0x100 == b && (b + 0x100 * high) / 0x100 == high
  {
    assert Pow2(8) == 0x100;
    Pow2Adds(8, 8 * (width - 1));
    var p := Pow2(8 * (width - 1));
    hide Pow2;
    assert 8 + 8 * (width - 1) == 8 * width;
    assert b + 0x100 * high < 0x100 * (high + 1) <= 0x100 * p;
  }

  function Reversed(data: Data): (r: Data)
    ensures |r| == |data|
    ensures forall k | 0 <= k < |data| :: r[k] == data[|data| - 1 - k]
  {
    if data == [] then [] else Reversed(data[1..]) + [data[0]]
  }

  lemma ReversedTwice(data: Data)
    ensures Reversed(Reversed(data)) == data
  {
  }

  datatype Order = Little | Big

  /** The memory of a machine of order `host` that holds the number `u`. */
  function Memory(u: nat, width: nat, host: Order): (r: Data)
    ensures |r| == width
  {
    if host.Little? then LowFirst(u, width) else Reversed(LowFirst(u, width))
  }

  /** The number a machine of order `host` finds in its memory. */
  function Number(data: Data, host: Order): nat {
    FromLowFirst(if host.Little? then data else Reversed(data))
  }

  /** `byteswap`. */
  function Swapped(u: nat, width: nat): (r: nat) {
    FromLowFirst(Reversed(LowFirst(u, width)))
  }

  /** `writeFint`/`writeFuint`: swap if the wanted order is not the machine's, then copy the memory. */
  function WrittenFixed(u: nat, width: nat, order: Order, host: Order): (r: Data)
    ensures |r| == width
  {
    Memory(if order == host || width == 1 then u else Swapped(u, width), width, host)
  }

  function ReadBackFixed(data: Data, order: Order, host: Order): nat {
    var u := Number(data, host);
    if order == host || |data| == 1 then u else Swapped(u, |data|)
  }

  /** The written bytes are in the chosen order on every machine. */
  lemma HostDoesNotMatter(u: nat, width: nat, order: Order, host: Order)
    ensures WrittenFixed(u, width, order, host) == Memory(u, width, order)
  {
    var low := LowFirst(u, width);
    FromLowFirstInverse(Reversed(low));
    ReversedTwice(low);
    if width == 1 {
      assert Reversed(low) == low;
    }
  }

  /** So is what is read back. */
  lemma HostDoesNotMatterBack(data: Data, order: Order, host: Order)
    ensures ReadBackFixed(data, order, host) == Number(data, order) < Pow2(8 * |data|)
  {
    hide LowFirst, FromLowFirst, Reversed, Pow2;
    FromLowFirstInverse(data);
    FromLowFirstInverse(Reversed(data));
    ReversedTwice(data);
    if |data| == 1 {
      assert Reversed(data) == data;
    }
  }

  lemma FixedRoundTrip(u: nat, width: nat, order: Order)
    requires u < Pow2(8 * width)
    ensures Number(Memory(u, width, order), order) == u
  {
    LowFirstInverse(u, width);
    ReversedTwice(LowFirst(u, width));
  }

  /** A number too wide for its field comes back without its high part. */
  lemma {:induction false} FixedTruncates(u: nat, width: nat, order: Order)
    ensures Number(Memory(u, width, order), order) == Wrap(u, 8 * width)
  {
    ReversedTwice(LowFirst(u, width));
    LowFirstTruncates(u, width);
  }

  lemma {:induction false} LowFirstTruncates(u: nat, width: nat)
    ensures FromLowFirst(LowFirst(u, width)) == Wrap(u, 8 * width)
  {
    if width == 0 {
      WrapUnique(u, 0, 0, u);
    } else {
      LowFirstTruncates(u / 0x100, width - 1);
      WrapByte(u, width);
      hide Wrap, Pow2;
      assert LowFirst(u, width)[1..] == LowFirst(u / 0x100, width - 1);
    }
  }

  /** The low bytes of a number are its lowest byte and the low bytes of the rest. */
  lemma WrapByte(u: nat, width: nat)
    requires width > 0
    ensures Wrap(u, 8 * width) == u % 0x100 + 0x100 * Wrap(u / 0x100, 8 * (width - 1))
  {
    var high, m := u / 0x100, Pow2(8 * (width - 1));
    assert Pow2(8) == 0x100;
    Pow2Adds(8, 8 * (width - 1));
    var k, r := Quotient(high, m);
    hide Pow2;
    Regroup(k, m, high, u);
    WrapUnique(u, 8 * width, u % 0x100 + 0x100 * r, k);
  }

  lemma Regroup(k: nat, m: nat, high: nat, u: nat)
    requires m > 0 && high == u / 0x100 && high == k * m + high % m
    ensures u == k * (0x100 * m) + (u % 0x100 + 0x100 * (high % m))
  {
    assert 0x100 * (k * m) == k * (0x100 * m);
  }
}
