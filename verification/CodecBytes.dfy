/** The code of a number byte by byte: which byte of the number stands where. */
module CodecBytes {
  import opened Bytes
  import opened Codec
  import opened TypedValues

  // ---------- Divisions ----------

  lemma DivideTwice(n: int, a: nat, b: nat)
    requires a > 0 && b > 0
    ensures a * b > 0 && n / a / b == n / (a * b)
  {
    var q := n / a / b;
    var r := n - q * (a * b);
    SplitTwice(n, a, b);
    QuotientIsUnique(n, a * b, q, r);
  }

  lemma SplitTwice(n: int, a: nat, b: nat)
    requires a > 0 && b > 0
    ensures a * b > 0 && 0 <= n - (n / a / b) * (a * b) < a * b
  {
    var d, low := n / a, n % a;
    var q, high := d / b, d % b;
    assert n == d * a + low && d == q * b + high;
    assert d * a == (q * b) * a + high * a;
    assert (q * b) * a == q * (a * b);
    assert 0 <= high * a;
    MultipleAtLeast(b, high, a);
  }

  lemma QuotientIsUnique(n: int, m: nat, q: int, r: int)
    requires m > 0 && 0 <= r < m && n == q * m + r
    ensures n / m == q
  {
    var p := n / m;
    assert n == p * m + n % m;
    if p > q {
      MultipleAtLeast(p, q, m);
    } else if p < q {
      MultipleAtLeast(q, p, m);
    }
  }

  /** The byte of `n` at shift `8 * j`, for negative numbers in two's complement. */
  function ByteOf(n: int, j: nat): byte {
    (n / Pow2(8 * j)) % 0x100
  }

  lemma ByteOfRest(u: int, j: nat)
    ensures ByteOf(u / 0x100, j) == ByteOf(u, j + 1) && ByteOf(u, 0) == u % 0x100
  {
    assert Pow2(0) == 1;
    assert Pow2(8) == 0x100;
    Pow2Adds(8, 8 * j);
    assert 8 + 8 * j == 8 * (j + 1);
    hide Pow2;
    DivideTwice(u, 0x100, Pow2(8 * j));
  }

  // ---------- Fixed width ----------

  lemma {:induction false} LowFirstByte(u: nat, width: nat, k: nat)
    requires k < width
    ensures LowFirst(u, width)[k] == ByteOf(u, k)
    decreases k
  {
    hide ByteOf;
    if k == 0 {
      ByteOfRest(u, 0);
    } else {
      LowFirstByte(u / 0x100, width - 1, k - 1);
      ByteOfRest(u, k - 1);
      assert LowFirst(u, width)[1..] == LowFirst(u / 0x100, width - 1);
    }
  }

  /** The place of byte `k` of a field: the highest comes first in a big-endian one. */
  function Place(width: nat, order: Order, k: nat): nat
    requires k < width
  {
    match order
    case Little => k
    case Big => width - 1 - k
  }

  /** On every machine: the bytes written are those of the number, the highest first if the order is big-endian
      and the lowest first if it is little-endian. */
  lemma WrittenBytes(u: nat, width: nat, order: Order, host: Order, k: nat)
    requires k < width
    ensures WrittenFixed(u, width, order, host)[k] == (u / Pow2(8 * Place(width, order, k))) % 0x100
    ensures Memory(u, width, order)[k] == (u / Pow2(8 * Place(width, order, k))) % 0x100
  {
    HostDoesNotMatter(u, width, order, host);
    LowFirstByte(u, width, Place(width, order, k));
    hide WrittenFixed, LowFirst;
  }

  /** Two bytes of a big-endian field, as an array has it at first. */
  lemma BigComesFirst(host: Order)
    ensures WrittenFixed(0x0102, 2, Big, host) == [1, 2] && WrittenFixed(0x0102, 2, Little, host) == [2, 1]
  {
    assert Pow2(0) == 1 && Pow2(8) == 0x100;
    WrittenBytes(0x0102, 2, Big, host, 0);
    WrittenBytes(0x0102, 2, Big, host, 1);
    WrittenBytes(0x0102, 2, Little, host, 0);
    WrittenBytes(0x0102, 2, Little, host, 1);
    hide WrittenFixed, Pow2;
  }

  /** The sum of the first `k` bytes of a field, each at its place. */
  function BytesSum(data: Data, order: Order, k: nat): nat
    requires k <= |data|
  {
    if k == 0 then 0 else BytesSum(data, order, k - 1) + data[k - 1] * Pow2(8 * Place(|data|, order, k - 1))
  }

  lemma {:induction false} LowFirstSum(data: Data, k: nat)
    requires k <= |data|
    ensures FromLowFirst(data) == BytesSum(data, Little, k) + Pow2(8 * k) * FromLowFirst(data[k..])
  {
    if k == 0 {
      assert data[0..] == data && Pow2(0) == 1;
    } else {
      LowFirstSum(data, k - 1);
      assert data[k - 1..][1..] == data[k..];
      assert Pow2(8) == 0x100;
      Pow2Adds(8 * (k - 1), 8);
      assert 8 * (k - 1) + 8 == 8 * k;
      hide Pow2;
      Distribute(Pow2(8 * (k - 1)), data[k - 1], FromLowFirst(data[k..]));
    }
  }

  lemma Distribute(p: nat, b: nat, high: nat)
    ensures p * (b + 0x100 * high) == b * p + (p * 0x100) * high
  {
  }

  lemma {:induction false} LastIsHighest(data: Data, b: byte)
    ensures FromLowFirst(data + [b]) == FromLowFirst(data) + b * Pow2(8 * |data|)
  {
    if data == [] {
      assert data + [b] == [b] && [b][1..] == [] && Pow2(0) == 1;
    } else {
      assert (data + [b])[1..] == data[1..] + [b];
      LastIsHighest(data[1..], b);
      assert Pow2(8) == 0x100;
      Pow2Adds(8 * |data[1..]|, 8);
      hide Pow2;
      Rescale(FromLowFirst(data[1..]), b, Pow2(8 * |data[1..]|));
    }
  }

  lemma Rescale(x: nat, b: nat, p: nat)
    ensures 0x100 * (x + b * p) == 0x100 * x + b * (p * 0x100)
  {
  }

  lemma {:induction false} HighFirstSum(data: Data, k: nat)
    requires k <= |data|
    ensures FromLowFirst(Reversed(data)) == BytesSum(data, Big, k) + FromLowFirst(Reversed(data[k..]))
  {
    hide FromLowFirst, Pow2;
    if k == 0 {
      assert data[0..] == data;
    } else {
      HighFirstSum(data, k - 1);
      var rest := data[k - 1..];
      assert rest[1..] == data[k..] && rest[0] == data[k - 1];
      assert Reversed(rest) == Reversed(data[k..]) + [data[k - 1]];
      LastIsHighest(Reversed(data[k..]), data[k - 1]);
    }
  }

  /** On every machine: the number read is the sum of the bytes, each at its place. */
  lemma ReadIsSum(data: Data, order: Order, host: Order)
    ensures ReadBackFixed(data, order, host) == BytesSum(data, order, |data|)
    ensures Number(data, order) == BytesSum(data, order, |data|)
  {
    HostDoesNotMatterBack(data, order, host);
    LowFirstSum(data, |data|);
    HighFirstSum(data, |data|);
    assert data[|data|..] == [] && Reversed([]) == [] && FromLowFirst([]) == 0;
    hide ReadBackFixed, BytesSum, Pow2;
  }

  // ---------- Typed values ----------

  /** The bytes of a number that is cut to a field are those of the number. */
  lemma CutKeepsBytes(n: int, width: nat, j: nat)
    requires j < width
    ensures ByteOf(Wrap(n, 8 * width), j) == ByteOf(n, j)
  {
    var p, rest := Pow2(8 * j), Pow2(8 * (width - 1 - j));
    assert Pow2(8) == 0x100;
    Pow2Adds(8 * j, 8);
    Pow2Adds(8 * j + 8, 8 * (width - 1 - j));
    assert 8 * j + 8 + 8 * (width - 1 - j) == 8 * width;
    hide Pow2;
    CutDivides(n, p, rest);
  }

  lemma CutDivides(n: int, p: nat, rest: nat)
    requires p > 0 && rest > 0
    ensures p * 0x100 * rest > 0 && (n % (p * 0x100 * rest) / p) % 0x100 == (n / p) % 0x100
  {
    var m := p * 0x100 * rest;
    var q, r := n / m, n % m;
    assert n == q * m + r;
    var d, low := r / p, r % p;
    assert r == d * p + low;
    Collect(q, p, rest, d);
    QuotientIsUnique(n, p, q * (0x100 * rest) + d, low);
    SameLowByte(q, rest, d);
  }

  lemma Collect(q: int, p: nat, rest: nat, d: int)
    ensures q * (p * 0x100 * rest) + d * p == (q * (0x100 * rest) + d) * p
  {
    assert q * (p * 0x100 * rest) == (q * (0x100 * rest)) * p;
  }

  lemma SameLowByte(q: int, rest: nat, d: int)
    ensures (q * (0x100 * rest) + d) % 0x100 == d % 0x100
  {
    var k := q * rest;
    assert q * (0x100 * rest) == 0x100 * k;
  }

  /** A fixed-width number, signed or not, is written byte by byte at its places, a negative one in two's
      complement; a string behind a prefix of fixed width is its size and then its bytes. */
  lemma EncodedBytes(v: Value, order: Order, k: nat)
    requires InType(v) && k < |Encode(v, order)|
    ensures v.Fixed? ==> |Encode(v, order)| == v.width && Encode(v, order)[k] == ByteOf(v.n, Place(v.width, order, k))
    ensures v.Prefixed? ==> |Encode(v, order)| == v.width + |v.s|
    ensures v.Prefixed? ==>
      Encode(v, order)[k] == if k < v.width then ByteOf(|v.s|, Place(v.width, order, k)) else v.s[k - v.width]
  {
    hide Memory, Varint, Codec.Zigzag, ByteOf, Wrap, Pow2;
    match v {
      case Fixed(width, _, n) =>
        FieldByte(Wrap(n, 8 * width), width, order, k);
        CutKeepsBytes(n, width, Place(width, order, k));
      case Prefixed(width, s) =>
        if k < width {
          FieldByte(|s|, width, order, k);
        }
      case _ =>
    }
  }

  lemma FieldByte(u: nat, width: nat, order: Order, k: nat)
    requires k < width
    ensures Memory(u, width, order)[k] == ByteOf(u, Place(width, order, k))
  {
    WrittenBytes(u, width, order, order, k);
    hide Memory, WrittenFixed;
  }

  // ---------- Varint ----------

  lemma GroupOfRest(v: nat, k: nat)
    ensures (v / 0x80 / Pow2(7 * k)) % 0x80 == (v / Pow2(7 * (k + 1))) % 0x80
    ensures (v / Pow2(0)) % 0x80 == v % 0x80
  {
    assert Pow2(0) == 1;
    assert Pow2(7) == 0x80;
    Pow2Adds(7, 7 * k);
    assert 7 + 7 * k == 7 * (k + 1);
    hide Pow2;
    DivideTwice(v, 0x80, Pow2(7 * k));
  }

  /** Byte `k` of a varint holds the number's bits from `7 * k` on, and a top bit that says whether more follow. */
  lemma {:induction false} VarintByte(v: nat, k: nat)
    requires k < |Varint(v)|
    ensures Varint(v)[k] == (v / Pow2(7 * k)) % 0x80 + if k < |Varint(v)| - 1 then 0x80 else 0
    decreases k
  {
    hide Pow2;
    if k == 0 {
      GroupOfRest(v, 0);
    } else {
      VarintByte(v / 0x80, k - 1);
      GroupOfRest(v, k - 1);
      assert Varint(v)[1..] == Varint(v / 0x80);
    }
  }

  /** The sum of the groups of the first `k` bytes from shift `i` on, each cut to the type. */
  function GroupSum(data: Data, i: nat, k: nat, bits: nat): nat
    requires k <= |data|
  {
    if k == 0 then 0 else ((data[0] % 0x80) * Pow2(i)) % Pow2(bits) + GroupSum(data[1..], i + 7, k - 1, bits)
  }

  /** The reading loop takes bytes up to the first one without the top bit, or until the type is full, and adds
      their groups, whatever the bytes. */
  lemma {:induction false} ScanIsSum(data: Data, i: nat, n: nat, bits: nat)
    requires n <= |data| && (forall j | 0 <= j < n - 1 :: data[j] >= 0x80)
    requires n > 0 ==> i + 7 * (n - 1) < bits
    requires (n > 0 && data[n - 1] < 0x80) || (i + 7 * n >= bits && (n > 0 ==> data[n - 1] >= 0x80))
    ensures ScanVarint(data, i, bits) == Scanned(GroupSum(data, i, n, bits), n)
    decreases n
  {
    hide Pow2;
    if n > 0 {
      if data[0] >= 0x80 {
        ScanIsSum(data[1..], i + 7, n - 1, bits);
      } else {
        assert data[0] % 0x80 == data[0];
        assert GroupSum(data[1..], i + 7, 0, bits) == 0;
      }
    }
  }
}
