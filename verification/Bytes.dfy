/** Bytes, as the buffers of the program hold them, and the few sequence facts the other modules share. */
module Bytes {

  type byte = b: int | 0 <= b < 256

  type Data = seq<byte>

  /** What `char` reads as on the targets of this code: a signed 8-bit value. */
  function Signed(b: byte): int {
    if b < 128 then b else b - 256
  }

  /** The bytes of an ASCII literal. */
  function Text(s: string): Data {
    seq(|s|, i requires 0 <= i < |s| => (s[i] as int) % 256)
  }

  /** `data[from..to]` when that lies inside the data, and the empty value otherwise. The callback for the
      query, whose start outlives a call, throws before it asks for anything else. */
  function Span(data: Data, from: int, to: int): Data {
    if 0 <= from <= to <= |data| then data[from..to] else []
  }

  function Min(a: int, b: int): int {
    if a < b then a else b
  }

  function Max(a: int, b: int): int {
    if a < b then b else a
  }

  /** The value of a 64-bit or 32-bit quantity read back as a signed `int`. */
  function AsInt32(n: int): int {
    var m := n % 0x1_0000_0000;
    if m < 0x8000_0000 then m else m - 0x1_0000_0000
  }

  lemma ConcatAssociative<T>(a: seq<T>, b: seq<T>, c: seq<T>)
    ensures (a + b) + c == a + (b + c)
  {
  }

  /** `data` with `t` copied over it at `at`. */
  function Spliced(data: Data, at: nat, t: Data): (r: Data)
    requires at + |t| <= |data|
    ensures |r| == |data|
  {
    data[..at] + t + data[at + |t|..]
  }

  lemma SpliceTwice(data: Data, at: nat, t: Data, u: Data)
    requires at + |t| + |u| <= |data|
    ensures Spliced(Spliced(data, at, t), at + |t|, u) == Spliced(data, at, t + u)
  {
  }

  lemma SpliceNothing(data: Data, at: nat)
    requires at <= |data|
    ensures Spliced(data, at, []) == data
  {
  }
}
