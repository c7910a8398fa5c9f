/** A list of equal blocks seen as one flat array, and what writing at a position means for it. */
module Blocks {
  import opened Bytes

  function Flat(blocks: seq<Data>): Data {
    if blocks == [] then [] else blocks[0] + Flat(blocks[1..])
  }

  predicate Uniform(blocks: seq<Data>, base: nat) {
    forall i | 0 <= i < |blocks| :: |blocks[i]| == base
  }

  lemma {:induction false} FlatLength(blocks: seq<Data>, base: nat)
    requires Uniform(blocks, base)
    ensures |Flat(blocks)| == |blocks| * base
  {
    if blocks != [] {
      FlatLength(blocks[1..], base);
      assert |blocks| * base == (|blocks| - 1) * base + base;
    }
  }

  lemma {:induction false} FlatAppend(blocks: seq<Data>, b: Data)
    ensures Flat(blocks + [b]) == Flat(blocks) + b
  {
    if blocks == [] {
      assert [] + [b] == [b];
      assert Flat([b]) == b + Flat([]);
    } else {
      assert (blocks + [b])[1..] == blocks[1..] + [b];
      FlatAppend(blocks[1..], b);
    }
  }

  lemma {:induction false} FlatConcat(a: seq<Data>, b: seq<Data>)
    ensures Flat(a + b) == Flat(a) + Flat(b)
  {
    if a == [] {
      assert a + b == b;
    } else {
      assert (a + b)[1..] == a[1..] + b;
      FlatConcat(a[1..], b);
      ConcatAssociative(a[0], Flat(a[1..]), Flat(b));
    }
  }

  /** Block `c` lies at offset `c * base`. */
  lemma BlockInFlat(blocks: seq<Data>, base: nat, c: nat)
    requires Uniform(blocks, base) && c < |blocks|
    ensures c * base + base <= |Flat(blocks)|
    ensures Flat(blocks)[c * base..c * base + base] == blocks[c]
    ensures Flat(blocks) == Flat(blocks[..c]) + blocks[c] + Flat(blocks[c + 1..])
    ensures |Flat(blocks[..c])| == c * base
  {
    assert blocks == blocks[..c] + ([blocks[c]] + blocks[c + 1..]);
    FlatConcat(blocks[..c], [blocks[c]] + blocks[c + 1..]);
    assert ([blocks[c]] + blocks[c + 1..])[1..] == blocks[c + 1..];
    FlatLength(blocks[..c], base);
  }

  /** Reading inside a block reads the flat array. */
  lemma SliceOfBlock(blocks: seq<Data>, base: nat, c: nat, lo: nat, hi: nat)
    requires Uniform(blocks, base) && c < |blocks| && lo <= hi <= base
    ensures c * base + hi <= |Flat(blocks)|
    ensures Flat(blocks)[c * base + lo..c * base + hi] == blocks[c][lo..hi]
  {
    BlockInFlat(blocks, base, c);
    assert Flat(blocks)[c * base..c * base + base][lo..hi] == Flat(blocks)[c * base + lo..c * base + hi];
  }

  /** Copying into a block copies into the flat array. */
  lemma SpliceIntoBlock(blocks: seq<Data>, base: nat, c: nat, lo: nat, t: Data)
    requires Uniform(blocks, base) && c < |blocks| && lo + |t| <= base
    ensures c * base + lo + |t| <= |Flat(blocks)|
    ensures Flat(blocks[c := Spliced(blocks[c], lo, t)]) == Spliced(Flat(blocks), c * base + lo, t)
  {
    hide Flat;
    var after := blocks[c := Spliced(blocks[c], lo, t)];
    BlockInFlat(blocks, base, c);
    hide Spliced;
    BlockInFlat(after, base, c);
    assert after[..c] == blocks[..c] && after[c + 1..] == blocks[c + 1..];
    SpliceMiddle(Flat(blocks[..c]), blocks[c], Flat(blocks[c + 1..]), lo, t);
  }

  lemma SpliceMiddle(l: Data, m: Data, r: Data, lo: nat, t: Data)
    requires lo + |t| <= |m|
    ensures Spliced(l + m + r, |l| + lo, t) == l + Spliced(m, lo, t) + r
  {
  }

  // ---------- The abstract buffer ----------

  /** The whole capacity as one array, with the cursor and the size. */
  datatype Buffer = Buffer(contents: Data, position: nat, size: nat)

  predicate Sound(b: Buffer) {
    b.position <= b.size <= |b.contents|
  }

  /** The bytes a reader can still get. */
  function Readable(b: Buffer): Data
    requires Sound(b)
  {
    b.contents[b.position..b.size]
  }

  /** `after` is `before` with `t` written at the cursor: the bytes of `t` replace what was there, all
      other bytes of the old capacity stay, the cursor moves behind `t` and the size covers it. */
  predicate IsWrite(before: Buffer, t: Data, after: Buffer)
    requires Sound(before)
  {
    && after.position == before.position + |t|
    && after.size == Max(before.size, after.position)
    && after.position <= |after.contents| && |before.contents| <= |after.contents|
    && (forall k | 0 <= k < |before.contents| && (k < before.position || after.position <= k) ::
          after.contents[k] == before.contents[k])
    && (forall k | before.position <= k < after.position :: after.contents[k] == t[k - before.position])
  }

  /** Two writes in a row are one write of both texts. */
  lemma WritesJoin(a: Buffer, t: Data, b: Buffer, u: Data, c: Buffer)
    requires Sound(a) && Sound(b) && IsWrite(a, t, b) && IsWrite(b, u, c)
    ensures IsWrite(a, t + u, c)
  {
    forall k | a.position <= k < c.position
      ensures c.contents[k] == (t + u)[k - a.position]
    {
      if k < b.position {
        assert c.contents[k] == b.contents[k];
      }
    }
  }

  /** After seeking back, a reader gets exactly what was written, followed by what was there before. */
  lemma WrittenIsReadable(before: Buffer, t: Data, after: Buffer)
    requires Sound(before) && IsWrite(before, t, after)
    ensures Sound(after)
    ensures var back := after.(position := before.position);
      Readable(back) == t + (if after.position < before.size then before.contents[after.position..before.size] else [])
  {
    var back := after.(position := before.position);
    var rest := if after.position < before.size then before.contents[after.position..before.size] else [];
    assert Readable(back) == after.contents[before.position..after.position] + after.contents[after.position..after.size];
    assert after.contents[after.position..after.size] == rest;
    assert after.contents[before.position..after.position] == t;
  }

  /** A write in slices: what is in front of the cursor and behind the text stays, and nothing is cut off. */
  lemma WriteIsSplice(before: Buffer, t: Data, after: Buffer)
    requires Sound(before) && IsWrite(before, t, after)
    ensures |before.contents| <= |after.contents| && before.position + |t| <= |after.contents|
    ensures after.contents[..before.position] == before.contents[..before.position]
    ensures after.contents[before.position..before.position + |t|] == t
    ensures before.position + |t| <= |before.contents| ==>
      after.contents[before.position + |t|..|before.contents|] == before.contents[before.position + |t|..]
    ensures after.position == before.position + |t| && after.size == if before.size < after.position then after.position else before.size
  {
  }
}
