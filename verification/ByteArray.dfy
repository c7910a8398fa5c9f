/** The byte array: a singly linked list of equal blocks with a cursor, acting as one flat array. */
module ByteArray {
  import opened Bytes
  import opened Blocks
  import opened Streams

  class Node {
    var ptr: array<byte>
    var next: Node?

    constructor (size: nat)
      ensures ptr.Length == size && next == null && fresh(ptr)
    {
      ptr, next := new byte[size], null;
    }
  }

  /** The blocks of a list of nodes. */
  ghost function BlocksOf(nodes: seq<Node>): (r: seq<Data>)
    reads nodes, set i | 0 <= i < |nodes| :: nodes[i].ptr
    ensures |r| == |nodes|
    ensures forall i | 0 <= i < |nodes| :: r[i] == nodes[i].ptr[..]
  {
    seq(|nodes|, i requires 0 <= i < |nodes| reads nodes, set j | 0 <= j < |nodes| :: nodes[j].ptr => nodes[i].ptr[..])
  }

  /** What a read ends with. `NullDeref` is a dereference of the null cursor at the end of the capacity. */
  datatype ReadResult<+T> = Ok(value: T) | OutOfRange | NullDeref

  class ByteArray {
    const baseSize: nat
    var position: nat
    var capacity: nat
    var size: nat
    var root: Node
    var cur: Node?
    ghost var nodes: seq<Node>
    ghost var at: nat
    ghost var Repr: set<object>

    /** The list: `nodes` are linked in order, pairwise different, each with its own block. */
    ghost predicate Shape()
      reads this, Repr
    {
      && this in Repr && baseSize > 0
      && |nodes| > 0 && nodes[0] == root && capacity == |nodes| * baseSize
      && (forall i | 0 <= i < |nodes| ::
            nodes[i] in Repr && nodes[i].ptr in Repr && nodes[i].ptr.Length == baseSize)
      && (forall i {:trigger nodes[i].next} | 0 <= i < |nodes| ::
            nodes[i].next == if i + 1 < |nodes| then nodes[i + 1] else null)
      && (forall i, j | 0 <= i < j < |nodes| :: nodes[i] != nodes[j] && nodes[i].ptr != nodes[j].ptr)
    }

    /** The cursor points to the block of the position, and is null exactly at the end of the capacity. */
    ghost predicate Cursor()
      reads this
    {
      && at <= |nodes| && at * baseSize <= position < at * baseSize + baseSize
      && (at == |nodes| ==> position == capacity)
      && cur == (if at < |nodes| then nodes[at] else null)
    }

    ghost predicate Valid()
      reads this, Repr
    {
      Shape() && Cursor() && position <= size <= capacity
    }

    ghost function Contents(): (r: Data)
      requires Shape()
      reads this, Repr
      ensures |r| == capacity
    {
      FlatLength(BlocksOf(nodes), baseSize);
      Flat(BlocksOf(nodes))
    }

    ghost function View(): (r: Buffer)
      requires Valid()
      reads this, Repr
      ensures Sound(r)
    {
      Buffer(Contents(), position, size)
    }

    constructor (baseSize: nat)
      requires baseSize > 0
      ensures Valid() && fresh(Repr) && this.baseSize == baseSize
      ensures position == 0 && size == 0 && capacity == baseSize
    {
      this.baseSize := baseSize;
      position, capacity, size, at := 0, baseSize, 0, 0;
      var first := new Node(baseSize);
      root, cur, nodes := first, first, [first];
      Repr := {this, first, first.ptr};
    }

    /** `addCapacity(n)`: append the fewest blocks that make room for `n` more bytes. */
    method AddCapacity(n: nat)
      requires Valid()
      modifies Repr
      ensures Valid() && fresh(Repr - old(Repr))
      ensures position == old(position) && size == old(size)
      ensures position + n <= capacity && old(capacity) <= capacity
      ensures if position + n <= old(capacity) then capacity == old(capacity) else capacity - baseSize < position + n
      ensures Contents()[..old(capacity)] == old(Contents())
    {
      assert at == |nodes| <==> position == capacity by { CursorFacts(); }
      var oldCap := capacity - position;
      if n == 0 || oldCap >= n {
        assert Contents()[..capacity] == Contents();
        return;
      }
      var count := (n - oldCap + baseSize - 1) / baseSize;
      ghost var before := nodes;
      assert baseSize > 0;
      hide Shape, Contents, Flat, Valid;
      LeastBlocks(n - oldCap, baseSize);
      var first := Grow(count);
      assert at < |before| ==> nodes[at] == nodes[..|before|][at];
      if oldCap == 0 {
        PointAtGrown(first);
      }
      NowValid();
    }

    method PointAtGrown(first: Node)
      requires Shape() && at < |nodes| && first == nodes[at] && at * baseSize <= position < at * baseSize + baseSize
      modifies this`cur
      ensures Shape() && Cursor() && Contents() == old(Contents())
    {
      hide Flat;
      ghost var blocks := BlocksOf(nodes);
      cur := first;
      assert BlocksOf(nodes) == blocks;
    }

    lemma NowValid()
      requires Shape() && Cursor() && position <= size <= capacity
      ensures Valid()
    {
      hide Shape, Cursor;
    }

    /** The loop of `addCapacity`: link `count` new blocks behind the last one. */
    method Grow(count: nat) returns (first: Node)
      requires Shape() && count > 0
      modifies Repr
      ensures Shape() && fresh(Repr - old(Repr))
      ensures |nodes| == |old(nodes)| + count && nodes[..|old(nodes)|] == old(nodes) && first == nodes[|old(nodes)|]
      ensures position == old(position) && size == old(size) && cur == old(cur) && at == old(at)
      ensures capacity == old(capacity) + count * baseSize
      ensures Contents()[..old(capacity)] == old(Contents())
    {
      hide *;
      ghost var c0 := Contents();
      var tmp := LastNode();
      tmp := AppendNode(tmp);
      first := tmp;
      var i := 1;
      while i < count
        invariant 1 <= i <= count && |nodes| == |old(nodes)| + i && nodes[..|old(nodes)|] == old(nodes)
        invariant Shape() && fresh(Repr - old(Repr)) && tmp == nodes[|nodes| - 1] && first == nodes[|old(nodes)|]
        invariant position == old(position) && size == old(size) && cur == old(cur) && at == old(at)
        invariant capacity == old(capacity) + i * baseSize && |c0| == old(capacity) <= capacity == |Contents()|
        invariant Contents()[..|c0|] == c0
      {
        ghost var mid := Contents();
        tmp := AppendNode(tmp);
        i := i + 1;
      }
    }

    /** The walk to the end of the list. */
    method LastNode() returns (tmp: Node)
      requires Shape()
      ensures tmp == nodes[|nodes| - 1]
    {
      tmp := root;
      ghost var i := 0;
      while tmp.next != null
        invariant 0 <= i < |nodes| && tmp == nodes[i]
        decreases |nodes| - i
      {
        assert nodes[i].next != null;
        tmp := tmp.next;
        i := i + 1;
      }
    }

    /** A new block behind the last one. */
    method AppendNode(tmp: Node) returns (node: Node)
      requires Shape() && tmp == nodes[|nodes| - 1]
      modifies Repr
      ensures Shape() && fresh(Repr - old(Repr)) && fresh(node)
      ensures nodes == old(nodes) + [node] && capacity == old(capacity) + baseSize
      ensures position == old(position) && size == old(size) && cur == old(cur) && at == old(at)
      ensures Contents()[..old(capacity)] == old(Contents())
    {
      hide *;
      ghost var before := BlocksOf(nodes);
      node := new Node(baseSize);
      LastIsOurs(tmp);
      BeforeAppending();
      Link(tmp, node);
      Appended(before, node);
    }

    lemma LastIsOurs(tmp: Node)
      requires Shape() && tmp == nodes[|nodes| - 1]
      ensures this in Repr && tmp in Repr
      ensures |nodes| > 0 && nodes[|nodes| - 1] == tmp
    {
    }

    lemma BeforeAppending()
      requires Shape()
      ensures Uniform(BlocksOf(nodes), baseSize) && Contents() == Flat(BlocksOf(nodes)) && |Contents()| == capacity
    {
    }

    /** What linking a node does to the list. */
    method Link(tmp: Node, node: Node)
      requires Shape() && tmp == nodes[|nodes| - 1]
      requires node !in Repr && node.ptr !in Repr && node.next == null && node.ptr.Length == baseSize
      modifies tmp`next, this`nodes, this`Repr, this`capacity
      ensures Shape() && Repr == old(Repr) + {node, node.ptr}
      ensures nodes == old(nodes) + [node] && capacity == old(capacity) + baseSize
      ensures BlocksOf(nodes) == old(BlocksOf(nodes)) + [node.ptr[..]]
    {
      assert (|nodes| + 1) * baseSize == |nodes| * baseSize + baseSize;
      tmp.next := node;
      nodes := nodes + [node];
      Repr := Repr + {node, node.ptr};
      capacity := capacity + baseSize;
    }

    /** And to the contents. */
    lemma Appended(before: seq<Data>, node: Node)
      requires Shape() && Uniform(before, baseSize) && BlocksOf(nodes) == before + [node.ptr[..]]
      ensures |Flat(before)| <= |Contents()| && Contents()[..|Flat(before)|] == Flat(before)
    {
      hide Flat;
      FlatAppend(before, node.ptr[..]);
    }

    lemma ContentsIs()
      requires Shape()
      ensures Contents() == Flat(BlocksOf(nodes)) && Uniform(BlocksOf(nodes), baseSize)
    {
      hide Flat;
    }

    method Overwrite(block: array<byte>, ghost c: nat, npos: nat, t: Data)
      requires Shape() && c < |nodes| && block == nodes[c].ptr && npos + |t| <= baseSize
      modifies block
      ensures Shape() && |Spliced(old(BlocksOf(nodes))[c], npos, t)| == baseSize
      ensures BlocksOf(nodes) == old(BlocksOf(nodes))[c := Spliced(old(BlocksOf(nodes))[c], npos, t)]
    {
      hide Flat, Spliced;
      ghost var before := BlocksOf(nodes);
      FillBlock(block, npos, t);
      ghost var after := BlocksOf(nodes);
      forall i | 0 <= i < |nodes| && i != c
        ensures after[i] == before[i]
      {
        assert nodes[i].ptr != nodes[c].ptr;
      }
      assert after[c] == Spliced(before[c], npos, t);
    }

    lemma BlockFacts(k: nat)
      requires Shape() && k < |nodes|
      ensures baseSize > 0 && nodes[k].ptr.Length == baseSize && |Contents()| == capacity
      ensures nodes[k].next == if k + 1 < |nodes| then nodes[k + 1] else null
      ensures k * baseSize + baseSize <= capacity && (k + 1) * baseSize == k * baseSize + baseSize
      ensures k + 1 == |nodes| ==> (k + 1) * baseSize == capacity
    {
      BlockInside(k);
      assert nodes[k].next == if k + 1 < |nodes| then nodes[k + 1] else null;
      assert (k + 1) * baseSize == k * baseSize + baseSize;
    }

    /** Copying into a block is copying into the flat array. */
    method CopyIn(block: array<byte>, ghost c: nat, npos: nat, t: Data, ghost p: nat)
      requires Shape() && c < |nodes| && block == nodes[c].ptr && npos + |t| <= baseSize
      requires p == c * baseSize + npos && p + |t| <= capacity
      modifies block
      ensures Shape() && Contents() == Spliced(old(Contents()), p, t)
    {
      hide *;
      ContentsIs();
      ghost var before := BlocksOf(nodes);
      SpliceIntoBlock(before, baseSize, c, npos, t);
      Overwrite(block, c, npos, t);
      ContentsIs();
    }

    /** Move the cursor over `n` bytes of the current block, into the next block when it is used up. */
    method Advance(npos: nat, n: nat)
      requires Shape() && Cursor() && cur != null && position == at * baseSize + npos && npos + n <= baseSize
      modifies this`position, this`cur, this`at
      ensures Shape() && Cursor() && Contents() == old(Contents()) && position == old(position) + n
      ensures npos + n == baseSize ==> position == at * baseSize
    {
      if cur.ptr.Length == npos + n {
        assert (at + 1) * baseSize == at * baseSize + baseSize;
        assert nodes[at].next == cur.next;
        cur := cur.next;
        at := at + 1;
      }
      position := position + n;
    }

    /** `write`: make room, then fill block after block. */
    method Write(buf: Data)
      requires Valid()
      modifies Repr
      ensures Valid() && fresh(Repr - old(Repr))
      ensures IsWrite(old(View()), buf, View())
      ensures if position <= old(capacity) then capacity == old(capacity) else capacity - baseSize < position
    {
      if buf == [] {
        return;
      }
      ghost var before := View();
      ghost var grown := WriteBytes(buf);
      hide Flat, Spliced;
      RaiseSize();
      SplicedIsWrite(before, buf, grown, View());
    }

    /** The size never stays behind the position. */
    method RaiseSize()
      requires Shape() && Cursor()
      modifies this`size
      ensures Shape() && Cursor() && Contents() == old(Contents()) && size == Max(old(size), position)
    {
      if position > size {
        size := position;
      }
    }

    /** Room first, then the bytes; the size is brought up to date by the caller. */
    method WriteBytes(buf: Data) returns (ghost grown: Data)
      requires Valid() && buf != []
      modifies Repr
      ensures Shape() && Cursor() && fresh(Repr - old(Repr))
      ensures size == old(size) && position == old(position) + |buf| <= capacity
      ensures old(capacity) <= |grown| && grown[..old(capacity)] == old(Contents())
      ensures old(position) + |buf| <= |grown| && Contents() == Spliced(grown, old(position), buf)
      ensures if position <= old(capacity) then capacity == old(capacity) else capacity - baseSize < position
    {
      hide Flat, Spliced;
      AddCapacity(|buf|);
      grown := Contents();
      FillBlocks(buf);
    }

    /** One round of the loop of `write`: fill the current block as far as the text goes. */
    method FillRound(buf: Data, bpos: nat, npos: nat, ghost before: Data, ghost start: nat) returns (n: nat)
      requires Shape() && Cursor() && npos == position % baseSize && bpos < |buf|
      requires position == start + bpos && start + |buf| <= capacity == |before|
      requires Contents() == Spliced(before, start, buf[..bpos])
      modifies this`position, this`cur, this`at, set i | 0 <= i < |nodes| :: nodes[i].ptr
      ensures Shape() && Cursor() && 0 < n <= |buf| - bpos && position == start + bpos + n
      ensures bpos + n < |buf| ==> position % baseSize == 0
      ensures Contents() == Spliced(before, start, buf[..bpos + n])
    {
      hide *;
      CursorFacts();
      n := if baseSize - npos < |buf| - bpos then baseSize - npos else |buf| - bpos;
      var t := buf[bpos..bpos + n];
      SpliceTwice(before, start, buf[..bpos], t);
      assert buf[..bpos] + t == buf[..bpos + n];
      CopyIn(cur.ptr, at, npos, t, position);
      Advance(npos, n);
      CursorFacts();
    }

    /** The loop of `write`. */
    method FillBlocks(buf: Data)
      requires Shape() && Cursor() && position + |buf| <= capacity
      modifies this`position, this`cur, this`at, set i | 0 <= i < |nodes| :: nodes[i].ptr
      ensures Shape() && Cursor() && position == old(position) + |buf|
      ensures Contents() == Spliced(old(Contents()), old(position), buf)
    {
      hide *;
      CursorFacts();
      ghost var before, start := Contents(), position;
      SpliceNothing(before, start);
      var bpos, npos := 0, position % baseSize;
      while bpos < |buf|
        invariant 0 <= bpos <= |buf| && Shape() && Cursor() && position == start + bpos
        invariant bpos < |buf| ==> npos == position % baseSize
        invariant Contents() == Spliced(before, start, buf[..bpos])
      {
        var n := FillRound(buf, bpos, npos, before, start);
        bpos, npos := bpos + n, 0;
      }
      assert buf[..bpos] == buf;
    }

    lemma BlockInside(c: nat)
      requires Shape() && c < |nodes|
      ensures c * baseSize + baseSize <= capacity
      ensures c + 1 == |nodes| ==> c * baseSize + baseSize == capacity
    {
      TimesGrows(c + 1, |nodes|, baseSize);
      assert (c + 1) * baseSize == c * baseSize + baseSize;
    }

    /** `memcpy` out of a block. */
    method CopyOut(node: Node, ghost c: nat, npos: nat, n: nat) returns (t: Data)
      requires Shape() && c < |nodes| && node == nodes[c] && npos + n <= baseSize
      ensures c * baseSize + npos + n <= capacity
      ensures t == Contents()[c * baseSize + npos..c * baseSize + npos + n]
    {
      hide Flat;
      t := node.ptr[npos..npos + n];
      SliceOfBlock(BlocksOf(nodes), baseSize, c, npos, npos + n);
      assert |Contents()| == capacity;
    }

    /** One round of the loop of `read`: the rest of the current block, as far as it is wanted. */
    method ReadRound(left: nat) returns (t: Data)
      requires Shape() && Cursor() && left > 0 && position + left <= capacity
      modifies this`position, this`cur, this`at
      ensures Shape() && Cursor() && Contents() == old(Contents())
      ensures 0 < |t| <= left && position == old(position) + |t| && t == Contents()[old(position)..position]
    {
      hide Flat;
      CursorFacts();
      var npos := position % baseSize;
      var n := Min(cur.ptr.Length - npos, left);
      t := CopyOut(cur, at, npos, n);
      Advance(npos, n);
    }

    /** `read`: hand out the next `n` bytes. The current block is inspected before anything else, so even
        an empty read needs one. */
    method Read(n: nat) returns (r: ReadResult<Data>)
      requires Valid()
      modifies this`position, this`cur, this`at
      ensures Valid() && Contents() == old(Contents())
      ensures r == ReadOutcome(old(View()), n)
      ensures position == old(position) + (if r.Ok? then n else 0)
    {
      hide *;
      ReadCases(n);
      if n > size - position {
        return OutOfRange;
      }
      if cur == null {
        return NullDeref;
      }
      ghost var c, start := Contents(), position;
      var data: Data := [];
      while |data| < n
        invariant |data| <= n && Shape() && Cursor() && Contents() == c && position == start + |data|
        invariant data == c[start..position]
      {
        var t := ReadRound(n - |data|);
        JoinedSlices(c, start, |data|, |t|);
        data := data + t;
      }
      NowValid();
      return Ok(data);
    }

    lemma ReadCases(n: nat)
      requires Valid()
      ensures Shape() && Cursor() && position <= size <= capacity == |Contents()|
      ensures ReadOutcome(View(), n) ==
              if n > size - position then OutOfRange
              else if cur == null then NullDeref else Ok(Contents()[position..position + n])
    {
      CursorFacts();
      hide Flat;
    }

    /** `read(buf, size, position)`: it starts in the block of the cursor, at the offset that `from` has
        in its own block. What is left behind `from` is an unsigned difference. */
    method ReadAt(n: nat, from: nat) returns (r: ReadResult<Data>)
      requires Valid()
      ensures r == ReadAtOutcome(View(), baseSize, n, from)
    {
      CursorFacts();
      if n > Behind(size, from) {
        return OutOfRange;
      }
      if cur == null {
        return NullDeref;
      }
      r := ReadFrom(cur, at, from % baseSize, n);
    }

    /** The loop of the positional `read`, over a node pointer of its own. */
    method ReadFrom(first: Node, ghost c: nat, offset: nat, n: nat) returns (r: ReadResult<Data>)
      requires Shape() && c < |nodes| && first == nodes[c] && offset < baseSize
      ensures var start := c * baseSize + offset;
        r == if start + n <= capacity then Ok(Contents()[start..start + n]) else if n == 0 then Ok([]) else NullDeref
    {
      hide *;
      BlockFacts(c);
      var data: Data := [];
      var node: Node? := first;
      var npos := offset;
      ghost var k, start := c, c * baseSize + offset;
      while |data| < n
        invariant |data| <= n && 0 <= npos < baseSize && c <= k < |nodes| && node == nodes[k]
        invariant start + |data| == k * baseSize + npos && start + |data| <= capacity
        invariant data == Contents()[start..start + |data|]
        decreases n - |data|
      {
        BlockFacts(k);
        var m := if node.ptr.Length - npos < n - |data| then node.ptr.Length - npos else n - |data|;
        var t := CopyOut(node, k, npos, m);
        JoinedSlices(Contents(), start, |data|, m);
        data := data + t;
        if |data| == n {
          return Ok(data);
        }
        node, k, npos := node.next, k + 1, 0;
        if node == null {
          return NullDeref;
        }
      }
      return Ok(data);
    }

    /** `toString`. */
    method ToString() returns (r: ReadResult<Data>)
      requires Valid()
      ensures size < SIZES ==> r == Ok(Readable(View()))
    {
      var n := size - position;
      if n == 0 {
        assert Readable(View()) == [];
        return Ok([]);
      }
      CursorFacts();
      r := ReadAt(n, position);
    }

    /** `setPosition`: walk from the root to the block of `v`. */
    method SetPosition(v: nat) returns (ok: bool)
      requires Valid()
      modifies this`position, this`size, this`cur, this`at
      ensures Valid() && Contents() == old(Contents()) && ok == (v <= capacity)
      ensures if ok then position == v && size == Max(old(size), v) else position == old(position) && size == old(size)
    {
      if v > capacity {
        return false;
      }
      MoveTo(v);
      RaiseSize();
      return true;
    }

    method MoveTo(v: nat)
      requires Shape() && v <= capacity
      modifies this`position, this`cur, this`at
      ensures Shape() && Cursor() && Contents() == old(Contents()) && position == v
    {
      hide Flat;
      var node, i := Locate(v);
      Point(v, node, i);
    }

    method Point(v: nat, node: Node?, ghost i: nat)
      requires Shape() && i <= |nodes| && i * baseSize <= v < i * baseSize + baseSize && (i == |nodes| ==> v == capacity)
      requires node == if i < |nodes| then nodes[i] else null
      modifies this`position, this`cur, this`at
      ensures Shape() && Cursor() && Contents() == old(Contents()) && position == v
    {
      hide Flat;
      ghost var blocks := BlocksOf(nodes);
      position, cur, at := v, node, i;
      assert BlocksOf(nodes) == blocks;
    }

    /** The walk of `setPosition` from the root to the node that position `v` belongs to. */
    method Locate(v: nat) returns (node: Node?, ghost i: nat)
      requires Shape() && v <= capacity
      ensures i <= |nodes| && i * baseSize <= v < i * baseSize + baseSize
      ensures i == |nodes| ==> v == capacity
      ensures node == if i < |nodes| then nodes[i] else null
    {
      node, i := root, 0;
      var left := v;
      while left > node.ptr.Length
        invariant 0 <= i < |nodes| && 0 <= left && node == nodes[i] && v == i * baseSize + left
        decreases left
      {
        BlockInside(i);
        assert (i + 1) * baseSize == i * baseSize + baseSize;
        assert nodes[i].next == node.next;
        left := left - node.ptr.Length;
        node := node.next;
        i := i + 1;
      }
      BlockInside(i);
      if left == node.ptr.Length {
        assert (i + 1) * baseSize == i * baseSize + baseSize;
        assert nodes[i].next == node.next;
        node := node.next;
        i := i + 1;
        assert v == i * baseSize;
      }
    }

    /** `clear`: back to the first block. */
    method Clear()
      requires Valid()
      modifies this, root`next
      ensures Valid() && position == 0 && size == 0 && capacity == baseSize && root == old(root)
      ensures Contents() == old(Contents())[..baseSize]
    {
      hide Flat;
      FirstOfFlat();
      CutToRoot();
      Rewind();
    }

    lemma FirstOfFlat()
      requires Shape()
      ensures |nodes| > 0 && nodes[0] == root && baseSize <= |Contents()|
      ensures Flat([BlocksOf(nodes)[0]]) == Contents()[..baseSize]
    {
      BlockInFlat(BlocksOf(nodes), baseSize, 0);
      var first := BlocksOf(nodes)[0];
      assert Flat([first]) == first + Flat([]);
    }

    /** All blocks but the first are given up. */
    method CutToRoot()
      requires Shape()
      modifies this`nodes, this`capacity, root`next
      ensures Shape() && nodes == [root] && capacity == baseSize
      ensures |old(BlocksOf(nodes))| > 0 && BlocksOf(nodes) == [old(BlocksOf(nodes))[0]]
    {
      capacity := baseSize;
      root.next := null;
      nodes := [root];
    }

    method Rewind()
      requires Shape() && nodes == [root]
      modifies this`position, this`size, this`cur, this`at
      ensures Valid() && position == 0 && size == 0 && Contents() == old(Contents())
    {
      position, size, cur, at := 0, 0, root, 0;
    }

    /** The slices lie one behind the other from flat position `p` on. */
    ghost predicate Lies(iovs: seq<Iov>, p: nat)
      reads this`nodes, nodes
    {
      iovs == [] || (SliceAt(iovs[0], p) && Lies(iovs[1..], p + iovs[0].len))
    }

    ghost predicate SliceAt(v: Iov, p: nat)
      reads this`nodes, nodes
    {
      v.offset + v.len <= baseSize &&
      exists c | 0 <= c < |nodes| :: nodes[c].ptr == v.base && c * baseSize + v.offset == p
    }

    lemma {:induction false} LiesAppend(iovs: seq<Iov>, p: nat, v: Iov)
      requires Shape() && Lies(iovs, p) && SliceAt(v, p + Total(iovs))
      ensures Lies(iovs + [v], p) && Total(iovs + [v]) == Total(iovs) + v.len
      decreases |iovs|
    {
      hide SliceAt;
      if iovs == [] {
        assert iovs + [v] == [v];
        assert Lies([], p + v.len);
      } else {
        assert (iovs + [v])[1..] == iovs[1..] + [v];
        LiesAppend(iovs[1..], p + iovs[0].len, v);
      }
    }

    /** The loop that `getReadBuffers` and `getWriteBuffers` share: one slice per block. */
    method Slices(first: Node, ghost c: nat, offset: nat, n: nat) returns (r: ReadResult<seq<Iov>>)
      requires Shape() && c < |nodes| && first == nodes[c] && offset < baseSize && n > 0
      ensures var start := c * baseSize + offset;
        if start + n <= capacity then r.Ok? && Lies(r.value, start) && Total(r.value) == n else r == NullDeref
    {
      hide Lies, Total, SliceAt;
      ghost var start := c * baseSize + offset;
      var iovs: seq<Iov> := [];
      assert Lies(iovs, start) && Total(iovs) == 0 by { NoSlices(start); }
      var node, npos, len := first, offset, n;
      ghost var k := c;
      BlockInside(c);
      while len > 0
        invariant 0 <= len <= n && Lies(iovs, start) && Total(iovs) == n - len && start + (n - len) <= capacity
        invariant len > 0 ==> 0 <= k < |nodes| && node == nodes[k] && 0 <= npos < baseSize
        invariant len > 0 ==> start + (n - len) == k * baseSize + npos
      {
        var m := Min(node.ptr.Length - npos, len);
        var v := Iov(node.ptr, npos, m);
        SliceOfNode(k, npos, m);
        LiesAppend(iovs, start, v);
        iovs := iovs + [v];
        len := len - m;
        BlockInside(k);
        if len > 0 {
          assert nodes[k].next == node.next;
          assert (k + 1) * baseSize == k * baseSize + baseSize;
          if node.next == null {
            return NullDeref;
          }
          node, npos, k := node.next, 0, k + 1;
        }
      }
      r := Ok(iovs);
    }

    lemma SliceOfNode(k: nat, npos: nat, m: nat)
      requires Shape() && k < |nodes| && npos + m <= baseSize
      ensures SliceAt(Iov(nodes[k].ptr, npos, m), k * baseSize + npos)
    {
    }

    lemma NoSlices(p: nat)
      requires Shape()
      ensures Lies([], p) && Total([]) == 0
    {
    }

    /** `getReadBuffers(len)`: the readable bytes, at most `len` of them. */
    method GetReadBuffers(len: nat) returns (iovs: seq<Iov>)
      requires Valid()
      ensures Lies(iovs, position) && Total(iovs) == Min(len, size - position)
    {
      CursorFacts();
      var n := Min(len, size - position);
      if n == 0 {
        return [];
      }
      var r := Slices(cur, at, position % baseSize, n);
      iovs := r.value;
    }

    /** `getReadBuffers(len, from)`: the amount is still cut by what is readable at the cursor, whatever lies
        behind `from`. Where fewer bytes lie there the walk over the blocks ends in a null dereference. */
    method GetReadBuffersAt(len: nat, from: nat) returns (r: ReadResult<seq<Iov>>)
      requires Valid()
      ensures var n := Min(len, size - position);
        if n == 0 then r == Ok([])
        else if from + n <= capacity then r.Ok? && Lies(r.value, from) && Total(r.value) == n
        else r == NullDeref
    {
      hide Lies, Total;
      var n := Min(len, size - position);
      if n == 0 {
        return Ok([]);
      }
      r := SlicesFrom(from, n);
    }

    method SlicesFrom(from: nat, n: nat) returns (r: ReadResult<seq<Iov>>)
      requires Shape() && n > 0
      ensures if from + n <= capacity then r.Ok? && Lies(r.value, from) && Total(r.value) == n else r == NullDeref
    {
      var count, npos := PlaceOf(from);
      hide *;
      var node: Node?, i := NodeAt(count);
      if node == null {
        return NullDeref;
      }
      r := Slices(node, i, npos, n);
    }

    method PlaceOf(from: nat) returns (count: nat, npos: nat)
      requires Shape()
      ensures baseSize > 0 && count == from / baseSize && npos == from % baseSize < baseSize
      ensures from == count * baseSize + npos && (count >= |nodes| ==> from >= capacity)
    {
      count, npos := from / baseSize, from % baseSize;
      if count >= |nodes| {
        TimesGrows(|nodes|, count, baseSize);
      }
    }

    /** The walk over `count` blocks; null stands for a block that is not there. */
    method NodeAt(count: nat) returns (node: Node?, ghost i: nat)
      requires Shape()
      ensures i == count && node == if count < |nodes| then nodes[count] else null
    {
      node, i := root, 0;
      var left := count;
      while left > 0 && node != null
        invariant i <= |nodes| && 0 <= left && i + left == count
        invariant node == if i < |nodes| then nodes[i] else null
      {
        assert nodes[i].next == node.next;
        node, left, i := node.next, left - 1, i + 1;
      }
      i := count;
    }

    /** `getWriteBuffers(len)`: room for `len` bytes from the cursor on. */
    method GetWriteBuffers(len: nat) returns (iovs: seq<Iov>)
      requires Valid()
      modifies Repr
      ensures Valid() && fresh(Repr - old(Repr))
      ensures position == old(position) && size == old(size) && position + len <= capacity
      ensures old(capacity) <= capacity && Contents()[..old(capacity)] == old(Contents())
      ensures if position + len <= old(capacity) then capacity == old(capacity) else capacity - baseSize < position + len
      ensures Lies(iovs, position) && Total(iovs) == len
    {
      if len == 0 {
        assert Contents()[..capacity] == Contents();
        return [];
      }
      AddCapacity(len);
      CursorFacts();
      var r := Slices(cur, at, position % baseSize, len);
      iovs := r.value;
    }

    /** One slice at `p` holds the flat bytes from `p` on. */
    lemma SliceIsFlat(v: Iov, p: nat)
      requires Shape() && SliceAt(v, p)
      ensures v.offset + v.len <= v.base.Length && p + v.len <= capacity
      ensures v.base[v.offset..v.offset + v.len] == Contents()[p..p + v.len]
    {
      hide Flat;
      var c :| 0 <= c < |nodes| && nodes[c].ptr == v.base && c * baseSize + v.offset == p;
      BlockInside(c);
      SliceOfBlock(BlocksOf(nodes), baseSize, c, v.offset, v.offset + v.len);
      assert BlocksOf(nodes)[c] == v.base[..];
    }

    /** Slices that lie from `p` on hold the flat bytes from `p` on. */
    lemma {:induction false} GatheredIsFlat(iovs: seq<Iov>, p: nat)
      requires Shape() && Lies(iovs, p) && p <= capacity
      ensures (forall i | 0 <= i < |iovs| :: iovs[i].offset + iovs[i].len <= iovs[i].base.Length)
      ensures p + Total(iovs) <= capacity
      ensures Gathered(iovs) == Contents()[p..p + Total(iovs)]
      decreases |iovs|
    {
      hide Flat, SliceAt, Contents, Shape;
      if iovs != [] {
        var v, rest := iovs[0], iovs[1..];
        SliceIsFlat(v, p);
        GatheredIsFlat(rest, p + v.len);
        forall i | 0 <= i < |iovs|
          ensures iovs[i].offset + iovs[i].len <= iovs[i].base.Length
        {
          assert i > 0 ==> iovs[i] == rest[i - 1];
        }
        assert Total(iovs) == v.len + Total(rest);
        assert Gathered(iovs) == v.base[v.offset..v.offset + v.len] + Gathered(rest);
        JoinedSlices(Contents(), p, v.len, Total(rest));
      }
    }

    /** One slice of a scattering receive. */
    method ScatterRound(v: Iov, p: nat, data: Data, done: nat, ghost before: Data) returns (m: nat)
      requires Shape() && done < |data| && SliceAt(v, p + done) && p + |data| <= |before|
      requires Contents() == Spliced(before, p, data[..done])
      modifies v.base
      ensures Shape() && m == if v.len < |data| - done then v.len else |data| - done
      ensures Contents() == Spliced(before, p, data[..done + m])
    {
      hide *;
      ghost var c := BlockOf(v, p + done);
      m := if v.len < |data| - done then v.len else |data| - done;
      var t := data[done..done + m];
      SpliceTwice(before, p, data[..done], t);
      assert data[..done] + t == data[..done + m];
      assert |Contents()| == capacity == |before|;
      CopyIn(v.base, c, v.offset, t, p + done);
    }

    /** What is left to scatter after `done` bytes: slices from `i` on, lying behind those bytes. */
    ghost predicate Remaining(iovs: seq<Iov>, i: nat, p: nat, left: nat)
      reads this`nodes, nodes
    {
      i <= |iovs| && (left > 0 ==> left <= Total(iovs[i..]) && Lies(iovs[i..], p))
    }

    lemma FirstRemains(iovs: seq<Iov>, p: nat, left: nat)
      requires Shape() && Lies(iovs, p) && left <= Total(iovs)
      ensures Remaining(iovs, 0, p, left)
      ensures |Contents()| == capacity && (p <= capacity ==> Contents() == Spliced(Contents(), p, []))
    {
      assert iovs[0..] == iovs;
    }

    lemma NextRemains(iovs: seq<Iov>, i: nat, p: nat, left: nat)
      requires Shape() && left > 0 && Remaining(iovs, i, p, left)
      ensures i < |iovs| && SliceAt(iovs[i], p)
      ensures exists c :: 0 <= c < |nodes| && nodes[c].ptr == iovs[i].base
      ensures left < iovs[i].len ==> Remaining(iovs, i, p + left, 0)
      ensures iovs[i].len <= left ==> Remaining(iovs, i + 1, p + iovs[i].len, left - iovs[i].len)
    {
      FirstSlice(iovs, i, p);
    }

    /** What a scattering receive does to the slices: it fills them one after the other. */
    method Scatter(iovs: seq<Iov>, p: nat, data: Data)
      requires Shape() && Lies(iovs, p) && p + |data| <= capacity && |data| <= Total(iovs)
      modifies set i | 0 <= i < |nodes| :: nodes[i].ptr
      ensures Shape() && Contents() == Spliced(old(Contents()), p, data)
    {
      hide *;
      ghost var before := Contents();
      FirstRemains(iovs, p, |data|);
      var i, done := 0, 0;
      while done < |data|
        invariant Shape() && 0 <= i && 0 <= done <= |data| && Remaining(iovs, i, p + done, |data| - done)
        invariant p + |data| <= |before|
        invariant Contents() == Spliced(before, p, data[..done])
        decreases |data| - done, |iovs| - i
      {
        NextRemains(iovs, i, p + done, |data| - done);
        var m := ScatterRound(iovs[i], p, data, done, before);
        done := done + m;
        if m == iovs[i].len {
          i := i + 1;
        }
      }
      assert data[..done] == data;
    }

    lemma FirstSlice(iovs: seq<Iov>, i: nat, p: nat)
      requires Shape() && i <= |iovs| && Lies(iovs[i..], p) && 0 < Total(iovs[i..])
      ensures i < |iovs| && SliceAt(iovs[i], p) && Lies(iovs[i + 1..], p + iovs[i].len)
      ensures Total(iovs[i..]) == iovs[i].len + Total(iovs[i + 1..])
    {
      hide SliceAt;
      if i < |iovs| {
        assert iovs[i..][1..] == iovs[i + 1..];
      }
    }

    ghost function BlockOf(v: Iov, p: nat): (c: nat)
      requires SliceAt(v, p)
      reads this`nodes, nodes
      ensures c < |nodes| && nodes[c].ptr == v.base && c * baseSize + v.offset == p && v.offset + v.len <= baseSize
    {
      var c :| 0 <= c < |nodes| && nodes[c].ptr == v.base && c * baseSize + v.offset == p;
      c
    }

    /** The cursor in terms of the position alone. */
    lemma CursorFacts()
      requires Shape() && Cursor()
      ensures at == position / baseSize && position % baseSize == position - at * baseSize
      ensures at < |nodes| ==> at * baseSize + baseSize <= capacity
      ensures position <= capacity && (cur == null <==> position == capacity) && baseSize > 0
      ensures cur != null ==> at < |nodes| && cur == nodes[at] && cur.ptr == nodes[at].ptr && |Contents()| == capacity
      ensures at * baseSize <= position < at * baseSize + baseSize
    {
      DivideBack(position, baseSize, at);
      if at < |nodes| {
        TimesGrows(at + 1, |nodes|, baseSize);
        assert (at + 1) * baseSize == at * baseSize + baseSize;
      }
    }
  }

  /** A slice of a block, as the kernel takes it. */
  datatype Iov = Iov(base: array<byte>, offset: nat, len: nat)

  /** `memcpy` into a block. */
  method FillBlock(block: array<byte>, npos: nat, t: Data)
    requires npos + |t| <= block.Length
    modifies block
    ensures block[..] == Spliced(old(block[..]), npos, t)
  {
    forall k | 0 <= k < |t| {
      block[npos + k] := t[k];
    }
  }

  function Total(iovs: seq<Iov>): nat {
    if iovs == [] then 0 else iovs[0].len + Total(iovs[1..])
  }

  /** The fewest blocks that hold `n` bytes. */
  lemma LeastBlocks(n: nat, base: nat)
    requires n > 0 && base > 0
    ensures var k := (n + base - 1) / base; k > 0 && n <= k * base < n + base
  {
    var k := (n + base - 1) / base;
    assert n + base - 1 == k * base + (n + base - 1) % base;
  }

  lemma JoinedSlices(c: Data, p: nat, m: nat, n: nat)
    requires p + m + n <= |c|
    ensures c[p..p + m] + c[p + m..p + m + n] == c[p..p + (m + n)]
  {
  }

  /** What a gathering send takes out of the slices. */
  function Gathered(iovs: seq<Iov>): Data
    requires forall i | 0 <= i < |iovs| :: iovs[i].offset + iovs[i].len <= iovs[i].base.Length
    reads set i | 0 <= i < |iovs| :: iovs[i].base
  {
    if iovs == [] then [] else iovs[0].base[iovs[0].offset..iovs[0].offset + iovs[0].len] + Gathered(iovs[1..])
  }

  function ReadOutcome(b: Buffer, n: nat): ReadResult<Data>
    requires Sound(b)
  {
    if n > b.size - b.position then OutOfRange
    else if b.position == |b.contents| then NullDeref
    else Ok(b.contents[b.position..b.position + n])
  }

  /** The number of values of `size_t`. */
  const SIZES := 0x1_0000_0000_0000_0000

  /** What a read gives, in terms of the readable bytes: the first `n` of them; a range error exactly if there are
      fewer; and where there are enough, a null dereference exactly at the end of the capacity. */
  lemma ReadIsExact(b: Buffer, n: nat)
    requires Sound(b)
    ensures ReadOutcome(b, n) == OutOfRange <==> |Readable(b)| < n
    ensures ReadOutcome(b, n) == NullDeref <==> n <= |Readable(b)| && b.position == |b.contents|
    ensures ReadOutcome(b, n).Ok? ==> ReadOutcome(b, n).value == Readable(b)[..n]
  {
    if b.position + n <= b.size {
      assert Readable(b)[..n] == b.contents[b.position..b.position + n];
    }
  }

  /** What the program takes for the number of bytes behind `from`: the difference wraps around. */
  function Behind(size: nat, from: nat): nat {
    (size - from) % SIZES
  }

  lemma BehindIs(size: nat, from: nat)
    requires size < SIZES && from < SIZES
    ensures Behind(size, from) == if from <= size then size - from else SIZES - (from - size)
  {
  }

  function ReadAtOutcome(b: Buffer, base: nat, n: nat, from: nat): ReadResult<Data>
    requires Sound(b) && base > 0
  {
    var start := ReadStart(b.position, base, from);
    if n > Behind(b.size, from) then OutOfRange
    else if b.position == |b.contents| then NullDeref
    else if start + n <= |b.contents| then Ok(b.contents[start..start + n])
    else if n == 0 then Ok([])
    else NullDeref
  }

  /** A positional read that reaches behind the size is refused if and only if it starts inside the size, or
      asks for more than the difference gives after it has wrapped around. */
  lemma OutOfRangeIsRefusedIff(b: Buffer, base: nat, n: nat, from: nat)
    requires Sound(b) && base > 0 && b.size < SIZES && from < SIZES && b.size < from + n
    ensures ReadAtOutcome(b, base, n, from) == OutOfRange <==> from <= b.size || n > SIZES - (from - b.size)
  {
    hide Behind, ReadStart;
    BehindIs(b.size, from);
  }

  /** Where it fails: an empty array whose block holds two bytes, a read of the second. */
  lemma ReadBehindSize()
    ensures ReadAtOutcome(Buffer([1, 2], 0, 0), 2, 1, 1) == Ok([2])
  {
    var c: Data := [1, 2];
    assert c[1..2] == [2];
    BehindIs(0, 1);
  }

  /** The positional read starts at this flat position. */
  function ReadStart(position: nat, base: nat, from: nat): nat
    requires base > 0
  {
    position / base * base + from % base
  }

  lemma StartIsFromIff(position: nat, base: nat, from: nat)
    requires base > 0
    ensures ReadStart(position, base, from) == from <==> from / base == position / base
  {
    assert from == from / base * base + from % base;
    if from / base < position / base {
      TimesGrows(from / base + 1, position / base, base);
    } else if from / base > position / base {
      TimesGrows(position / base + 1, from / base, base);
    }
  }

  /** The positional read finds what is at `from`, for all contents, exactly when `from` lies in the block
      of the cursor and the cursor is not at the end of the capacity. */
  lemma ReadAtIsRightIff(b: Buffer, base: nat, n: nat, from: nat)
    requires Sound(b) && base > 0 && n > 0 && from + n <= b.size < SIZES
    ensures (forall c: Data | |c| == |b.contents| ::
               ReadAtOutcome(b.(contents := c), base, n, from) == Ok(c[from..from + n]))
       <==> b.position < |b.contents| && from / base == b.position / base
  {
    StartIsFromIff(b.position, base, from);
    BehindIs(b.size, from);
    hide ReadStart, Behind;
    var start := ReadStart(b.position, base, from);
    if start != from {
      ReadsElsewhere(b, base, n, from);
    } else if b.position == |b.contents| {
      assert ReadAtOutcome(b, base, n, from) == NullDeref;
      assert b.(contents := b.contents) == b;
    }
  }

  lemma ReadsElsewhere(b: Buffer, base: nat, n: nat, from: nat)
    requires Sound(b) && base > 0 && n > 0 && from + n <= b.size < SIZES && ReadStart(b.position, base, from) != from
    ensures exists c: Data :: |c| == |b.contents| && ReadAtOutcome(b.(contents := c), base, n, from) != Ok(c[from..from + n])
  {
    BehindIs(b.size, from);
    hide ReadStart, Behind;
    var start := ReadStart(b.position, base, from);
    var c := OneAt(|b.contents|, from);
    var r := ReadAtOutcome(b.(contents := c), base, n, from);
    var wanted := c[from..from + n];
    assert wanted[0] == 1;
    if start + n <= |c| {
      assert c[start..start + n][0] == 0;
    }
    assert r != Ok(wanted);
  }

  /** All zeros but for a one at `k`. */
  function OneAt(n: nat, k: nat): (c: Data)
    ensures |c| == n && forall i | 0 <= i < n :: c[i] == if i == k then 1 else 0
  {
    seq(n, i => if i == k then 1 else 0)
  }

  /** Where it fails: blocks of one byte, the cursor in the first, a read of the second. */
  lemma ReadAtOtherBlock()
    ensures ReadAtOutcome(Buffer([1, 2], 0, 2), 1, 1, 1) == Ok([1])
  {
    var c: Data := [1, 2];
    assert c[0..1] == [1];
  }

  /** Overwriting the grown contents in place is a write of the old buffer. */
  lemma SplicedIsWrite(before: Buffer, t: Data, grown: Data, after: Buffer)
    requires Sound(before) && |before.contents| <= |grown| && grown[..|before.contents|] == before.contents
    requires before.position + |t| <= |grown| && after.contents == Spliced(grown, before.position, t)
    requires after.position == before.position + |t| && after.size == Max(before.size, after.position)
    ensures IsWrite(before, t, after)
  {
    forall k | 0 <= k < |before.contents|
      ensures grown[k] == before.contents[k]
    {
      assert grown[..|before.contents|][k] == grown[k];
    }
  }

  lemma DivideBack(p: nat, base: nat, q: nat)
    requires base > 0 && q * base <= p < q * base + base
    ensures p / base == q && p % base == p - q * base
  {
    assert p == (p / base) * base + p % base;
    if p / base < q {
      TimesGrows(p / base + 1, q, base);
    } else if p / base > q {
      TimesGrows(q + 1, p / base, base);
    }
  }

  lemma TimesGrows(a: nat, b: nat, base: nat)
    requires a <= b
    ensures a * base <= b * base
  {
    assert b * base == a * base + (b - a) * base;
    assert (b - a) * base >= 0;
  }
}
