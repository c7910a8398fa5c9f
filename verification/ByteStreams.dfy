/** A byte array as the buffer of a connection: scattered receives, gathered sends, and the loops that
    repeat them until an exact number of bytes has moved. */
module ByteStreams {
  import opened Bytes
  import opened Blocks
  import opened Streams
  import opened ByteArray

  /** `SocketStream::read(ba, length)`: receive into the slices of the array, then move its cursor. The
      effect is that of `write` with the bytes that arrived. */
  method ReceiveInto(c: Connection, ba: ByteArray, length: nat) returns (ret: int, ghost got: Data)
    requires ba.Valid() && c !in ba.Repr
    modifies ba.Repr, c`source
    ensures ba.Valid() && fresh(ba.Repr - old(ba.Repr))
    ensures Receive(old(c.source), length) == Reading(ret, got, c.source)
    ensures IsWrite(old(ba.View()), got, ba.View())
  {
    hide Flat, Spliced, Receive;
    ghost var before := ba.View();
    var iovs := ba.GetWriteBuffers(length);
    ghost var grown := ba.Contents();
    var rt, data := c.Read(length);
    ret, got := rt, data;
    ba.Scatter(iovs, ba.position, data);
    if rt > 0 {
      var moved := ba.SetPosition(ba.position + rt);
    }
    SplicedIsWrite(before, data, grown, ba.View());
  }

  /** `SocketStream::write(ba, length)`: send from the slices of the array, then move its cursor. */
  method SendFrom(c: Connection, ba: ByteArray, length: nat) returns (ret: int, ghost count: nat)
    requires ba.Valid() && c !in ba.Repr
    modifies ba`position, ba`size, ba`cur, ba`at, c`plan, c`sent
    ensures ba.Valid() && ba.Shape() && ba.size == old(ba.size) && ba.position == old(ba.position) + count <= ba.size
    ensures ba.Contents() == old(ba.Contents())
    ensures var n := if length < old(ba.size - ba.position) then length else old(ba.size - ba.position);
      Send(old(c.plan), n) == Sending(ret, count, c.plan)
    ensures old(ba.position) <= ba.position <= |ba.Contents()|
    ensures c.sent == old(c.sent) + ba.Contents()[old(ba.position)..ba.position]
  {
    hide Flat, Send;
    ghost var before := ba.View();
    var text := Outgoing(ba, length);
    ret := c.Write(text);
    count := if ret > 0 then ret else 0;
    PrefixOfReadable(before, |text|, count);
    if ret > 0 {
      var moved := ba.SetPosition(ba.position + ret);
    }
  }

  lemma PrefixOfReadable(b: Buffer, n: nat, count: nat)
    requires Sound(b) && count <= n <= |Readable(b)|
    ensures Readable(b)[..n][..count] == b.contents[b.position..b.position + count]
  {
    assert Readable(b)[..n][..count] == Readable(b)[..count];
  }

  lemma PrefixOfContents(b: Buffer, n: nat)
    requires Sound(b) && b.position + n <= b.size
    ensures Readable(b)[..n] == b.contents[b.position..b.position + n]
  {
  }

  /** What the kernel takes out of the slices of `getReadBuffers`. */
  method Outgoing(ba: ByteArray, length: nat) returns (text: Data)
    requires ba.Valid()
    ensures text == Readable(ba.View())[..Min(length, ba.size - ba.position)]
  {
    ghost var b := ba.View();
    var n := Min(length, ba.size - ba.position);
    hide *;
    var iovs := ba.GetReadBuffers(length);
    ba.GatheredIsFlat(iovs, ba.position);
    text := Gathered(iovs);
    PrefixOfContents(b, n);
  }

  /** `readFixSize(ba, length)`: whatever the partial receives and however the array grows between them,
      the array is written once with what has been gathered. */
  method ReadFixSize(c: Connection, ba: ByteArray, length: nat) returns (ret: int, ghost got: Data)
    requires ba.Valid() && c !in ba.Repr
    modifies ba.Repr, c`source
    ensures ba.Valid() && fresh(ba.Repr - old(ba.Repr))
    ensures var g := Gather(old(c.source), length);
      && c.source == g.source && got == g.data
      && ret == if |got| == length then AsInt32(length) else g.ret
    ensures IsWrite(old(ba.View()), got, ba.View())
  {
    hide *;
    got := [];
    ghost var s0 := c.source;
    ghost var before := ba.View();
    var left := length;
    WriteNothing(before);
    GatherBound(c.source, length);
    while left > 0
      invariant ba.Valid() && c !in ba.Repr && fresh(ba.Repr - old(ba.Repr))
      invariant 0 <= left <= length && |got| == length - left
      invariant var g, rest := Gather(s0, length), Gather(c.source, left);
        g.data == got + rest.data && g.ret == rest.ret && g.source == rest.source
      invariant IsWrite(before, got, ba.View())
    {
      GatherStep(c.source, left);
      ghost var r := Receive(c.source, left);
      ghost var mid := ba.View();
      var len, part := ReceiveInto(c, ba, left);
      WritesJoin(before, got, mid, part, ba.View());
      if len <= 0 {
        assert got + part == got;
        return len, got;
      }
      ConcatAssociative(got, part, Gather(c.source, left - |part|).data);
      got := got + part;
      left := left - len;
    }
    GatherNothing(c.source);
    ret := AsInt32(length);
  }

  lemma WriteNothing(b: Buffer)
    requires Sound(b)
    ensures IsWrite(b, [], b)
  {
  }

  lemma SizeInside(ba: ByteArray)
    requires ba.Valid()
    ensures ba.Shape() && ba.position <= ba.size <= |ba.Contents()|
  {
  }

  /** `writeFixSize(ba, length)`: exactly the next `length` readable bytes go out, or a prefix of them; where
      fewer are readable, those and no more, and the answer is not positive. */
  method WriteFixSize(c: Connection, ba: ByteArray, length: nat) returns (ret: int)
    requires ba.Valid() && c !in ba.Repr
    modifies ba`position, ba`size, ba`cur, ba`at, c`plan, c`sent
    ensures ba.Valid() && ba.size == old(ba.size) && ba.Contents() == old(ba.Contents())
    ensures var p := PushUpTo(old(c.plan), length, old(ba.size - ba.position));
      && c.plan == p.plan && ba.position == old(ba.position) + p.count
      && ret == if p.count == length then AsInt32(length) else p.ret
    ensures old(ba.position) <= ba.position && c.sent == old(c.sent) + ba.Contents()[old(ba.position)..ba.position]
  {
    hide *;
    SizeInside(ba);
    ghost var start, done := ba.position, 0;
    ghost var all := ba.Contents();
    ghost var plan0, readable := c.plan, ba.size - ba.position;
    var left := length;
    while left > 0
      invariant ba.Valid() && ba.Shape() && ba.size == old(ba.size) && ba.Contents() == all
      invariant 0 <= left <= length && done == length - left && ba.position == start + done && done <= readable
      invariant readable - done == ba.size - ba.position
      invariant var p, rest := PushUpTo(plan0, length, readable), PushUpTo(c.plan, left, readable - done);
        p.plan == rest.plan && p.ret == rest.ret && p.count == done + rest.count
      invariant c.sent == old(c.sent) + all[start..start + done]
    {
      PushUpToStep(c.plan, left, readable - done);
      var len, part := SendFrom(c, ba, left);
      if len <= 0 {
        return len;
      }
      assert all[start..start + done] + all[start + done..start + done + part] == all[start..start + done + part];
      done := done + part;
      left := left - len;
    }
    PushUpToNothing(c.plan, readable - done);
    ret := AsInt32(length);
  }
}
