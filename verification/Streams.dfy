/** Reading and writing an exact number of bytes over a transport that moves as many as it likes. */
module Streams {
  import opened Bytes

  /** The reading side of a connection: the bytes that will arrive and what each call answers. A
      positive answer is the most the call delivers; a call beyond the plan finds the peer closed. */
  datatype Source = Source(input: Data, plan: seq<int>)

  datatype Reading = Reading(ret: int, data: Data, source: Source)

  function Receive(s: Source, max: nat): (r: Reading)
    ensures r.ret <= 0 ==> r.data == []
    ensures r.ret > 0 ==> r.ret == |r.data| <= max
    ensures s.input == r.data + r.source.input
    ensures |r.source.plan| <= |s.plan| && (r.ret > 0 ==> |r.source.plan| < |s.plan|)
  {
    if s.plan == [] then Reading(0, [], s)
    else if s.plan[0] <= 0 then Reading(s.plan[0], [], s.(plan := s.plan[1..]))
    else
      var k := Min(s.plan[0], Min(max, |s.input|));
      Reading(k, s.input[..k], Source(s.input[k..], s.plan[1..]))
  }

  /** `readFixSize` as a function: gather until nothing is left or a call fails. */
  function Gather(s: Source, left: nat): Reading
    decreases |s.plan|
  {
    if left == 0 then Reading(0, [], s)
    else
      var r := Receive(s, left);
      if r.ret <= 0 then r
      else
        var rest := Gather(r.source, left - |r.data|);
        rest.(data := r.data + rest.data)
  }

  /** Whatever the partial transfers, what has been gathered is a prefix of what was sent, with no gap
      and no repeat. */
  lemma {:induction false} GatherIsExact(s: Source, left: nat)
    ensures var r := Gather(s, left);
      && |r.data| <= left && r.ret <= 0
      && r.data + r.source.input == s.input
      && r.data == s.input[..|r.data|]
    decreases |s.plan|
  {
    hide Gather;
    if left == 0 {
      GatherNothing(s);
    } else {
      var r := Receive(s, left);
      GatherStep(s, left);
      if r.ret > 0 {
        GatherIsExact(r.source, left - |r.data|);
        var rest := Gather(r.source, left - |r.data|);
        ConcatAssociative(r.data, rest.data, rest.source.input);
      }
    }
    var g := Gather(s, left);
    assert s.input[..|g.data|] == (g.data + g.source.input)[..|g.data|] == g.data;
  }

  /** The calls answer in the order of the plan: all of them more than zero if everything is gathered. If not,
      the last one answered zero or less, or nothing was left to deliver. */
  lemma {:induction false} GatherFallsShort(s: Source, left: nat)
    ensures var r := Gather(s, left);
      && |r.source.plan| <= |s.plan| && r.source.plan == s.plan[|s.plan| - |r.source.plan|..]
      && var used := |s.plan| - |r.source.plan|;
      && (|r.data| == left ==> forall i | 0 <= i < used :: s.plan[i] > 0)
      && (|r.data| < left ==> r.source.input == [] || r.source.plan == [] || (used > 0 && s.plan[used - 1] <= 0))
      && (|r.data| < left ==> r.ret == if used > 0 && s.plan[used - 1] <= 0 then s.plan[used - 1] else 0)
    decreases |s.plan|
  {
    hide Gather, Receive;
    GatherBound(s, left);
    if left == 0 {
      GatherNothing(s);
    } else {
      var r := Receive(s, left);
      GatherStep(s, left);
      ReceiveUses(s, left);
      if r.ret > 0 {
        GatherFallsShort(r.source, left - |r.data|);
        assert forall i | 0 < i < |s.plan| :: s.plan[i] == s.plan[1..][i - 1];
      }
    }
  }

  /** One call takes one answer of the plan, if there is one. */
  lemma ReceiveUses(s: Source, max: nat)
    requires max > 0
    ensures var r := Receive(s, max);
      if s.plan == [] then r.ret == 0 && r.source.plan == []
      else r.source.plan == s.plan[1..] && (r.ret > 0 <==> s.plan[0] > 0 && s.input != []) && (r.ret <= 0 ==> r.source.input == s.input)
           && (r.ret <= 0 ==> r.ret == if s.plan[0] <= 0 then s.plan[0] else 0)
  {
  }

  /** So with enough bytes ahead and as many positive answers, all is gathered. */
  lemma {:induction false} GatherSucceeds(s: Source, left: nat)
    requires left <= |s.input| && left <= |s.plan| && forall i | 0 <= i < |s.plan| :: s.plan[i] > 0
    ensures |Gather(s, left).data| == left
    decreases |s.plan|
  {
    hide Gather;
    if left == 0 {
      GatherNothing(s);
    } else {
      GatherStep(s, left);
      GatherSucceeds(Receive(s, left).source, left - |Receive(s, left).data|);
    }
  }

  lemma GatherNothing(s: Source)
    ensures Gather(s, 0) == Reading(0, [], s)
  {
  }

  /** One round of the gathering loop. */
  lemma GatherStep(s: Source, left: nat)
    requires left > 0
    ensures var r, g := Receive(s, left), Gather(s, left);
      if r.ret <= 0 then g.data == [] && g.ret == r.ret && g.source == r.source
      else
        var rest := Gather(r.source, left - |r.data|);
        && g.data == r.data + rest.data && g.ret == rest.ret && g.source == rest.source
  {
  }

  lemma GatherBound(s: Source, length: nat)
    ensures |Gather(s, length).data| <= length
  {
    GatherIsExact(s, length);
  }

  /** The writing side: how much each call accepts. */
  datatype Sending = Sending(ret: int, count: nat, plan: seq<int>)

  function Send(plan: seq<int>, available: nat): (r: Sending)
    ensures r.ret <= 0 ==> r.count == 0
    ensures r.ret > 0 ==> r.ret == r.count <= available && |r.plan| < |plan|
  {
    if plan == [] then Sending(0, 0, plan)
    else if plan[0] <= 0 then Sending(plan[0], 0, plan[1..])
    else Sending(Min(plan[0], available), Min(plan[0], available), plan[1..])
  }

  /** `writeFixSize` as a function: how many of `left` bytes go out, and the last answer. */
  function Push(plan: seq<int>, left: nat): (r: Sending)
    ensures r.count <= left && r.ret <= 0
    decreases |plan|
  {
    if left == 0 then Sending(0, 0, plan)
    else
      var r := Send(plan, left);
      if r.ret <= 0 then r
      else
        var rest := Push(r.plan, left - r.count);
        rest.(count := r.count + rest.count)
  }

  lemma PushStep(plan: seq<int>, left: nat)
    requires left > 0
    ensures var r, p := Send(plan, left), Push(plan, left);
      if r.ret <= 0 then p == r
      else
        var rest := Push(r.plan, left - r.count);
        p.plan == rest.plan && p.ret == rest.ret && p.count == r.count + rest.count
  {
  }

  /** The calls answer in the order of the plan: all of them more than zero if everything went out. If not, the
      last one answered zero or less, and so does the loop. */
  lemma {:induction false} PushFallsShort(plan: seq<int>, left: nat)
    ensures var r := Push(plan, left);
      && |r.plan| <= |plan| && r.plan == plan[|plan| - |r.plan|..]
      && var used := |plan| - |r.plan|;
      && (r.count == left ==> r.ret == 0 && forall i | 0 <= i < used :: plan[i] > 0)
      && (r.count < left ==>
            if used > 0 && plan[used - 1] <= 0 then r.ret == plan[used - 1] else r.plan == [] && r.ret == 0)
    decreases |plan|
  {
    hide Push;
    if left == 0 {
      PushNothing(plan);
    } else {
      PushStep(plan, left);
      var r := Send(plan, left);
      if r.ret > 0 {
        PushFallsShort(r.plan, left - r.count);
        assert forall i | 0 < i < |plan| :: plan[i] == plan[1..][i - 1];
      }
    }
  }

  lemma PushNothing(plan: seq<int>)
    ensures Push(plan, 0) == Sending(0, 0, plan)
  {
  }

  /** `writeFixSize` out of an array in which only `available` bytes are left to send. */
  function PushUpTo(plan: seq<int>, left: nat, available: nat): (r: Sending)
    ensures r.count <= left && r.count <= available && r.ret <= 0
    decreases |plan|
  {
    if left == 0 then Sending(0, 0, plan)
    else
      var r := Send(plan, Min(left, available));
      if r.ret <= 0 then r
      else
        var rest := PushUpTo(r.plan, left - r.count, available - r.count);
        rest.(count := r.count + rest.count)
  }

  lemma PushUpToStep(plan: seq<int>, left: nat, available: nat)
    requires left > 0
    ensures var r, p := Send(plan, if left < available then left else available), PushUpTo(plan, left, available);
      && r.count <= left && r.count <= available
      && if r.ret <= 0 then p == r
         else
           var rest := PushUpTo(r.plan, left - r.count, available - r.count);
           p.plan == rest.plan && p.ret == rest.ret && p.count == r.count + rest.count
  {
    hide Send;
  }

  /** Where enough is left to send, that does not matter; where it is not, the loop ends before `left`. */
  lemma {:induction false} PushUpToIsPush(plan: seq<int>, left: nat, available: nat)
    ensures left <= available ==> PushUpTo(plan, left, available) == Push(plan, left)
    ensures available < left ==> PushUpTo(plan, left, available).count < left
    decreases |plan|
  {
    hide *;
    PushUpToNothing(plan, available);
    PushNothing(plan);
    if left > 0 && left <= available {
      PushUpToStep(plan, left, available);
      PushStep(plan, left);
      var r := Send(plan, left);
      if r.ret > 0 {
        PushUpToIsPush(r.plan, left - r.count, available - r.count);
      }
    }
  }

  /** With too little to send the loop answers what the last call answered, or 0 when nothing is left. */
  lemma {:induction false} PushUpToFallsShort(plan: seq<int>, left: nat, available: nat)
    requires available < left
    ensures var r := PushUpTo(plan, left, available);
      && |r.plan| <= |plan| && r.plan == plan[|plan| - |r.plan|..]
      && var used := |plan| - |r.plan|;
      r.ret == if used > 0 && plan[used - 1] <= 0 then plan[used - 1] else 0
    decreases |plan|
  {
    hide PushUpTo;
    PushUpToStep(plan, left, available);
    var r := Send(plan, available);
    if r.ret > 0 {
      PushUpToFallsShort(r.plan, left - r.count, available - r.count);
      assert forall i | 0 < i < |plan| :: plan[i] == plan[1..][i - 1];
    }
  }

  lemma PushUpToNothing(plan: seq<int>, available: nat)
    ensures PushUpTo(plan, 0, available) == Sending(0, 0, plan)
  {
  }

  /** A complete transfer answers its length as an `int`: a positive number if and only if the length is not
      a multiple of 2^32 and less than 2^31 above one. */
  lemma CompleteIsPositiveIff(length: nat)
    ensures AsInt32(length) > 0 <==> 0 < length % 0x1_0000_0000 < 0x8000_0000
    ensures 0 < length < 0x8000_0000 ==> AsInt32(length) == length
  {
  }

  /** Where it fails: 2^31 bytes that arrive in two calls are all gathered, and the answer is negative. */
  lemma HugeReadLooksFailed(s: Source)
    requires s.plan == [0x4000_0000, 0x4000_0000] && |s.input| >= 0x8000_0000
    ensures |Gather(s, 0x8000_0000).data| == 0x8000_0000 && AsInt32(0x8000_0000) < 0
  {
    GatherStep(s, 0x8000_0000);
    var r := Receive(s, 0x8000_0000);
    GatherStep(r.source, 0x4000_0000);
    var r2 := Receive(r.source, 0x4000_0000);
    GatherNothing(r2.source);
    hide Gather;
  }

  // ---------- The imperative form ----------

  class Connection {
    var source: Source
    var sent: Data
    var plan: seq<int>

    constructor (source: Source, plan: seq<int>)
      ensures this.source == source && this.plan == plan && sent == []
    {
      this.source, this.plan, this.sent := source, plan, [];
    }

    /** One `recv`. The caller's buffer is returned as the bytes that were written to it. */
    method Read(max: nat) returns (ret: int, data: Data)
      modifies this`source
      ensures Receive(old(source), max) == Reading(ret, data, source)
    {
      var r := Receive(source, max);
      source, ret, data := r.source, r.ret, r.data;
    }

    /** One `send` of a part of `data`. */
    method Write(data: Data) returns (ret: int)
      modifies this`plan, this`sent
      ensures var r := Send(old(plan), |data|);
              ret == r.ret && plan == r.plan && sent == old(sent) + data[..r.count]
    {
      var r := Send(plan, |data|);
      plan, sent, ret := r.plan, sent + data[..r.count], r.ret;
    }

    /** `Stream::readFixSize`. */
    method ReadFixSize(length: nat) returns (ret: int, data: Data)
      modifies this`source
      ensures var g := Gather(old(source), length);
        && source == g.source && data == g.data
        && ret == if |data| == length then AsInt32(length) else g.ret
    {
      hide *;
      var left := length;
      ghost var s0 := source;
      GatherBound(source, length);
      data := [];
      while left > 0
        invariant 0 <= left <= length && |data| == length - left
        invariant var g, rest := Gather(s0, length), Gather(source, left);
          g.data == data + rest.data && g.ret == rest.ret && g.source == rest.source
      {
        GatherStep(source, left);
        ghost var r := Receive(source, left);
        ConcatAssociative(data, r.data, Gather(r.source, left - |r.data|).data);
        var len, part := Read(left);
        if len <= 0 {
          return len, data;
        }
        data := data + part;
        left := left - len;
      }
      GatherNothing(source);
      ret := AsInt32(length);
    }

    /** `Stream::writeFixSize(buffer, length)`. */
    method WriteFixSize(buffer: Data) returns (ret: int)
      modifies this`plan, this`sent
      ensures var p := Push(old(plan), |buffer|);
        && plan == p.plan && sent == old(sent) + buffer[..p.count]
        && ret == if p.count == |buffer| then AsInt32(|buffer|) else p.ret
    {
      hide *;
      ghost var plan0 := plan;
      var offset, left := 0, |buffer|;
      while left > 0
        invariant 0 <= left <= |buffer| && offset == |buffer| - left
        invariant var p, rest := Push(plan0, |buffer|), Push(plan, left);
          p.plan == rest.plan && p.ret == rest.ret && p.count == offset + rest.count
        invariant sent == old(sent) + buffer[..offset]
      {
        PushStep(plan, left);
        var len := Write(buffer[offset..]);
        if len <= 0 {
          assert buffer[offset..][..0] == [];
          return len;
        }
        assert buffer[..offset] + buffer[offset..][..len] == buffer[..offset + len];
        offset := offset + len;
        left := left - len;
      }
      PushNothing(plan);
      assert buffer[..offset] == buffer;
      ret := AsInt32(|buffer|);
    }
  }
}
