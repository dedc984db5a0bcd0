/** The winbind wire format: fixed-size structures, each followed by the
    variable-length data it announces, and the readers and writers of both ends
    (nsswitch/wb_reqtrans.c, and the reply reader of nsswitch/wb_common.c). */
module Framing {
  import opened Wire

  // Sizes and field offsets of the two structures of winbind_struct_protocol.h.
  const REQUEST_SIZE: nat := 2128
  const RESPONSE_SIZE: nat := 4008
  const EXTRA_LEN_OFFSET: nat := 2120
  const REQUEST_POINTER_OFFSET: nat := 2112
  const RESPONSE_POINTER_OFFSET: nat := 4000
  const POINTER_SIZE: nat := 8

  datatype Message = Message(fixed: seq<byte>, extra: seq<byte>)

  /** What reading one packet off a byte stream ends with. */
  datatype ReadResult =
    | Packet(size: nat)   // the stream's first `size` bytes are the packet
    | ClosedEarly         // end of file before the packet was complete (EPIPE)
    | Malformed           // the length fields were refused (EIO)

  predicate ValidRequest(m: Message)
  {
    && |m.fixed| == REQUEST_SIZE
    && U32(m.fixed, 0) == REQUEST_SIZE
    && U32(m.fixed, EXTRA_LEN_OFFSET) == |m.extra|
  }

  predicate ValidResponse(m: Message)
  {
    && |m.fixed| == RESPONSE_SIZE
    && U32(m.fixed, 0) == RESPONSE_SIZE + |m.extra|
  }

  function Frame(m: Message): seq<byte>
  {
    m.fixed + m.extra
  }

  // ----- the callbacks that say how much more of a packet there is

  datatype Kind = Request(maxExtra: nat) | Response

  function RequestMore(buf: seq<byte>, maxExtra: nat): (more: int)
    requires |buf| == 4 || |buf| >= REQUEST_SIZE
  {
    if |buf| == 4 then
      if U32(buf, 0) != REQUEST_SIZE then -1 else REQUEST_SIZE - 4
    else if |buf| > REQUEST_SIZE then
      0
    else if maxExtra != 0 && U32(buf, EXTRA_LEN_OFFSET) > maxExtra then
      -1
    else
      U32(buf, EXTRA_LEN_OFFSET)
  }

  function ResponseMore(buf: seq<byte>): (more: int)
    requires |buf| >= 4
  {
    if |buf| == 4 && U32(buf, 0) < RESPONSE_SIZE then -1 else U32(buf, 0) - |buf|
  }

  // ----- what the readers are meant to compute

  /** The packet at the front of a request stream, told from its length fields alone. */
  function RequestPacket(s: seq<byte>, maxExtra: nat): (r: ReadResult)
    ensures r.Packet? ==> REQUEST_SIZE <= r.size <= |s|
  {
    if |s| < 4 then ClosedEarly
    else if U32(s, 0) != REQUEST_SIZE then Malformed
    else if |s| < REQUEST_SIZE then ClosedEarly
    else
      var extra := U32(s, EXTRA_LEN_OFFSET);
      if maxExtra != 0 && extra > maxExtra then Malformed
      else if |s| < REQUEST_SIZE + extra then ClosedEarly
      else Packet(REQUEST_SIZE + extra)
  }

  /** The packet at the front of a response stream. */
  function ResponsePacket(s: seq<byte>): (r: ReadResult)
    ensures r.Packet? ==> RESPONSE_SIZE <= r.size <= |s|
  {
    if |s| < 4 then ClosedEarly
    else if U32(s, 0) < RESPONSE_SIZE then Malformed
    else if |s| < U32(s, 0) then ClosedEarly
    else Packet(U32(s, 0))
  }

  /** A request has 2128 bytes and the extra data that it announces at offset 2120; what
      announces another length, or more than `maxExtra` unless that is zero, is refused. */
  predicate RequestEnds(s: seq<byte>, maxExtra: nat, r: ReadResult)
  {
    && (r.Packet? <==> |s| >= 2128 && U32(s, 0) == 2128 && |s| - 2128 >= U32(s, 2120)
                       && (maxExtra == 0 || U32(s, 2120) <= maxExtra))
    && (r.Packet? ==> r.size == 2128 + U32(s, 2120))
    && (r.Malformed? <==> |s| >= 4 && (U32(s, 0) != 2128 || (|s| >= 2128 && 0 < maxExtra < U32(s, 2120))))
  }

  /** A response has as many bytes as it says in front, and at least 4008. */
  predicate ResponseEnds(s: seq<byte>, r: ReadResult)
  {
    && (r.Packet? <==> |s| >= 4 && 4008 <= U32(s, 0) <= |s|)
    && (r.Packet? ==> r.size == U32(s, 0))
    && (r.Malformed? <==> |s| >= 4 && U32(s, 0) < 4008)
  }

  function PacketAt(s: seq<byte>, kind: Kind): (r: ReadResult)
    ensures r.Packet? ==> 4 < r.size <= |s|
  {
    if kind.Request? then RequestPacket(s, kind.maxExtra) else ResponsePacket(s)
  }

  /** read_packet with the callback of `kind`: the bytes arrive in pieces of any
      size, and the result does not depend on how they were cut. */
  method ReadPacket(s: seq<byte>, kind: Kind) returns (r: ReadResult)
    ensures r == PacketAt(s, kind)
    ensures kind.Request? ==> RequestEnds(s, kind.maxExtra, r)
    ensures kind.Response? ==> ResponseEnds(s, r)
  {
    var total, nread := 4, 0;
    while true
      invariant 0 <= nread < total && nread <= |s|
      invariant kind.Request? ==>
          || total == 4
          || (4 <= |s| && U32(s, 0) == REQUEST_SIZE && total == REQUEST_SIZE && nread >= 4)
          || (REQUEST_SIZE <= |s| && U32(s, 0) == REQUEST_SIZE
              && total == REQUEST_SIZE + U32(s, EXTRA_LEN_OFFSET) && nread >= REQUEST_SIZE
              && !(kind.maxExtra != 0 && U32(s, EXTRA_LEN_OFFSET) > kind.maxExtra))
      invariant kind.Response? ==>
          || total == 4
          || (4 <= |s| && RESPONSE_SIZE <= U32(s, 0) == total)
      decreases |s| - nread
    {
      if nread == |s| {
        return ClosedEarly;
      }
      var n :| 1 <= n <= total - nread && n <= |s| - nread;
      nread := nread + n;
      if nread < total {
        continue;
      }
      var more := if kind.Request? then RequestMore(s[..total], kind.maxExtra) else ResponseMore(s[..total]);
      if more == -1 {
        return Malformed;
      }
      if more == 0 {
        return Packet(total);
      }
      total := total + more;
    }
  }

  // ----- the writers

  /** wb_req_write_send: one or two I/O vectors, written back to back. */
  method WriteRequest(m: Message) returns (out: seq<byte>)
    requires ValidRequest(m)
    ensures out == Frame(m)
    ensures RequestPacket(out, 0) == Packet(|out|)
  {
    var iov := [m.fixed];
    if U32(m.fixed, EXTRA_LEN_OFFSET) != 0 {
      iov := iov + [m.extra];
    }
    out := WriteVectors(iov);
  }

  /** wb_resp_write_send. */
  method WriteResponse(m: Message) returns (out: seq<byte>)
    requires ValidResponse(m)
    ensures out == Frame(m)
    ensures ResponsePacket(out) == Packet(|out|)
  {
    var iov := [m.fixed];
    if U32(m.fixed, 0) > RESPONSE_SIZE {
      iov := iov + [m.extra];
    }
    out := WriteVectors(iov);
  }

  /** writev_send: the vectors in order, one after the other. */
  method WriteVectors(iov: seq<seq<byte>>) returns (out: seq<byte>)
    ensures out == Concat(iov)
    ensures |iov| == 1 ==> out == iov[0]
    ensures |iov| == 2 ==> out == iov[0] + iov[1]
  {
    out := [];
    for i := 0 to |iov|
      invariant out == Concat(iov[..i])
    {
      ConcatAppend(iov[..i], [iov[i]]);
      ConcatOne(iov[i]);
      assert iov[..i + 1] == iov[..i] + [iov[i]];
      out := out + iov[i];
    }
    assert iov[..|iov|] == iov;
    if |iov| == 2 {
      ConcatAppend([iov[0]], [iov[1]]);
      assert iov == [iov[0]] + [iov[1]];
      ConcatOne(iov[0]);
      ConcatOne(iov[1]);
    } else if |iov| == 1 {
      assert iov == [iov[0]];
      ConcatOne(iov[0]);
    }
  }

  // ----- back to back

  /** The complete packets at the front of a stream, in order: what a peer that
      reads packet after packet has received once `s` has arrived. */
  function Packets(s: seq<byte>, kind: Kind): (ps: seq<seq<byte>>)
    ensures |Concat(ps)| <= |s|
    decreases |s|
  {
    match PacketAt(s, kind)
    case Packet(n) => [s[..n]] + Packets(s[n..], kind)
    case _ => []
  }

  /** A complete packet of its kind: the reader takes all of it and no more. */
  predicate Whole(f: seq<byte>, kind: Kind)
  {
    PacketAt(f, kind) == Packet(|f|)
  }

  predicate AllWhole(fs: seq<seq<byte>>, kind: Kind)
  {
    forall i :: 0 <= i < |fs| ==> Whole(fs[i], kind)
  }

  lemma WholePrefixStable(f: seq<byte>, t: seq<byte>, kind: Kind)
    requires Whole(f, kind)
    ensures PacketAt(f + t, kind) == Packet(|f|)
  {
  }

  /** A packet that has only partly arrived yields nothing yet. */
  lemma PartialYieldsNothing(f: seq<byte>, k: nat, kind: Kind)
    requires Whole(f, kind)
    requires k < |f|
    ensures Packets(f[..k], kind) == []
  {
    var g := f[..k];
    assert |g| >= 4 ==> U32(g, 0) == U32(f, 0);
    if kind.Request? && |g| >= REQUEST_SIZE {
      assert U32(g, EXTRA_LEN_OFFSET) == U32(f, EXTRA_LEN_OFFSET);
    }
  }

  lemma FirstPacket(f: seq<byte>, t: seq<byte>, kind: Kind)
    requires Whole(f, kind)
    ensures Packets(f + t, kind) == [f] + Packets(t, kind)
  {
    WholePrefixStable(f, t, kind);
    assert (f + t)[..|f|] == f;
    assert (f + t)[|f|..] == t;
  }

  /** Packets written back to back are read back as the same packets, and what
      follows them is read as if it stood alone. */
  lemma {:induction false} PacketsOfConcat(fs: seq<seq<byte>>, t: seq<byte>, kind: Kind)
    requires AllWhole(fs, kind)
    ensures Packets(Concat(fs) + t, kind) == fs + Packets(t, kind)
  {
    if fs == [] {
      assert Concat(fs) + t == t;
    } else {
      PacketsOfConcat(fs[1..], t, kind);
      FirstPacket(fs[0], Concat(fs[1..]) + t, kind);
      ConcatFirst(fs, t);
      AppendFirst(fs, Packets(t, kind));
    }
  }

  /** Every packet found is whole. */
  lemma {:induction false} PacketsAreWhole(s: seq<byte>, kind: Kind)
    ensures AllWhole(Packets(s, kind), kind)
    ensures Concat(Packets(s, kind)) <= s
    decreases |s|
  {
    var r := PacketAt(s, kind);
    if r.Packet? {
      var f := s[..r.size];
      assert U32(f, 0) == U32(s, 0);
      if kind.Request? {
        assert U32(f, EXTRA_LEN_OFFSET) == U32(s, EXTRA_LEN_OFFSET);
      }
      PacketsAreWhole(s[r.size..], kind);
      assert s == f + s[r.size..];
      assert Packets(s, kind)[1..] == Packets(s[r.size..], kind);
    }
  }

  /** More bytes never change the packets already received. */
  lemma {:induction false} PacketsMonotone(s: seq<byte>, t: seq<byte>, kind: Kind)
    ensures Packets(s, kind) <= Packets(s + t, kind)
  {
    PacketsAreWhole(s, kind);
    var fs := Packets(s, kind);
    var tail := s[|Concat(fs)|..];
    assert s + t == Concat(fs) + (tail + t);
    PacketsOfConcat(fs, tail + t, kind);
  }

  // ----- what the receiver hands to its caller

  /** wb_req_read_done / wb_resp_read_done: split the packet at the fixed size and
      overwrite the pointer field, which means nothing outside the sender. */
  function Received(packet: seq<byte>, kind: Kind, address: seq<byte>): (m: Message)
    requires Whole(packet, kind)
    requires |address| == POINTER_SIZE
    ensures |m.fixed| == FixedSize(kind) && m.extra == packet[FixedSize(kind)..]
    ensures var p := PointerOffset(kind);
      && m.fixed[..p] == packet[..p]
      && m.fixed[p..p + 8] == (if m.extra == [] then [0, 0, 0, 0, 0, 0, 0, 0] else address)
      && m.fixed[p + 8..] == packet[p + 8..FixedSize(kind)]
  {
    var fixed := packet[..FixedSize(kind)];
    var extra := packet[FixedSize(kind)..];
    Message(Splice(fixed, PointerOffset(kind), if extra == [] then NullPointer() else address), extra)
  }

  function FixedSize(kind: Kind): nat
  {
    if kind.Request? then REQUEST_SIZE else RESPONSE_SIZE
  }

  function PointerOffset(kind: Kind): nat
  {
    if kind.Request? then REQUEST_POINTER_OFFSET else RESPONSE_POINTER_OFFSET
  }

  function NullPointer(): seq<byte>
  {
    [0, 0, 0, 0, 0, 0, 0, 0]
  }

  /** Equal but for the pointer field of the fixed part. */
  predicate SameUpToPointer(a: Message, b: Message, kind: Kind)
  {
    && |a.fixed| == |b.fixed| == FixedSize(kind)
    && a.extra == b.extra
    && a.fixed[..PointerOffset(kind)] == b.fixed[..PointerOffset(kind)]
    && a.fixed[PointerOffset(kind) + POINTER_SIZE..] == b.fixed[PointerOffset(kind) + POINTER_SIZE..]
  }

  predicate ValidMessage(m: Message, kind: Kind)
  {
    if kind.Response? then ValidResponse(m)
    else ValidRequest(m) && (kind.maxExtra == 0 || |m.extra| <= kind.maxExtra)
  }

  function Frames(ms: seq<Message>): (fs: seq<seq<byte>>)
    ensures |fs| == |ms|
    ensures forall i :: 0 <= i < |ms| ==> fs[i] == Frame(ms[i])
  {
    seq(|ms|, i requires 0 <= i < |ms| => Frame(ms[i]))
  }

  lemma ValidFrameIsWhole(m: Message, kind: Kind)
    requires ValidMessage(m, kind)
    ensures Whole(Frame(m), kind)
  {
    assert U32(Frame(m), 0) == U32(m.fixed, 0);
    if kind.Request? {
      assert U32(Frame(m), EXTRA_LEN_OFFSET) == U32(m.fixed, EXTRA_LEN_OFFSET);
    }
  }

  lemma ReceivedIsSent(m: Message, kind: Kind, address: seq<byte>)
    requires ValidMessage(m, kind)
    requires |address| == POINTER_SIZE
    requires Whole(Frame(m), kind)
    ensures SameUpToPointer(Received(Frame(m), kind, address), m, kind)
  {
    assert Frame(m)[..FixedSize(kind)] == m.fixed;
    assert Frame(m)[FixedSize(kind)..] == m.extra;
  }

  /** Any sequence of well-formed messages written back to back is read back as
      the same sequence, wherever the receiver's buffers lie. */
  lemma FramingRoundTrip(ms: seq<Message>, kind: Kind, addresses: seq<seq<byte>>)
    requires forall m :: m in ms ==> ValidMessage(m, kind)
    requires |addresses| == |ms| && forall a :: a in addresses ==> |a| == POINTER_SIZE
    ensures var ps := Packets(Concat(Frames(ms)), kind);
      && |ps| == |ms|
      && forall i :: 0 <= i < |ms| ==>
        && Whole(ps[i], kind)
        && SameUpToPointer(Received(ps[i], kind, addresses[i]), ms[i], kind)
  {
    var fs := Frames(ms);
    forall i | 0 <= i < |ms|
      ensures Whole(fs[i], kind) && SameUpToPointer(Received(fs[i], kind, addresses[i]), ms[i], kind)
    {
      ValidFrameIsWhole(ms[i], kind);
      ReceivedIsSent(ms[i], kind, addresses[i]);
    }
    PacketsOfConcat(fs, [], kind);
    assert Concat(fs) + [] == Concat(fs);
  }

  // ----- the synchronous reply reader

  /** winbindd_read_reply on a stream: the fixed part first, then the length check,
      then the extra data.  A length that does not fit the `int` it is stored in
      makes the allocation of the buffer fail. */
  method ReadReplySync(s: seq<byte>) returns (r: ReadResult)
    ensures r == SyncReply(s)
  {
    if |s| < RESPONSE_SIZE {
      return ClosedEarly;
    }
    var length := U32(s, 0);
    if length < RESPONSE_SIZE {
      return Malformed;
    }
    if length > RESPONSE_SIZE {
      var extraLen := ToInt32((length - RESPONSE_SIZE) % TWO_32);
      if extraLen < 0 {
        return Malformed;
      }
      if |s| < RESPONSE_SIZE + extraLen {
        return ClosedEarly;
      }
      return Packet(RESPONSE_SIZE + extraLen);
    }
    return Packet(RESPONSE_SIZE);
  }

  /** What the synchronous reader takes from a reply stream. */
  function SyncReply(s: seq<byte>): (r: ReadResult)
  {
    if |s| < RESPONSE_SIZE then ClosedEarly
    else if U32(s, 0) < RESPONSE_SIZE || U32(s, 0) - RESPONSE_SIZE > INT_MAX then Malformed
    else if |s| < U32(s, 0) then ClosedEarly
    else Packet(U32(s, 0))
  }

  /** The two reply readers accept the same streams and take the same bytes, except
      that the synchronous one refuses extra data longer than an `int` can say. */
  lemma ReadersAgree(s: seq<byte>)
    ensures SyncReply(s).Packet? <==> ResponsePacket(s).Packet? && U32(s, 0) - RESPONSE_SIZE <= INT_MAX
    ensures SyncReply(s).Packet? ==> SyncReply(s) == ResponsePacket(s)
    ensures SyncReply(s).Malformed? <==>
      |s| >= RESPONSE_SIZE && (ResponsePacket(s).Malformed? || U32(s, 0) - RESPONSE_SIZE > INT_MAX)
  {
  }
}
