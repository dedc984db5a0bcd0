/** The world the winbind client runs in: its descriptors, the connections behind
    them, and what the daemon has answered on each.  System calls are methods that
    may return anything the kernel could; a run of the client is proved correct for
    every choice they make. */
module Sockets {
  import opened Wire
  import opened Framing

  const INTERFACE_VERSION: uint32 := 31
  const CMD_INTERFACE_VERSION: uint32 := 0
  const CMD_PRIV_PIPE_DIR: uint32 := 44
  const RESULT_OK: uint32 := 2

  const CMD_OFFSET: nat := 4
  const RESULT_OFFSET: nat := 4
  const VERSION_OFFSET: nat := 8

  /** How a connection was reached: through the public socket directory, or through
      the directory that a reply on connection `via` named. */
  datatype Origin = Public | Privileged(via: nat, dir: seq<byte>)

  /** One connection: the bytes the client wrote, the daemon's answers so far, how
      many answer bytes the client has read, and whether any byte of a privileged
      request was written to it.  `trusted` records that both the directory and the
      socket were checked to belong to root; Valid() requires it of every connection. */
  datatype Conn = Conn(origin: Origin, trusted: bool, sent: seq<byte>, replies: seq<seq<byte>>,
                       nread: nat, carriesPrivileged: bool)
  {
    /** The requests the daemon has received in full, in order. */
    function Asked(): seq<seq<byte>>
    {
      Packets(sent, Request(0))
    }

    function Stream(): seq<byte>
    {
      Concat(replies)
    }

    predicate Valid()
    {
      && |replies| <= |Asked()|
      && nread <= |Stream()|
      && trusted
      && (carriesPrivileged ==> origin.Privileged?)
    }

    /** Every request has been written in full, answered, and its answer read. */
    predicate Idle()
    {
      && Concat(Asked()) == sent
      && |replies| == |Asked()|
      && nread == |Stream()|
    }

    /** Only requests without extra data have been written. */
    predicate OnlyHeaders()
    {
      OnlyHeaderBytes(sent)
    }

    predicate SameSent(d: Conn)
    {
      d.sent == sent
    }

    predicate Grows(d: Conn)
    {
      && origin == d.origin
      && sent <= d.sent
      && replies <= d.replies
      && nread <= d.nread
    }
  }

  /** `hangups` bounds how many more times the daemon will hang up on a write; it is
      any number at all, so every run that ends is covered.  `faults` counts the system
      calls that failed and the hang-ups during a handshake, `waited` the seconds that
      were spent waiting; both are told by the system calls alone. */
  datatype Kernel = Kernel(pid: uint32, fds: map<int, nat>, conns: seq<Conn>, hangups: nat, outOfMemory: bool,
                           faults: nat, waited: nat)
  {
    predicate Valid()
    {
      && (forall fd :: fd in fds ==> 0 <= fd && fds[fd] < |conns|)
      && ValidConns(conns)
    }

    /** No allocation has failed and every answer is a well-formed reply. */
    predicate Honest()
    {
      && !outOfMemory
      && forall i, j {:trigger ValidReply(conns[i].replies[j])} ::
        0 <= i < |conns| && 0 <= j < |conns[i].replies| ==> ValidReply(conns[i].replies[j])
    }

    /** What no step of the client undoes. */
    predicate Evolves(k: Kernel)
    {
      && pid == k.pid
      && k.hangups <= hangups
      && (outOfMemory ==> k.outOfMemory)
      && faults <= k.faults && waited <= k.waited
      && GrowAll(conns, k.conns)
    }
  }

  predicate ValidConns(conns: seq<Conn>)
  {
    forall i {:trigger conns[i].Valid()} :: 0 <= i < |conns| ==>
      conns[i].Valid() && HonestOrigin(conns, conns[i].origin, i)
  }

  /** A privileged origin names the directory that the daemon named when it was asked
      for it on an earlier, public connection. */
  predicate HonestOrigin(conns: seq<Conn>, o: Origin, i: nat)
    requires i <= |conns|
  {
    o.Privileged? ==>
      && o.via < i
      && conns[o.via].origin.Public?
      && Directed(conns[o.via], o.dir)
  }

  /** The first thing asked on `c` was the interface version, and the reply, at the front
      of the stream, is a good one that names the right version. */
  predicate Versioned(c: Conn)
  {
    && |c.sent| >= REQUEST_SIZE && U32(c.sent, CMD_OFFSET) == CMD_INTERFACE_VERSION
    && |c.Stream()| >= RESPONSE_SIZE
    && U32(c.Stream(), RESULT_OFFSET) == RESULT_OK
    && U32(c.Stream(), VERSION_OFFSET) == INTERFACE_VERSION
  }

  /** The second was the privileged directory, and the second reply is a good one whose
      extra data is `dir`. */
  predicate Directed(c: Conn, dir: seq<byte>)
  {
    && Versioned(c)
    && |c.sent| >= 2 * REQUEST_SIZE && U32(c.sent, REQUEST_SIZE + CMD_OFFSET) == CMD_PRIV_PIPE_DIR
    && ReplyAt(c.Stream(), U32(c.Stream(), 0), dir)
  }

  /** The reply at offset `at` of a stream is a good one with extra data `extra`. */
  predicate ReplyAt(stream: seq<byte>, at: nat, extra: seq<byte>)
  {
    && at + RESPONSE_SIZE + |extra| <= |stream|
    && U32(stream, at) == RESPONSE_SIZE + |extra|
    && U32(stream, at + RESULT_OFFSET) == RESULT_OK
    && stream[at + RESPONSE_SIZE..at + RESPONSE_SIZE + |extra|] == extra
  }

  lemma DirectedGrows(c: Conn, d: Conn, dir: seq<byte>)
    requires Directed(c, dir) && c.Grows(d)
    ensures Directed(d, dir)
  {
    StreamPrefix(c, d);
    assert c.Stream() == d.Stream()[..|c.Stream()|] && c.sent == d.sent[..|c.sent|];
    ReplyAtGrows(c.Stream(), d.Stream(), U32(c.Stream(), 0), dir);
  }

  lemma ReplyAtGrows(s: seq<byte>, t: seq<byte>, at: nat, extra: seq<byte>)
    requires ReplyAt(s, at, extra) && s <= t
    ensures ReplyAt(t, at, extra)
  {
    assert s == t[..|s|];
    var (from, to) := (at + RESPONSE_SIZE, at + RESPONSE_SIZE + |extra|);
    assert t[from..to] == s[from..to];
  }

  lemma StreamPrefix(c: Conn, d: Conn)
    requires c.replies <= d.replies
    ensures c.Stream() <= d.Stream()
  {
    assert d.replies == c.replies + d.replies[|c.replies|..];
    ConcatAppend(c.replies, d.replies[|c.replies|..]);
  }

  predicate GrowAll(conns: seq<Conn>, conns': seq<Conn>)
  {
    && |conns| <= |conns'|
    && forall i {:trigger conns[i].Grows(conns'[i])} :: 0 <= i < |conns| ==> conns[i].Grows(conns'[i])
  }

  /** Nothing was written to the connections there were. */
  predicate SentSame(conns: seq<Conn>, conns': seq<Conn>)
  {
    && |conns| <= |conns'|
    && forall i {:trigger conns[i].SameSent(conns'[i])} :: 0 <= i < |conns| ==> conns[i].SameSent(conns'[i])
  }

  /** Nothing was written but a front part of `data` to connection `j`. */
  predicate SentOnly(conns: seq<Conn>, conns': seq<Conn>, j: nat, data: seq<byte>)
  {
    && j < |conns| == |conns'|
    && conns[j].sent <= conns'[j].sent <= conns[j].sent + data
    && forall i {:trigger conns[i].SameSent(conns'[i])} :: 0 <= i < |conns| && i != j ==> conns[i].SameSent(conns'[i])
  }

  lemma SentSameTransitive(a: seq<Conn>, b: seq<Conn>, c: seq<Conn>)
    requires SentSame(a, b) && SentSame(b, c)
    ensures SentSame(a, c)
  {
    forall i | 0 <= i < |a|
      ensures a[i].SameSent(c[i])
    {
      assert a[i].SameSent(b[i]) && b[i].SameSent(c[i]);
    }
  }

  lemma SentOnlyThenSame(a: seq<Conn>, b: seq<Conn>, c: seq<Conn>, j: nat, data: seq<byte>)
    requires SentOnly(a, b, j, data) && SentSame(b, c) && |c| == |b|
    ensures SentOnly(a, c, j, data)
  {
    assert b[j].SameSent(c[j]);
    forall i | 0 <= i < |a| && i != j
      ensures a[i].SameSent(c[i])
    {
      assert a[i].SameSent(b[i]) && b[i].SameSent(c[i]);
    }
  }

  predicate ValidReply(r: seq<byte>)
  {
    SyncReply(r) == Packet(|r|)
  }

  // ----- what evolution keeps

  lemma EvolvesTransitive(a: Kernel, b: Kernel, c: Kernel)
    requires a.Evolves(b) && b.Evolves(c)
    ensures a.Evolves(c)
  {
    forall i | 0 <= i < |a.conns|
      ensures a.conns[i].Grows(c.conns[i])
    {
      assert a.conns[i].Grows(b.conns[i]) && b.conns[i].Grows(c.conns[i]);
    }
  }

  lemma HonestBefore(a: Kernel, b: Kernel)
    requires a.Evolves(b) && b.Honest()
    ensures a.Honest()
  {
    forall i, j | 0 <= i < |a.conns| && 0 <= j < |a.conns[i].replies|
      ensures ValidReply(a.conns[i].replies[j])
    {
      assert a.conns[i].Grows(b.conns[i]);
      assert b.conns[i].replies[j] == a.conns[i].replies[j];
    }
  }

  // ----- when a call may fail

  /** The daemon greets well: the first reply on a public connection is a good one with
      the right version, and so is the second if it is for the directory. */
  predicate Greets(c: Conn)
  {
    c.origin.Public? ==>
      && (|c.replies| > 0 && |c.replies[0]| >= RESPONSE_SIZE ==>
        U32(c.replies[0], RESULT_OFFSET) == RESULT_OK && U32(c.replies[0], VERSION_OFFSET) == INTERFACE_VERSION)
      && (|c.replies| > 1 && |c.replies[1]| >= RESPONSE_SIZE && |c.sent| >= 2 * REQUEST_SIZE
          && U32(c.sent, REQUEST_SIZE + CMD_OFFSET) == CMD_PRIV_PIPE_DIR ==>
        U32(c.replies[1], RESULT_OFFSET) == RESULT_OK)
  }

  predicate Welcoming(k: Kernel)
  {
    k.Honest() && forall i {:trigger Greets(k.conns[i])} :: 0 <= i < |k.conns| ==> Greets(k.conns[i])
  }

  /** What excuses a call that is not answered: a system call failed, half a minute went by
      waiting, or the daemon did not answer as it should. */
  predicate Trouble(k: Kernel, k': Kernel)
  {
    k'.faults > k.faults || k'.waited >= k.waited + 30 || !Welcoming(k')
  }

  lemma GreetsBefore(c: Conn, d: Conn)
    requires c.Grows(d) && Greets(d)
    ensures Greets(c)
  {
    if |c.sent| >= 2 * REQUEST_SIZE {
      assert c.sent == d.sent[..|c.sent|];
    }
  }

  lemma WelcomingBefore(a: Kernel, b: Kernel)
    requires a.Evolves(b) && Welcoming(b)
    ensures Welcoming(a)
  {
    HonestBefore(a, b);
    forall i | 0 <= i < |a.conns|
      ensures Greets(a.conns[i])
    {
      assert a.conns[i].Grows(b.conns[i]) && Greets(b.conns[i]);
      GreetsBefore(a.conns[i], b.conns[i]);
    }
  }

  lemma StreamGrows(c: Conn, more: seq<seq<byte>>)
    ensures c.Stream() <= c.(replies := c.replies + more).Stream()
  {
    ConcatAppend(c.replies, more);
  }

  /** Replacing one connection by a later state of itself keeps the world valid. */
  lemma ReplaceConn(k: Kernel, i: nat, c: Conn)
    requires k.Valid() && i < |k.conns|
    requires c.Valid() && k.conns[i].Grows(c)
    ensures k.(conns := k.conns[i := c]).Valid()
    ensures k.Evolves(k.(conns := k.conns[i := c]))
  {
    var k' := k.(conns := k.conns[i := c]);
    forall j | 0 <= j < |k'.conns|
      ensures k'.conns[j].Valid() && HonestOrigin(k'.conns, k'.conns[j].origin, j)
    {
      var o := k'.conns[j].origin;
      assert k.conns[j].Valid() && HonestOrigin(k.conns, o, j);
      if o.Privileged? && o.via == i {
        DirectedGrows(k.conns[i], c, o.dir);
      }
    }
  }

  lemma WriteKeepsValid(c: Conn, data: seq<byte>, privileged: bool)
    requires c.Valid()
    requires privileged ==> c.origin.Privileged?
    ensures c.(sent := c.sent + data, carriesPrivileged := c.carriesPrivileged || privileged).Valid()
  {
    PacketsMonotone(c.sent, data, Request(0));
  }

  // ----- pairing

  /** The last request the daemon received on `c` is `frame`, and `reply` is its answer. */
  predicate Answers(c: Conn, frame: seq<byte>, reply: seq<byte>)
  {
    && |c.Asked()| > 0
    && c.Asked()[|c.Asked()| - 1] == frame
    && |c.replies| == |c.Asked()|
    && c.replies[|c.replies| - 1] == reply
  }

  /** A request written in full on an idle connection is the next one the daemon sees. */
  lemma AskedNext(base: Conn, frame: seq<byte>)
    requires Concat(base.Asked()) == base.sent
    requires Whole(frame, Request(0))
    ensures base.(sent := base.sent + frame).Asked() == base.Asked() + [frame]
    ensures Concat(base.(sent := base.sent + frame).Asked()) == base.sent + frame
  {
    var kind := Request(0);
    var fs := base.Asked();
    PacketsAreWhole(base.sent, kind);
    PacketsOfConcat(fs + [frame], [], kind) by {
      assert AllWhole(fs + [frame], kind);
    }
    ConcatAppend(fs, [frame]);
    ConcatOne(frame);
    assert Concat(fs + [frame]) == base.sent + frame;
    assert base.sent + frame + [] == base.sent + frame;
    assert Packets([], kind) == [];
  }

  /** One that is not yet complete cannot have been answered. */
  lemma AskedNotYet(base: Conn, frame: seq<byte>, k: nat)
    requires Concat(base.Asked()) == base.sent
    requires Whole(frame, Request(0)) && k < |frame|
    ensures base.(sent := base.sent + frame[..k]).Asked() == base.Asked()
  {
    var kind := Request(0);
    PacketsAreWhole(base.sent, kind);
    PacketsOfConcat(base.Asked(), frame[..k], kind);
    PartialYieldsNothing(frame, k, kind);
  }

  /** What the reply reader finds at the end of the answers already read. */
  lemma NextReply(replies: seq<seq<byte>>, m: nat)
    requires m <= |replies|
    requires forall j :: 0 <= j < |replies| ==> ValidReply(replies[j])
    ensures |Concat(replies[..m])| <= |Concat(replies)|
    ensures var rest := Concat(replies)[|Concat(replies[..m])|..];
      if m == |replies| then rest == [] && SyncReply(rest) == ClosedEarly
      else SyncReply(rest) == Packet(|replies[m]|) && rest[..|replies[m]|] == replies[m]
  {
    assert replies == replies[..m] + replies[m..];
    ConcatAppend(replies[..m], replies[m..]);
    var rest := Concat(replies)[|Concat(replies[..m])|..];
    assert rest == Concat(replies[m..]);
    if m < |replies| {
      var r := replies[m];
      assert rest == r + Concat(replies[m..][1..]);
      assert U32(rest, 0) == U32(r, 0);
    }
  }

  /** Reading one reply after a request written on an idle connection yields the
      answer to that request and leaves the connection idle again. */
  lemma ReplyIsPaired(base: Conn, c: Conn, frame: seq<byte>, n: nat)
    requires base.Idle() && Whole(frame, Request(0))
    requires c.sent == base.sent + frame && base.replies <= c.replies && c.Valid()
    requires forall j :: 0 <= j < |c.replies| ==> ValidReply(c.replies[j])
    requires base.nread <= |c.Stream()| && SyncReply(c.Stream()[base.nread..]) == Packet(n)
    requires c.nread == base.nread + n <= |c.Stream()|
    ensures c.Idle()
    ensures Answers(c, frame, c.Stream()[base.nread..][..n])
  {
    AskedNext(base, frame);
    assert c.Asked() == base.(sent := base.sent + frame).Asked();
    var m := |base.replies|;
    assert c.replies[..m] == base.replies;
    NextReply(c.replies, m);
    assert c.replies == c.replies[..m] + [c.replies[m]];
    ConcatAppend(c.replies[..m], [c.replies[m]]);
    ConcatOne(c.replies[m]);
  }

  /** While the request is incomplete no reply can be read at all. */
  lemma NoReplyYet(base: Conn, c: Conn, frame: seq<byte>, k: nat)
    requires base.Idle() && Whole(frame, Request(0)) && k < |frame|
    requires c.sent == base.sent + frame[..k] && base.replies <= c.replies && c.Valid()
    ensures base.nread == |c.Stream()|
  {
    AskedNotYet(base, frame, k);
    assert c.Asked() == base.(sent := base.sent + frame[..k]).Asked();
    assert c.replies == base.replies;
  }

  /** Well-formed answers are never refused, wherever between two answers the
      reader stands. */
  lemma NeverMalformed(base: Conn, c: Conn)
    requires base.nread == |Concat(base.replies)| && base.replies <= c.replies
    requires forall j :: 0 <= j < |c.replies| ==> ValidReply(c.replies[j])
    ensures base.nread <= |c.Stream()| && SyncReply(c.Stream()[base.nread..]) != Malformed
  {
    assert c.replies[..|base.replies|] == base.replies;
    NextReply(c.replies, |base.replies|);
  }

  // ----- extra data split off from its request

  predicate OnlyHeaderBytes(sent: seq<byte>)
  {
    var asked := Packets(sent, Request(0));
    && Concat(asked) == sent
    && forall i :: 0 <= i < |asked| ==> |asked[i]| == REQUEST_SIZE
  }

  /** What was written last is `extra`, behind requests without extra data. */
  predicate ExtraAlone(sent: seq<byte>, extra: seq<byte>)
  {
    && extra != [] && |extra| <= |sent|
    && sent[|sent| - |extra|..] == extra
    && OnlyHeaderBytes(sent[..|sent| - |extra|])
  }

  lemma AloneBehind(base: Conn, extra: seq<byte>)
    requires base.OnlyHeaders() && extra != []
    ensures ExtraAlone(base.sent + extra, extra)
  {
    assert (base.sent + extra)[..|base.sent|] == base.sent;
  }

  /** What the daemon has received when extra data arrived alone. */
  lemma AskedAlone(sent: seq<byte>, extra: seq<byte>)
    requires ExtraAlone(sent, extra)
    ensures var before := sent[..|sent| - |extra|];
      Packets(sent, Request(0)) == Packets(before, Request(0)) + Packets(extra, Request(0))
  {
    var before := sent[..|sent| - |extra|];
    PacketsAreWhole(before, Request(0));
    PacketsOfConcat(Packets(before, Request(0)), extra, Request(0));
    assert sent == before + extra;
  }

  lemma ShortPacket(heads: seq<seq<byte>>, tail: seq<seq<byte>>, i: nat, n: nat)
    requires i < |heads + tail| && 0 < n && |Concat(tail)| <= n
    requires forall j :: 0 <= j < |heads| ==> |heads[j]| == REQUEST_SIZE
    ensures |(heads + tail)[i]| < REQUEST_SIZE + n
  {
    if i < |heads| {
      assert (heads + tail)[i] == heads[i];
    } else {
      assert (heads + tail)[i] == tail[i - |heads|];
      PacketLength(tail, i - |heads|);
    }
  }

  /** A connection on which the extra data stands alone never receives the request. */
  lemma NeverReceived(sent: seq<byte>, request: Message, i: nat)
    requires ValidRequest(request) && ExtraAlone(sent, request.extra) && i < |Packets(sent, Request(0))|
    ensures Packets(sent, Request(0))[i] != Frame(request)
  {
    AskedAlone(sent, request.extra);
    var before := sent[..|sent| - |request.extra|];
    var (heads, tail) := (Packets(before, Request(0)), Packets(request.extra, Request(0)));
    assert Packets(sent, Request(0)) == heads + tail;
    ShortPacket(heads, tail, i, |request.extra|);
    assert |Frame(request)| == REQUEST_SIZE + |request.extra|;
  }

  /** Extra data that went to a connection of its own never pairs with its request. */
  lemma SplitNeverPairs(c: Conn, request: Message, reply: seq<byte>)
    requires ValidRequest(request) && ExtraAlone(c.sent, request.extra)
    ensures !Answers(c, Frame(request), reply)
  {
    if |c.Asked()| > 0 {
      NeverReceived(c.sent, request, |c.Asked()| - 1);
    }
  }

  /** A request that stands as a whole on a connection is not alone there. */
  lemma TogetherNotAlone(base: Conn, request: Message)
    requires Concat(base.Asked()) == base.sent && ValidRequest(request)
    ensures !ExtraAlone(base.sent + Frame(request), request.extra)
  {
    var (frame, n) := (Frame(request), |request.fixed|);
    if request.extra != [] {
      ValidFrameIsWhole(request, Request(0));
      AskedNotYet(base, frame, n);
      assert frame[..n] == request.fixed;
      var sent := base.sent + frame;
      assert sent[..|sent| - |request.extra|] == base.sent + request.fixed;
    }
  }

  /** Extra data that does not start with a whole request draws no reply. */
  lemma AloneDrawsNothing(base: Conn, c: Conn, extra: seq<byte>)
    requires base.Idle() && base.OnlyHeaders() && extra != [] && Packets(extra, Request(0)) == []
    requires c.sent == base.sent + extra && base.replies <= c.replies && c.Valid()
    ensures c.replies == base.replies && base.nread == |c.Stream()|
  {
    AloneBehind(base, extra);
    AskedAlone(c.sent, extra);
    assert c.sent[..|c.sent| - |extra|] == base.sent;
    assert c.Asked() == base.Asked();
  }

  /** Extra data that does start with one can draw a reply that is not the answer to its
      request, on any idle connection. */
  lemma SplitMisleads(base: Conn, request: Message, reply: seq<byte>) returns (c: Conn)
    requires base.Valid() && base.Idle() && base.OnlyHeaders()
    requires ValidRequest(request) && Packets(request.extra, Request(0)) != []
    requires ValidReply(reply)
    ensures c == base.(sent := base.sent + request.extra, replies := base.replies + [reply],
                       nread := base.nread + |reply|)
    ensures c.Valid() && c.Stream()[base.nread..] == reply
    ensures ExtraAlone(c.sent, request.extra) && !Answers(c, Frame(request), reply)
  {
    c := base.(sent := base.sent + request.extra, replies := base.replies + [reply], nread := base.nread + |reply|);
    AloneBehind(base, request.extra);
    AskedAlone(c.sent, request.extra);
    assert c.sent[..|c.sent| - |request.extra|] == base.sent;
    ConcatAppend(base.replies, [reply]);
    ConcatOne(reply);
    SplitNeverPairs(c, request, reply);
  }

  /** An instance: the extra data is itself a request. */
  lemma SplitWitness() returns (request: Message, base: Conn, c: Conn, reply: seq<byte>)
    ensures ValidRequest(request) && base.Valid() && base.Idle() && c.Valid()
    ensures c.sent == base.sent + request.extra && ValidReply(reply)
    ensures base.nread <= |c.Stream()| && c.Stream()[base.nread..] == reply
    ensures !Answers(c, Frame(request), reply)
  {
    var zeros: seq<byte> := seq(REQUEST_SIZE, _ => 0);
    var inner := PutU32(zeros, 0, REQUEST_SIZE);
    assert U32(inner, EXTRA_LEN_OFFSET) == 0;
    var outer := PutU32(inner, EXTRA_LEN_OFFSET, REQUEST_SIZE);
    assert U32(outer, 0) == REQUEST_SIZE;
    request := Message(outer, inner);
    reply := PutU32(seq(RESPONSE_SIZE, _ => 0), 0, RESPONSE_SIZE);
    base := Conn(Public, true, [], [], 0, false);
    assert Packets([], Request(0)) == [];
    c := SplitMisleads(base, request, reply);
  }

  lemma {:induction false} PacketLength(fs: seq<seq<byte>>, i: nat)
    requires i < |fs|
    ensures |fs[i]| <= |Concat(fs)|
  {
    if i > 0 {
      PacketLength(fs[1..], i - 1);
    }
  }

  // ----- system calls

  method Close(k: Kernel, fd: int) returns (k': Kernel)
    requires k.Valid() && fd in k.fds
    ensures k'.Valid() && k.Evolves(k')
    ensures k' == k.(fds := k.fds - {fd})
  {
    k' := k.(fds := k.fds - {fd});
  }

  function Faulty(k: Kernel, fault: bool): Kernel
  {
    if fault then k.(faults := k.faults + 1) else k
  }

  datatype Stat = Stat(isDirectory: bool, isSocket: bool, uid: nat)
  {
    /** It is root's, or `wrapper` stands in for root. */
    predicate Owned(wrapper: bool)
    {
      uid == 0 || wrapper
    }
  }

  /** What lstat has told about the directory and the socket is as it should be. */
  predicate Vetted(dir: Stat, socket: Stat, wrapper: bool)
  {
    dir.isDirectory && dir.Owned(wrapper) && socket.isSocket && socket.Owned(wrapper)
  }

  /** socket, for a socket and a directory that were looked at. */
  method Socket(k: Kernel, origin: Origin, dir: Stat, socket: Stat, wrapper: bool) returns (k': Kernel, fd: int)
    requires k.Valid() && Vetted(dir, socket, wrapper) && HonestOrigin(k.conns, origin, |k.conns|)
    ensures k'.Valid() && k.Evolves(k')
    ensures fd == -1 || (fd >= 0 && fd !in k.fds)
    ensures k' == if fd == -1 then Faulty(k, true)
                  else k.(fds := k.fds[fd := |k.conns|],
                          conns := k.conns + [Conn(origin, Vetted(dir, socket, wrapper), [], [], 0, false)])
  {
    var candidate: int := *;
    if candidate < 0 || candidate in k.fds {
      return Faulty(k, true), -1;
    }
    fd := candidate;
    var c := Conn(origin, Vetted(dir, socket, wrapper), [], [], 0, false);
    k' := k.(fds := k.fds[fd := |k.conns|], conns := k.conns + [c]);
    forall i | 0 <= i < |k'.conns|
      ensures k'.conns[i].Valid() && HonestOrigin(k'.conns, k'.conns[i].origin, i)
    {
      if i < |k.conns| {
        assert k.conns[i].Valid() && HonestOrigin(k.conns, k.conns[i].origin, i);
      }
    }
  }

  /** fcntl(F_DUPFD), asked for a descriptor from 3 up. */
  method Duplicate(k: Kernel, fd: int) returns (k': Kernel, fd': int)
    requires k.Valid() && fd in k.fds
    ensures k'.Valid() && k.Evolves(k')
    ensures fd' == -1 || (fd' >= 0 && fd' !in k.fds)
    ensures k' == if fd' == -1 then Faulty(k, true) else Faulty(k.(fds := k.fds[fd' := k.fds[fd]]), fd' < 3)
  {
    var candidate: int := *;
    if candidate < 0 || candidate in k.fds {
      return Faulty(k, true), -1;
    }
    return Faulty(k.(fds := k.fds[candidate := k.fds[fd]]), candidate < 3), candidate;
  }

  /** write: a nonempty front part of `data`, or 0 or -1.  Bytes of a privileged
      request may only go to a connection reached through a privileged directory. */
  method Write(k: Kernel, fd: int, data: seq<byte>, privileged: bool) returns (k': Kernel, n: int)
    requires k.Valid() && fd in k.fds && |data| > 0
    requires privileged ==> k.conns[k.fds[fd]].origin.Privileged?
    ensures k'.Valid() && k.Evolves(k')
    ensures -1 <= n <= |data|
    ensures n <= 0 ==> k' == Faulty(k, true)
    ensures n > 0 ==>
      var c := k.conns[k.fds[fd]];
      k' == k.(conns := k.conns[k.fds[fd] :=
        c.(sent := c.sent + data[..n], carriesPrivileged := c.carriesPrivileged || privileged)])
  {
    n := *;
    if n < 0 || n > |data| {
      n := -1;
    }
    k' := Faulty(k, n <= 0);
    if n > 0 {
      var c := k.conns[k.fds[fd]];
      WriteKeepsValid(c, data[..n], privileged);
      var c' := c.(sent := c.sent + data[..n], carriesPrivileged := c.carriesPrivileged || privileged);
      ReplaceConn(k, k.fds[fd], c');
      k' := k.(conns := k.conns[k.fds[fd] := c']);
    }
  }

  /** read: the daemon first answers some of the requests it has received, in order;
      then the client gets a nonempty piece of what it has not read yet, or 0 or -1. */
  method Read(k: Kernel, fd: int, count: nat) returns (k': Kernel, n: int, data: seq<byte>)
    requires k.Valid() && fd in k.fds && count > 0
    ensures k'.Valid() && k.Evolves(k')
    ensures -1 <= n <= count && |data| == if n < 0 then 0 else n
    ensures |k'.conns| == |k.conns|
    ensures var (c, c') := (k.conns[k.fds[fd]], k'.conns[k.fds[fd]]);
      && k' == Faulty(k.(conns := k.conns[k.fds[fd] := c']), n <= 0)
      && c.Grows(c') && c' == c.(replies := c'.replies, nread := c.nread + |data|)
      && c'.nread <= |c'.Stream()|
      && data == c'.Stream()[c.nread..c'.nread]
  {
    var c := k.conns[k.fds[fd]];
    assert c.Valid();
    var c';
    c', n, data := ReadFrom(c, count);
    ReplaceConn(k, k.fds[fd], c');
    k' := Faulty(k.(conns := k.conns[k.fds[fd] := c']), n <= 0);
  }

  method ReadFrom(c: Conn, count: nat) returns (c': Conn, n: int, data: seq<byte>)
    requires c.Valid() && count > 0
    ensures c'.Valid() && c.Grows(c')
    ensures -1 <= n <= count && |data| == if n < 0 then 0 else n
    ensures c' == c.(replies := c'.replies, nread := c.nread + |data|)
    ensures c'.nread <= |c'.Stream()| && data == c'.Stream()[c.nread..c'.nread]
  {
    var answers: seq<seq<byte>> := *;
    if |c.replies| + |answers| > |c.Asked()| {
      answers := [];
    }
    StreamGrows(c, answers);
    c' := c.(replies := c.replies + answers);
    n := *;
    if n < 0 || n > count || n > |c'.Stream()| - c.nread {
      n := -1;
    }
    data := if n < 0 then [] else c'.Stream()[c.nread..c.nread + n];
    ghost var stream := c'.Stream();
    c' := c'.(nread := c.nread + |data|);
    assert c'.Stream() == stream && c'.Asked() == c.Asked();
  }

  datatype Poll = Error | Timeout | Readable | Writable

  /** poll for writing, without a time limit.  A connection that is readable or hung
      up before the request has been written counts as hung up, which no handshake
      survives. */
  method PollWrite(k: Kernel, fd: int, handshake: bool) returns (k': Kernel, p: Poll)
    requires k.Valid() && fd in k.fds
    ensures k'.Valid() && k.Evolves(k')
    ensures k' == Faulty(k.(hangups := k'.hangups), p.Error? || (p.Readable? && handshake))
    ensures p != Timeout
    ensures p.Readable? ==> k'.hangups < k.hangups
  {
    p := *;
    k' := k;
    if p == Timeout || (p == Readable && k.hangups == 0) {
      p := Error;
    } else if p == Readable {
      k' := k.(hangups := k.hangups - 1);
    }
    k' := Faulty(k', p.Error? || (p.Readable? && handshake));
  }

  /** poll for reading for five seconds; a ready descriptor is readable, hung up or
      in error, all of which lead to the read. */
  method PollRead(k: Kernel) returns (k': Kernel, p: Poll)
    ensures p != Writable
    ensures k' == Faulty(k.(waited := k.waited + if p.Timeout? then 5 else 0), p.Error?)
  {
    p := *;
    if p == Writable {
      p := Error;
    }
    k' := Faulty(k.(waited := k.waited + if p.Timeout? then 5 else 0), p.Error?);
  }

  /** lstat of the socket directory or of the socket in it.  It is a fault of the world
      if there is none, or if it is not root's and nothing stands in for root. */
  method Lstat(k: Kernel, directory: bool, wrapper: bool) returns (k': Kernel, found: bool, st: Stat)
    ensures var kind := if directory then st.isDirectory else st.isSocket;
      k' == Faulty(k, !(found && kind && (st.uid == 0 || wrapper)))
  {
    found, st := *, *;
    var kind := if directory then st.isDirectory else st.isSocket;
    k' := Faulty(k, !(found && kind && (st.uid == 0 || wrapper)));
  }

  /** fcntl and the other calls that only succeed or fail. */
  method Succeeds(k: Kernel) returns (k': Kernel, ok: bool)
    ensures k' == Faulty(k, !ok)
  {
    ok := *;
    k' := Faulty(k, !ok);
  }

  datatype Connecting = Connected | InProgress | Again | Refused

  method Connect(k: Kernel) returns (k': Kernel, c: Connecting)
    ensures k' == Faulty(k, c.Refused?)
  {
    c := *;
    k' := Faulty(k, c.Refused?);
  }

  /** The pause before the next attempt: one to three seconds. */
  method Pause(k: Kernel) returns (k': Kernel, slept: nat)
    ensures 1 <= slept <= 3
    ensures k' == k.(waited := k.waited + slept)
  {
    var r: nat := *;
    slept := r % 3 + 1;
    k' := k.(waited := k.waited + slept);
  }
}
