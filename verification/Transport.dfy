/** The synchronous winbind client (nsswitch/wb_common.c): one cached connection,
    reopened when the daemon hangs up, when the process forks and when a request
    needs the privileged pipe; a version handshake that re-enters the client; reads
    and writes in pieces. */
module Transport {
  import opened Wire
  import opened Framing
  import opened Sockets
  import opened Wrappers

  const FLAG_RECURSE := 0x800
  const CONNECT_TIMEOUT := 30

  const PID_OFFSET: nat := 12
  const FLAGS_OFFSET: nat := 16
  const CLIENT_NAME_OFFSET: nat := 280
  const CLIENT_NAME_SIZE: nat := 32

  datatype Status = Success | NotFound | Unavailable
  datatype WriteEnd = Written | HungUp | Failed
  datatype Piece = Got(data: seq<byte>) | Idle | Failed

  /** What snprintf writes of a name: as much as fits, and the terminator. */
  function NameField(name: seq<byte>): (f: seq<byte>)
    ensures 1 <= |f| <= CLIENT_NAME_SIZE
  {
    (if |name| < CLIENT_NAME_SIZE then name else name[..CLIENT_NAME_SIZE - 1]) + [0]
  }

  /** `header` is `request` with its length, command, process id and client name
      filled in, and nothing else changed. */
  ghost predicate Initialised(header: seq<byte>, request: seq<byte>, cmd: uint32, pid: uint32, name: seq<byte>)
  {
    var shown := if |name| < CLIENT_NAME_SIZE then name else name[..CLIENT_NAME_SIZE - 1];
    var end := CLIENT_NAME_OFFSET + |shown| + 1;
    && |header| == |request| == REQUEST_SIZE
    && U32(header, 0) == REQUEST_SIZE && U32(header, CMD_OFFSET) == cmd && U32(header, PID_OFFSET) == pid
    && header[CLIENT_NAME_OFFSET..end - 1] == shown && header[end - 1] == 0
    && header[8..PID_OFFSET] == request[8..PID_OFFSET]
    && header[FLAGS_OFFSET..CLIENT_NAME_OFFSET] == request[FLAGS_OFFSET..CLIENT_NAME_OFFSET]
    && header[end..] == request[end..]
  }

  /** winbindd_init_request. */
  method InitRequest(request: seq<byte>, cmd: uint32, pid: uint32, name: seq<byte>) returns (header: seq<byte>)
    requires |request| == REQUEST_SIZE
    ensures Initialised(header, request, cmd, pid, name)
    ensures U32(header, FLAGS_OFFSET) == U32(request, FLAGS_OFFSET)
    ensures U32(header, EXTRA_LEN_OFFSET) == U32(request, EXTRA_LEN_OFFSET)
  {
    header := PutU32(request, 0, REQUEST_SIZE);
    header := PutU32(header, CMD_OFFSET, cmd);
    header := PutU32(header, PID_OFFSET, pid);
    header := Splice(header, CLIENT_NAME_OFFSET, NameField(name));
  }

  /** A zeroed request, with only the recursion flag set. */
  ghost predicate Blank(r: seq<byte>)
  {
    && |r| == REQUEST_SIZE && U32(r, FLAGS_OFFSET) == FLAG_RECURSE
    && forall i :: 0 <= i < REQUEST_SIZE && !(FLAGS_OFFSET <= i < FLAGS_OFFSET + 4) ==> r[i] == 0
  }

  /** The request of the handshake. */
  method HandshakeRequest() returns (r: seq<byte>)
    ensures Blank(r)
    ensures HasBit(U32(r, FLAGS_OFFSET), FLAG_RECURSE) && U32(r, EXTRA_LEN_OFFSET) == 0
  {
    r := PutU32(seq(REQUEST_SIZE, _ => 0), FLAGS_OFFSET, FLAG_RECURSE);
  }

  /** `header` is the handshake request for `cmd`. */
  ghost predicate Greeting(header: seq<byte>, cmd: uint32, pid: uint32, name: seq<byte>)
  {
    exists r :: Blank(r) && Initialised(header, r, cmd, pid, name)
  }

  /** No more than the two requests of a handshake, or a front part of them. */
  ghost predicate HandshakeBytes(sent: seq<byte>, pid: uint32, name: seq<byte>)
  {
    || sent == []
    || (exists a :: Greeting(a, CMD_INTERFACE_VERSION, pid, name) && sent <= a)
    || (exists a, b :: Greeting(a, CMD_INTERFACE_VERSION, pid, name) && Greeting(b, CMD_PRIV_PIPE_DIR, pid, name)
                       && sent <= a + b)
  }

  ghost predicate Spared(c: Conn, d: Conn)
  {
    c.origin.Public? ==> d.sent == c.sent
  }

  ghost predicate OnlyGreeted(c: Conn, pid: uint32, name: seq<byte>)
  {
    c.origin.Public? ==> HandshakeBytes(c.sent, pid, name)
  }

  /** Public connections get nothing but a handshake when they are opened. */
  ghost predicate Discreet(k: Kernel, k': Kernel, name: seq<byte>)
  {
    && |k.conns| <= |k'.conns|
    && (forall i {:trigger Spared(k.conns[i], k'.conns[i])} :: 0 <= i < |k.conns| ==> Spared(k.conns[i], k'.conns[i]))
    && (forall i {:trigger OnlyGreeted(k'.conns[i], k.pid, name)} ::
      |k.conns| <= i < |k'.conns| ==> OnlyGreeted(k'.conns[i], k.pid, name))
  }

  lemma DiscreetTransitive(a: Kernel, b: Kernel, c: Kernel, name: seq<byte>)
    requires Discreet(a, b, name) && Discreet(b, c, name) && b.pid == a.pid && a.Evolves(b) && b.Evolves(c)
    ensures Discreet(a, c, name)
  {
    forall i | 0 <= i < |a.conns|
      ensures Spared(a.conns[i], c.conns[i])
    {
      assert Spared(a.conns[i], b.conns[i]) && Spared(b.conns[i], c.conns[i]);
      assert a.conns[i].Grows(b.conns[i]);
    }
    forall i | |a.conns| <= i < |c.conns|
      ensures OnlyGreeted(c.conns[i], a.pid, name)
    {
      if i < |b.conns| {
        assert OnlyGreeted(b.conns[i], a.pid, name) && Spared(b.conns[i], c.conns[i]);
        assert b.conns[i].Grows(c.conns[i]);
      } else {
        assert OnlyGreeted(c.conns[i], b.pid, name);
      }
    }
  }

  lemma SameIsDiscreet(k: Kernel, k': Kernel, name: seq<byte>)
    requires SentSame(k.conns, k'.conns) && |k'.conns| == |k.conns|
    ensures Discreet(k, k', name)
  {
    forall i | 0 <= i < |k.conns|
      ensures Spared(k.conns[i], k'.conns[i])
    {
      assert k.conns[i].SameSent(k'.conns[i]);
    }
  }

  /** Writing to a privileged connection. */
  lemma WriteIsDiscreet(k: Kernel, k': Kernel, i: nat, name: seq<byte>)
    requires i < |k.conns| == |k'.conns| && k.conns[i].origin.Privileged? && k'.conns == k.conns[i := k'.conns[i]]
    ensures Discreet(k, k', name)
  {
  }

  /** Of the connections there were, bytes went at most to connection `i`; new ones are
      privileged. */
  ghost predicate ChangedOnly(k: Kernel, k': Kernel, i: nat)
  {
    && i < |k.conns| <= |k'.conns|
    && (forall j {:trigger k.conns[j].SameSent(k'.conns[j])} ::
      0 <= j < |k.conns| && j != i ==> k.conns[j].SameSent(k'.conns[j]))
    && (forall j {:trigger k'.conns[j]} :: |k.conns| <= j < |k'.conns| ==> k'.conns[j].origin.Privileged?)
  }

  lemma NewIsDiscreet(k: Kernel, k': Kernel, c: Conn, name: seq<byte>)
    requires k'.conns == k.conns || k'.conns == k.conns + [c]
    requires c.sent == []
    ensures Discreet(k, k', name)
  {
    forall i | |k.conns| <= i < |k'.conns|
      ensures OnlyGreeted(k'.conns[i], k.pid, name)
    {
      assert k'.conns[i] == c;
    }
  }

  /** Greeting a connection that was opened just now. */
  lemma GreetedOn(k: Kernel, k1: Kernel, k': Kernel, i: nat, name: seq<byte>)
    requires Discreet(k, k1, name) && k.Evolves(k1) && k1.Evolves(k')
    requires |k.conns| <= i && ChangedOnly(k1, k', i) && HandshakeBytes(k'.conns[i].sent, k.pid, name)
    ensures Discreet(k, k', name)
  {
    forall j | 0 <= j < |k.conns|
      ensures Spared(k.conns[j], k'.conns[j])
    {
      assert Spared(k.conns[j], k1.conns[j]) && k1.conns[j].SameSent(k'.conns[j]);
    }
    forall j | |k.conns| <= j < |k'.conns|
      ensures OnlyGreeted(k'.conns[j], k.pid, name)
    {
      if j < |k1.conns| && j != i {
        assert OnlyGreeted(k1.conns[j], k.pid, name) && k1.conns[j].SameSent(k'.conns[j]);
        assert k1.conns[j].Grows(k'.conns[j]);
      }
    }
  }

  /** The first request of a handshake, or a front part of it. */
  lemma FirstGreeting(k: Kernel, k': Kernel, i: nat, header: seq<byte>, name: seq<byte>)
    requires i < |k.conns| && k.conns[i].sent == [] && SentOnly(k.conns, k'.conns, i, header)
    requires Greeting(header, CMD_INTERFACE_VERSION, k.pid, name)
    ensures ChangedOnly(k, k', i) && HandshakeBytes(k'.conns[i].sent, k.pid, name)
  {
    assert [] + header == header;
  }

  /** The second one behind it. */
  lemma SecondGreeting(k: Kernel, k1: Kernel, k': Kernel, i: nat, header: seq<byte>, c: Conn, name: seq<byte>)
    requires i < |k.conns| && Greeting(k.conns[i].sent, CMD_INTERFACE_VERSION, k.pid, name)
    requires SentOnly(k.conns, k1.conns, i, header)
    requires Greeting(header, CMD_PRIV_PIPE_DIR, k.pid, name)
    requires k'.conns == k1.conns || k'.conns == k1.conns + [c]
    requires c.origin.Privileged?
    ensures ChangedOnly(k, k', i) && HandshakeBytes(k'.conns[i].sent, k.pid, name)
  {
    forall j | 0 <= j < |k.conns| && j != i
      ensures k.conns[j].SameSent(k'.conns[j])
    {
      assert k.conns[j].SameSent(k1.conns[j]);
    }
    assert forall j :: |k.conns| <= j < |k'.conns| ==> k'.conns[j] == c;
  }

  /** More was sent on connection `i`, if it was there before. */
  ghost predicate SentMore(k: Kernel, k': Kernel, i: nat)
  {
    i < |k.conns| && i < |k'.conns| ==> |k.conns[i].sent| < |k'.conns[i].sent|
  }

  lemma SentMoreLater(k: Kernel, k1: Kernel, k': Kernel, i: nat)
    requires k.Evolves(k1) && k1.Evolves(k')
    ensures SentMore(k1, k', i) ==> SentMore(k, k', i)
    ensures SentMore(k, k1, i) && i < |k1.conns| ==> SentMore(k, k', i)
  {
    if i < |k.conns| {
      assert k.conns[i].Grows(k1.conns[i]) && k1.conns[i].Grows(k'.conns[i]);
    } else if i < |k1.conns| {
      assert k1.conns[i].Grows(k'.conns[i]);
    }
  }

  lemma AnyTrouble(a: Kernel, b: Kernel, c: Kernel)
    requires a.Evolves(b) && b.Evolves(c)
    ensures Trouble(a, b) || Trouble(b, c) ==> Trouble(a, c)
  {
    if Welcoming(c) {
      WelcomingBefore(b, c);
    }
  }

  /** The request is one of the handshake, for which no connection is opened. */
  predicate Recursing(header: seq<byte>)
    requires |header| == REQUEST_SIZE
  {
    HasBit(U32(header, FLAGS_OFFSET), FLAG_RECURSE)
  }

  /** A reply as its caller sees it: the server's pointer is cleared, the extra data
      stands beside the fixed part. */
  function StripPointer(raw: seq<byte>): (m: Message)
    requires |raw| >= RESPONSE_SIZE
    ensures |m.fixed| == RESPONSE_SIZE && m.extra == raw[RESPONSE_SIZE..]
    ensures forall i :: 0 <= i < RESPONSE_POINTER_OFFSET ==> m.fixed[i] == raw[i]
  {
    Message(Splice(raw[..RESPONSE_SIZE], RESPONSE_POINTER_OFFSET, NullPointer()), raw[RESPONSE_SIZE..])
  }

  class Context {
    var fd: int              // the cached descriptor, or -1
    var isPrivileged: bool
    var ourPid: uint32
    var kernel: Kernel
    const clientName: seq<byte>
    const disabled: bool     // the _NO_WINBINDD environment variable
    const wrapper: bool      // uid_wrapper is loaded

    /** The connection behind the cached descriptor. */
    function Current(): Conn
      reads this
      requires fd in kernel.fds && kernel.fds[fd] < |kernel.conns|
    {
      kernel.conns[kernel.fds[fd]]
    }

    /** The client owns the cached descriptor and nothing else, and believes it is on
        a privileged connection only when it is. */
    ghost predicate Safe()
      reads this
    {
      && kernel.Valid()
      && kernel.fds.Keys == (if fd == -1 then {} else {fd})
      && (fd != -1 && isPrivileged ==> Current().origin.Privileged?)
    }

    /** winbind_open_pipe_sock would return the cached descriptor as it is. */
    ghost predicate Ready(needPrivileged: bool)
      reads this
    {
      fd != -1 && ourPid == kernel.pid && (needPrivileged ==> isPrivileged)
    }

    /** No answer is outstanding on the cached connection of this process. */
    ghost predicate Quiet()
      reads this
      requires Safe()
    {
      kernel.Honest() && Ready(false) ==> Current().Idle()
    }

    constructor (pid: uint32, hangups: nat, name: seq<byte>, disabled: bool, wrapper: bool)
      ensures Safe() && Quiet() && fd == -1
      ensures kernel.pid == pid && kernel.conns == []
    {
      fd, isPrivileged, ourPid := -1, false, 0;
      kernel := Kernel(pid, map[], [], hangups, false, 0, 0);
      clientName := name;
      this.disabled, this.wrapper := disabled, wrapper;
    }

    /** winbind_close_sock. */
    method CloseSock()
      requires Safe()
      modifies this`fd, this`kernel
      ensures Safe() && Quiet() && fd == -1
      ensures old(kernel).Evolves(kernel)
      ensures kernel == old(kernel).(fds := map[])
    {
      if fd != -1 {
        kernel := Close(kernel, fd);
        fd := -1;
      }
      assert kernel.fds == map[];
    }

    /** make_safe_fd, with make_nonstd_fd_internals: move the descriptor away from the
        standard ones and set its flags, or close it. */
    static method MakeSafeFd(k: Kernel, fd: int) returns (k': Kernel, safe: int)
      requires k.Valid() && fd in k.fds
      ensures k'.Valid() && k.Evolves(k')
      ensures safe == -1 || safe >= 3
      ensures k'.conns == k.conns && k' == k.(fds := k'.fds, faults := k'.faults)
      ensures safe == -1 ==> k'.faults > k.faults
      ensures k'.fds == if safe == -1 then k.fds - {fd} else k.fds - {fd} + map[safe := k.fds[fd]]
      ensures safe != -1 && safe != fd ==> safe !in k.fds
    {
      var newFd := fd;
      k' := k;
      if fd <= 2 {
        k', newFd := Duplicate(k', fd);
        if newFd != -1 && newFd < 3 {
          k' := Close(k', newFd);
          newFd := -1;
          assert k'.fds == k.fds;
        }
        k' := Close(k', fd);
        if newFd == -1 {
          return k', -1;
        }
      }
      assert k'.fds == k.fds - {fd} + map[newFd := k.fds[fd]];
      var nonblocking, closeOnExec;
      k', nonblocking := Succeeds(k');
      k', closeOnExec := Succeeds(k');
      if !nonblocking || !closeOnExec {
        k' := Close(k', newFd);
        assert k'.fds == k.fds - {fd};
        return k', -1;
      }
      safe := newFd;
    }

    /** The connect loop of winbind_named_pipe_sock: however often the daemon is busy,
        connect is called at most 31 times, and the loop succeeds exactly when the last
        call connected, at once or in the end.  It gives up only after 30 seconds or when
        a call failed. */
    static method ConnectLoop(k: Kernel)
      returns (k': Kernel, ok: bool, connects: nat, ghost last: Connecting, ghost completed: bool)
      ensures k' == k.(faults := k'.faults, waited := k'.waited) && k.faults <= k'.faults && k.waited <= k'.waited
      ensures 1 <= connects <= CONNECT_TIMEOUT + 1
      ensures ok <==> last.Connected? || (last.InProgress? && completed)
      ensures !ok ==> k'.faults > k.faults || k'.waited >= k.waited + CONNECT_TIMEOUT
    {
      k', connects, completed := k, 0, false;
      var waitTime := 0;
      while true
        invariant k' == k.(faults := k'.faults, waited := k'.waited) && k.faults <= k'.faults && k.waited <= k'.waited
        invariant k'.faults > k.faults || k'.waited == k.waited + waitTime
        invariant connects <= waitTime && connects <= CONNECT_TIMEOUT && !completed
        decreases CONNECT_TIMEOUT - waitTime
      {
        var c;
        k', c := Connect(k');
        last := c;
        connects := connects + 1;
        if c.Connected? {
          ok := true;
          return;
        }
        if waitTime >= CONNECT_TIMEOUT {
          ok := false;
          return;
        }
        var slept: nat;
        match c {
          case InProgress =>
            var done;
            k', done := Succeeds(k');
            if done {
              ok, completed := true, true;
              return;
            }
            slept := CONNECT_TIMEOUT;
          case Again =>
            k', slept := Pause(k');
          case _ =>
            ok := false;
            return;
        }
        waitTime := waitTime + slept;
      }
    }

    /** What opening a connection through `origin` may do to the world: on success one
        new descriptor on one new connection, on failure no new descriptor. */
    static ghost predicate OpensOne(k: Kernel, k': Kernel, fd: int, origin: Origin)
    {
      && k'.Valid() && k.Evolves(k')
      && k' == k.(fds := k'.fds, conns := k'.conns, faults := k'.faults, waited := k'.waited)
      && (fd == -1 ==> k'.faults > k.faults || k'.waited >= k.waited + CONNECT_TIMEOUT)
      && (fd == -1 ==> k'.fds == k.fds)
      && (fd == -1 ==> k'.conns == k.conns || k'.conns == k.conns + [NewConn(origin)])
      && (fd != -1 ==>
        && fd >= 3 && fd !in k.fds
        && k'.fds == k.fds[fd := |k.conns|]
        && k'.conns == k.conns + [NewConn(origin)])
    }

    static ghost function NewConn(origin: Origin): Conn
    {
      Conn(origin, true, [], [], 0, false)
    }

    /** socket() and make_safe_fd. */
    static method SafeSocket(k: Kernel, origin: Origin, dir: Stat, socket: Stat, wrapper: bool)
      returns (k': Kernel, fd: int)
      requires k.Valid() && Vetted(dir, socket, wrapper) && HonestOrigin(k.conns, origin, |k.conns|)
      ensures OpensOne(k, k', fd, origin)
    {
      var k1, raw := Socket(k, origin, dir, socket, wrapper);
      if raw == -1 {
        return k1, -1;
      }
      k', fd := MakeSafeFd(k1, raw);
      EvolvesTransitive(k, k1, k');
      if fd == -1 {
        assert k'.fds == k.fds;
      } else {
        assert k'.fds == k.fds[fd := |k.conns|];
      }
    }

    /** winbind_named_pipe_sock: connect to the socket in a directory, both of which
        must belong to root.  Every descriptor opened on the way is closed again
        unless it is the one returned. */
    static method NamedPipeSock(k: Kernel, origin: Origin, wrapper: bool)
      returns (k': Kernel, fd: int, connects: nat)
      requires k.Valid() && HonestOrigin(k.conns, origin, |k.conns|)
      ensures OpensOne(k, k', fd, origin)
      ensures connects <= CONNECT_TIMEOUT + 1
    {
      k', fd, connects := k, -1, 0;
      var dirFound, dir;
      k', dirFound, dir := Lstat(k', true, wrapper);
      if !dirFound || !dir.isDirectory || !(dir.uid == 0 || wrapper) {
        return;
      }
      var pathFits;
      k', pathFits := Succeeds(k');
      if !pathFits {
        return;
      }
      var found, st;
      k', found, st := Lstat(k', false, wrapper);
      if !found || !st.isSocket || !(st.uid == 0 || wrapper) {
        return;
      }
      k', fd := SafeSocket(k', origin, dir, st, wrapper);
      if fd == -1 {
        return;
      }
      var ok;
      ghost var last, completed;
      k', ok, connects, last, completed := ConnectLoop(k');
      if !ok {
        k' := Close(k', fd);
        assert k'.fds == k.fds;
        fd := -1;
      }
    }

    /** The client has read `data` on a connection, which was `c` and is now `c'`. */
    static ghost predicate ReadOn(c: Conn, c': Conn, data: seq<byte>)
    {
      && c' == c.(replies := c'.replies, nread := c.nread + |data|)
      && c.replies <= c'.replies
      && c'.nread <= |c'.Stream()|
      && data == c'.Stream()[c.nread..c'.nread]
    }

    static lemma ReadOnTransitive(a: Conn, b: Conn, c: Conn, d: seq<byte>, e: seq<byte>)
      requires ReadOn(a, b, d) && ReadOn(b, c, e)
      ensures ReadOn(a, c, d + e)
    {
      assert c.replies == b.replies + c.replies[|b.replies|..];
      StreamGrows(b, c.replies[|b.replies|..]);
      assert c.(replies := b.replies + c.replies[|b.replies|..]).Stream() == c.Stream();
      assert c.Stream()[a.nread..b.nread] == b.Stream()[a.nread..b.nread];
    }

    /** What reading on descriptor `f` may do to the world: nothing but to the
        connection behind it. */
    static ghost predicate ReadStep(k: Kernel, k': Kernel, f: int, data: seq<byte>)
      requires k.Valid() && f in k.fds
    {
      && k'.Valid() && k.Evolves(k')
      && |k'.conns| == |k.conns|
      && k' == k.(conns := k.conns[k.fds[f] := k'.conns[k.fds[f]]], faults := k'.faults, waited := k'.waited)
      && ReadOn(k.conns[k.fds[f]], k'.conns[k.fds[f]], data)
    }

    static lemma ReadStepTransitive(a: Kernel, b: Kernel, c: Kernel, f: int, d: seq<byte>, e: seq<byte>)
      requires a.Valid() && f in a.fds
      requires ReadStep(a, b, f, d) && ReadStep(b, c, f, e)
      ensures ReadStep(a, c, f, d + e)
    {
      EvolvesTransitive(a, b, c);
      ReadOnTransitive(a.conns[a.fds[f]], b.conns[a.fds[f]], c.conns[a.fds[f]], d, e);
    }

    /** One round of that loop: wait for five seconds, and read what there is. */
    static method ReadPiece(k: Kernel, f: int, count: nat) returns (k': Kernel, p: Piece)
      requires k.Valid() && f in k.fds && count > 0
      ensures ReadStep(k, k', f, if p.Got? then p.data else [])
      ensures p.Got? ==> 0 < |p.data| <= count
      ensures p.Failed? ==> k'.faults > k.faults
      ensures k'.waited == k.waited + if p.Idle? then 5 else 0
    {
      assert k.conns[k.fds[f]].Valid();
      var poll;
      k', poll := PollRead(k);
      assert ReadStep(k, k', f, []);
      if poll.Error? {
        return k', Piece.Failed;
      }
      if poll.Timeout? {
        return k', Idle;
      }
      var k1, n, data := Read(k', f, count);
      ReadStepTransitive(k, k', k1, f, [], data);
      assert [] + data == data;
      return k1, if n == -1 || n == 0 then Piece.Failed else Got(data);
    }

    /** The loop of winbind_read_sock: exactly `count` bytes, in whatever pieces they
        come, or failure; at most 61 idle waits of five seconds, however many pieces
        arrive between them. */
    static method ReadLoop(k: Kernel, f: int, count: nat)
      returns (k': Kernel, ok: bool, data: seq<byte>, idle: nat)
      requires k.Valid() && f in k.fds
      ensures ReadStep(k, k', f, data)
      ensures ok ==> |data| == count
      ensures idle <= 61 && k'.waited == k.waited + 5 * idle
      ensures !ok ==> k'.faults > k.faults || idle == 61
    {
      assert k.conns[k.fds[f]].Valid();
      k', data, idle := k, [], 0;
      var totalTime := 0;
      while |data| < count
        invariant ReadStep(k, k', f, data)
        invariant |data| <= count
        invariant 0 <= totalTime <= 300 && totalTime == 5 * idle && k'.waited == k.waited + totalTime
        decreases count - |data|, 300 - totalTime
      {
        var k1, p := ReadPiece(k', f, count - |data|);
        ReadStepTransitive(k, k', k1, f, data, if p.Got? then p.data else []);
        assert data + [] == data;
        k' := k1;
        match p {
          case Failed =>
            return k', false, data, idle;
          case Idle =>
            idle := idle + 1;
            if totalTime >= 300 {
              return k', false, data, idle;
            }
            totalTime := totalTime + 5;
          case Got(piece) =>
            data := data + piece;
        }
      }
      ok := true;
    }

    /** What makes the client give up reading: a system call failed, or nothing came for
        more than five minutes. */
    static ghost predicate Silent(k: Kernel, k': Kernel)
    {
      k'.faults > k.faults || k'.waited >= k.waited + 305
    }

    /** winbind_read_sock. */
    method ReadSock(count: nat, ghost depth: nat) returns (ok: bool, data: seq<byte>, base: Conn, idle: nat)
      requires Safe() && depth <= 1
      requires depth == 1 ==> Ready(false)
      modifies this
      decreases 2 - depth, 3
      ensures Safe() && old(kernel).Evolves(kernel)
      ensures idle <= 61
      ensures !ok ==> fd == -1
      ensures ok ==> Ready(false) && |data| == count && ReadOn(base, Current(), data)
      ensures old(Ready(false)) ==>
        && isPrivileged == old(isPrivileged) && |kernel.conns| == |old(kernel.conns)|
        && base == old(Current())
        && (ok ==> fd == old(fd) && kernel.fds == old(kernel.fds))
        && SentSame(old(kernel.conns), kernel.conns)
        && (!ok ==> Silent(old(kernel), kernel))
    {
      var f := Open(false, false, depth);
      if f == -1 {
        return false, [], Conn(Public, true, [], [], 0, false), 0;
      }
      base := Current();
      var k := kernel;
      kernel, ok, data, idle := ReadLoop(k, f, count);
      EvolvesTransitive(old(kernel), k, kernel);
      if !ok {
        ghost var k1 := kernel;
        CloseSock();
        EvolvesTransitive(old(kernel), k1, kernel);
      }
    }

    /** The connection after `data` has been written to it. */
    static function WrittenOn(c: Conn, data: seq<byte>, privileged: bool): Conn
    {
      c.(sent := c.sent + data, carriesPrivileged := c.carriesPrivileged || (privileged && data != []))
    }

    /** The inner loop of winbind_write_sock: the first `count` bytes of `buffer`, in
        whatever pieces the kernel takes, unless the daemon hangs up or the write fails. */
    static method WriteLoop(k: Kernel, f: int, buffer: seq<byte>, count: int, privileged: bool, handshake: bool)
      returns (k': Kernel, end: WriteEnd, nwritten: nat)
      requires k.Valid() && f in k.fds && count <= |buffer|
      requires privileged ==> k.conns[k.fds[f]].origin.Privileged?
      ensures k'.Valid() && k.Evolves(k')
      ensures nwritten <= |buffer|
      ensures k' == k.(hangups := k'.hangups, faults := k'.faults,
                       conns := k.conns[k.fds[f] := WrittenOn(k.conns[k.fds[f]], buffer[..nwritten], privileged)])
      ensures end.Failed? || (end.HungUp? && handshake) ==> k'.faults > k.faults
      ensures end.Written? ==> nwritten == if count < 0 then 0 else count
      ensures end.HungUp? ==> k'.hangups < k.hangups && count > 0
    {
      var i := k.fds[f];
      ghost var c := k.conns[i];
      assert c.sent + buffer[..0] == c.sent;
      assert k.conns[i := WrittenOn(c, buffer[..0], privileged)] == k.conns;
      k', nwritten := k, 0;
      while nwritten < count
        invariant k'.Valid() && k.Evolves(k')
        invariant 0 <= nwritten && (nwritten <= count || nwritten == 0)
        invariant k' == k.(hangups := k'.hangups, faults := k'.faults,
                           conns := k.conns[i := WrittenOn(c, buffer[..nwritten], privileged)])
      {
        var k1, p := PollWrite(k', f, handshake);
        EvolvesTransitive(k, k', k1);
        k' := k1;
        if p.Error? {
          return k', WriteEnd.Failed, nwritten;
        }
        if p.Readable? {
          return k', HungUp, nwritten;
        }
        var k2, n := Write(k', f, buffer[nwritten..count], privileged);
        EvolvesTransitive(k, k', k2);
        if n == -1 || n == 0 {
          return k2, WriteEnd.Failed, nwritten;
        }
        assert c.sent + buffer[..nwritten] + buffer[nwritten..count][..n] == c.sent + buffer[..nwritten + n];
        assert k2.conns == k.conns[i := WrittenOn(c, buffer[..nwritten + n], privileged)];
        k', nwritten := k2, nwritten + n;
      }
      end := Written;
    }

    /** A connection is found or opened, then written to. */
    static lemma ThenWrote(k: Kernel, k1: Kernel, k': Kernel, i: nat, name: seq<byte>)
      requires k.Evolves(k1) && k1.Evolves(k') && i < |k1.conns| == |k'.conns| && k1.pid == k.pid
      requires k'.conns == k1.conns[i := k'.conns[i]]
      ensures k.Evolves(k')
      ensures |k1.conns[i].sent| < |k'.conns[i].sent| ==> SentMore(k, k', i)
      ensures Discreet(k, k1, name) && k1.conns[i].origin.Privileged? ==> Discreet(k, k', name)
      ensures k'.faults > k1.faults ==> Trouble(k, k')
    {
      EvolvesTransitive(k, k1, k');
      if i < |k.conns| {
        assert k.conns[i].Grows(k1.conns[i]);
      }
      if Discreet(k, k1, name) && k1.conns[i].origin.Privileged? {
        WriteIsDiscreet(k1, k', i, name);
        DiscreetTransitive(k, k1, k', name);
      }
    }

    /** One round of winbind_write_sock: open, write, and close again on failure. */
    method WriteOnce(buffer: seq<byte>, count: int, recursing: bool, needPrivileged: bool, ghost depth: nat)
      returns (end: WriteEnd, ghost base: Conn)
      requires Safe() && depth <= 1 && count <= |buffer|
      requires depth == 1 ==> recursing || Ready(needPrivileged)
      modifies this
      decreases 2 - depth, 3
      ensures Safe() && old(kernel).Evolves(kernel)
      ensures !end.Written? ==> Quiet()
      ensures end.HungUp? ==> fd == -1 && kernel.hangups < old(kernel.hangups) && count > 0
      ensures end.Failed? || (end.HungUp? && recursing) ==>
        disabled || Trouble(old(kernel), kernel) || (recursing && !old(Ready(needPrivileged)))
      ensures end.Written? ==>
        && Ready(needPrivileged)
        && Current() == WrittenOn(base, buffer[..if count < 0 then 0 else count], needPrivileged)
        && (if old(Ready(needPrivileged)) then base == old(Current()) && fd == old(fd) && kernel.fds == old(kernel.fds)
            else base.OnlyHeaders() && (kernel.Honest() ==> base.Idle()))
      ensures end.Written? && count > 0 ==> SentMore(old(kernel), kernel, kernel.fds[fd])
      ensures needPrivileged ==> Discreet(old(kernel), kernel, clientName)
      ensures recursing ==>
        && isPrivileged == old(isPrivileged) && |kernel.conns| == |old(kernel.conns)|
        && (end.Written? ==> old(Ready(needPrivileged)) && fd == old(fd) && kernel.fds == old(kernel.fds))
        && (if old(Ready(needPrivileged)) then SentOnly(old(kernel.conns), kernel.conns, old(kernel.fds[fd]), buffer)
            else SentSame(old(kernel.conns), kernel.conns))
    {
      base := Conn(Public, true, [], [], 0, false);
      var f := Open(recursing, needPrivileged, depth);
      if f == -1 {
        return WriteEnd.Failed, base;
      }
      base := Current();
      var k, i := kernel, kernel.fds[f];
      var n;
      kernel, end, n := WriteLoop(k, f, buffer, count, needPrivileged, recursing);
      ThenWrote(old(kernel), k, kernel, i, clientName);
      if end.Written? {
        if kernel.Honest() {
          HonestBefore(k, kernel);
        }
      } else {
        ghost var k1 := kernel;
        CloseSock();
        ClosedAfter(old(kernel), k1, kernel);
      }
    }

    /** Closing changes nothing but the descriptors. */
    static lemma ClosedAfter(k: Kernel, k1: Kernel, k': Kernel)
      requires k.Evolves(k1) && k' == k1.(fds := k'.fds)
      ensures k.Evolves(k') && (Trouble(k, k1) ==> Trouble(k, k'))
    {
      assert k1.Evolves(k') by {
        assert forall i :: 0 <= i < |k1.conns| ==> k1.conns[i].Grows(k'.conns[i]);
      }
      EvolvesTransitive(k, k1, k');
      AnyTrouble(k, k1, k');
    }

    /** winbind_write_sock: write the first `count` bytes of `buffer` to a connection,
        starting over on a new one whenever the daemon hangs up.  `base` is the
        connection as it was when the bytes that count were begun; `moved` says that it
        is not the one that was cached before. */
    method WriteSock(buffer: seq<byte>, count: int, recursing: bool, needPrivileged: bool, ghost depth: nat)
      returns (ok: bool, ghost base: Conn, ghost moved: bool)
      requires Safe() && depth <= 1 && count <= |buffer|
      requires depth == 1 ==> recursing
      modifies this
      decreases 2 - depth, 4
      ensures Safe() && old(kernel).Evolves(kernel)
      ensures !ok ==> Quiet()
      ensures !ok ==> disabled || Trouble(old(kernel), kernel) || (recursing && !old(Ready(needPrivileged)))
      ensures ok ==> Ready(needPrivileged)
      ensures ok ==> Current() == WrittenOn(base, buffer[..if count < 0 then 0 else count], needPrivileged)
      ensures ok && !moved ==>
        old(Ready(needPrivileged)) && base == old(Current()) && fd == old(fd) && kernel.fds == old(kernel.fds)
      ensures ok && moved && old(Ready(needPrivileged)) ==> count > 0
      ensures ok && moved ==> base.OnlyHeaders() && (kernel.Honest() ==> base.Idle())
      ensures ok && count > 0 ==> SentMore(old(kernel), kernel, kernel.fds[fd])
      ensures needPrivileged ==> Discreet(old(kernel), kernel, clientName)
      ensures recursing ==>
        && isPrivileged == old(isPrivileged) && |kernel.conns| == |old(kernel.conns)|
        && (ok ==> !moved && fd == old(fd) && kernel.fds == old(kernel.fds))
        && (if old(Ready(needPrivileged)) then SentOnly(old(kernel.conns), kernel.conns, old(kernel.fds[fd]), buffer)
            else SentSame(old(kernel.conns), kernel.conns))
    {
      moved := !Ready(needPrivileged);
      SameIsDiscreet(kernel, kernel, clientName);
      while true
        invariant Safe() && old(kernel).Evolves(kernel)
        invariant moved == !Ready(needPrivileged)
        invariant !moved ==> unchanged(this)
        invariant moved && old(Ready(needPrivileged)) ==> count > 0
        invariant moved && recursing ==> disabled || Trouble(old(kernel), kernel) || !old(Ready(needPrivileged))
        invariant needPrivileged ==> Discreet(old(kernel), kernel, clientName)
        invariant recursing ==>
          && isPrivileged == old(isPrivileged) && |kernel.conns| == |old(kernel.conns)|
          && (if old(Ready(needPrivileged)) then SentOnly(old(kernel.conns), kernel.conns, old(kernel.fds[fd]), buffer)
              else SentSame(old(kernel.conns), kernel.conns))
        decreases kernel.hangups
      {
        ghost var k := kernel;
        var end;
        end, base := WriteOnce(buffer, count, recursing, needPrivileged, depth);
        EvolvesTransitive(old(kernel), k, kernel);
        AnyTrouble(old(kernel), k, kernel);
        if needPrivileged {
          DiscreetTransitive(old(kernel), k, kernel, clientName);
        }
        if recursing && moved {
          StillOnly(old(kernel.conns), k.conns, kernel.conns, old(kernel.fds), old(fd), buffer,
                    old(Ready(needPrivileged)));
        }
        if end.Written? && count > 0 {
          SentMoreLater(old(kernel), k, kernel, kernel.fds[fd]);
        }
        if !end.HungUp? {
          ok := end.Written?;
          return;
        }
        moved := true;
      }
    }

    static lemma StillOnly(a: seq<Conn>, b: seq<Conn>, c: seq<Conn>, fds: map<int, nat>, f: int, data: seq<byte>,
                           ready: bool)
      requires SentSame(b, c) && |a| == |b| == |c|
      requires ready ==> f in fds
      requires if ready then SentOnly(a, b, fds[f], data) else SentSame(a, b)
      ensures if ready then SentOnly(a, c, fds[f], data) else SentSame(a, c)
    {
      if ready {
        SentOnlyThenSame(a, b, c, fds[f], data);
      } else {
        SentSameTransitive(a, b, c);
      }
    }

    /** `raw` is one complete reply, read on a connection that was `base` and is now `c`. */
    static ghost predicate RepliedWith(base: Conn, c: Conn, raw: seq<byte>)
    {
      && ReadOn(base, c, raw)
      && RESPONSE_SIZE <= |raw| <= RESPONSE_SIZE + INT_MAX
      && U32(raw, 0) == |raw|
    }

    /** The length of the reply that starts where `base` stands is one the client refuses. */
    static ghost predicate Refuses(base: Conn, c: Conn)
    {
      && base.replies <= c.replies
      && base.nread + RESPONSE_SIZE <= |c.Stream()|
      && !(RESPONSE_SIZE <= U32(c.Stream(), base.nread) <= RESPONSE_SIZE + INT_MAX)
    }

    /** winbindd_read_reply: the fixed part, the check of its length, the extra data.
        A failure that leaves the connection open is a refused length or a failed
        allocation. */
    method ReadReply(ghost depth: nat) returns (ok: bool, base: Conn, raw: seq<byte>)
      requires Safe() && depth <= 1
      requires depth == 1 ==> Ready(false)
      modifies this
      decreases 2 - depth, 5
      ensures Safe() && old(kernel).Evolves(kernel)
      ensures ok ==> Ready(false) && RepliedWith(base, Current(), raw)
      ensures !ok && fd != -1 ==> Ready(false) && (kernel.outOfMemory || Refuses(base, Current()))
      ensures !ok && old(Ready(false)) ==> Silent(old(kernel), kernel) || (fd != -1 && Refuses(base, Current()))
      ensures old(Ready(false)) ==>
        && isPrivileged == old(isPrivileged) && |kernel.conns| == |old(kernel.conns)|
        && base == old(Current())
        && (fd != -1 ==> fd == old(fd) && kernel.fds == old(kernel.fds))
        && SentSame(old(kernel.conns), kernel.conns)
    {
      var idle;
      ok, raw, base, idle := ReadSock(RESPONSE_SIZE, depth);
      if !ok {
        return;
      }
      var length := U32(raw, 0);
      assert U32(Current().Stream(), base.nread) == length;
      if length < RESPONSE_SIZE {
        ok := false;
        return;
      }
      if length > RESPONSE_SIZE {
        var extraLen := ToInt32(length - RESPONSE_SIZE);
        if extraLen < 0 {
          ok := false;
          return;
        }
        ghost var k := kernel;
        ok, raw := ReadExtra(base, raw, extraLen, depth);
        EvolvesTransitive(old(kernel), k, kernel);
        if old(Ready(false)) {
          SentSameTransitive(old(kernel.conns), k.conns, kernel.conns);
        }
      }
    }

    /** The second half of winbindd_read_reply. */
    method ReadExtra(ghost base: Conn, fixed: seq<byte>, extraLen: nat, ghost depth: nat)
      returns (ok: bool, raw: seq<byte>)
      requires Safe() && depth <= 1 && Ready(false)
      requires ReadOn(base, Current(), fixed) && |fixed| == RESPONSE_SIZE
      requires extraLen <= INT_MAX && U32(fixed, 0) == RESPONSE_SIZE + extraLen
      modifies this
      decreases 2 - depth, 4
      ensures Safe() && old(kernel).Evolves(kernel)
      ensures ok ==> Ready(false) && RepliedWith(base, Current(), raw)
      ensures !ok && fd != -1 ==> Ready(false) && kernel.outOfMemory
      ensures !ok ==> Silent(old(kernel), kernel)
      ensures isPrivileged == old(isPrivileged) && |kernel.conns| == |old(kernel.conns)|
      ensures fd != -1 ==> fd == old(fd) && kernel.fds == old(kernel.fds)
      ensures SentSame(old(kernel.conns), kernel.conns)
    {
      var haveBuffer;
      kernel, haveBuffer := Succeeds(kernel);
      if !haveBuffer {
        kernel := kernel.(outOfMemory := true);
        return false, fixed;
      }
      ghost var first := Current();
      var extra, again, idle;
      ok, extra, again, idle := ReadSock(extraLen, depth);
      if !ok {
        return false, fixed;
      }
      ReadOnTransitive(base, first, Current(), fixed, extra);
      raw := fixed + extra;
      assert U32(raw, 0) == U32(fixed, 0);
    }

    /** How much of the extra data the second write of a request covers: all of it,
        unless its length turns negative as the `int` the write takes. */
    static function ExtraWritten(extra: seq<byte>): nat
      requires |extra| < TWO_32
    {
      if ToInt32(|extra|) < 0 then 0 else |extra|
    }

    /** winbindd_send_request after the request is filled in: the fixed part, then the
        extra data if there is any.  `split` says that the daemon hung up between the
        two writes, so that the extra data went to a connection of its own. */
    method SendRequest(header: seq<byte>, extra: seq<byte>, needPrivileged: bool, ghost depth: nat)
      returns (ok: bool, ghost base: Conn, ghost split: bool)
      requires Safe() && depth <= 1
      requires ValidRequest(Message(header, extra))
      requires depth == 1 ==> HasBit(U32(header, FLAGS_OFFSET), FLAG_RECURSE)
      modifies this
      decreases 2 - depth, 6
      ensures Safe() && old(kernel).Evolves(kernel)
      ensures !ok ==> Quiet() && !split
      ensures !ok ==>
        disabled || Trouble(old(kernel), kernel) || (Recursing(header) && !old(Ready(needPrivileged)))
      ensures split ==> extra != []
      ensures ok ==> Ready(needPrivileged)
      ensures ok && old(Quiet()) && kernel.Honest() ==> base.Idle()
      ensures ok ==> SentOn(base, Current(), Message(header, extra), needPrivileged, split)
      ensures ok && extra == [] ==> Current() == WrittenOn(base, header, needPrivileged)
      ensures HasBit(U32(header, FLAGS_OFFSET), FLAG_RECURSE) ==>
        && isPrivileged == old(isPrivileged) && |kernel.conns| == |old(kernel.conns)|
        && (ok ==> fd == old(fd) && kernel.fds == old(kernel.fds))
        && (ok ==> !split && old(Ready(needPrivileged)) && base == old(Current()))
        && (extra == [] ==>
          if old(Ready(needPrivileged)) then SentOnly(old(kernel.conns), kernel.conns, old(kernel.fds[fd]), header)
          else SentSame(old(kernel.conns), kernel.conns))
      ensures ok ==> SentMore(old(kernel), kernel, kernel.fds[fd])
      ensures needPrivileged ==> Discreet(old(kernel), kernel, clientName)
    {
      split := false;
      var recursing := HasBit(U32(header, FLAGS_OFFSET), FLAG_RECURSE);
      ghost var moved;
      ok, base, moved := WriteSock(header, REQUEST_SIZE, recursing, needPrivileged, depth);
      if !ok {
        return;
      }
      if kernel.Honest() {
        HonestBefore(old(kernel), kernel);
      }
      assert header[..REQUEST_SIZE] == header;
      if U32(header, EXTRA_LEN_OFFSET) != 0 {
        ghost var k := kernel;
        ok, base, split := SendExtra(header, extra, recursing, needPrivileged, depth, base);
        if kernel.Honest() {
          HonestBefore(k, kernel);
        }
        SendBoth(old(kernel), k, kernel, needPrivileged, ok, if ok then kernel.fds[fd] else 0, clientName);
      } else {
        assert header + extra[..ExtraWritten(extra)] == header;
      }
    }

    static lemma SendBoth(a: Kernel, b: Kernel, c: Kernel, privileged: bool, ok: bool, i: nat, name: seq<byte>)
      requires a.Evolves(b) && b.Evolves(c)
      requires privileged ==> Discreet(a, b, name) && Discreet(b, c, name)
      requires ok ==> SentMore(b, c, i) || (SentMore(a, b, i) && i < |b.conns|)
      ensures a.Evolves(c) && (privileged ==> Discreet(a, c, name)) && (ok ==> SentMore(a, c, i))
      ensures Trouble(b, c) ==> Trouble(a, c)
    {
      AnyTrouble(a, b, c);
      EvolvesTransitive(a, b, c);
      if privileged {
        DiscreetTransitive(a, b, c, name);
      }
      SentMoreLater(a, b, c, i);
    }

    /** The second write of a request, for its extra data. */
    method SendExtra(ghost header: seq<byte>, extra: seq<byte>, recursing: bool, needPrivileged: bool,
                     ghost depth: nat, ghost first: Conn)
      returns (ok: bool, ghost base: Conn, ghost split: bool)
      requires Safe() && depth <= 1 && 0 < |extra| < TWO_32
      requires depth == 1 ==> recursing
      requires Ready(needPrivileged) && Current() == WrittenOn(first, header, needPrivileged)
      modifies this
      decreases 2 - depth, 5
      ensures Safe() && old(kernel).Evolves(kernel)
      ensures !ok ==> Quiet() && !split && (disabled || Trouble(old(kernel), kernel))
      ensures ok ==> Ready(needPrivileged)
      ensures ok && !split ==>
        && base == first && fd == old(fd) && kernel.fds == old(kernel.fds)
        && Current() == WrittenOn(base, header + extra[..ExtraWritten(extra)], needPrivileged)
      ensures ok && split ==>
        && Current() == WrittenOn(base, extra, needPrivileged) && base.OnlyHeaders()
        && (kernel.Honest() ==> base.Idle()) && SentMore(old(kernel), kernel, kernel.fds[fd])
      ensures needPrivileged ==> Discreet(old(kernel), kernel, clientName)
      ensures recursing ==>
        && isPrivileged == old(isPrivileged) && |kernel.conns| == |old(kernel.conns)|
        && (ok ==> !split && fd == old(fd) && kernel.fds == old(kernel.fds))
    {
      ok, base, split := WriteSock(extra, ToInt32(|extra|), recursing, needPrivileged, depth);
      if !ok {
        split := false;
      } else if split {
        assert extra[..|extra|] == extra;
      } else {
        base := first;
        WrittenTwice(base, header, extra[..ExtraWritten(extra)], needPrivileged);
      }
    }

    static lemma WrittenTwice(c: Conn, a: seq<byte>, b: seq<byte>, privileged: bool)
      ensures WrittenOn(WrittenOn(c, a, privileged), b, privileged) == WrittenOn(c, a + b, privileged)
    {
      assert c.sent + a + b == c.sent + (a + b);
    }

    static ghost predicate AllValid(c: Conn)
    {
      forall j :: 0 <= j < |c.replies| ==> ValidReply(c.replies[j])
    }

    /** With well-formed answers the client never refuses a length. */
    static lemma NeverRefused(mid: Conn, c: Conn)
      requires mid.nread == |mid.Stream()| && mid.replies <= c.replies && AllValid(c)
      ensures !Refuses(mid, c)
    {
      NeverMalformed(mid, c);
      var rest := c.Stream()[mid.nread..];
      if |rest| >= RESPONSE_SIZE {
        assert U32(rest, 0) == U32(c.Stream(), mid.nread);
      }
    }

    /** What the client has read is what its reply reader takes from the stream. */
    static lemma ReplyInStream(base: Conn, c: Conn, raw: seq<byte>)
      requires RepliedWith(base, c, raw)
      ensures SyncReply(c.Stream()[base.nread..]) == Packet(|raw|)
      ensures c.Stream()[base.nread..][..|raw|] == raw
    {
      var rest := c.Stream()[base.nread..];
      assert rest[..|raw|] == c.Stream()[base.nread..base.nread + |raw|];
      assert U32(rest, 0) == U32(raw, 0);
    }

    /** How the connection stands after the request has been sent. */
    static ghost predicate SentOn(base: Conn, mid: Conn, request: Message, privileged: bool, split: bool)
      requires |request.extra| < TWO_32
    {
      if split then
        mid == WrittenOn(base, request.extra, privileged) && base.OnlyHeaders() && request.extra != []
      else
        mid == WrittenOn(base, request.fixed + request.extra[..ExtraWritten(request.extra)], privileged)
    }

    /** After a request that went out on one connection, the reply read there is its
        answer and nothing is outstanding.  After a split one it is not its answer, and it
        comes only if the extra data starts with a request itself. */
    static lemma Pairing(base: Conn, mid: Conn, c: Conn, request: Message, privileged: bool, split: bool,
                         raw: seq<byte>)
      requires ValidRequest(request) && base.Idle() && c.Valid() && AllValid(c)
      requires RepliedWith(mid, c, raw) && SentOn(base, mid, request, privileged, split)
      ensures split <==> ExtraAlone(c.sent, request.extra)
      ensures split ==> !Answers(c, Frame(request), raw) && Packets(request.extra, Request(0)) != []
      ensures !split ==> Answers(c, Frame(request), raw) && c.Idle()
    {
      if split {
        AloneBehind(base, request.extra);
        SplitNeverPairs(c, request, raw);
        if Packets(request.extra, Request(0)) == [] {
          AloneDrawsNothing(base, c, request.extra);
        }
      } else {
        var frame := Frame(request);
        ValidFrameIsWhole(request, Request(0));
        var k := |request.fixed| + ExtraWritten(request.extra);
        assert frame[..k] == request.fixed + request.extra[..ExtraWritten(request.extra)];
        if k < |frame| {
          NoReplyYet(base, c, frame, k);
        } else {
          assert frame[..k] == frame;
          TogetherNotAlone(base, request);
          ReplyInStream(mid, c, raw);
          ReplyIsPaired(base, c, frame, |raw|);
        }
      }
    }

    /** The two ends a transaction can come to on a connection that stays open, against
        a daemon whose answers are well-formed. */
    static lemma AfterReply(k: Kernel, k': Kernel, i: nat, base: Conn, request: Message, privileged: bool,
                            split: bool, ok: bool, raw: seq<byte>)
      requires k.Valid() && k'.Valid() && k.Evolves(k') && i < |k.conns|
      requires ValidRequest(request) && SentOn(base, k.conns[i], request, privileged, split)
      requires k.Honest() ==> base.Idle()
      requires if ok then RepliedWith(k.conns[i], k'.conns[i], raw)
               else k'.outOfMemory || Refuses(k.conns[i], k'.conns[i])
      ensures k'.Honest() ==> ok && Settled(k'.conns[i], request.fixed, request.extra, raw)
      ensures k'.Honest() ==> MoreReplies(k, k', i)
    {
      if k'.Honest() {
        HonestBefore(k, k');
        var c := k'.conns[i];
        assert c.Valid();
        assert AllValid(c);
        if ok {
          Pairing(base, k.conns[i], c, request, privileged, split, raw);
          assert k.conns[i].Grows(c);
          NewReply(k.conns[i], c, raw);
        } else {
          NeverRefused(k.conns[i], c);
        }
      }
    }

    /** Where everything had been read, a reply is a new one. */
    static lemma NewReply(mid: Conn, c: Conn, raw: seq<byte>)
      requires mid.nread == |mid.Stream()| && mid.replies <= c.replies && RepliedWith(mid, c, raw)
      ensures |mid.replies| < |c.replies|
    {
      assert |c.Stream()| > |mid.Stream()|;
      assert c.replies != mid.replies;
    }

    /** How things stand once `raw` has been read as the reply to a request: it is the
        request's answer if and only if the extra data does not stand alone on the
        connection, and then nothing is outstanding; extra data that stands alone starts
        with a request itself. */
    static ghost predicate Settled(c: Conn, header: seq<byte>, extra: seq<byte>, raw: seq<byte>)
    {
      && (Answers(c, header + extra, raw) <==> !ExtraAlone(c.sent, extra))
      && (!ExtraAlone(c.sent, extra) ==> c.Idle())
      && (ExtraAlone(c.sent, extra) ==> Packets(extra, Request(0)) != [])
    }

    /** Send one request and read one reply. */
    method Transact(header: seq<byte>, extra: seq<byte>, needPrivileged: bool, ghost depth: nat)
      returns (ok: bool, raw: seq<byte>, at: nat)
      requires Safe() && depth <= 1
      requires ValidRequest(Message(header, extra))
      requires depth == 1 ==> HasBit(U32(header, FLAGS_OFFSET), FLAG_RECURSE)
      modifies this
      decreases 2 - depth, 7
      ensures Safe() && old(kernel).Evolves(kernel)
      ensures ok ==> Ready(needPrivileged) && TookReply(Current(), raw, at)
      ensures ok && old(Quiet()) && kernel.Honest() ==> Settled(Current(), header, extra, raw)
      ensures ok && old(Quiet()) && kernel.Honest() ==> MoreReplies(old(kernel), kernel, kernel.fds[fd])
      ensures !ok && old(Quiet()) ==> Quiet()
      ensures !ok && old(Quiet()) ==>
        disabled || Trouble(old(kernel), kernel) || (Recursing(header) && !old(Ready(needPrivileged)))
      ensures ok ==> SentMore(old(kernel), kernel, kernel.fds[fd])
      ensures needPrivileged ==> Discreet(old(kernel), kernel, clientName)
      ensures HasBit(U32(header, FLAGS_OFFSET), FLAG_RECURSE) ==>
        && isPrivileged == old(isPrivileged) && |kernel.conns| == |old(kernel.conns)|
        && (extra == [] ==>
          if old(Ready(needPrivileged)) then SentOnly(old(kernel.conns), kernel.conns, old(kernel.fds[fd]), header)
          else SentSame(old(kernel.conns), kernel.conns))
        && (ok && extra == [] ==>
          && old(Ready(needPrivileged)) && fd == old(fd) && kernel.fds == old(kernel.fds)
          && Current().sent == old(Current()).sent + header && at == old(Current()).nread)
    {
      raw, at := [], 0;
      ghost var base, split;
      ok, base, split := SendRequest(header, extra, needPrivileged, depth);
      if !ok {
        return;
      }
      ghost var k, i := kernel, kernel.fds[fd];
      ok, raw, at := Await(header, extra, needPrivileged, depth, base, split, old(Quiet()));
      ThenRead(old(kernel), k, kernel, i, clientName);
      AnyTrouble(old(kernel), k, kernel);
      if HasBit(U32(header, FLAGS_OFFSET), FLAG_RECURSE) && extra == [] {
        StillOnly(old(kernel.conns), k.conns, kernel.conns, old(kernel.fds), old(fd), header,
                  old(Ready(needPrivileged)));
      }
    }

    /** Read the reply to the request just sent. `quiet`: nothing was outstanding before it. */
    method Await(header: seq<byte>, extra: seq<byte>, needPrivileged: bool, ghost depth: nat, ghost base: Conn,
                 ghost split: bool, ghost quiet: bool)
      returns (ok: bool, raw: seq<byte>, at: nat)
      requires Safe() && depth <= 1 && Ready(needPrivileged)
      requires ValidRequest(Message(header, extra))
      requires SentOn(base, Current(), Message(header, extra), needPrivileged, split)
      requires quiet && kernel.Honest() ==> base.Idle()
      modifies this
      decreases 2 - depth, 6
      ensures Safe() && old(kernel).Evolves(kernel)
      ensures isPrivileged == old(isPrivileged)
      ensures |kernel.conns| == |old(kernel.conns)| && SentSame(old(kernel.conns), kernel.conns)
      ensures ok ==> fd == old(fd) && kernel.fds == old(kernel.fds)
      ensures ok ==> Ready(needPrivileged) && TookReply(Current(), raw, at)
      ensures ok ==> Current().sent == old(Current()).sent && at == old(Current()).nread
      ensures ok && quiet && kernel.Honest() ==> Settled(Current(), header, extra, raw)
      ensures ok && quiet && kernel.Honest() ==> MoreReplies(old(kernel), kernel, kernel.fds[fd])
      ensures !ok && quiet ==> Quiet() && Trouble(old(kernel), kernel)
    {
      ghost var i := kernel.fds[fd];
      var start;
      ok, start, raw := ReadReply(depth);
      at := start.nread;
      assert old(kernel.conns)[i].SameSent(kernel.conns[i]);
      if fd != -1 && quiet {
        AfterReply(old(kernel), kernel, i, base, Message(header, extra), needPrivileged, split, ok, raw);
      }
    }

    /** More was answered on connection `i`, if it was there before. */
    static ghost predicate MoreReplies(k: Kernel, k': Kernel, i: nat)
    {
      i < |k.conns| && i < |k'.conns| ==> |k.conns[i].replies| < |k'.conns[i].replies|
    }

    /** What was sent stays sent while the reply is read. */
    static lemma ThenRead(k: Kernel, k1: Kernel, k': Kernel, i: nat, name: seq<byte>)
      requires k.Evolves(k1) && k1.Evolves(k') && i < |k1.conns| && SentMore(k, k1, i) && k1.pid == k.pid
      requires SentSame(k1.conns, k'.conns) && |k'.conns| == |k1.conns|
      ensures k.Evolves(k') && SentMore(k, k', i)
      ensures Discreet(k, k1, name) ==> Discreet(k, k', name)
      ensures MoreReplies(k1, k', i) ==> MoreReplies(k, k', i)
    {
      EvolvesTransitive(k, k1, k');
      SentMoreLater(k, k1, k', i);
      if i < |k.conns| {
        assert k.conns[i].Grows(k1.conns[i]);
      }
      if Discreet(k, k1, name) {
        SameIsDiscreet(k1, k', name);
        DiscreetTransitive(k, k1, k', name);
      }
    }

    /** `raw` is a complete reply, the last thing read on a connection, at offset `at`. */
    static ghost predicate TookReply(c: Conn, raw: seq<byte>, at: nat)
    {
      && |raw| >= RESPONSE_SIZE && U32(raw, 0) == |raw|
      && c.nread == at + |raw| <= |c.Stream()|
      && c.Stream()[at..at + |raw|] == raw
    }

    /** winbindd_request_response and winbindd_priv_request_response. */
    method RequestResponse(cmd: uint32, request: seq<byte>, extra: seq<byte>, needPrivileged: bool, ghost depth: nat)
      returns (status: Status, response: Option<Message>, header: seq<byte>, raw: seq<byte>, at: nat)
      requires Safe() && depth <= 1
      requires |request| == REQUEST_SIZE && U32(request, EXTRA_LEN_OFFSET) == |extra|
      requires depth == 1 ==> HasBit(U32(request, FLAGS_OFFSET), FLAG_RECURSE)
      modifies this
      decreases 2 - depth, 8
      ensures Safe() && old(kernel).Evolves(kernel)
      ensures Initialised(header, request, cmd, kernel.pid, clientName) && ValidRequest(Message(header, extra))
      ensures response.Some? ==>
        Ready(needPrivileged) && TookReply(Current(), raw, at) && response.value == StripPointer(raw)
      ensures response.Some? && needPrivileged ==> Current().origin.Privileged?
      ensures needPrivileged ==> Discreet(old(kernel), kernel, clientName)
      ensures response.Some? ==> SentMore(old(kernel), kernel, kernel.fds[fd])
      ensures response.Some? && old(Quiet()) && kernel.Honest() ==> MoreReplies(old(kernel), kernel, kernel.fds[fd])
      ensures status == if response.None? then (if disabled then NotFound else Unavailable)
                        else if U32(raw, RESULT_OFFSET) == RESULT_OK then Success else NotFound
      ensures response.Some? && old(Quiet()) && kernel.Honest() ==> Settled(Current(), header, extra, raw)
      ensures response.Some? && old(Quiet()) && kernel.Honest() && Packets(extra, Request(0)) == [] ==>
        Answers(Current(), header + extra, raw)
      ensures response.None? && old(Quiet()) ==> Quiet()
      ensures response.None? && old(Quiet()) ==>
        disabled || Trouble(old(kernel), kernel) || (Recursing(request) && !old(Ready(needPrivileged)))
      ensures old(Quiet()) && Packets(extra, Request(0)) == [] ==> Quiet()
      ensures HasBit(U32(request, FLAGS_OFFSET), FLAG_RECURSE) ==>
        && isPrivileged == old(isPrivileged) && |kernel.conns| == |old(kernel.conns)|
        && (extra == [] ==>
          if old(Ready(needPrivileged)) then SentOnly(old(kernel.conns), kernel.conns, old(kernel.fds[fd]), header)
          else SentSame(old(kernel.conns), kernel.conns))
        && (response.Some? && extra == [] ==>
          && old(Ready(needPrivileged)) && fd == old(fd) && kernel.fds == old(kernel.fds)
          && Current().sent == old(Current()).sent + header && at == old(Current()).nread)
    {
      header := InitRequest(request, cmd, kernel.pid, clientName);
      SameIsDiscreet(kernel, kernel, clientName);
      if disabled {
        return NotFound, None, header, [], 0;
      }
      var ok;
      ok, raw, at := Transact(header, extra, needPrivileged, depth);
      if !ok {
        return Unavailable, None, header, raw, at;
      }
      response := Some(StripPointer(raw));
      status := if U32(raw, RESULT_OFFSET) == RESULT_OK then Success else NotFound;
    }

    /** winbind_open_pipe_sock.  `depth` counts how often the handshake has re-entered
        it: the preconditions of the calls below keep it at one. */
    method Open(recursing: bool, needPrivileged: bool, ghost depth: nat) returns (r: int)
      requires Safe() && depth <= 1
      requires depth == 1 ==> recursing || Ready(needPrivileged)
      modifies this
      decreases 2 - depth, 2
      ensures Safe() && old(kernel).Evolves(kernel)
      ensures old(Ready(needPrivileged)) ==> r == old(fd) && unchanged(this)
      ensures !old(Ready(needPrivileged)) ==> Quiet()
      ensures !old(Ready(needPrivileged)) && recursing ==>
        r == -1 && fd == -1 && isPrivileged == old(isPrivileged) && |kernel.conns| == |old(kernel.conns)|
      ensures r == -1 && !needPrivileged ==> fd == -1
      ensures r == -1 ==> recursing || disabled || Trouble(old(kernel), kernel)
      ensures r != -1 ==> r == fd && Ready(needPrivileged)
      ensures r != -1 && !old(Ready(needPrivileged)) ==> Current().OnlyHeaders()
      ensures Discreet(old(kernel), kernel, clientName)
      ensures recursing ==> SentSame(old(kernel.conns), kernel.conns)
    {
      SameIsDiscreet(kernel, kernel, clientName);
      if ourPid != kernel.pid {
        CloseSock();
        ourPid := kernel.pid;
      }
      if needPrivileged && !isPrivileged {
        CloseSock();
      }
      if fd != -1 {
        return fd;
      }
      if recursing {
        return -1;
      }
      r := OpenFresh(needPrivileged, depth);
    }

    /** The rest of winbind_open_pipe_sock: connect to the public socket, check the
        interface version, and if need be move to the privileged socket. */
    method OpenFresh(needPrivileged: bool, ghost depth: nat) returns (r: int)
      requires Safe() && depth == 0 && fd == -1 && ourPid == kernel.pid
      modifies this
      decreases 2 - depth, 1
      ensures Safe() && Quiet() && old(kernel).Evolves(kernel)
      ensures r == -1 && !needPrivileged ==> fd == -1
      ensures r == -1 ==> disabled || Trouble(old(kernel), kernel)
      ensures r != -1 ==> r == fd && Ready(needPrivileged) && Current().OnlyHeaders()
      ensures r != -1 ==> if needPrivileged then ReachedFrom(kernel, Current()) else Versioned(Current())
      ensures Discreet(old(kernel), kernel, clientName)
    {
      var k, newFd, connects := NamedPipeSock(kernel, Public, wrapper);
      kernel := k;
      ghost var i := |old(kernel.conns)|;
      NewIsDiscreet(old(kernel), k, NewConn(Public), clientName);
      if newFd == -1 {
        return -1;
      }
      fd, isPrivileged := newFd, false;

      var checked := CheckVersion(depth);
      EvolvesTransitive(old(kernel), k, kernel);
      AnyTrouble(old(kernel), k, kernel);
      GreetedOn(old(kernel), k, kernel, i, clientName);
      if !checked {
        return -1;
      }
      if !needPrivileged {
        return fd;
      }
      ghost var k1 := kernel;
      SwitchToPrivileged(depth);
      EvolvesTransitive(old(kernel), k1, kernel);
      AnyTrouble(old(kernel), k1, kernel);
      GreetedOn(old(kernel), k1, kernel, i, clientName);
      return if isPrivileged then fd else -1;
    }

    /** The version check on a fresh public connection. */
    method CheckVersion(ghost depth: nat) returns (ok: bool)
      requires Safe() && depth == 0 && Ready(false) && !isPrivileged
      requires Current() == NewConn(Public)
      modifies this
      decreases 2 - depth, 0
      ensures Safe() && Quiet() && old(kernel).Evolves(kernel)
      ensures !isPrivileged
      ensures if ok then Ready(false) && Current().OnlyHeaders() && Current().origin.Public? else fd == -1
      ensures ok ==> JustVersioned(Current()) && Greeting(Current().sent, CMD_INTERFACE_VERSION, kernel.pid, clientName)
      ensures ChangedOnly(old(kernel), kernel, old(kernel.fds[fd]))
      ensures HandshakeBytes(kernel.conns[old(kernel.fds[fd])].sent, kernel.pid, clientName)
      ensures ok ==> kernel.fds == old(kernel.fds) && fd == old(fd)
      ensures ok && kernel.Honest() ==> |Current().replies| == 1
      ensures !ok ==> disabled || Trouble(old(kernel), kernel)
    {
      ok := AskVersion(depth);
      if !ok {
        ghost var k := kernel;
        CloseSock();
        ClosedAfter(old(kernel), k, kernel);
      }
    }

    method AskVersion(ghost depth: nat) returns (ok: bool)
      requires Safe() && depth == 0 && Ready(false) && !isPrivileged
      requires Current() == NewConn(Public)
      modifies this
      decreases 1, 10
      ensures Safe() && Quiet() && old(kernel).Evolves(kernel)
      ensures !isPrivileged
      ensures ok ==>
        && Ready(false) && Current().OnlyHeaders() && Current().origin.Public?
        && JustVersioned(Current()) && Greeting(Current().sent, CMD_INTERFACE_VERSION, kernel.pid, clientName)
        && kernel.fds == old(kernel.fds) && fd == old(fd)
      ensures ok && kernel.Honest() ==> |Current().replies| == 1
      ensures ChangedOnly(old(kernel), kernel, old(kernel.fds[fd]))
      ensures HandshakeBytes(kernel.conns[old(kernel.fds[fd])].sent, kernel.pid, clientName)
      ensures !ok ==> disabled || Trouble(old(kernel), kernel)
    {
      FreshIsIdle(Public);
      ghost var before := Current();
      var good, response, header, raw, at := Ask(CMD_INTERFACE_VERSION);
      FirstGreeting(old(kernel), kernel, old(kernel.fds[fd]), header, clientName);
      assert [] + header == header;
      if response.Some? && kernel.Honest() {
        FirstReply(Current(), header, raw);
      }
      ok := good && U32(response.value.fixed, VERSION_OFFSET) == INTERFACE_VERSION;
      if !ok {
        if response.Some? {
          Ungreeted(kernel, kernel.fds[fd], raw);
        }
        return;
      }
      HeadersOnly(before, header, Current());
      FirstExchange(Current(), header, raw);
    }

    /** A request of the handshake on the public connection just opened. */
    method Ask(cmd: uint32)
      returns (good: bool, response: Option<Message>, header: seq<byte>, raw: seq<byte>, at: nat)
      requires Safe() && Quiet() && Ready(false) && !isPrivileged && Current().origin.Public?
      modifies this
      decreases 1, 9
      ensures Safe() && Quiet() && old(kernel).Evolves(kernel)
      ensures !isPrivileged && (response.None? ==> disabled || Trouble(old(kernel), kernel))
      ensures Greeting(header, cmd, kernel.pid, clientName)
      ensures ValidRequest(Message(header, [])) && U32(header, CMD_OFFSET) == cmd
      ensures SentOnly(old(kernel.conns), kernel.conns, old(kernel.fds[fd]), header)
      ensures response.Some? ==>
        && Ready(false) && fd == old(fd) && kernel.fds == old(kernel.fds)
        && Current().sent == old(Current()).sent + header && at == old(Current()).nread
        && Current().origin.Public? && old(Current()).Grows(Current())
        && TookReply(Current(), raw, at) && response.value == StripPointer(raw)
        && (kernel.Honest() ==> Answers(Current(), header + [], raw))
      ensures good <==> response.Some? && U32(raw, RESULT_OFFSET) == RESULT_OK
    {
      var request := HandshakeRequest();
      assert Packets([], Request(0)) == [];
      var status;
      status, response, header, raw, at := RequestResponse(cmd, request, [], false, 1);
      good := status == Success;
      assert Greeting(header, cmd, kernel.pid, clientName);
      if response.Some? {
        assert old(Current()).Grows(Current());
      }
    }

    /** The reply to the first request on a connection is the first reply. */
    static lemma FirstReply(c: Conn, header: seq<byte>, raw: seq<byte>)
      requires c.sent == header && ValidRequest(Message(header, [])) && Answers(c, header + [], raw)
      ensures |c.replies| == 1 && c.replies[0] == raw
    {
      var blank := NewConn(c.origin);
      FreshIsIdle(c.origin);
      ValidFrameIsWhole(Message(header, []), Request(0));
      assert Frame(Message(header, [])) == header && blank.sent + header == header;
      AskedNext(blank, header);
      assert c.Asked() == blank.(sent := blank.sent + header).Asked();
    }

    /** A first reply that is not good, or names another version, is not a greeting. */
    static lemma Ungreeted(k: Kernel, i: nat, raw: seq<byte>)
      requires i < |k.conns| && k.conns[i].origin.Public? && |raw| >= RESPONSE_SIZE
      requires k.Honest() ==> |k.conns[i].replies| > 0 && k.conns[i].replies[0] == raw
      requires U32(raw, RESULT_OFFSET) != RESULT_OK
               || U32(StripPointer(raw).fixed, VERSION_OFFSET) != INTERFACE_VERSION
      ensures !Welcoming(k)
    {
      assert U32(StripPointer(raw).fixed, VERSION_OFFSET) == U32(raw, VERSION_OFFSET);
      assert k.Honest() ==> !Greets(k.conns[i]);
    }

    /** Nor is a second one that is not good, when the directory was asked for. */
    static lemma Undirected(k: Kernel, i: nat, raw: seq<byte>)
      requires i < |k.conns| && k.conns[i].origin.Public? && |raw| >= RESPONSE_SIZE
      requires k.Honest() ==> |k.conns[i].replies| > 1 && k.conns[i].replies[1] == raw
      requires |k.conns[i].sent| >= 2 * REQUEST_SIZE
      requires U32(k.conns[i].sent, REQUEST_SIZE + CMD_OFFSET) == CMD_PRIV_PIPE_DIR
      requires U32(raw, RESULT_OFFSET) != RESULT_OK
      ensures !Welcoming(k)
    {
      assert k.Honest() ==> !Greets(k.conns[i]);
    }

    /** The reply to the second one is the second reply. */
    static lemma SecondReply(before: Conn, c: Conn, header: seq<byte>, raw: seq<byte>)
      requires before.Idle() && |before.replies| == 1 && c.sent == before.sent + header
      requires ValidRequest(Message(header, [])) && Answers(c, header + [], raw)
      ensures |c.replies| == 2 && c.replies[1] == raw
    {
      ValidFrameIsWhole(Message(header, []), Request(0));
      assert Frame(Message(header, [])) == header;
      AskedNext(before, header);
      assert c.Asked() == before.(sent := before.sent + header).Asked();
    }

    static lemma FirstExchange(c: Conn, header: seq<byte>, raw: seq<byte>)
      requires c.sent == [] + header && |header| == REQUEST_SIZE && U32(header, CMD_OFFSET) == CMD_INTERFACE_VERSION
      requires TookReply(c, raw, 0) && U32(raw, RESULT_OFFSET) == RESULT_OK
      requires U32(StripPointer(raw).fixed, VERSION_OFFSET) == INTERFACE_VERSION
      ensures JustVersioned(c)
    {
      assert [] + header == header;
      ReplyFields(c, raw, 0);
    }

    /** The version is all that has been asked for on `c`, and its reply all that has
        been read. */
    static ghost predicate JustVersioned(c: Conn)
    {
      Versioned(c) && |c.sent| == REQUEST_SIZE && c.nread == U32(c.Stream(), 0)
    }

    /** The fields of a reply, as the stream has them. */
    static lemma ReplyFields(c: Conn, raw: seq<byte>, at: nat)
      requires TookReply(c, raw, at)
      ensures U32(c.Stream(), at) == |raw|
      ensures U32(c.Stream(), at + RESULT_OFFSET) == U32(raw, RESULT_OFFSET)
      ensures U32(c.Stream(), at + VERSION_OFFSET) == U32(StripPointer(raw).fixed, VERSION_OFFSET)
      ensures c.Stream()[at + RESPONSE_SIZE..at + |raw|] == raw[RESPONSE_SIZE..]
    {
      var (s, n) := (c.Stream(), |raw|);
      var rest := s[at..];
      assert rest[..n] == s[at..at + n] == raw;
      assert U32(rest, 0) == U32(raw, 0);
      assert U32(rest, RESULT_OFFSET) == U32(raw, RESULT_OFFSET);
      assert U32(rest, VERSION_OFFSET) == U32(raw, VERSION_OFFSET);
      assert s[at..at + n][RESPONSE_SIZE..] == s[at + RESPONSE_SIZE..at + n];
    }

    static lemma FreshIsIdle(origin: Origin)
      ensures NewConn(origin).Idle() && NewConn(origin).OnlyHeaders()
    {
      assert Packets([], Request(0)) == [];
    }

    /** One more request without extra data. */
    static lemma HeadersOnly(c: Conn, header: seq<byte>, d: Conn)
      requires c.OnlyHeaders() && ValidRequest(Message(header, []))
      requires d.sent == c.sent + header
      ensures d.OnlyHeaders()
    {
      ValidFrameIsWhole(Message(header, []), Request(0));
      assert Frame(Message(header, [])) == header;
      AskedNext(c, header);
      assert d.Asked() == c.(sent := c.sent + header).Asked();
    }

    /** Ask for the privileged directory and, if a socket there can be reached, move to it. */
    method SwitchToPrivileged(ghost depth: nat)
      requires Safe() && Quiet() && depth == 0 && Ready(false) && !isPrivileged
      requires Current().origin.Public? && JustVersioned(Current())
      requires kernel.Honest() ==> |Current().replies| == 1
      requires Greeting(Current().sent, CMD_INTERFACE_VERSION, kernel.pid, clientName)
      modifies this
      decreases 2 - depth, 0
      ensures Safe() && Quiet() && old(kernel).Evolves(kernel)
      ensures ChangedOnly(old(kernel), kernel, old(kernel.fds[fd]))
      ensures HandshakeBytes(kernel.conns[old(kernel.fds[fd])].sent, kernel.pid, clientName)
      ensures isPrivileged ==> Ready(true) && Current().OnlyHeaders() && ReachedFrom(kernel, Current())
      ensures !isPrivileged ==> disabled || Trouble(old(kernel), kernel)
    {
      ghost var (before, i, was) := (kernel, kernel.fds[fd], Current());
      var good, response, header, raw, at := Ask(CMD_PRIV_PIPE_DIR);
      ghost var sent := kernel;
      if !good {
        if response.Some? {
          if kernel.Honest() {
            HonestBefore(before, kernel);
          }
          NotDirected(kernel, i, was, header, raw);
        }
        SecondGreeting(before, sent, kernel, i, header, NewConn(Privileged(i, [])), clientName);
        return;
      }
      NamedDirectory(was, Current(), header, raw, at);
      var origin := Privileged(kernel.fds[fd], raw[RESPONSE_SIZE..]);
      MoveTo(origin);
      EvolvesTransitive(before, sent, kernel);
      AnyTrouble(before, sent, kernel);
      SecondGreeting(before, sent, kernel, i, header, NewConn(origin), clientName);
    }

    static lemma NotDirected(k: Kernel, i: nat, before: Conn, header: seq<byte>, raw: seq<byte>)
      requires i < |k.conns| && k.conns[i].origin.Public? && |raw| >= RESPONSE_SIZE
      requires |before.sent| == REQUEST_SIZE && k.conns[i].sent == before.sent + header
      requires ValidRequest(Message(header, [])) && U32(header, CMD_OFFSET) == CMD_PRIV_PIPE_DIR
      requires k.Honest() ==>
        before.Idle() && |before.replies| == 1 && Answers(k.conns[i], header + [], raw)
      requires U32(raw, RESULT_OFFSET) != RESULT_OK
      ensures !Welcoming(k)
    {
      SecondCommand(before.sent, header);
      if k.Honest() {
        SecondReply(before, k.conns[i], header, raw);
      }
      Undirected(k, i, raw);
    }

    /** `c` was reached through the directory that the daemon named on a connection of the
        right version. */
    static ghost predicate ReachedFrom(k: Kernel, c: Conn)
    {
      && c.origin.Privileged? && c.origin.via < |k.conns|
      && k.conns[c.origin.via].origin.Public? && Directed(k.conns[c.origin.via], c.origin.dir)
    }

    /** The second exchange on a connection, when it is the request for the directory. */
    static lemma NamedDirectory(before: Conn, c: Conn, header: seq<byte>, raw: seq<byte>, at: nat)
      requires JustVersioned(before) && before.Grows(c)
      requires |header| == REQUEST_SIZE && U32(header, CMD_OFFSET) == CMD_PRIV_PIPE_DIR
      requires c.sent == before.sent + header && at == before.nread
      requires TookReply(c, raw, at) && U32(raw, RESULT_OFFSET) == RESULT_OK
      ensures Directed(c, raw[RESPONSE_SIZE..])
    {
      StreamPrefix(before, c);
      VersionedGrows(before, c);
      SecondCommand(before.sent, header);
      ReplyFields(c, raw, at);
    }

    static lemma VersionedGrows(c: Conn, d: Conn)
      requires JustVersioned(c) && c.sent <= d.sent && c.Stream() <= d.Stream()
      ensures Versioned(d) && U32(d.Stream(), 0) == c.nread
    {
      assert c.Stream() == d.Stream()[..|c.Stream()|] && c.sent == d.sent[..|c.sent|];
    }

    static lemma SecondCommand(sent: seq<byte>, header: seq<byte>)
      requires |sent| == |header| == REQUEST_SIZE
      ensures U32(sent + header, REQUEST_SIZE + CMD_OFFSET) == U32(header, CMD_OFFSET)
    {
    }

    /** Connect to the privileged socket and, on success, drop the public connection. */
    method MoveTo(origin: Origin)
      requires Safe() && Quiet() && Ready(false) && !isPrivileged
      requires origin.Privileged? && HonestOrigin(kernel.conns, origin, |kernel.conns|)
      modifies this
      ensures Safe() && Quiet() && old(kernel).Evolves(kernel)
      ensures isPrivileged ==> Ready(true) && Current().OnlyHeaders() && ReachedFrom(kernel, Current())
      ensures kernel.conns == old(kernel.conns) || kernel.conns == old(kernel.conns) + [NewConn(origin)]
      ensures !isPrivileged ==> Trouble(old(kernel), kernel)
    {
      var k, newFd, connects := NamedPipeSock(kernel, origin, wrapper);
      kernel := k;
      if newFd == -1 {
        if k.Honest() {
          HonestBefore(old(kernel), k);
        }
        return;
      }
      kernel := Close(k, fd);
      EvolvesTransitive(old(kernel), k, kernel);
      fd, isPrivileged := newFd, true;
      FreshIsIdle(origin);
      assert kernel.conns[kernel.fds[fd]].Valid();
    }

    /** The process forks and the client goes on in the child, which has the same
        descriptors but a process id of its own; the parent may use the shared
        connections in any way. */
    method Fork(pid: uint32)
      requires Safe() && pid != ourPid
      modifies this`kernel
      ensures Safe() && Quiet() && kernel.pid == pid
      ensures old(kernel).(pid := pid).Evolves(kernel)
      ensures kernel.fds == old(kernel).fds && |kernel.conns| == |old(kernel).conns|
    {
      kernel := kernel.(pid := pid);
      var k: Kernel := *;
      if k.Valid() && kernel.Evolves(k) && k.fds == kernel.fds && |k.conns| == |kernel.conns| {
        if fd != -1 {
          assert Current().Grows(k.conns[k.fds[fd]]);
        }
        kernel := k;
      }
    }
  }

  // ----- whole runs

  /** What happens to a client: a request, privileged or not, or a fork. */
  datatype Step =
    | Call(cmd: uint32, request: seq<byte>, extra: seq<byte>, privileged: bool)
    | Child(pid: uint32)

  predicate ValidStep(s: Step)
  {
    s.Call? ==> |s.request| == REQUEST_SIZE && U32(s.request, EXTRA_LEN_OFFSET) == |s.extra|
  }

  /** The record of one answered call: which connection and how much had been sent on it,
      which reply on it, and what was exchanged. */
  datatype Entry = Entry(conn: nat, sent: nat, index: nat, header: seq<byte>, pid: uint32, reply: seq<byte>)

  ghost predicate Recorded(k: Kernel, e: Entry)
  {
    e.conn < |k.conns| && e.sent <= |k.conns[e.conn].sent|
  }

  /** Request number `e.index` of connection `e.conn` is this call's request, and the
      reply is the daemon's answer to that request. */
  ghost predicate Paired(k: Kernel, e: Entry, s: Step, name: seq<byte>)
  {
    && s.Call?
    && Initialised(e.header, s.request, s.cmd, e.pid, name)
    && e.conn < |k.conns|
    && e.index < |k.conns[e.conn].Asked()| && k.conns[e.conn].Asked()[e.index] == e.header + s.extra
    && e.index < |k.conns[e.conn].replies| && k.conns[e.conn].replies[e.index] == e.reply
  }

  /** The extra data of this call went to a connection without the rest of the request. */
  ghost predicate Alone(k: Kernel, e: Entry, s: Step)
  {
    s.Call? && Recorded(k, e) && ExtraAlone(k.conns[e.conn].sent[..e.sent], s.extra)
  }

  /** The extra data of this step does not start with a whole request. */
  predicate Harmless(s: Step)
  {
    s.Call? ==> Packets(s.extra, Request(0)) == []
  }

  /** The reply of this call is the answer to its request if and only if the request was
      not split, which only happens to harmful ones. */
  ghost predicate Judged(k: Kernel, e: Entry, s: Step, name: seq<byte>)
  {
    && Recorded(k, e)
    && e.index < |k.conns[e.conn].Asked()| && e.index < |k.conns[e.conn].replies|
    && (Paired(k, e, s, name) <==> !Alone(k, e, s))
    && (Alone(k, e, s) ==> !Harmless(s))
  }

  lemma RecordedForever(k: Kernel, k': Kernel, e: Entry, s: Step)
    requires k.Evolves(k'.(pid := k.pid)) && Recorded(k, e)
    ensures Recorded(k', e) && (Alone(k', e, s) <==> Alone(k, e, s))
  {
    var (c, c') := (k.conns[e.conn], k'.conns[e.conn]);
    assert c.Grows(k'.(pid := k.pid).conns[e.conn]);
    assert c'.sent[..e.sent] == c.sent[..e.sent];
  }

  lemma JudgedForever(k: Kernel, k': Kernel, e: Entry, s: Step, name: seq<byte>)
    requires k.Evolves(k'.(pid := k.pid)) && Judged(k, e, s, name)
    ensures Judged(k', e, s, name)
  {
    var (c, c') := (k.conns[e.conn], k'.conns[e.conn]);
    assert c.Grows(k'.(pid := k.pid).conns[e.conn]);
    PacketsMonotone(c.sent, c'.sent[|c.sent|..], Request(0));
    assert c'.sent == c.sent + c'.sent[|c.sent|..];
    RecordedForever(k, k', e, s);
  }

  /** The call sent something on its connection, and `e.sent` is how much there is now. */
  ghost predicate Sent(k: Kernel, k': Kernel, e: Entry)
  {
    && e.conn < |k'.conns| && e.sent == |k'.conns[e.conn].sent|
    && (e.conn < |k.conns| ==> |k.conns[e.conn].sent| < e.sent)
  }

  /** The reply was not there before the call. */
  ghost predicate NewlyAnswered(k: Kernel, e: Entry)
  {
    e.conn < |k.conns| ==> |k.conns[e.conn].replies| <= e.index
  }

  /** Of two calls on one connection the later one sent later. */
  ghost predicate InOrder(log: seq<Option<Entry>>)
  {
    forall i, j {:trigger log[i], log[j]} ::
      0 <= i < j < |log| && log[i].Some? && log[j].Some? && log[i].value.conn == log[j].value.conn ==>
        log[i].value.sent < log[j].value.sent
  }

  /** And it has a later reply, up to the first split request. */
  ghost predicate OneToOne(k: Kernel, steps: seq<Step>, log: seq<Option<Entry>>)
    requires |log| <= |steps|
  {
    forall i, j {:trigger log[i], log[j]} ::
      0 <= i < j < |log| && log[i].Some? && log[j].Some? && log[i].value.conn == log[j].value.conn
      && Clean(k, steps, log, j) ==>
        log[i].value.index < log[j].value.index
  }

  lemma InOrderNext(k: Kernel, k': Kernel, log: seq<Option<Entry>>, entry: Option<Entry>)
    requires AllRecorded(k, log) && InOrder(log) && (entry.Some? ==> Sent(k, k', entry.value))
    ensures InOrder(log + [entry])
  {
    var log' := log + [entry];
    forall i, j | 0 <= i < j < |log'| && log'[i].Some? && log'[j].Some? && log'[i].value.conn == log'[j].value.conn
      ensures log'[i].value.sent < log'[j].value.sent
    {
      assert log'[i] == log[i];
      if j < |log| {
        assert log'[j] == log[j];
      } else {
        assert Recorded(k, log[i].value);
      }
    }
  }

  lemma OneToOneNext(k: Kernel, k': Kernel, steps: seq<Step>, log: seq<Option<Entry>>, name: seq<byte>,
                     entry: Option<Entry>)
    requires |log| < |steps| && k.Evolves(k'.(pid := k.pid)) && AllRecorded(k, log)
    requires AllJudged(k, steps, log, name) && OneToOne(k, steps, log)
    requires entry.Some? && Clean(k, steps, log, |log|) ==> NewlyAnswered(k, entry.value)
    ensures OneToOne(k', steps, log + [entry])
  {
    var log' := log + [entry];
    forall i, j | 0 <= i < j < |log'| && log'[i].Some? && log'[j].Some?
                  && log'[i].value.conn == log'[j].value.conn && Clean(k', steps, log', j)
      ensures log'[i].value.index < log'[j].value.index
    {
      CleanPrefix(k', steps, log, entry, j);
      CleanForever(k, k', steps, log, j);
      assert log'[i] == log[i];
      if j < |log| {
        assert log'[j] == log[j];
      } else {
        assert Judged(k, log[i].value, steps[i], name);
      }
    }
  }

  /** The kernels before and after each step: a privileged call leaves public connections
      alone but for the handshake on those it opens. */
  ghost predicate Traced(trace: seq<Kernel>, steps: seq<Step>, log: seq<Option<Entry>>, name: seq<byte>)
  {
    && |trace| == |log| + 1 && |log| <= |steps|
    && forall i {:trigger log[i]} :: 0 <= i < |log| ==> TracedStep(trace[i], trace[i + 1], steps[i], log[i], name)
  }

  ghost predicate TracedStep(k: Kernel, k': Kernel, s: Step, entry: Option<Entry>, name: seq<byte>)
  {
    && k.Evolves(k'.(pid := k.pid))
    && (entry.Some? ==> Sent(k, k', entry.value))
    && (s.Call? && s.privileged ==> Discreet(k, k', name))
    && (entry.Some? && s.Call? && s.privileged ==> k'.conns[entry.value.conn].origin.Privileged?)
  }

  lemma TracedNext(trace: seq<Kernel>, k': Kernel, steps: seq<Step>, log: seq<Option<Entry>>, entry: Option<Entry>,
                   name: seq<byte>)
    requires Traced(trace, steps, log, name) && |log| < |steps|
    requires TracedStep(trace[|log|], k', steps[|log|], entry, name)
    ensures Traced(trace + [k'], steps, log + [entry], name)
  {
    var (trace', log') := (trace + [k'], log + [entry]);
    forall i | 0 <= i < |log'|
      ensures TracedStep(trace'[i], trace'[i + 1], steps[i], log'[i], name)
    {
      if i < |log| {
        assert trace'[i] == trace[i] && trace'[i + 1] == trace[i + 1] && log'[i] == log[i];
      }
    }
  }

  /** Why a call may not be answered: winbind is switched off, the request is marked as one
      of the handshake, or there was trouble during the call. */
  predicate Excused(k: Kernel, k': Kernel, s: Step, disabled: bool)
    requires ValidStep(s)
  {
    disabled || (s.Call? && Recursing(s.request)) || Trouble(k, k')
  }

  predicate ValidSteps(steps: seq<Step>)
  {
    forall i :: 0 <= i < |steps| ==> ValidStep(steps[i])
  }

  /** Every call up to the first split request is answered or excused. */
  ghost predicate AllAnswered(k: Kernel, trace: seq<Kernel>, steps: seq<Step>, log: seq<Option<Entry>>, disabled: bool)
    requires |log| <= |steps| && ValidSteps(steps)
  {
    && |trace| == |log| + 1
    && forall i {:trigger log[i]} :: 0 <= i < |log| && steps[i].Call? && log[i].None? && Clean(k, steps, log, i) ==>
      Excused(trace[i], trace[i + 1], steps[i], disabled)
  }

  lemma AllAnsweredNext(k: Kernel, k': Kernel, trace: seq<Kernel>, steps: seq<Step>, log: seq<Option<Entry>>,
                        entry: Option<Entry>, disabled: bool)
    requires |log| < |steps| && ValidSteps(steps) && k.Evolves(k'.(pid := k.pid)) && AllRecorded(k, log)
    requires AllAnswered(k, trace, steps, log, disabled) && trace[|log|] == k
    requires steps[|log|].Call? && entry.None? && Clean(k, steps, log, |log|) ==>
      Excused(k, k', steps[|log|], disabled)
    ensures AllAnswered(k', trace + [k'], steps, log + [entry], disabled)
  {
    var (trace', log') := (trace + [k'], log + [entry]);
    forall i | 0 <= i < |log'| && steps[i].Call? && log'[i].None? && Clean(k', steps, log', i)
      ensures Excused(trace'[i], trace'[i + 1], steps[i], disabled)
    {
      CleanPrefix(k', steps, log, entry, i);
      CleanForever(k, k', steps, log, i);
      if i < |log| {
        assert log'[i] == log[i] && trace'[i] == trace[i] && trace'[i + 1] == trace[i + 1];
      }
    }
  }

  /** Any two kernels of a run are connected. */
  lemma {:induction false} TraceEvolves(trace: seq<Kernel>, steps: seq<Step>, log: seq<Option<Entry>>, name: seq<byte>,
                                        i: nat, j: nat)
    requires Traced(trace, steps, log, name) && i <= j <= |log|
    ensures trace[i].Evolves(trace[j].(pid := trace[i].pid))
    decreases j
  {
    if i < j {
      TraceEvolves(trace, steps, log, name, i, j - 1);
      assert TracedStep(trace[j - 1], trace[j], steps[j - 1], log[j - 1], name);
      EvolvesUpToPid(trace[i], trace[j - 1], trace[j]);
    } else {
      assert trace[i].(pid := trace[i].pid) == trace[i];
    }
  }

  lemma EvolvesUpToPid(a: Kernel, b: Kernel, c: Kernel)
    requires a.Evolves(b.(pid := a.pid)) && b.Evolves(c.(pid := b.pid))
    ensures a.Evolves(c.(pid := a.pid))
  {
    forall i | 0 <= i < |a.conns|
      ensures a.conns[i].Grows(c.(pid := a.pid).conns[i])
    {
      assert a.conns[i].Grows(b.(pid := a.pid).conns[i]) && b.conns[i].Grows(c.(pid := b.pid).conns[i]);
    }
  }

  /** In a run without trouble, in which no extra data starts with a request, every call is
      answered. */
  ghost predicate Untroubled(k: Kernel, k': Kernel, steps: seq<Step>)
    requires ValidSteps(steps)
  {
    && !Trouble(k, k')
    && forall i {:trigger steps[i]} :: 0 <= i < |steps| ==>
      Harmless(steps[i]) && !(steps[i].Call? && Recursing(steps[i].request))
  }

  lemma UntroubledAnswered(trace: seq<Kernel>, steps: seq<Step>, log: seq<Option<Entry>>, name: seq<byte>, i: nat)
    requires Traced(trace, steps, log, name) && |log| == |steps| && ValidSteps(steps)
    requires AllJudged(trace[|log|], steps, log, name)
    requires AllAnswered(trace[|log|], trace, steps, log, false)
    requires Untroubled(trace[0], trace[|log|], steps) && i < |steps| && steps[i].Call?
    ensures log[i].Some?
  {
    HarmlessIsClean(trace[|log|], steps, log, name, i);
    if log[i].None? {
      assert Excused(trace[i], trace[i + 1], steps[i], false);
      assert steps[i] == steps[i];
      TraceEvolves(trace, steps, log, name, 0, i);
      assert TracedStep(trace[i], trace[i + 1], steps[i], log[i], name);
      TraceEvolves(trace, steps, log, name, i + 1, |log|);
      TroubleUpToPid(trace[0], trace[i], trace[i + 1], trace[|log|]);
    }
  }

  lemma TroubleUpToPid(a: Kernel, b: Kernel, c: Kernel, d: Kernel)
    requires a.Evolves(b.(pid := a.pid)) && b.Evolves(c.(pid := b.pid)) && c.Evolves(d.(pid := c.pid)) && Trouble(b, c)
    ensures Trouble(a, d)
  {
    if Welcoming(d) {
      assert Welcoming(d.(pid := c.pid)) by {
        assert forall i :: 0 <= i < |d.conns| ==> Greets(d.conns[i]);
      }
      WelcomingBefore(c, d.(pid := c.pid));
    }
  }

  /** Every answered privileged call went over a privileged connection. */
  ghost predicate PrivilegedOnly(k: Kernel, steps: seq<Step>, log: seq<Option<Entry>>)
    requires |log| <= |steps|
  {
    forall i {:trigger log[i]} :: 0 <= i < |log| && log[i].Some? && steps[i].Call? && steps[i].privileged ==>
      log[i].value.conn < |k.conns| && k.conns[log[i].value.conn].origin.Privileged?
  }

  lemma PrivilegedOnlyNext(k: Kernel, k': Kernel, steps: seq<Step>, log: seq<Option<Entry>>, entry: Option<Entry>)
    requires |log| < |steps| && k.Evolves(k'.(pid := k.pid)) && PrivilegedOnly(k, steps, log)
    requires entry.Some? && steps[|log|].Call? && steps[|log|].privileged ==>
      entry.value.conn < |k'.conns| && k'.conns[entry.value.conn].origin.Privileged?
    ensures PrivilegedOnly(k', steps, log + [entry])
  {
    var log' := log + [entry];
    forall i | 0 <= i < |log'| && log'[i].Some? && steps[i].Call? && steps[i].privileged
      ensures log'[i].value.conn < |k'.conns| && k'.conns[log'[i].value.conn].origin.Privileged?
    {
      if i < |log| {
        assert log'[i] == log[i];
        assert k.conns[log[i].value.conn].Grows(k'.(pid := k.pid).conns[log[i].value.conn]);
      }
    }
  }

  /** None of the first `n` calls had its request split. */
  ghost predicate Clean(k: Kernel, steps: seq<Step>, log: seq<Option<Entry>>, n: nat)
    requires n <= |log| <= |steps|
  {
    forall j {:trigger log[j]} :: 0 <= j < n && log[j].Some? ==> !Alone(k, log[j].value, steps[j])
  }

  ghost predicate AllRecorded(k: Kernel, log: seq<Option<Entry>>)
  {
    forall j {:trigger log[j]} :: 0 <= j < |log| && log[j].Some? ==> Recorded(k, log[j].value)
  }

  /** The outcome of a run so far: every call is judged up to and including the first one
      whose request was split. */
  ghost predicate AllJudged(k: Kernel, steps: seq<Step>, log: seq<Option<Entry>>, name: seq<byte>)
    requires |log| <= |steps|
  {
    forall i {:trigger log[i]} :: 0 <= i < |log| && log[i].Some? && Clean(k, steps, log, i) ==>
      Judged(k, log[i].value, steps[i], name)
  }

  lemma CleanForever(k: Kernel, k': Kernel, steps: seq<Step>, log: seq<Option<Entry>>, n: nat)
    requires n <= |log| <= |steps| && AllRecorded(k, log) && k.Evolves(k'.(pid := k.pid))
    ensures AllRecorded(k', log) && (Clean(k', steps, log, n) <==> Clean(k, steps, log, n))
  {
    forall j | 0 <= j < |log| && log[j].Some?
      ensures Recorded(k', log[j].value)
      ensures Alone(k', log[j].value, steps[j]) <==> Alone(k, log[j].value, steps[j])
    {
      RecordedForever(k, k', log[j].value, steps[j]);
    }
  }

  lemma CleanPrefix(k: Kernel, steps: seq<Step>, log: seq<Option<Entry>>, entry: Option<Entry>, n: nat)
    requires n <= |log| < |steps|
    ensures Clean(k, steps, log + [entry], n) <==> Clean(k, steps, log, n)
  {
    assert forall j :: 0 <= j < n ==> (log + [entry])[j] == log[j];
  }

  lemma CleanNext(k: Kernel, k': Kernel, steps: seq<Step>, log: seq<Option<Entry>>, entry: Option<Entry>)
    requires |log| < |steps| && k.Evolves(k'.(pid := k.pid)) && AllRecorded(k, log)
    requires entry.Some? ==> Recorded(k', entry.value)
    ensures AllRecorded(k', log + [entry])
    ensures Clean(k', steps, log + [entry], |log| + 1) <==>
      Clean(k, steps, log, |log|) && (entry.Some? ==> !Alone(k', entry.value, steps[|log|]))
  {
    CleanForever(k, k', steps, log, |log|);
    CleanPrefix(k', steps, log, entry, |log|);
    var log' := log + [entry];
    assert log'[|log|] == entry;
  }

  lemma HandedOutNext(results: seq<Option<Message>>, log: seq<Option<Entry>>,
                      result: Option<Message>, entry: Option<Entry>)
    requires HandedOut(results, log) && result.Some? == entry.Some?
    requires entry.Some? ==>
      |entry.value.reply| >= RESPONSE_SIZE && result.value == StripPointer(entry.value.reply)
    ensures HandedOut(results + [result], log + [entry])
  {
  }

  lemma AllJudgedNext(k: Kernel, k': Kernel, steps: seq<Step>, log: seq<Option<Entry>>,
                      name: seq<byte>, entry: Option<Entry>)
    requires |log| < |steps| && k.Evolves(k'.(pid := k.pid))
    requires AllRecorded(k, log) && AllJudged(k, steps, log, name)
    requires entry.Some? && Clean(k, steps, log, |log|) ==> Judged(k', entry.value, steps[|log|], name)
    ensures AllJudged(k', steps, log + [entry], name)
  {
    var log' := log + [entry];
    forall i | 0 <= i < |log'| && log'[i].Some? && Clean(k', steps, log', i)
      ensures Judged(k', log'[i].value, steps[i], name)
    {
      CleanPrefix(k', steps, log, entry, i);
      CleanForever(k, k', steps, log, i);
      if i < |log| {
        assert log'[i] == log[i];
        JudgedForever(k, k', log[i].value, steps[i], name);
      }
    }
  }

  /** Where no extra data starts with a request, every call is paired. */
  lemma {:induction false} HarmlessIsClean(k: Kernel, steps: seq<Step>, log: seq<Option<Entry>>, name: seq<byte>,
                                           n: nat)
    requires n <= |log| <= |steps| && AllJudged(k, steps, log, name)
    requires forall j :: 0 <= j < n ==> Harmless(steps[j])
    ensures Clean(k, steps, log, n)
    decreases n
  {
    if n > 0 {
      HarmlessIsClean(k, steps, log, name, n - 1);
      var last := log[n - 1];
      assert last.Some? ==> Judged(k, last.value, steps[n - 1], name);
    }
  }

  /** Every call before which, itself included, no extra data starts with a request, has
      its reply paired with it. */
  ghost predicate HarmlessPaired(k: Kernel, steps: seq<Step>, log: seq<Option<Entry>>, name: seq<byte>)
    requires |log| <= |steps|
  {
    forall i {:trigger log[i]} ::
      0 <= i < |log| && log[i].Some? && (forall j :: 0 <= j <= i ==> Harmless(steps[j])) ==>
        Paired(k, log[i].value, steps[i], name)
  }

  lemma HarmlessIsPaired(k: Kernel, steps: seq<Step>, log: seq<Option<Entry>>, name: seq<byte>)
    requires |log| <= |steps| && AllJudged(k, steps, log, name)
    ensures HarmlessPaired(k, steps, log, name)
  {
    forall i | 0 <= i < |log| && log[i].Some? && (forall j :: 0 <= j <= i ==> Harmless(steps[j]))
      ensures Paired(k, log[i].value, steps[i], name)
    {
      HarmlessIsClean(k, steps, log, name, i);
    }
  }

  /** Make one call and record it. */
  method RunCall(ctx: Context, s: Step) returns (result: Option<Message>, entry: Option<Entry>)
    requires ctx.Safe() && s.Call? && ValidStep(s)
    modifies ctx
    ensures ctx.Safe() && old(ctx.kernel).Evolves(ctx.kernel)
    ensures result.Some? == entry.Some?
    ensures entry.Some? ==>
      && Recorded(ctx.kernel, entry.value)
      && |entry.value.reply| >= RESPONSE_SIZE && result.value == StripPointer(entry.value.reply)
    ensures entry.Some? && old(ctx.Quiet()) && ctx.kernel.Honest() ==>
      Judged(ctx.kernel, entry.value, s, ctx.clientName)
    ensures old(ctx.Quiet()) && (entry.Some? ==> !Alone(ctx.kernel, entry.value, s)) ==> ctx.Quiet()
    ensures entry.Some? ==> Sent(old(ctx.kernel), ctx.kernel, entry.value)
    ensures entry.Some? && old(ctx.Quiet()) && ctx.kernel.Honest() ==> NewlyAnswered(old(ctx.kernel), entry.value)
    ensures s.Call? && entry.None? && old(ctx.Quiet()) ==> Excused(old(ctx.kernel), ctx.kernel, s, ctx.disabled)
    ensures s.Call? && s.privileged ==> Discreet(old(ctx.kernel), ctx.kernel, ctx.clientName)
    ensures entry.Some? && s.Call? && s.privileged ==> ctx.kernel.conns[entry.value.conn].origin.Privileged?
  {
    var status, header, raw, at;
    status, result, header, raw, at := ctx.RequestResponse(s.cmd, s.request, s.extra, s.privileged, 0);
    entry := None;
    if result.Some? {
      var c := ctx.Current();
      entry := Some(Entry(ctx.kernel.fds[ctx.fd], |c.sent|, if c.replies == [] then 0 else |c.replies| - 1,
                          header, ctx.kernel.pid, raw));
      assert c.sent[..|c.sent|] == c.sent;
      if old(ctx.Quiet()) && ctx.kernel.Honest() {
        Judge(ctx.kernel, entry.value, s, ctx.clientName, at);
      }
    }
  }

  lemma Judge(k: Kernel, e: Entry, s: Step, name: seq<byte>, at: nat)
    requires s.Call? && k.Valid() && e.conn < |k.conns|
    requires var c := k.conns[e.conn];
      && e.sent == |c.sent| && e.index == (if c.replies == [] then 0 else |c.replies| - 1)
      && Context.TookReply(c, e.reply, at) && Context.Settled(c, e.header, s.extra, e.reply)
    requires Initialised(e.header, s.request, s.cmd, e.pid, name) && ValidRequest(Message(e.header, s.extra))
    ensures Judged(k, e, s, name)
  {
    var c := k.conns[e.conn];
    assert c.Valid();
    assert c.sent[..e.sent] == c.sent;
    assert c.replies != [];
    if ExtraAlone(c.sent, s.extra) {
      NeverReceived(c.sent, Message(e.header, s.extra), e.index);
    }
  }

  /** One step of a run. */
  method RunStep(ctx: Context, s: Step) returns (result: Option<Message>, entry: Option<Entry>)
    requires ctx.Safe() && ValidStep(s)
    modifies ctx
    ensures ctx.Safe() && old(ctx.kernel).Evolves(ctx.kernel.(pid := old(ctx.kernel).pid))
    ensures result.Some? == entry.Some?
    ensures entry.Some? ==>
      && Recorded(ctx.kernel, entry.value)
      && |entry.value.reply| >= RESPONSE_SIZE && result.value == StripPointer(entry.value.reply)
    ensures entry.Some? && old(ctx.Quiet()) && ctx.kernel.Honest() ==>
      Judged(ctx.kernel, entry.value, s, ctx.clientName)
    ensures old(ctx.Quiet()) && (entry.Some? ==> !Alone(ctx.kernel, entry.value, s)) ==> ctx.Quiet()
    ensures entry.Some? ==> Sent(old(ctx.kernel), ctx.kernel, entry.value)
    ensures entry.Some? && old(ctx.Quiet()) && ctx.kernel.Honest() ==> NewlyAnswered(old(ctx.kernel), entry.value)
    ensures s.Call? && entry.None? && old(ctx.Quiet()) ==> Excused(old(ctx.kernel), ctx.kernel, s, ctx.disabled)
    ensures s.Call? && s.privileged ==> Discreet(old(ctx.kernel), ctx.kernel, ctx.clientName)
    ensures entry.Some? && s.Call? && s.privileged ==> ctx.kernel.conns[entry.value.conn].origin.Privileged?
  {
    if s.Call? {
      result, entry := RunCall(ctx, s);
      assert ctx.kernel.(pid := old(ctx.kernel).pid) == ctx.kernel;
    } else {
      result, entry := None, None;
      // No child is given the id of the process that opened the connection.
      if s.pid != ctx.ourPid {
        ctx.Fork(s.pid);
        ForkEvolves(old(ctx.kernel), ctx.kernel, s.pid);
      }
    }
  }

  lemma ForkEvolves(k: Kernel, k': Kernel, pid: uint32)
    requires k.(pid := pid).Evolves(k')
    ensures k.Evolves(k'.(pid := k.pid))
  {
    forall i | 0 <= i < |k.conns|
      ensures k.conns[i].Grows(k'.(pid := k.pid).conns[i])
    {
      assert k.(pid := pid).conns[i].Grows(k'.conns[i]);
    }
  }

  /** The reply handed out for each step is the one recorded for it. */
  ghost predicate HandedOut(results: seq<Option<Message>>, log: seq<Option<Entry>>)
  {
    && |results| == |log|
    && forall i :: 0 <= i < |log| ==>
      && results[i].Some? == log[i].Some?
      && (log[i].Some? ==>
        |log[i].value.reply| >= RESPONSE_SIZE && results[i].value == StripPointer(log[i].value.reply))
  }

  /** What holds of a run so far, told by its kernels, its calls and their results. */
  ghost predicate SoFar(k: Kernel, trace: seq<Kernel>, steps: seq<Step>, results: seq<Option<Message>>,
                        log: seq<Option<Entry>>, name: seq<byte>, disabled: bool)
    requires ValidSteps(steps)
  {
    && |results| == |log| <= |steps|
    && HandedOut(results, log)
    && Traced(trace, steps, log, name) && trace[|log|] == k
    && PrivilegedOnly(k, steps, log) && InOrder(log)
    && AllRecorded(k, log)
    && AllAnswered(k, trace, steps, log, disabled)
    && (k.Honest() ==> AllJudged(k, steps, log, name) && OneToOne(k, steps, log))
  }

  /** What one step of a run is found to do, when nothing was outstanding before it if
      `quiet`. */
  ghost predicate Stepped(k: Kernel, k': Kernel, s: Step, result: Option<Message>, entry: Option<Entry>,
                          name: seq<byte>, disabled: bool, quiet: bool)
    requires ValidStep(s)
  {
    && TracedStep(k, k', s, entry, name)
    && result.Some? == entry.Some?
    && (entry.Some? ==>
      && Recorded(k', entry.value)
      && |entry.value.reply| >= RESPONSE_SIZE && result.value == StripPointer(entry.value.reply))
    && (entry.Some? && quiet && k'.Honest() ==> Judged(k', entry.value, s, name) && NewlyAnswered(k, entry.value))
    && (s.Call? && entry.None? && quiet ==> Excused(k, k', s, disabled))
  }

  lemma SoFarNext(k: Kernel, k': Kernel, trace: seq<Kernel>, steps: seq<Step>, results: seq<Option<Message>>,
                  log: seq<Option<Entry>>, name: seq<byte>, disabled: bool,
                  result: Option<Message>, entry: Option<Entry>, quiet: bool)
    requires ValidSteps(steps) && SoFar(k, trace, steps, results, log, name, disabled) && |log| < |steps|
    requires Stepped(k, k', steps[|log|], result, entry, name, disabled, quiet)
    requires Clean(k, steps, log, |log|) ==> quiet
    ensures SoFar(k', trace + [k'], steps, results + [result], log + [entry], name, disabled)
    ensures Clean(k', steps, log + [entry], |log| + 1) <==>
      Clean(k, steps, log, |log|) && (entry.Some? ==> !Alone(k', entry.value, steps[|log|]))
  {
    if k'.Honest() {
      HonestBefore(k, k'.(pid := k.pid));
      AllJudgedNext(k, k', steps, log, name, entry);
      OneToOneNext(k, k', steps, log, name, entry);
    }
    CleanNext(k, k', steps, log, entry);
    AllAnsweredNext(k, k', trace, steps, log, entry, disabled);
    HandedOutNext(results, log, result, entry);
    InOrderNext(k, k', log, entry);
    PrivilegedOnlyNext(k, k', steps, log, entry);
    TracedNext(trace, k', steps, log, entry, name);
  }

  /** A run without trouble, in which no extra data starts with a request, answers every
      call. */
  ghost predicate EveryCallAnswered(steps: seq<Step>, results: seq<Option<Message>>)
    requires |results| == |steps|
  {
    forall i {:trigger steps[i]} :: 0 <= i < |steps| && steps[i].Call? ==> results[i].Some?
  }

  lemma RunEnds(k: Kernel, trace: seq<Kernel>, steps: seq<Step>, results: seq<Option<Message>>,
                log: seq<Option<Entry>>, name: seq<byte>)
    requires ValidSteps(steps) && |log| == |steps| && SoFar(k, trace, steps, results, log, name, false)
    ensures Untroubled(trace[0], k, steps) ==> EveryCallAnswered(steps, results)
  {
    if Untroubled(trace[0], k, steps) {
      forall i | 0 <= i < |steps| && steps[i].Call?
        ensures results[i].Some?
      {
        UntroubledAnswered(trace, steps, log, name, i);
      }
    }
  }

  /** Every run of requests, privileged and not, with and without extra data, through
      hang-ups and forks: the client never owns more than its cached descriptor; a
      privileged call writes its request only to a privileged connection, whether it is
      answered or not; an answered call sent its request itself, and later calls on a
      connection sent later.  A call is answered unless a system call failed, half a minute
      went by waiting or the daemon did not greet well.  As long as the daemon's answers
      are well-formed, and up to the first request whose extra data was split from it,
      every reply handed out is the answer to the request it was handed out for, and no
      two calls share one; and no request is split whose extra data does not start with a
      request. */
  method Run(ctx: Context, steps: seq<Step>)
    returns (results: seq<Option<Message>>, log: seq<Option<Entry>>, ghost trace: seq<Kernel>)
    requires ctx.Safe() && ctx.Quiet()
    requires ValidSteps(steps)
    modifies ctx
    ensures ctx.Safe()
    ensures |results| == |log| == |steps|
    ensures HandedOut(results, log)
    ensures Traced(trace, steps, log, ctx.clientName) && trace[0] == old(ctx.kernel) && trace[|steps|] == ctx.kernel
    ensures PrivilegedOnly(ctx.kernel, steps, log) && InOrder(log)
    ensures AllAnswered(ctx.kernel, trace, steps, log, ctx.disabled)
    ensures !ctx.disabled && Untroubled(old(ctx.kernel), ctx.kernel, steps) ==> EveryCallAnswered(steps, results)
    ensures ctx.kernel.Honest() ==> AllJudged(ctx.kernel, steps, log, ctx.clientName)
    ensures ctx.kernel.Honest() ==> OneToOne(ctx.kernel, steps, log)
    ensures ctx.kernel.Honest() ==> HarmlessPaired(ctx.kernel, steps, log, ctx.clientName)
  {
    results, log, trace := [], [], [ctx.kernel];
    for n := 0 to |steps|
      invariant ctx.Safe()
      invariant |log| == n && SoFar(ctx.kernel, trace, steps, results, log, ctx.clientName, ctx.disabled)
      invariant trace[0] == old(ctx.kernel)
      invariant Clean(ctx.kernel, steps, log, n) ==> ctx.Quiet()
    {
      ghost var (k, quiet) := (ctx.kernel, ctx.Quiet());
      var result, entry := RunStep(ctx, steps[n]);
      SoFarNext(k, ctx.kernel, trace, steps, results, log, ctx.clientName, ctx.disabled, result, entry, quiet);
      results, log, trace := results + [result], log + [entry], trace + [ctx.kernel];
    }
    if ctx.kernel.Honest() {
      HarmlessIsPaired(ctx.kernel, steps, log, ctx.clientName);
    }
    if !ctx.disabled {
      RunEnds(ctx.kernel, trace, steps, results, log, ctx.clientName);
    }
  }
}
