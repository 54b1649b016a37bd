/** The event loop of a listener (src/server.rs), method by method.

    Every method brings the state to the value that the specification functions of
    Connections give, and keeps the invariant of ConnectionInvariant. What the kernel
    answers comes in with the events; sockets and interest are its own tables. */
module EventLoop {
  import opened Text
  import opened Settings
  import opened Connections
  import opened ConnectionInvariant
  import opened Dispatching
  import ConnectionRuns
  import Requests
  import Responses
  import VirtualHosts

  class Server {
    const configs: seq<ServerConfig>
    const listener: Fd
    const handler: Handler

    var readBuffers: map<Fd, string>
    var writeBuffers: map<Fd, string>
    var connectTimes: map<Fd, Time>
    var interest: map<Fd, Interest>
    var sockets: map<Fd, nat>
    var running: bool
    var accepted: nat // generations so far
    ghost var conns: seq<Conn>

    constructor (configs: seq<ServerConfig>, listener: Fd, handler: Handler)
      requires configs != []
      ensures this.configs == configs && this.listener == listener && this.handler == handler
      ensures St() == START && Valid()
    {
      this.configs, this.listener, this.handler := configs, listener, handler;
      readBuffers, writeBuffers, connectTimes := map[], map[], map[];
      interest, sockets, running := map[], map[], true;
      accepted, conns := 0, [];
    }

    ghost function St(): State
      reads this
    {
      State(readBuffers, writeBuffers, connectTimes, interest, sockets, conns, running)
    }

    ghost const site: Site := SiteOf(listener, configs, handler)

    ghost predicate Valid()
      reads this
    {
      configs != [] && accepted == |conns| && Invariant(site, St())
    }

    // ---- The kernel --------------------------------------------------------

    method EpollRemove(fd: Fd)
      modifies this`interest
      ensures interest == old(interest) - {fd}
    {
      interest := interest - {fd};
    }

    method WatchWrite(fd: Fd)
      modifies this`interest
      ensures interest == if fd in old(interest) then old(interest)[fd := Out] else old(interest)
    {
      if fd in interest { interest := interest[fd := Out]; }
    }

    method CloseFd(fd: Fd, ghost fate: Fate)
      requires forall other <- sockets :: sockets[other] < |conns|
      modifies this`interest, this`sockets, this`conns
      ensures St() == Close(old(St()), fd, fate) && |conns| == |old(conns)|
    {
      if fd in sockets {
        conns := conns[sockets[fd] := conns[sockets[fd]].(fate := fate)];
        sockets := sockets - {fd};
        interest := interest - {fd};
      }
    }

    /** Unregistering a descriptor and dropping its buffers. */
    method Drop(fd: Fd)
      modifies this`interest, this`readBuffers, this`writeBuffers
      ensures St() == Forget(old(St()), fd)
    {
      EpollRemove(fd);
      readBuffers := readBuffers - {fd};
      writeBuffers := writeBuffers - {fd};
    }

    // ---- The timeout sweep -------------------------------------------------

    method TimeOut(fd: Fd)
      requires forall other <- sockets :: sockets[other] < |conns|
      modifies this
      ensures St() == Close(StopTimer(Forget(old(St()), fd), fd), fd, TimedOut)
      ensures |conns| == |old(conns)| && accepted == old(accepted)
    {
      Drop(fd);
      connectTimes := connectTimes - {fd};
      CloseFd(fd, TimedOut);
    }

    method SweepTimeouts(now: Time)
      requires Valid()
      modifies this
      ensures St() == Sweep(old(St()), now) && Valid()
    {
      hide Evict, Close, Invariant, Forget;
      ghost var s := St();
      RegistryOf(site, s);
      ConnectionRuns.SweepKeeps(site, s, now);
      var timedOut := set fd | fd in connectTimes && ElapsedSecs(now, connectTimes[fd]) > TIMEOUT_SECS;
      var todo := timedOut;
      EvictNothing(s);
      assert timedOut - todo == {};
      while todo != {}
        invariant todo <= timedOut && accepted == |conns| == |s.conns| && St() == Evict(s, timedOut - todo)
        decreases |todo|
      {
        SomeMember(todo);
        var fd: Fd :| fd in todo;
        EvictOneMore(s, timedOut - todo, fd);
        assert timedOut - todo + {fd} == timedOut - (todo - {fd});
        TimeOut(fd);
        todo := todo - {fd};
      }
      assert timedOut - todo == timedOut == Expired(s, now);
    }

    // ---- Accepting ---------------------------------------------------------

    /** A connection that accept() returned: watched for reading, with an empty buffer and a timer. */
    method Admit(a: Accepted)
      requires accepted == |conns|
      modifies this
      ensures St() == AcceptOne(old(St()), a) && accepted == |conns|
    {
      interest := interest[a.fd := In];
      readBuffers := readBuffers[a.fd := ""];
      connectTimes := connectTimes[a.fd := a.at];
      sockets, accepted := sockets[a.fd := accepted], accepted + 1;
      conns := conns + [Conn(a.fd, a.at, "", None, 0, "", false, Open)];
    }

    method AcceptConnections(accepts: seq<Accepted>)
      requires Valid() && AcceptsOk(site, St(), accepts)
      modifies this
      ensures St() == AcceptAll(old(St()), accepts) && Valid()
    {
      hide AcceptOne, Invariant;
      ghost var s := St();
      assert accepts[0..] == accepts;
      for i := 0 to |accepts|
        invariant accepted == |conns| && AcceptAll(St(), accepts[i..]) == AcceptAll(s, accepts)
      {
        assert accepts[i..][0] == accepts[i] && accepts[i..][1..] == accepts[i + 1..];
        Admit(accepts[i]);
      }
      assert accepts[|accepts|..] == [];
      ConnectionRuns.AcceptAllKeeps(site, s, accepts);
    }

    // ---- Reading -----------------------------------------------------------

    /** The bytes for the write buffer, as the second half of handle_read makes them. */
    method BuildReply(data: string, world: nat) returns (r: Option<Reply>)
      requires configs != []
      ensures r == ReplyTo(configs, handler, data, world)
    {
      hide Requests.Parse, Responses.Serialize, VirtualHosts.MatchConfig;
      var parsed := Requests.ParseRequest(data);
      if parsed.Crash? { return None; }
      var config := if parsed.Done? then VirtualHosts.MatchConfig(configs, parsed.value) else configs[0];
      if |data| > config.clientMaxBodySize {
        return Some(Reply(Responses.Serialize(Responses.ErrorResponse(Responses.ContentTooLarge)), true));
      }
      if parsed.Refused? {
        return Some(Reply(Responses.Serialize(Responses.ErrorResponse(Responses.BadRequest)), false));
      }
      var req := SplitQuery(parsed.value);
      var response := handler(req, VirtualHosts.MatchConfig(configs, req), world);
      if response.None? { return None; }
      return Some(Reply(Responses.Serialize(response.value), false));
    }

    /** Bytes read from an open socket go to its read buffer, if it has one. */
    method Append(fd: Fd, bytes: string)
      requires IsOpen(St(), fd)
      modifies this`readBuffers, this`conns
      ensures St() == Receive(old(St()), fd, bytes) && |conns| == |old(conns)|
    {
      conns := conns[sockets[fd] := conns[sockets[fd]].(received := conns[sockets[fd]].received + bytes)];
      if fd in readBuffers { readBuffers := readBuffers[fd := readBuffers[fd] + bytes]; }
    }

    /** Reads until the socket has no more. */
    method DrainSocket(fd: Fd, reading: seq<ReadResult>) returns (end: ReadEnd)
      requires IsOpen(St(), fd)
      modifies this`readBuffers, this`conns
      ensures St() == Receive(old(St()), fd, ReadAll(reading).bytes) && end == ReadAll(reading).end
      ensures |conns| == |old(conns)|
    {
      hide Receive;
      ghost var s, received := St(), "";
      ReceiveNothing(s, fd);
      assert reading[0..] == reading;
      PrependNothing(ReadAll(reading));
      var i := 0;
      while true
        invariant 0 <= i <= |reading| && |conns| == |s.conns| && IsOpen(St(), fd)
        invariant St() == Receive(s, fd, received)
        invariant ReadAll(reading) == Behind(received, ReadAll(reading[i..]))
        decreases |reading| - i
      {
        assert received + "" == received;
        var result := if i < |reading| then reading[i] else ReadWouldBlock;
        match result {
          case ReadWouldBlock => return Drained;
          case ReadError => return Broke;
          case Data(bytes) =>
            if bytes == "" { return Eof; }
            assert reading[i..][1..] == reading[i + 1..];
            ReceiveTwice(s, fd, received, bytes);
            BehindTwice(received, bytes, ReadAll(reading[i + 1..]));
            Append(fd, bytes);
            received := received + bytes;
            i := i + 1;
        }
      }
    }

    /** The response goes to the write buffer, and the socket is watched for writing. */
    method Store(fd: Fd, r: Reply, world: nat)
      requires IsOpen(St(), fd)
      modifies this`writeBuffers, this`conns, this`interest
      ensures St() == Answer(old(St()), fd, r, world) && |conns| == |old(conns)|
    {
      writeBuffers := writeBuffers[fd := r.bytes];
      conns := conns[sockets[fd] := conns[sockets[fd]].(response := Some(r.bytes), world := world)];
      WatchWrite(fd);
    }

    method HandleRead(fd: Fd, reading: seq<ReadResult>, world: nat)
      requires Valid()
      modifies this
      ensures St() == Connections.HandleRead(site, old(St()), fd, reading, world) && accepted == |conns|
    {
      ghost var s := St();
      RegistryOf(site, s);
      hide Invariant, Forget, Respond, Close, ReplyTo;
      if fd !in sockets {
        Drop(fd); // the read fails: the descriptor is closed
        CloseFd(fd, ReadFailed);
        return;
      }
      var end := DrainSocket(fd, reading);
      ReceivedOpen(s, fd, ReadAll(reading).bytes);
      if end == Eof {
        Drop(fd);
        return;
      }
      if end == Broke {
        Drop(fd);
        CloseFd(fd, ReadFailed);
        return;
      }
      RespondTo(fd, world);
    }

    /** handle_read once the socket has no more: the size check, the response, and dropping
        the read buffer, which a response for size skips. */
    method RespondTo(fd: Fd, world: nat)
      requires IsOpen(St(), fd) && configs != []
      modifies this`readBuffers, this`writeBuffers, this`conns, this`interest, this`running
      ensures St() == Respond(site, old(St()), fd, world) && |conns| == |old(conns)|
    {
      hide Answer, ReplyTo;
      if fd in readBuffers {
        var r := BuildReply(readBuffers[fd], world);
        if r.None? {
          running := false;
          return;
        }
        Store(fd, r.value, world);
        if r.value.tooLarge { return; }
      }
      readBuffers := readBuffers - {fd};
    }

    // ---- Writing -----------------------------------------------------------

    /** n bytes of the write buffer have gone out. */
    method Sent(fd: Fd, n: nat)
      requires IsOpen(St(), fd) && fd in writeBuffers && n <= |writeBuffers[fd]|
      modifies this`writeBuffers, this`conns
      ensures St() == Transmit(old(St()), fd, n) && |conns| == |old(conns)|
    {
      ghost var c := conns[sockets[fd]];
      conns := conns[sockets[fd] := c.(sent := c.sent + writeBuffers[fd][..n], wrote := true)];
      writeBuffers := writeBuffers[fd := writeBuffers[fd][n..]];
    }

    /** Writes until the buffer is empty, the socket takes no more, or it fails. */
    method DrainBuffer(fd: Fd, writing: seq<WriteResult>) returns (end: WriteEnd)
      requires IsOpen(St(), fd) && fd in writeBuffers
      modifies this`writeBuffers, this`conns
      ensures var run := WriteAll(old(writeBuffers[fd]), writing);
              St() == Transmit(old(St()), fd, run.taken) && end == run.end
      ensures |conns| == |old(conns)|
    {
      hide Transmit, WriteAll;
      ghost var s, data := St(), writeBuffers[fd];
      ghost var taken: nat := 0;
      Sent(fd, 0);
      TransmitBuffer(s, fd, 0);
      assert writing[0..] == writing && data[0..] == data;
      var i := 0;
      while true
        invariant 0 <= i <= |writing| && taken <= |data| && |conns| == |s.conns|
        invariant IsOpen(St(), fd) && St() == Transmit(s, fd, taken)
        invariant fd in writeBuffers && writeBuffers[fd] == data[taken..]
        invariant WriteAll(data, writing) == Took(taken, WriteAll(data[taken..], writing[i..]))
        decreases |writing| - i
      {
        WriteTurn(data, taken, writing, i);
        if writeBuffers[fd] == "" { return AllSent; }
        var result := if i < |writing| then writing[i] else WriteWouldBlock;
        match result {
          case WriteWouldBlock => return Full;
          case WriteError => return Cut;
          case Wrote(n) =>
            if n == 0 { return Cut; }
            var k := Min(n, |writeBuffers[fd]|);
            TransmitTwice(s, fd, taken, k);
            Sent(fd, k);
            TransmitBuffer(s, fd, taken + k);
            taken := taken + k;
            i := i + 1;
        }
      }
    }

    /** Unregistering, dropping the write buffer and closing: how every write ends but one
        that would block. */
    method HangUp(fd: Fd, ghost fate: Fate)
      requires forall other <- sockets :: sockets[other] < |conns|
      modifies this`interest, this`writeBuffers, this`sockets, this`conns
      ensures St() == Close(Unbuffer(old(St()), fd), fd, fate) && |conns| == |old(conns)|
    {
      hide Close;
      EpollRemove(fd);
      writeBuffers := writeBuffers - {fd};
      CloseFd(fd, fate);
    }

    method HandleWrite(fd: Fd, writing: seq<WriteResult>)
      requires Valid()
      modifies this
      ensures St() == Connections.HandleWrite(old(St()), fd, writing) && accepted == |conns|
    {
      ghost var s := St();
      RegistryOf(site, s);
      hide Invariant, Transmit, Close, WriteAll, Unbuffer;
      if fd !in sockets {
        HangUp(fd, Finished); // the write fails, or there is nothing to write
        assert !IsOpen(Unbuffer(s, fd), fd) by { UnbufferOpen(s, fd); }
        CloseNothing(Unbuffer(s, fd), fd, Finished);
      } else if fd in writeBuffers {
        TransmitBuffer(s, fd, WriteAll(writeBuffers[fd], writing).taken);
        var end := DrainBuffer(fd, writing);
        if end == Full { return; }
        HangUp(fd, if end == Cut then WriteFailed else Finished);
      } else {
        conns := conns[sockets[fd] := conns[sockets[fd]].(wrote := true)];
        HangUp(fd, Finished);
      }
    }

    // ---- The loop ----------------------------------------------------------

    method Handle(e: Event)
      requires Valid() && EventOk(site, St(), e) && Pending(site, St(), [e])
      modifies this
      ensures St() == Dispatch(site, old(St()), e) && Valid()
    {
      ghost var s := St();
      ConnectionRuns.DispatchKeeps(site, s, e);
      assert [e][0] == e;
      if !running { return; }
      if e.fd == listener {
        AcceptConnections(e.accepts);
      } else if e.out {
        HandleWrite(e.fd, e.writing);
        connectTimes := connectTimes - {e.fd};
      } else {
        HandleRead(e.fd, e.reading, e.world);
      }
    }

    /** One turn of the outer loop, from the return of epoll_wait. */
    method RunTurn(t: Tick)
      requires Valid() && TickOk(site, St(), t)
      modifies this
      ensures St() == Turn(site, old(St()), t) && Valid()
    {
      if !running { return; }
      SweepTimeouts(t.now);
      ghost var s := St();
      assert t.events[0..] == t.events;
      hide Dispatch, Invariant;
      for i := 0 to |t.events|
        invariant Valid() && Pending(site, St(), t.events[i..]) && EventsOk(site, St(), t.events[i..])
        invariant DispatchAll(site, St(), t.events[i..]) == DispatchAll(site, s, t.events)
      {
        ghost var before, rest := St(), t.events[i + 1..];
        assert t.events[i..][0] == t.events[i] && t.events[i..][1..] == rest;
        assert t.events[i..] == [t.events[i]] + rest;
        ConnectionRuns.PendingSplits(site, before, t.events[i], rest);
        Handle(t.events[i]);
      }
      assert t.events[|t.events|..] == [];
    }

    /** The whole run. */
    method Serve(ticks: seq<Tick>)
      requires Valid() && TicksOk(site, St(), ticks)
      modifies this
      ensures St() == Run(site, old(St()), ticks) && Valid()
    {
      ghost var s := St();
      assert ticks[0..] == ticks;
      hide Turn, Invariant;
      for i := 0 to |ticks|
        invariant Valid() && TicksOk(site, St(), ticks[i..])
        invariant Run(site, St(), ticks[i..]) == Run(site, s, ticks)
      {
        assert ticks[i..][0] == ticks[i] && ticks[i..][1..] == ticks[i + 1..];
        RunTurn(ticks[i]);
      }
      assert ticks[|ticks|..] == [];
    }
  }

  function Behind(bytes: string, run: ReadRun): ReadRun { run.(bytes := bytes + run.bytes) }

  lemma PrependNothing(run: ReadRun)
    ensures Behind("", run) == run
  {
    assert "" + run.bytes == run.bytes;
  }

  lemma BehindTwice(a: string, b: string, run: ReadRun)
    ensures Behind(a, Behind(b, run)) == Behind(a + b, run)
  {
    assert a + (b + run.bytes) == a + b + run.bytes;
  }

  lemma ReceivedOpen(s: State, fd: Fd, bytes: string)
    requires Registry(s) && IsOpen(s, fd)
    ensures var s1 := Receive(s, fd, bytes);
            IsOpen(s1, fd) && s1.sockets == s.sockets && |s1.conns| == |s.conns|
            && forall other <- s1.sockets :: s1.sockets[other] < |s1.conns|
  {
  }

  function Took(n: nat, run: WriteRun): WriteRun { run.(taken := n + run.taken) }

  /** What write() does next with data taken up to taken and the script used up to i. */
  lemma WriteTurn(data: string, taken: nat, writing: seq<WriteResult>, i: nat)
    requires taken <= |data| && i <= |writing|
    ensures WriteAll(data[taken..], writing[i..]) ==
            if taken == |data| then WriteRun(0, AllSent)
            else if i == |writing| || writing[i].WriteWouldBlock? then WriteRun(0, Full)
            else if writing[i].WriteError? || writing[i].n == 0 then WriteRun(0, Cut)
            else var k := Min(writing[i].n, |data| - taken); Took(k, WriteAll(data[taken + k..], writing[i + 1..]))
  {
    if i < |writing| {
      assert writing[i..][1..] == writing[i + 1..];
      assert forall k: nat :: k <= |data| - taken ==> data[taken..][k..] == data[taken + k..];
    }
  }

  lemma TransmitBuffer(s: State, fd: Fd, n: nat)
    requires IsOpen(s, fd) && fd in s.writeBuffers && n <= |s.writeBuffers[fd]|
    ensures var s1 := Transmit(s, fd, n);
            IsOpen(s1, fd) && s1.sockets == s.sockets && |s1.conns| == |s.conns|
            && fd in s1.writeBuffers && s1.writeBuffers[fd] == s.writeBuffers[fd][n..]
  {
  }

  lemma TransmitTwice(s: State, fd: Fd, m: nat, n: nat)
    requires IsOpen(s, fd) && fd in s.writeBuffers && m + n <= |s.writeBuffers[fd]|
    ensures var s1 := Transmit(s, fd, m);
            IsOpen(s1, fd) && fd in s1.writeBuffers && n <= |s1.writeBuffers[fd]|
            && Transmit(s1, fd, n) == Transmit(s, fd, m + n)
  {
    var data := s.writeBuffers[fd];
    assert data[..m + n] == data[..m] + data[m..][..n] && data[m..][n..] == data[m + n..];
    assert ConnOf(s, fd).sent + data[..m] + data[m..][..n] == ConnOf(s, fd).sent + data[..m + n];
  }

  lemma UnbufferOpen(s: State, fd: Fd)
    ensures IsOpen(Unbuffer(s, fd), fd) == IsOpen(s, fd)
  {
  }

  lemma CloseNothing(s: State, fd: Fd, fate: Fate)
    requires !IsOpen(s, fd)
    ensures Close(s, fd, fate) == s
  {
  }

  lemma RegistryOf(site: Site, s: State)
    requires Invariant(site, s)
    ensures Registry(s)
  {
  }

  lemma SomeMember(fds: set<Fd>)
    ensures fds == {} || exists fd :: fd in fds
  {
    if forall fd :: fd !in fds { assert fds == {}; }
  }

  lemma ReceiveNothing(s: State, fd: Fd)
    requires IsOpen(s, fd)
    ensures Receive(s, fd, "") == s
  {
    assert forall b: string :: b + "" == b;
  }

  lemma ReceiveTwice(s: State, fd: Fd, a: string, b: string)
    requires IsOpen(s, fd)
    ensures IsOpen(Receive(s, fd, a), fd) && Receive(Receive(s, fd, a), fd, b) == Receive(s, fd, a + b)
  {
    var s1 := Receive(s, fd, a);
    assert ConnOf(s, fd).received + a + b == ConnOf(s, fd).received + (a + b);
    if fd in s.readBuffers { assert s.readBuffers[fd] + a + b == s.readBuffers[fd] + (a + b); }
  }

  lemma EvictNothing(s: State)
    ensures Evict(s, {}) == s
  {
  }

  /** Evicting one descriptor more: what the body of the sweep does. */
  lemma EvictOneMore(s: State, done: set<Fd>, fd: Fd)
    requires Registry(s) && fd !in done
    ensures var s1 := Evict(s, done);
            Evict(s, done + {fd}) == Close(StopTimer(Forget(s1, fd), fd), fd, TimedOut)
    ensures forall other <- Evict(s, done).sockets :: Evict(s, done).sockets[other] < |s.conns| == |Evict(s, done).conns|
  {
    var s1 := Evict(s, done);
    var s2, s3 := Evict(s, done + {fd}), Close(StopTimer(Forget(s1, fd), fd), fd, TimedOut);
    EvictedTables(s, done, fd);
    assert s2.conns == s3.conns by {
      hide Tables;
      forall g | 0 <= g < |s.conns| ensures s2.conns[g] == s3.conns[g] { EvictedRecord(s, done, fd, g); }
    }
  }

  lemma EvictedTables(s: State, done: set<Fd>, fd: Fd)
    requires Registry(s)
    ensures var s2, s3 := Evict(s, done + {fd}), Close(StopTimer(Forget(Evict(s, done), fd), fd), fd, TimedOut);
            && s2.readBuffers == s3.readBuffers && s2.writeBuffers == s3.writeBuffers
            && s2.connectTimes == s3.connectTimes && s2.interest == s3.interest && s2.sockets == s3.sockets
            && s2.running == s3.running
  {
    assert forall T: map<Fd, string> :: T - (done + {fd}) == T - done - {fd};
  }

  lemma EvictedRecord(s: State, done: set<Fd>, fd: Fd, g: nat)
    requires Registry(s) && fd !in done && g < |s.conns|
    ensures Evict(s, done + {fd}).conns[g]
            == Close(StopTimer(Forget(Evict(s, done), fd), fd), fd, TimedOut).conns[g]
  {
    assert Holds(s, g, done + {fd}) <==> Holds(s, g, done) || Holds(s, g, {fd});
  }
}
