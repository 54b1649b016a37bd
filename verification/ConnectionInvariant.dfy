/** What every step of the event loop keeps (src/server.rs), for any answers of the kernel. */
module ConnectionInvariant {
  import opened Connections

  // ---- The environment -----------------------------------------------------

  /** accept() hands out descriptors that are not open, hence distinct ones. */
  predicate AcceptsOk(site: Site, s: State, accepts: seq<Accepted>) {
    && (forall i :: 0 <= i < |accepts| ==> accepts[i].fd !in s.sockets && accepts[i].fd != site.listener)
    && (forall i, j :: 0 <= i < j < |accepts| ==> accepts[i].fd != accepts[j].fd)
  }

  /** A batch names a descriptor once, and an event without EPOLLOUT comes for a socket
      that was not being watched for writing. */
  predicate Pending(site: Site, s: State, events: seq<Event>) {
    && (forall i, j :: 0 <= i < j < |events| ==> events[i].fd != events[j].fd)
    && (forall i :: 0 <= i < |events| && events[i].fd != site.listener && !events[i].out ==>
          !(events[i].fd in s.interest && s.interest[events[i].fd] == Out))
  }

  /** An event with EPOLLOUT comes for a socket that was being watched for writing. */
  predicate WriteReady(site: Site, s: State, events: seq<Event>) {
    forall i :: 0 <= i < |events| && events[i].fd != site.listener && events[i].out ==>
      events[i].fd in s.interest && s.interest[events[i].fd] == Out
  }

  predicate EventOk(site: Site, s: State, e: Event) {
    e.fd == site.listener ==> AcceptsOk(site, s, e.accepts)
  }

  predicate EventsOk(site: Site, s: State, events: seq<Event>)
    decreases |events|
  {
    events == [] || (EventOk(site, s, events[0]) && EventsOk(site, Dispatch(site, s, events[0]), events[1..]))
  }

  /** The batch is judged where epoll_wait returned, before the sweep. */
  predicate TickOk(site: Site, s: State, t: Tick) {
    Pending(site, s, t.events) && WriteReady(site, s, t.events) && EventsOk(site, Sweep(s, t.now), t.events)
  }

  predicate TicksOk(site: Site, s: State, ticks: seq<Tick>)
    decreases |ticks|
  {
    ticks == [] || (TickOk(site, s, ticks[0]) && TicksOk(site, Turn(site, s, ticks[0]), ticks[1..]))
  }

  // ---- The invariant -------------------------------------------------------

  predicate IsPrefix(a: string, b: string) { |a| <= |b| && a == b[..|a|] }

  /** Generations and open descriptors name each other. */
  predicate Registry(s: State) {
    && (forall fd <- s.sockets :: IsOpen(s, fd) && ConnOf(s, fd).fd == fd && ConnOf(s, fd).fate == Open)
    && (forall g :: 0 <= g < |s.conns| && s.conns[g].fate == Open ==>
          s.conns[g].fd in s.sockets && s.sockets[s.conns[g].fd] == g)
  }

  /** Bookkeeping of the tables. */
  predicate Tables(s: State) {
    && s.interest.Keys <= s.sockets.Keys
    && (forall fd <- s.writeBuffers :: fd in s.interest && s.interest[fd] == Out)
    && (forall fd <- s.interest ::
          if s.interest[fd] == Out then fd in s.writeBuffers else fd in s.readBuffers && fd in s.connectTimes)
  }

  /** An open connection and the table entries under its descriptor. */
  predicate LiveOk(s: State, fd: Fd)
    requires IsOpen(s, fd)
  {
    var c := ConnOf(s, fd);
    && (fd in s.connectTimes <==> !c.wrote)
    && (fd in s.connectTimes ==> s.connectTimes[fd] == c.acceptedAt)
    && (if fd in s.writeBuffers then c.response.Some? && c.sent + s.writeBuffers[fd] == c.response.value
        else c.response.None? && !c.wrote)
    && (fd in s.interest && s.interest[fd] == In ==> fd in s.readBuffers && s.readBuffers[fd] == c.received)
    && (fd in s.readBuffers ==> fd in s.interest)
  }

  /** The history of a connection, open or closed. */
  predicate HistoryOk(site: Site, c: Conn) {
    && (match c.response
        case None => c.sent == ""
        case Some(r) =>
          var reply := site.reply(c.received, c.world);
          reply.Some? && reply.value.bytes == r && IsPrefix(c.sent, r))
    && (!c.wrote ==> c.sent == "")
    && (c.fate == Finished && c.response.Some? ==> c.sent == c.response.value)
    && (c.fate == TimedOut ==> !c.wrote)
    && (c.fate == ReadFailed ==> c.response.None?)
  }

  predicate Invariant(site: Site, s: State) {
    && Registry(s) && Tables(s)
    && (forall fd <- s.sockets :: IsOpen(s, fd) ==> LiveOk(s, fd))
    && (forall g :: 0 <= g < |s.conns| ==> HistoryOk(site, s.conns[g]))
  }

  // ---- Each step keeps it --------------------------------------------------

  lemma EvictKeeps(site: Site, s: State, fds: set<Fd>)
    requires Invariant(site, s) && fds <= s.connectTimes.Keys
    ensures Invariant(site, Evict(s, fds))
  {
  }

  lemma AcceptKeeps(site: Site, s: State, a: Accepted)
    requires Invariant(site, s) && a.fd !in s.sockets
    ensures Invariant(site, AcceptOne(s, a))
  {
    var s1 := AcceptOne(s, a);
    assert HistoryOk(site, s1.conns[|s.conns|]);
    hide HistoryOk;
    forall other <- s1.sockets ensures LiveOk(s1, other) {
      if other != a.fd { assert LiveOk(s, other) && ConnOf(s1, other) == ConnOf(s, other); }
    }
  }

  /** Closing an open connection with any lawful history, whatever its buffers and timer. */
  lemma CloseKeeps(site: Site, s: State, s1: State, fd: Fd)
    requires Invariant(site, s) && IsOpen(s, fd) && s1.sockets == s.sockets && IsOpen(s1, fd)
    requires s1.conns == s.conns[s.sockets[fd] := ConnOf(s1, fd)] && ConnOf(s1, fd).fd == fd
    requires s1.interest == s.interest - {fd} && s1.writeBuffers == s.writeBuffers - {fd}
    requires s1.readBuffers - {fd} == s.readBuffers - {fd} && s1.connectTimes - {fd} == s.connectTimes - {fd}
    ensures forall fate :: fate != Open && HistoryOk(site, ConnOf(s1, fd).(fate := fate)) ==>
              Invariant(site, Close(s1, fd, fate))
  {
    forall fate | fate != Open && HistoryOk(site, ConnOf(s1, fd).(fate := fate))
      ensures Invariant(site, Close(s1, fd, fate))
    {
      hide HistoryOk;
      var s2 := Close(s1, fd, fate);
      forall other <- s2.sockets ensures IsOpen(s2, other) && LiveOk(s2, other) && ConnOf(s2, other) == ConnOf(s, other) {
        assert other in s.sockets && other != fd && LiveOk(s, other);
        assert other in s2.connectTimes <==> other in s2.connectTimes - {fd};
        assert other in s.connectTimes <==> other in s.connectTimes - {fd};
        assert other in s2.readBuffers <==> other in s2.readBuffers - {fd};
        assert other in s.readBuffers <==> other in s.readBuffers - {fd};
      }
      assert Tables(s2) by {
        forall other <- s2.interest ensures s2.interest[other] != Out ==> other in s2.readBuffers && other in s2.connectTimes {
          assert other in s2.sockets && LiveOk(s2, other);
        }
      }
    }
  }

  function StopTimer(s: State, fd: Fd): State { s.(connectTimes := s.connectTimes - {fd}) }

  /** The history that a write of n bytes leaves, whether or not the connection then ends. */
  lemma SentHistory(site: Site, s: State, fd: Fd, n: nat)
    requires Invariant(site, s) && IsOpen(s, fd) && fd in s.writeBuffers && n <= |s.writeBuffers[fd]|
    ensures var c := ConnOf(Transmit(s, fd, n), fd);
            && c.fd == fd && HistoryOk(site, c) && HistoryOk(site, c.(fate := WriteFailed))
            && c.response.Some? && c.sent + s.writeBuffers[fd][n..] == c.response.value
            && (n == |s.writeBuffers[fd]| ==> HistoryOk(site, c.(fate := Finished)))
  {
    hide Tables;
    var c, data := ConnOf(s, fd), s.writeBuffers[fd];
    assert LiveOk(s, fd) && HistoryOk(site, c);
    assert data == data[..n] + data[n..];
    assert c.sent + data[..n] + data[n..] == c.response.value;
    assert c.sent + data[..n] == c.response.value[..|c.sent| + n];
  }

  lemma WriteOnKeeps(site: Site, s: State, fd: Fd, n: nat)
    requires Invariant(site, s) && IsOpen(s, fd) && fd in s.writeBuffers && n <= |s.writeBuffers[fd]|
    ensures Invariant(site, StopTimer(Transmit(s, fd, n), fd))
  {
    SentHistory(site, s, fd, n);
    hide HistoryOk;
    var s1 := StopTimer(Transmit(s, fd, n), fd);
    assert LiveOk(s1, fd);
    forall other <- s1.sockets ensures LiveOk(s1, other) {
      if other != fd { assert LiveOk(s, other) && ConnOf(s1, other) == ConnOf(s, other); }
    }
  }

  lemma WriteOffKeeps(site: Site, s: State, fd: Fd, n: nat, fate: Fate)
    requires Invariant(site, s) && IsOpen(s, fd) && fd in s.writeBuffers && n <= |s.writeBuffers[fd]|
    requires fate == WriteFailed || (fate == Finished && n == |s.writeBuffers[fd]|)
    ensures Invariant(site, StopTimer(Close(Unbuffer(Transmit(s, fd, n), fd), fd, fate), fd))
  {
    SentHistory(site, s, fd, n);
    hide HistoryOk, Invariant;
    var s1 := StopTimer(Unbuffer(Transmit(s, fd, n), fd), fd);
    assert s1.writeBuffers == s.writeBuffers - {fd};
    CloseKeeps(site, s, s1, fd) by { assert IsOpen(s1, fd); }
  }

  lemma UnansweredKeeps(site: Site, s: State, fd: Fd)
    requires Invariant(site, s) && IsOpen(s, fd) && fd !in s.writeBuffers
    ensures var s1 := Unbuffer(SetConn(s, fd, ConnOf(s, fd).(wrote := true)), fd);
            Invariant(site, StopTimer(Close(s1, fd, Finished), fd))
  {
    var s1 := StopTimer(Unbuffer(SetConn(s, fd, ConnOf(s, fd).(wrote := true)), fd), fd);
    assert LiveOk(s, fd) && HistoryOk(site, ConnOf(s, fd));
    assert HistoryOk(site, ConnOf(s1, fd).(fate := Finished));
    hide HistoryOk, LiveOk, Tables;
    CloseKeeps(site, s, s1, fd);
  }

  lemma ClosedKeeps(site: Site, s: State, fd: Fd)
    requires Invariant(site, s) && !IsOpen(s, fd)
    ensures fd !in s.interest && fd !in s.writeBuffers
    ensures Invariant(site, StopTimer(s, fd)) && Invariant(site, s.(readBuffers := s.readBuffers - {fd}))
  {
    hide HistoryOk;
  }

  lemma WriteKeeps(site: Site, s: State, fd: Fd, writing: seq<WriteResult>)
    requires Invariant(site, s)
    ensures Invariant(site, StopTimer(HandleWrite(s, fd, writing), fd))
  {
    hide Invariant, Transmit, Close;
    if !IsOpen(s, fd) {
      ClosedKeeps(site, s, fd);
      assert Unbuffer(s, fd) == s;
    } else if fd !in s.writeBuffers {
      UnansweredKeeps(site, s, fd);
    } else {
      var run := WriteAll(s.writeBuffers[fd], writing);
      match run.end
      case Full => WriteOnKeeps(site, s, fd, run.taken);
      case Cut => WriteOffKeeps(site, s, fd, run.taken, WriteFailed);
      case AllSent => WriteOffKeeps(site, s, fd, run.taken, Finished);
    }
  }

  // Reading

  /** Bytes that arrive on a connection that has not been answered. */
  lemma ReceiveKeeps(site: Site, s: State, fd: Fd, bytes: string)
    requires Invariant(site, s) && IsOpen(s, fd) && fd !in s.writeBuffers
    ensures var s1 := Receive(s, fd, bytes);
            Invariant(site, s1) && IsOpen(s1, fd) && s1.writeBuffers == s.writeBuffers
  {
    var s1 := Receive(s, fd, bytes);
    assert LiveOk(s, fd) && HistoryOk(site, ConnOf(s, fd));
    assert HistoryOk(site, ConnOf(s1, fd)) && LiveOk(s1, fd);
    hide HistoryOk;
    forall other <- s1.sockets ensures LiveOk(s1, other) {
      if other != fd { assert LiveOk(s, other) && ConnOf(s1, other) == ConnOf(s, other); }
    }
  }

  lemma ForgetKeeps(site: Site, s: State, fd: Fd)
    requires Invariant(site, s) && (IsOpen(s, fd) ==> fd !in s.writeBuffers)
    ensures Invariant(site, Forget(s, fd))
  {
    hide HistoryOk;
    var s1 := Forget(s, fd);
    forall other <- s1.sockets ensures LiveOk(s1, other) { assert LiveOk(s, other); }
  }

  lemma ReadErrorKeeps(site: Site, s: State, fd: Fd)
    requires Invariant(site, s) && IsOpen(s, fd) && fd !in s.writeBuffers
    ensures Invariant(site, Close(Forget(s, fd), fd, ReadFailed))
  {
    assert LiveOk(s, fd) && HistoryOk(site, ConnOf(s, fd));
    assert HistoryOk(site, ConnOf(s, fd).(fate := ReadFailed));
    hide HistoryOk, LiveOk, Tables;
    CloseKeeps(site, s, Forget(s, fd), fd);
  }

  lemma AnswerKeeps(site: Site, s: State, fd: Fd, world: nat)
    requires Invariant(site, s) && IsOpen(s, fd) && fd !in s.writeBuffers && fd in s.readBuffers
    requires site.reply(s.readBuffers[fd], world).Some?
    ensures var s1 := Answer(s, fd, site.reply(s.readBuffers[fd], world).value, world);
            Invariant(site, s1) && Invariant(site, s1.(readBuffers := s1.readBuffers - {fd}))
  {
    var s1 := Answer(s, fd, site.reply(s.readBuffers[fd], world).value, world);
    assert LiveOk(s, fd) && HistoryOk(site, ConnOf(s, fd));
    assert HistoryOk(site, ConnOf(s1, fd)) && LiveOk(s1, fd);
    hide HistoryOk;
    forall other <- s1.sockets ensures LiveOk(s1, other) {
      if other != fd { assert LiveOk(s, other) && ConnOf(s1, other) == ConnOf(s, other); }
    }
  }

  lemma ReadKeeps(site: Site, s: State, fd: Fd, reading: seq<ReadResult>, world: nat)
    requires Invariant(site, s) && !(fd in s.interest && s.interest[fd] == Out)
    ensures Invariant(site, HandleRead(site, s, fd, reading, world))
  {
    assert fd !in s.writeBuffers;
    if !IsOpen(s, fd) {
      ForgetKeeps(site, s, fd);
    } else {
      var run := ReadAll(reading);
      var s1 := Receive(s, fd, run.bytes);
      ReceiveKeeps(site, s, fd, run.bytes);
      hide Invariant, Receive;
      match run.end
      case Eof => ForgetKeeps(site, s1, fd);
      case Broke => ReadErrorKeeps(site, s1, fd);
      case Drained =>
        if fd in s1.readBuffers && site.reply(s1.readBuffers[fd], world).Some? {
          AnswerKeeps(site, s1, fd, world);
        } else if fd in s1.readBuffers {
          HaltKeeps(site, s1);
        }
    }
  }

  lemma HaltKeeps(site: Site, s: State)
    requires Invariant(site, s)
    ensures Invariant(site, s.(running := false))
  {
    hide HistoryOk;
    forall fd <- s.sockets ensures LiveOk(s.(running := false), fd) { assert LiveOk(s, fd); }
  }
}
