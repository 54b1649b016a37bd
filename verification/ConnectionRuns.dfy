/** Theorems about whole runs of the event loop (src/server.rs). */
module ConnectionRuns {
  import opened Text
  import opened Connections
  import opened ConnectionInvariant

  // ---- What an event leaves alone ------------------------------------------

  /** All five tables agree outside one descriptor. */
  predicate SameBut(s: State, s1: State, fd: Fd) {
    && s1.readBuffers - {fd} == s.readBuffers - {fd} && s1.writeBuffers - {fd} == s.writeBuffers - {fd}
    && s1.connectTimes - {fd} == s.connectTimes - {fd} && s1.interest - {fd} == s.interest - {fd}
    && s1.sockets - {fd} == s.sockets - {fd}
  }

  /** How the record of a connection may change: received and sent only grow, the first
      response is final and fixes what was received, and a closed record is final. */
  predicate Extends(c: Conn, c1: Conn) {
    && c1.fd == c.fd && c1.acceptedAt == c.acceptedAt
    && IsPrefix(c.received, c1.received) && IsPrefix(c.sent, c1.sent)
    && (c.response.Some? ==> c1.response == c.response && c1.received == c.received && c1.world == c.world)
    && (c.wrote ==> c1.wrote)
    && (c.fate != Open ==> c1 == c)
  }

  predicate ConnsExtend(cs: seq<Conn>, cs1: seq<Conn>) {
    |cs| <= |cs1| && forall g :: 0 <= g < |cs| ==> Extends(cs[g], cs1[g])
  }

  lemma ExtendTwice(cs: seq<Conn>, cs1: seq<Conn>, cs2: seq<Conn>)
    requires ConnsExtend(cs, cs1) && ConnsExtend(cs1, cs2)
    ensures ConnsExtend(cs, cs2)
  {
    forall g | 0 <= g < |cs| ensures Extends(cs[g], cs2[g]) {
      assert Extends(cs[g], cs1[g]) && Extends(cs1[g], cs2[g]);
    }
  }

  /** An event for a descriptor touches nothing under another descriptor and no other
      connection's record, and lawfully extends its own. */
  predicate Local(s: State, s1: State, fd: Fd) {
    && SameBut(s, s1, fd)
    && (if IsOpen(s, fd) then
          |s1.conns| == |s.conns| && s1.conns == s.conns[s.sockets[fd] := s1.conns[s.sockets[fd]]]
          && Extends(ConnOf(s, fd), s1.conns[s.sockets[fd]])
        else s1.conns == s.conns)
  }

  lemma CloseLocal(s: State, s1: State, fd: Fd, fate: Fate)
    requires IsOpen(s, fd) && ConnOf(s, fd).fate == Open && s1.sockets == s.sockets && Local(s, s1, fd)
    ensures Local(s, Close(s1, fd, fate), fd)
  {
  }

  lemma ForgetLocal(s: State, s1: State, fd: Fd)
    requires Local(s, s1, fd)
    ensures Local(s, Forget(s1, fd), fd) && Local(s, Unbuffer(s1, fd), fd) && Local(s, StopTimer(s1, fd), fd)
  {
    hide Extends;
  }

  /** Replacing the record and the buffers of one open connection. */
  lemma UpdateLocal(s: State, s1: State, fd: Fd)
    requires IsOpen(s, fd) && s1.sockets == s.sockets && SameBut(s, s1, fd) && |s1.conns| == |s.conns|
    requires s1.conns == s.conns[s.sockets[fd] := s1.conns[s.sockets[fd]]] && Extends(ConnOf(s, fd), ConnOf(s1, fd))
    ensures Local(s, s1, fd)
  {
  }

  lemma WriteLocal(site: Site, s: State, fd: Fd, writing: seq<WriteResult>)
    requires Invariant(site, s)
    ensures Local(s, StopTimer(HandleWrite(s, fd, writing), fd), fd)
  {
    hide HistoryOk, Tables, LiveOk, Extends;
    if !IsOpen(s, fd) {
      ForgetLocal(s, s, fd);
      ForgetLocal(s, Unbuffer(s, fd), fd);
    } else {
      var s1 := if fd in s.writeBuffers then Transmit(s, fd, WriteAll(s.writeBuffers[fd], writing).taken)
                else SetConn(s, fd, ConnOf(s, fd).(wrote := true));
      if fd in s.writeBuffers { TransmitLocal(s, fd, WriteAll(s.writeBuffers[fd], writing).taken); } else { MarkLocal(s, fd); }
      assert s1.sockets == s.sockets && Local(s, s1, fd);
      hide WriteAll;
      ForgetLocal(s, s1, fd);
      CloseLocal(s, Unbuffer(s1, fd), fd, Finished);
      CloseLocal(s, Unbuffer(s1, fd), fd, WriteFailed);
      hide Transmit, Close, Unbuffer, Local, SetConn;
      ForgetLocal(s, HandleWrite(s, fd, writing), fd);
    }
  }

  lemma TransmitLocal(s: State, fd: Fd, n: nat)
    requires IsOpen(s, fd) && ConnOf(s, fd).fate == Open && fd in s.writeBuffers && n <= |s.writeBuffers[fd]|
    ensures Local(s, Transmit(s, fd, n), fd)
  {
    var s1 := Transmit(s, fd, n);
    assert Extends(ConnOf(s, fd), ConnOf(s1, fd));
    UpdateLocal(s, s1, fd);
  }

  lemma MarkLocal(s: State, fd: Fd)
    requires IsOpen(s, fd) && ConnOf(s, fd).fate == Open
    ensures Local(s, SetConn(s, fd, ConnOf(s, fd).(wrote := true)), fd)
  {
    var s1 := SetConn(s, fd, ConnOf(s, fd).(wrote := true));
    assert Extends(ConnOf(s, fd), ConnOf(s1, fd));
    UpdateLocal(s, s1, fd);
  }

  lemma ReadLocal(site: Site, s: State, fd: Fd, reading: seq<ReadResult>, world: nat)
    requires Invariant(site, s) && !(fd in s.interest && s.interest[fd] == Out)
    ensures Local(s, HandleRead(site, s, fd, reading, world), fd)
  {
    hide HistoryOk;
    if !IsOpen(s, fd) {
      ForgetLocal(s, s, fd);
    } else {
      var c := ConnOf(s, fd);
      assert c.fate == Open && c.response.None? by { assert LiveOk(s, fd); }
      hide Tables, LiveOk;
      var run := ReadAll(reading);
      var s1 := Receive(s, fd, run.bytes);
      assert Extends(c, c.(received := c.received + run.bytes));
      UpdateLocal(s, s1, fd);
      match run.end
      case Eof => ForgetLocal(s, s1, fd);
      case Broke => ForgetLocal(s, s1, fd); CloseLocal(s, Forget(s1, fd), fd, ReadFailed);
      case Drained =>
        if fd in s1.readBuffers && site.reply(s1.readBuffers[fd], world).Some? {
          var r := site.reply(s1.readBuffers[fd], world).value;
          assert Extends(c, c.(received := c.received + run.bytes, response := Some(r.bytes), world := world));
          UpdateLocal(s, Answer(s1, fd, r, world), fd);
        }
    }
  }

  // ---- Steps ---------------------------------------------------------------

  lemma {:induction false} AcceptAllKeeps(site: Site, s: State, accepts: seq<Accepted>)
    requires Invariant(site, s) && AcceptsOk(site, s, accepts)
    ensures var s1 := AcceptAll(s, accepts);
            && Invariant(site, s1) && ConnsExtend(s.conns, s1.conns) && |s1.conns| == |s.conns| + |accepts|
            && (forall fd <- s1.interest :: s1.interest[fd] == Out ==> fd in s.interest && s.interest[fd] == Out)
    decreases |accepts|
  {
    hide Invariant;
    if accepts != [] {
      var s1 := AcceptOne(s, accepts[0]);
      AcceptKeeps(site, s, accepts[0]);
      assert AcceptsOk(site, s1, accepts[1..]) by {
        forall i | 0 <= i < |accepts| - 1 ensures accepts[1..][i].fd !in s1.sockets { assert accepts[1..][i] == accepts[i + 1]; }
      }
      AcceptAllKeeps(site, s1, accepts[1..]);
      assert ConnsExtend(s.conns, s1.conns);
      ExtendTwice(s.conns, s1.conns, AcceptAll(s, accepts).conns);
    }
  }

  /** Only its own event turns a descriptor to writing. */
  lemma DispatchKeeps(site: Site, s: State, e: Event)
    requires Invariant(site, s) && EventOk(site, s, e) && Pending(site, s, [e])
    ensures var s1 := Dispatch(site, s, e);
            && Invariant(site, s1) && ConnsExtend(s.conns, s1.conns)
            && (e.fd != site.listener ==> Local(s, s1, e.fd))
            && (forall fd <- s1.interest :: s1.interest[fd] == Out && fd != e.fd ==> fd in s.interest && s.interest[fd] == Out)
  {
    assert [e][0] == e;
    assert e.fd != site.listener && !e.out ==> !(e.fd in s.interest && s.interest[e.fd] == Out);
    if s.running {
      if e.fd == site.listener {
        AcceptAllKeeps(site, s, e.accepts);
      } else {
        if e.out {
          WriteKeeps(site, s, e.fd, e.writing);
          WriteLocal(site, s, e.fd, e.writing);
        } else {
          ReadKeeps(site, s, e.fd, e.reading, e.world);
          ReadLocal(site, s, e.fd, e.reading, e.world);
        }
        hide Invariant, HandleWrite, HandleRead, Extends;
        var s1 := Dispatch(site, s, e);
        assert s1.interest - {e.fd} == s.interest - {e.fd};
        assert forall fd :: fd in s1.interest && fd != e.fd ==> fd in s1.interest - {e.fd};
        assert ConnsExtend(s.conns, s1.conns) by { LocalExtends(s, s1, e.fd); }
      }
    } else {
      LocalExtends(s, s, e.fd);
    }
  }

  lemma LocalExtends(s: State, s1: State, fd: Fd)
    requires Local(s, s1, fd)
    ensures ConnsExtend(s.conns, s1.conns)
  {
  }

  /** What is left of a batch stays pending while its events are handled. */
  lemma PendingSplits(site: Site, s: State, e: Event, rest: seq<Event>)
    requires Invariant(site, s) && EventOk(site, s, e) && Pending(site, s, [e] + rest)
    ensures Pending(site, s, [e]) && Pending(site, Dispatch(site, s, e), rest)
  {
    hide Invariant, Dispatch, Local, Extends;
    var events := [e] + rest;
    assert events[0] == e;
    assert forall i :: 0 <= i < |rest| ==> rest[i] == events[i + 1];
    assert Pending(site, s, [e]);
    DispatchKeeps(site, s, e);
  }

  lemma {:induction false} DispatchAllKeeps(site: Site, s: State, events: seq<Event>)
    requires Invariant(site, s) && Pending(site, s, events) && EventsOk(site, s, events)
    ensures var s1 := DispatchAll(site, s, events); Invariant(site, s1) && ConnsExtend(s.conns, s1.conns)
    decreases |events|
  {
    hide Invariant, Dispatch, Extends, Local, Pending;
    if events == [] {
      ExtendSelf(s.conns);
    } else {
      var e := events[0];
      var s1 := Dispatch(site, s, e);
      assert events == [e] + events[1..];
      PendingSplits(site, s, e, events[1..]);
      DispatchKeeps(site, s, e);
      DispatchAllKeeps(site, s1, events[1..]);
      ExtendTwice(s.conns, s1.conns, DispatchAll(site, s, events).conns);
    }
  }

  lemma ExtendSelf(cs: seq<Conn>)
    ensures ConnsExtend(cs, cs)
  {
  }

  lemma SweepKeeps(site: Site, s: State, now: Time)
    requires Invariant(site, s)
    ensures Invariant(site, Sweep(s, now)) && ConnsExtend(s.conns, Sweep(s, now).conns)
  {
    EvictKeeps(site, s, Expired(s, now));
    hide HistoryOk, LiveOk, Tables;
  }

  lemma TurnKeeps(site: Site, s: State, t: Tick)
    requires Invariant(site, s) && TickOk(site, s, t)
    ensures Invariant(site, Turn(site, s, t)) && ConnsExtend(s.conns, Turn(site, s, t).conns)
  {
    hide Invariant, Extends, ConnsExtend;
    if s.running {
      SweepKeeps(site, s, t.now);
      var s1 := Sweep(s, t.now);
      assert Pending(site, s1, t.events);
      DispatchAllKeeps(site, s1, t.events);
      ExtendTwice(s.conns, s1.conns, Turn(site, s, t).conns);
    } else {
      ExtendSelf(s.conns);
    }
  }

  // ---- Runs ----------------------------------------------------------------

  /** Every state of every run satisfies the invariant, and records only grow on the way. */
  lemma {:induction false} RunKeeps(site: Site, s: State, ticks: seq<Tick>)
    requires Invariant(site, s) && TicksOk(site, s, ticks)
    ensures Invariant(site, Run(site, s, ticks)) && ConnsExtend(s.conns, Run(site, s, ticks).conns)
    decreases |ticks|
  {
    hide Invariant, Extends, ConnsExtend, Turn;
    if ticks == [] {
      ExtendSelf(s.conns);
    } else {
      var s1 := Turn(site, s, ticks[0]);
      TurnKeeps(site, s, ticks[0]);
      RunKeeps(site, s1, ticks[1..]);
      ExtendTwice(s.conns, s1.conns, Run(site, s, ticks).conns);
    }
  }

  /** The timeout's exact reach: the sweep closes an open connection if and only if it is
      more than 30 whole seconds old and has had no write event. */
  lemma SweepExactly(site: Site, s: State, now: Time, fd: Fd)
    requires Invariant(site, s) && IsOpen(s, fd)
    ensures fd !in Sweep(s, now).sockets <==>
            !ConnOf(s, fd).wrote && ElapsedSecs(now, ConnOf(s, fd).acceptedAt) > TIMEOUT_SECS
  {
    assert LiveOk(s, fd);
  }

  /** The limit in nanoseconds: a silent connection outlives a sweep as long as not quite 31
      seconds have passed, and no longer. */
  lemma SweepBoundary(site: Site, s: State, now: Time, fd: Fd)
    requires Invariant(site, s) && IsOpen(s, fd) && !ConnOf(s, fd).wrote
    ensures fd in Sweep(s, now).sockets <==> now < ConnOf(s, fd).acceptedAt + 31_000_000_000
  {
    SweepExactly(site, s, now, fd);
  }

  /** What a sweep does to the tables: an expired timer takes everything under its descriptor
      with it, and nothing else changes. */
  lemma SweepTables(s: State, now: Time, fd: Fd)
    ensures var s1 := Sweep(s, now);
            if fd in s.connectTimes && now >= s.connectTimes[fd] + 31_000_000_000 then
              fd !in s1.readBuffers && fd !in s1.writeBuffers && fd !in s1.connectTimes && fd !in s1.interest && fd !in s1.sockets
            else
              && (fd in s1.readBuffers <==> fd in s.readBuffers) && (fd in s.readBuffers ==> s1.readBuffers[fd] == s.readBuffers[fd])
              && (fd in s1.writeBuffers <==> fd in s.writeBuffers) && (fd in s.writeBuffers ==> s1.writeBuffers[fd] == s.writeBuffers[fd])
              && (fd in s1.connectTimes <==> fd in s.connectTimes) && (fd in s.connectTimes ==> s1.connectTimes[fd] == s.connectTimes[fd])
              && (fd in s1.interest <==> fd in s.interest) && (fd in s.interest ==> s1.interest[fd] == s.interest[fd])
              && (fd in s1.sockets <==> fd in s.sockets) && (fd in s.sockets ==> s1.sockets[fd] == s.sockets[fd])
  {
  }

  /** Right after a sweep of any run, a connection older than that has output pending. */
  lemma SurvivorsHaveOutput(site: Site, ticks: seq<Tick>, now: Time, fd: Fd)
    requires TicksOk(site, START, ticks)
    requires fd in Sweep(Run(site, START, ticks), now).sockets
    ensures var s := Sweep(Run(site, START, ticks), now);
            && IsOpen(s, fd)
            && (ElapsedSecs(now, ConnOf(s, fd).acceptedAt) > TIMEOUT_SECS ==> fd in s.writeBuffers && ConnOf(s, fd).wrote)
  {
    RunKeeps(site, START, ticks);
    var s := Run(site, START, ticks);
    SweepKeeps(site, s, now);
    assert LiveOk(s, fd) && LiveOk(Sweep(s, now), fd);
  }

  /** Bookkeeping, in every state of every run: the sockets watched for writing are exactly
      those with a write buffer, those watched for reading have a read buffer and a timer,
      and an open connection has a timer or output pending. */
  lemma Bookkeeping(site: Site, ticks: seq<Tick>, fd: Fd)
    requires TicksOk(site, START, ticks)
    ensures var s := Run(site, START, ticks);
            && (fd in s.writeBuffers <==> fd in s.interest && s.interest[fd] == Out)
            && (fd in s.interest && s.interest[fd] == In ==> fd in s.readBuffers && fd in s.connectTimes)
            && (fd in s.interest ==> fd in s.sockets)
            && (fd in s.sockets ==> fd in s.connectTimes || fd in s.writeBuffers)
  {
    RunKeeps(site, START, ticks);
    var s := Run(site, START, ticks);
    if fd in s.sockets { assert LiveOk(s, fd); }
  }
}
