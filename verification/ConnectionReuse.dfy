/** Descriptor reuse within one turn of the event loop (src/server.rs): exactly which
    connections are closed as complete without an answer, and which are answered before
    they have sent anything. */
module ConnectionReuse {
  import opened Connections
  import opened ConnectionInvariant
  import opened ConnectionRuns
  import opened ConnectionSteps

  ghost predicate TurnStarts(site: Site, s: State, t: Tick) { Invariant(site, s) && s.running && TickOk(site, s, t) }

  /** The state in which the event at k of a turn is handled. */
  function Within(site: Site, s: State, t: Tick, k: nat): State
    requires k <= |t.events|
  {
    From(site, Sweep(s, t.now), Readies(t.events), k)
  }

  lemma WithinNext(site: Site, s: State, t: Tick, k: nat)
    requires k < |t.events|
    ensures Within(site, s, t, k + 1) == Do(site, Within(site, s, t, k), Ready(t.events[k]))
  {
    hide Do, Sweep;
  }

  lemma EventKeeps(site: Site, s: State, e: Event)
    requires Invariant(site, s) && StepOk(site, s, Ready(e))
    ensures Invariant(site, Do(site, s, Ready(e))) && ConnsExtend(s.conns, Do(site, s, Ready(e)).conns)
  {
    hide Invariant, Dispatch;
    if s.running { DispatchKeeps(site, s, e); } else { ExtendSelf(s.conns); }
  }

  lemma SweptKept(site: Site, s: State, t: Tick)
    requires TurnStarts(site, s, t)
    ensures Within(site, s, t, 0) == Sweep(s, t.now) && Invariant(site, Sweep(s, t.now))
  {
    hide Invariant, Sweep, TickOk;
    SweepKeeps(site, s, t.now);
  }

  lemma SweptLawful(site: Site, s: State, t: Tick)
    requires TurnStarts(site, s, t)
    ensures Lawful(site, Sweep(s, t.now), Readies(t.events))
  {
    hide Invariant, EventsOk, Lawful;
    SweepKeeps(site, s, t.now);
    assert Pending(site, Sweep(s, t.now), t.events);
    BatchLawful(site, Sweep(s, t.now), t.events);
  }

  lemma WithinLawful(site: Site, s: State, t: Tick, k: nat)
    requires TurnStarts(site, s, t) && k < |t.events|
    ensures StepOk(site, Within(site, s, t, k), Ready(t.events[k]))
  {
    hide TurnStarts, From, StepOk, Sweep;
    SweptLawful(site, s, t);
    assert Readies(t.events)[k] == Ready(t.events[k]);
  }

  lemma {:induction false} WithinKeeps(site: Site, s: State, t: Tick, k: nat)
    requires TurnStarts(site, s, t) && k <= |t.events|
    ensures Invariant(site, Within(site, s, t, k))
    ensures k < |t.events| ==> StepOk(site, Within(site, s, t, k), Ready(t.events[k]))
  {
    hide TurnStarts, Within, Invariant, StepOk, Sweep, Do, ConnsExtend;
    if k < |t.events| { WithinLawful(site, s, t, k); }
    if k == 0 {
      SweptKept(site, s, t);
    } else {
      WithinKeeps(site, s, t, k - 1);
      WithinNext(site, s, t, k - 1);
      EventKeeps(site, Within(site, s, t, k - 1), t.events[k - 1]);
    }
  }

  lemma {:induction false} WithinExtends(site: Site, s: State, t: Tick, i: nat, k: nat)
    requires TurnStarts(site, s, t) && i <= k <= |t.events|
    ensures ConnsExtend(Within(site, s, t, i).conns, Within(site, s, t, k).conns)
    decreases k - i
  {
    hide TurnStarts, Within, Invariant, StepOk, Do, Extends, ConnsExtend;
    if i == k {
      ExtendSelf(Within(site, s, t, i).conns);
    } else {
      WithinExtends(site, s, t, i, k - 1);
      WithinKeeps(site, s, t, k - 1);
      WithinNext(site, s, t, k - 1);
      EventKeeps(site, Within(site, s, t, k - 1), t.events[k - 1]);
      ExtendTwice(Within(site, s, t, i).conns, Within(site, s, t, k - 1).conns, Within(site, s, t, k).conns);
    }
  }

  /** The descriptor has the same socket, record, interest and write buffer, or none, as before. */
  predicate Untouched(s: State, s1: State, fd: Fd) {
    && (fd in s.interest <==> fd in s1.interest) && (fd in s.interest ==> s1.interest[fd] == s.interest[fd])
    && (fd in s.sockets <==> fd in s1.sockets) && (fd in s.writeBuffers <==> fd in s1.writeBuffers)
    && (IsOpen(s, fd) ==> IsOpen(s1, fd) && s1.sockets[fd] == s.sockets[fd] && ConnOf(s1, fd) == ConnOf(s, fd))
  }

  lemma OtherEvent(site: Site, s: State, e: Event, fd: Fd)
    requires Invariant(site, s) && StepOk(site, s, Ready(e)) && e.fd != fd && e.fd != site.listener
    ensures Untouched(s, Do(site, s, Ready(e)), fd)
  {
    if s.running {
      DispatchKeeps(site, s, e);
      hide Dispatch, Extends, Tables, LiveOk, HistoryOk;
      var s1 := Dispatch(site, s, e);
      assert fd in s.sockets <==> fd in s.sockets - {e.fd};
      assert fd in s1.sockets <==> fd in s1.sockets - {e.fd};
      assert fd in s.interest <==> fd in s.interest - {e.fd};
      assert fd in s1.interest <==> fd in s1.interest - {e.fd};
      assert fd in s.writeBuffers <==> fd in s.writeBuffers - {e.fd};
      assert fd in s1.writeBuffers <==> fd in s1.writeBuffers - {e.fd};
    }
  }

  /** The accept loop leaves open descriptors alone, and what it opens is new and unanswered. */
  lemma ListenerEvent(site: Site, s: State, e: Event, fd: Fd)
    requires Invariant(site, s) && StepOk(site, s, Ready(e)) && e.fd == site.listener
    ensures var s1 := Do(site, s, Ready(e));
            && (fd in s.sockets ==> Untouched(s, s1, fd))
            && (fd !in s.sockets && fd in s1.sockets ==>
                  |s.conns| <= s1.sockets[fd] < |s1.conns| && fd in s1.interest && s1.interest[fd] == In)
            && |s.conns| <= |s1.conns|
            && (forall g :: |s.conns| <= g < |s1.conns| ==> s1.conns[g].response.None? && s1.conns[g].fate == Open)
  {
    if s.running {
      AcceptGrows(s, e.accepts);
      hide AcceptAll, Tables, LiveOk, HistoryOk;
    }
  }

  /** While the batch handles other events than its own and no accepts, an open descriptor
      stays as it is. */
  lemma {:induction false} StaysPut(site: Site, s: State, t: Tick, i: nat, k: nat, fd: Fd)
    requires TurnStarts(site, s, t) && i <= k <= |t.events|
    requires forall m :: i <= m < k ==> t.events[m].fd != fd && t.events[m].fd != site.listener
    ensures Untouched(Within(site, s, t, i), Within(site, s, t, k), fd)
    decreases k - i
  {
    hide TurnStarts, Within, Invariant, StepOk, Do;
    if i < k {
      StaysPut(site, s, t, i, k - 1, fd);
      WithinKeeps(site, s, t, k - 1);
      WithinNext(site, s, t, k - 1);
      OtherEvent(site, Within(site, s, t, k - 1), t.events[k - 1], fd);
    }
  }

  /** The same with accepts, for a descriptor that is open. */
  lemma {:induction false} StaysOpen(site: Site, s: State, t: Tick, k: nat, fd: Fd)
    requires TurnStarts(site, s, t) && k <= |t.events| && IsOpen(Sweep(s, t.now), fd)
    requires forall m :: 0 <= m < k ==> t.events[m].fd != fd
    ensures Untouched(Sweep(s, t.now), Within(site, s, t, k), fd)
  {
    hide TurnStarts, Invariant, StepOk, Do, Sweep;
    if k > 0 {
      StaysOpen(site, s, t, k - 1, fd);
      WithinKeeps(site, s, t, k - 1);
      WithinNext(site, s, t, k - 1);
      hide Within;
      var b := Within(site, s, t, k - 1);
      if t.events[k - 1].fd == site.listener {
        ListenerEvent(site, b, t.events[k - 1], fd);
      } else {
        OtherEvent(site, b, t.events[k - 1], fd);
      }
    }
  }

  ghost predicate ClosedUnanswered(s: State, g: nat) {
    g < |s.conns| && s.conns[g].fate == Finished && s.conns[g].response.None?
  }

  /** A write event closes an open connection as complete but unanswered exactly when the
      descriptor has no write buffer. */
  lemma UnansweredExactly(site: Site, s: State, fd: Fd, writing: seq<WriteResult>)
    requires Invariant(site, s) && IsOpen(s, fd)
    ensures var conns := StopTimer(HandleWrite(s, fd, writing), fd).conns;
            |conns| == |s.conns|
            && (conns[s.sockets[fd]].fate == Finished && conns[s.sockets[fd]].response.None? <==> fd !in s.writeBuffers)
  {
    hide WriteAll;
    assert LiveOk(s, fd);
    if fd in s.writeBuffers {
      var s1 := Transmit(s, fd, WriteAll(s.writeBuffers[fd], writing).taken);
      assert ConnOf(s1, fd).response.Some?;
    }
  }

  /** The one event that closes a connection as complete but unanswered. */
  lemma ClosingEvent(site: Site, s: State, e: Event, g: nat)
    requires Invariant(site, s) && StepOk(site, s, Ready(e))
    ensures !ClosedUnanswered(s, g) && ClosedUnanswered(Do(site, s, Ready(e)), g) <==>
            s.running && e.fd != site.listener && e.out && IsOpen(s, e.fd) && s.sockets[e.fd] == g && e.fd !in s.writeBuffers
  {
    hide LiveOk, HistoryOk, Tables;
    if s.running {
      DispatchKeeps(site, s, e);
      if e.fd == site.listener {
        ListenerEvent(site, s, e, e.fd);
        AcceptGrows(s, e.accepts);
        hide AcceptAll;
      } else if e.out {
        if IsOpen(s, e.fd) { UnansweredExactly(site, s, e.fd, e.writing); }
        hide HandleWrite, Extends;
      } else if IsOpen(s, e.fd) {
        ReadNotFinished(site, s, e);
        hide HandleRead, Extends;
      }
    }
  }

  lemma ReadNotFinished(site: Site, s: State, e: Event)
    requires Registry(s) && IsOpen(s, e.fd)
    ensures var s1 := HandleRead(site, s, e.fd, e.reading, e.world);
            |s1.conns| == |s.conns| && s1.conns[s.sockets[e.fd]].fate != Finished
  {
    hide ReadAll, Receive, Respond;
    var s1 := Receive(s, e.fd, ReadAll(e.reading).bytes);
    ReceiveOpen(s, e.fd, ReadAll(e.reading).bytes);
    RespondOpen(site, s1, e.fd, e.world);
  }

  lemma ReceiveOpen(s: State, fd: Fd, bytes: string)
    requires Registry(s) && IsOpen(s, fd)
    ensures var s1 := Receive(s, fd, bytes);
            |s1.conns| == |s.conns| && s1.sockets == s.sockets && IsOpen(s1, fd) && ConnOf(s1, fd).fate == Open
  {
  }

  lemma RespondOpen(site: Site, s: State, fd: Fd, world: nat)
    requires IsOpen(s, fd) && ConnOf(s, fd).fate == Open
    ensures var s1 := Respond(site, s, fd, world); |s1.conns| == |s.conns| && s1.conns[s.sockets[fd]].fate == Open
  {
  }

  // ---- Stale write events --------------------------------------------------

  /** The sweep of the turn closed the descriptor of the event at j, the accepts at i gave it
      to connection g, and the loop still ran when the event came. */
  predicate Regiven(site: Site, s: State, t: Tick, g: nat, i: nat, j: nat) {
    && i < j < |t.events| && t.events[i].fd == site.listener && Within(site, s, t, j).running
    && var fd := t.events[j].fd;
       && fd in s.sockets && fd !in Sweep(s, t.now).sockets
       && |Within(site, s, t, i).conns| <= g < |Within(site, s, t, i + 1).conns|
       && Within(site, s, t, i + 1).conns[g].fd == fd
  }

  predicate Reused(site: Site, s: State, t: Tick, g: nat, i: nat, j: nat) {
    Regiven(site, s, t, g, i, j) && t.events[j].out
  }

  /** The new connection as its predecessor's event finds it: open, watched for reading,
      with nothing in its record. */
  lemma RegivenFresh(site: Site, s: State, t: Tick, g: nat, i: nat, j: nat)
    requires TurnStarts(site, s, t) && Regiven(site, s, t, g, i, j)
    ensures var b, fd := Within(site, s, t, j), t.events[j].fd;
            && Invariant(site, b) && StepOk(site, b, Ready(t.events[j])) && fd != site.listener
            && IsOpen(b, fd) && b.sockets[fd] == g && ConnOf(b, fd).response.None? && fd !in b.writeBuffers
            && fd in b.interest && b.interest[fd] == In
  {
    hide Within, Do, Sweep, EventsOk, Tables, HistoryOk, Extends, StepOk;
    var fd, b, c := t.events[j].fd, Within(site, s, t, i + 1), Within(site, s, t, j);
    WithinKeeps(site, s, t, i);
    WithinNext(site, s, t, i);
    ListenerEvent(site, Within(site, s, t, i), t.events[i], fd);
    WithinKeeps(site, s, t, i + 1);
    assert IsOpen(b, fd) && b.sockets[fd] == g;
    assert fd !in Within(site, s, t, i).sockets;
    StaysPut(site, s, t, i + 1, j, fd);
    WithinKeeps(site, s, t, j);
    assert fd !in c.writeBuffers by { assert LiveOk(c, fd); }
  }

  lemma ReusedCloses(site: Site, s: State, t: Tick, g: nat, i: nat, j: nat)
    requires TurnStarts(site, s, t) && Reused(site, s, t, g, i, j)
    ensures ClosedUnanswered(Within(site, s, t, |t.events|), g)
  {
    hide TurnStarts, Within, Do, Sweep, Invariant, Extends, StepOk;
    RegivenFresh(site, s, t, g, i, j);
    ClosingEvent(site, Within(site, s, t, j), t.events[j], g);
    WithinNext(site, s, t, j);
    WithinExtends(site, s, t, j + 1, |t.events|);
    FinalStays(Within(site, s, t, j + 1).conns[g], Within(site, s, t, |t.events|).conns[g]);
  }

  lemma FinalStays(c: Conn, c1: Conn)
    requires Extends(c, c1)
    ensures c.fate != Open ==> c1 == c
  {
  }

  /** The descriptor was open when epoll_wait returned, and the sweep has closed it. */
  lemma SweptBefore(site: Site, s: State, t: Tick, j: nat)
    requires TurnStarts(site, s, t) && j < |t.events|
    requires t.events[j].out && t.events[j].fd != site.listener && t.events[j].fd !in Within(site, s, t, j).writeBuffers
    ensures t.events[j].fd in s.sockets && t.events[j].fd !in Sweep(s, t.now).sockets
  {
    hide Within, EventsOk, LiveOk, HistoryOk;
    var fd := t.events[j].fd;
    assert fd in s.interest && s.interest[fd] == Out;
    assert fd in s.sockets && fd in s.writeBuffers;
    if fd in Sweep(s, t.now).sockets {
      SweepKeeps(site, s, t.now);
      assert fd in Sweep(s, t.now).writeBuffers;
      StaysOpen(site, s, t, j, fd);
    }
  }

  /** The accepts that gave out a descriptor which the sweep had closed. */
  lemma AcceptedWithin(site: Site, s: State, t: Tick, j: nat, fd: Fd) returns (i: nat)
    requires TurnStarts(site, s, t) && j <= |t.events|
    requires forall m :: 0 <= m < j ==> t.events[m].fd != fd
    requires fd !in Sweep(s, t.now).sockets && fd in Within(site, s, t, j).sockets
    ensures i < j && t.events[i].fd == site.listener
    ensures fd !in Within(site, s, t, i).sockets && fd in Within(site, s, t, i + 1).sockets
  {
    hide Do, Sweep, TurnStarts, Invariant, StepOk;
    var p := (k: nat) => k <= j && fd in Within(site, s, t, k).sockets;
    assert !p(0);
    hide Within;
    i := Turning(p, j);
    WithinKeeps(site, s, t, i);
    WithinNext(site, s, t, i);
    if t.events[i].fd != site.listener { OtherEvent(site, Within(site, s, t, i), t.events[i], fd); }
  }

  /** Exactly which connections a turn closes as complete but unanswered: those accepted in
      the turn on a descriptor that its sweep closed, if the write event of the earlier
      connection comes behind the accept. */
  lemma TurnUnansweredExactly(site: Site, s: State, t: Tick, g: nat)
    requires TurnStarts(site, s, t) && !ClosedUnanswered(s, g)
    ensures ClosedUnanswered(Turn(site, s, t), g) <==> exists i: nat, j: nat :: Reused(site, s, t, g, i, j)
  {
    hide Within, Do, EventsOk, Extends, LiveOk, HistoryOk, Tables, StepOk, Pending, WriteReady;
    var n := |t.events|;
    assert Turn(site, s, t) == Within(site, s, t, n) by { TurnWithin(site, s, t); }
    if ClosedUnanswered(Within(site, s, t, n), g) {
      var p := (k: nat) => k <= n && ClosedUnanswered(Within(site, s, t, k), g);
      assert !p(0) by { SweepNotFinished(site, s, t, g); }
      var j := Turning(p, n);
      var i := ClosingReuse(site, s, t, g, j);
      assert Reused(site, s, t, g, i, j);
    } else if i: nat, j: nat :| Reused(site, s, t, g, i, j) {
      ReusedCloses(site, s, t, g, i, j);
    }
  }

  lemma TurnWithin(site: Site, s: State, t: Tick)
    requires s.running
    ensures Turn(site, s, t) == Within(site, s, t, |t.events|)
  {
    BatchSteps(site, Sweep(s, t.now), t.events);
  }

  lemma SweepNotFinished(site: Site, s: State, t: Tick, g: nat)
    requires !ClosedUnanswered(s, g)
    ensures !ClosedUnanswered(Within(site, s, t, 0), g)
  {
  }

  /** A descriptor that the sweep closed and that is open when its event comes was given out
      by the accepts of the batch in between. */
  lemma RegivenBy(site: Site, s: State, t: Tick, g: nat, j: nat) returns (i: nat)
    requires TurnStarts(site, s, t) && j < |t.events| && Within(site, s, t, j).running
    requires t.events[j].fd in s.sockets && t.events[j].fd !in Sweep(s, t.now).sockets
    requires IsOpen(Within(site, s, t, j), t.events[j].fd) && Within(site, s, t, j).sockets[t.events[j].fd] == g
    ensures Regiven(site, s, t, g, i, j)
  {
    hide Within, Do, EventsOk, LiveOk, HistoryOk, Tables, StepOk, WriteReady, Sweep;
    var fd := t.events[j].fd;
    i := AcceptedWithin(site, s, t, j, fd);
    WithinKeeps(site, s, t, i);
    WithinNext(site, s, t, i);
    ListenerEvent(site, Within(site, s, t, i), t.events[i], fd);
    WithinKeeps(site, s, t, i + 1);
    StaysPut(site, s, t, i + 1, j, fd);
  }

  lemma ClosingReuse(site: Site, s: State, t: Tick, g: nat, j: nat) returns (i: nat)
    requires TurnStarts(site, s, t) && j < |t.events|
    requires !ClosedUnanswered(Within(site, s, t, j), g) && ClosedUnanswered(Within(site, s, t, j + 1), g)
    ensures Reused(site, s, t, g, i, j)
  {
    hide TurnStarts, Within, Do, Invariant, StepOk, Sweep;
    WithinKeeps(site, s, t, j);
    WithinNext(site, s, t, j);
    ClosingEvent(site, Within(site, s, t, j), t.events[j], g);
    SweptBefore(site, s, t, j);
    i := RegivenBy(site, s, t, g, j);
  }

  // ---- Stale read events ---------------------------------------------------

  ghost predicate AnsweredEmpty(s: State, g: nat) {
    g < |s.conns| && s.conns[g].response.Some? && s.conns[g].received == ""
  }

  predicate DrainsNothing(e: Event) { ReadAll(e.reading) == ReadRun("", Drained) }

  /** A read event comes for a socket that epoll_wait saw watched for reading, and brings a
      byte, an end of file or an error if that is still the same socket. */
  predicate ReadReady(site: Site, s: State, t: Tick) {
    forall i :: 0 <= i < |t.events| && t.events[i].fd != site.listener && !t.events[i].out ==>
      t.events[i].fd in s.interest && (t.events[i].fd in Sweep(s, t.now).sockets ==> !DrainsNothing(t.events[i]))
  }

  /** A read event for the earlier connection on a descriptor, which finds nothing on the new
      one, and the empty buffer has a reply. */
  predicate ReusedRead(site: Site, s: State, t: Tick, g: nat, i: nat, j: nat) {
    && Regiven(site, s, t, g, i, j) && !t.events[j].out && DrainsNothing(t.events[j])
    && site.reply("", t.events[j].world).Some?
  }

  lemma ReusedReadAnswers(site: Site, s: State, t: Tick, g: nat, i: nat, j: nat)
    requires TurnStarts(site, s, t) && Unread(s) && ReusedRead(site, s, t, g, i, j)
    ensures AnsweredEmpty(Within(site, s, t, |t.events|), g)
  {
    hide TurnStarts, Within, Do, Sweep, Invariant, Extends, StepOk, Unread;
    RegivenFresh(site, s, t, g, i, j);
    WithinUnread(site, s, t, j);
    var b := Within(site, s, t, j);
    DrainEffect(site, b, Ready(t.events[j]), g);
    WithinNext(site, s, t, j);
    WithinExtends(site, s, t, j + 1, |t.events|);
    AnswerStays(Within(site, s, t, j + 1).conns[g], Within(site, s, t, |t.events|).conns[g]);
  }

  lemma AnswerStays(c: Conn, c1: Conn)
    requires Extends(c, c1)
    ensures c.response.Some? ==> c1.response == c.response && c1.received == c.received
  {
  }

  lemma {:induction false} WithinUnread(site: Site, s: State, t: Tick, k: nat)
    requires TurnStarts(site, s, t) && Unread(s) && k <= |t.events|
    ensures Unread(Within(site, s, t, k))
  {
    hide TurnStarts, Within, Do, Sweep, Invariant, StepOk, Unread, ConnsExtend;
    if k == 0 {
      SweptKept(site, s, t);
      assert Invariant(site, s) by { StartInvariant(site, s, t); }
      SweepUnread(site, s, t.now);
    } else {
      WithinUnread(site, s, t, k - 1);
      WithinKeeps(site, s, t, k - 1);
      WithinNext(site, s, t, k - 1);
      StepKeeps(site, Within(site, s, t, k - 1), Ready(t.events[k - 1]));
    }
  }

  lemma StartInvariant(site: Site, s: State, t: Tick)
    requires TurnStarts(site, s, t)
    ensures Invariant(site, s) && s.running
  {
  }

  /** The event that answers a connection which has sent nothing. */
  lemma EmptyDrain(site: Site, s: State, e: Event, g: nat)
    requires Invariant(site, s) && Unread(s) && StepOk(site, s, Ready(e))
    requires !AnsweredEmpty(s, g) && AnsweredEmpty(Do(site, s, Ready(e)), g)
    ensures Drains(site, s, Ready(e), g) && DrainsNothing(e) && site.reply("", e.world).Some?
  {
    hide Do, Invariant, Unread, StepOk, Drains, Extends;
    var step := Ready(e);
    StepKeeps(site, s, step);
    if Answered(s, g) { AnswerStays(s.conns[g], Do(site, s, step).conns[g]); }
    if !Drains(site, s, step, Owner(s, step)) { OnlyDrains(site, s, step); }
    OnlyItsDrain(site, s, step, Owner(s, step), g);
    DrainEffect(site, s, step, g);
    assert DrainsNothing(e) by { DrainedRun(site, s, e, g); }
  }

  lemma DrainedRun(site: Site, s: State, e: Event, g: nat)
    requires Drains(site, s, Ready(e), g)
    ensures ReadAll(e.reading) == ReadRun(Bytes(Ready(e)), Drained) && ReplyAt(site, Ready(e)) == site.reply(Bytes(Ready(e)), e.world)
  {
  }

  /** Exactly which connections a turn answers before they have sent anything: those accepted
      in the turn on a descriptor that its sweep closed, if the read event of the earlier
      connection comes behind the accept and finds nothing. */
  lemma TurnEmptyExactly(site: Site, s: State, t: Tick, g: nat)
    requires TurnStarts(site, s, t) && Unread(s) && ReadReady(site, s, t) && !AnsweredEmpty(s, g)
    ensures AnsweredEmpty(Turn(site, s, t), g) <==> exists i: nat, j: nat :: ReusedRead(site, s, t, g, i, j)
  {
    hide Within, Do, EventsOk, Extends, LiveOk, HistoryOk, Tables, StepOk, Pending, WriteReady, ReadReady, Unread;
    var n := |t.events|;
    assert Turn(site, s, t) == Within(site, s, t, n) by { TurnWithin(site, s, t); }
    if AnsweredEmpty(Within(site, s, t, n), g) {
      var p := (k: nat) => k <= n && AnsweredEmpty(Within(site, s, t, k), g);
      assert !p(0) by { SweepNotEmpty(site, s, t, g); }
      var j := Turning(p, n);
      var i := EmptyReuse(site, s, t, g, j);
      assert ReusedRead(site, s, t, g, i, j);
    } else if i: nat, j: nat :| ReusedRead(site, s, t, g, i, j) {
      ReusedReadAnswers(site, s, t, g, i, j);
    }
  }

  lemma SweepNotEmpty(site: Site, s: State, t: Tick, g: nat)
    requires !AnsweredEmpty(s, g)
    ensures !AnsweredEmpty(Within(site, s, t, 0), g)
  {
  }

  lemma EmptyReuse(site: Site, s: State, t: Tick, g: nat, j: nat) returns (i: nat)
    requires TurnStarts(site, s, t) && Unread(s) && ReadReady(site, s, t) && j < |t.events|
    requires !AnsweredEmpty(Within(site, s, t, j), g) && AnsweredEmpty(Within(site, s, t, j + 1), g)
    ensures ReusedRead(site, s, t, g, i, j)
  {
    hide TurnStarts, Within, Do, Invariant, StepOk, Sweep, Unread;
    WithinKeeps(site, s, t, j);
    WithinUnread(site, s, t, j);
    WithinNext(site, s, t, j);
    EmptyDrain(site, Within(site, s, t, j), t.events[j], g);
    assert t.events[j].fd in s.sockets by { InterestOpen(site, s, t, t.events[j].fd); }
    i := RegivenBy(site, s, t, g, j);
  }

  lemma InterestOpen(site: Site, s: State, t: Tick, fd: Fd)
    requires TurnStarts(site, s, t)
    ensures fd in s.interest ==> fd in s.sockets
  {
  }

  // ---- Whole runs ----------------------------------------------------------

  /** The state in which the turn at m begins. */
  function Before(site: Site, ticks: seq<Tick>, m: nat): State
    requires m <= |ticks|
  {
    Run(site, START, ticks[..m])
  }

  lemma {:induction false} RunJoin(site: Site, s: State, a: seq<Tick>, b: seq<Tick>)
    ensures Run(site, s, a + b) == Run(site, Run(site, s, a), b)
    ensures TicksOk(site, s, a + b) <==> TicksOk(site, s, a) && TicksOk(site, Run(site, s, a), b)
    decreases |a|
  {
    hide Turn, TickOk;
    if a == [] {
      assert a + b == b;
    } else {
      assert (a + b)[0] == a[0] && (a + b)[1..] == a[1..] + b;
      RunJoin(site, Turn(site, s, a[0]), a[1..], b);
    }
  }

  lemma BeforeNext(site: Site, ticks: seq<Tick>, m: nat)
    requires TicksOk(site, START, ticks) && m < |ticks|
    ensures TickOk(site, Before(site, ticks, m), ticks[m])
    ensures Before(site, ticks, m + 1) == Turn(site, Before(site, ticks, m), ticks[m])
  {
    hide Turn, TickOk;
    var a, t := ticks[..m], ticks[m];
    assert ticks == a + ticks[m..] && ticks[m..][0] == t && ticks[..m + 1] == a + [t];
    RunJoin(site, START, a, ticks[m..]);
    RunJoin(site, START, a, [t]);
    var s := Run(site, START, a);
    assert [t][1..] == [] && Run(site, s, [t]) == Run(site, Turn(site, s, t), []);
  }

  lemma BeforeKept(site: Site, ticks: seq<Tick>, m: nat)
    requires TicksOk(site, START, ticks) && m <= |ticks|
    ensures Invariant(site, Before(site, ticks, m)) && Unread(Before(site, ticks, m))
  {
    hide Invariant, Unread, Lawful, From, Run, TicksOk, StepsOf;
    var a := ticks[..m];
    assert ticks == a + ticks[m..];
    RunJoin(site, START, a, ticks[m..]);
    StartKept(site);
    RunLawful(site, START, a);
    RunSteps(site, START, a);
    MomentKeeps(site, StepsOf(a), |StepsOf(a)|);
  }

  lemma BeforeExtends(site: Site, ticks: seq<Tick>, m: nat)
    requires TicksOk(site, START, ticks) && m <= |ticks|
    ensures ConnsExtend(Before(site, ticks, m).conns, Run(site, START, ticks).conns)
  {
    hide Invariant, Unread, ConnsExtend, Run, TicksOk;
    assert ticks == ticks[..m] + ticks[m..];
    RunJoin(site, START, ticks[..m], ticks[m..]);
    BeforeKept(site, ticks, m);
    RunKeeps(site, Before(site, ticks, m), ticks[m..]);
  }

  ghost predicate ReusedIn(site: Site, ticks: seq<Tick>, g: nat, m: nat, i: nat, j: nat) {
    m < |ticks| && Before(site, ticks, m).running && Reused(site, Before(site, ticks, m), ticks[m], g, i, j)
  }

  /** Over every run: a connection is closed as complete but unanswered if and only if, within
      one turn, its descriptor was swept, given to it and then had its write event. */
  lemma RunUnansweredExactly(site: Site, ticks: seq<Tick>, g: nat)
    requires TicksOk(site, START, ticks)
    ensures ClosedUnanswered(Run(site, START, ticks), g) <==>
            exists m: nat, i: nat, j: nat :: ReusedIn(site, ticks, g, m, i, j)
  {
    hide Run, TicksOk, Turn, TickOk, Invariant, Unread, Reused, ConnsExtend;
    var n := |ticks|;
    assert ticks[..n] == ticks;
    if ClosedUnanswered(Run(site, START, ticks), g) {
      var p := (k: nat) => k <= n && ClosedUnanswered(Before(site, ticks, k), g);
      assert !p(0) by { NoConns(site, ticks, g); }
      var m := Turning(p, n);
      BeforeNext(site, ticks, m);
      BeforeKept(site, ticks, m);
      var s := Before(site, ticks, m);
      assert s.running by { TurnHalted(site, s, ticks[m]); }
      TurnUnansweredExactly(site, s, ticks[m], g);
      var i: nat, j: nat :| Reused(site, s, ticks[m], g, i, j);
      assert ReusedIn(site, ticks, g, m, i, j);
    }
    if m: nat, i: nat, j: nat :| ReusedIn(site, ticks, g, m, i, j) {
      BeforeNext(site, ticks, m);
      BeforeKept(site, ticks, m);
      var s := Before(site, ticks, m);
      if !ClosedUnanswered(s, g) { TurnUnansweredExactly(site, s, ticks[m], g); }
      BeforeExtends(site, ticks, m);
      BeforeExtends(site, ticks, m + 1);
      UnansweredStays(s, Run(site, START, ticks), g);
      UnansweredStays(Before(site, ticks, m + 1), Run(site, START, ticks), g);
    }
  }

  lemma NoConns(site: Site, ticks: seq<Tick>, g: nat)
    ensures !ClosedUnanswered(Before(site, ticks, 0), g) && !AnsweredEmpty(Before(site, ticks, 0), g)
  {
    assert ticks[..0] == [];
  }

  lemma TurnHalted(site: Site, s: State, t: Tick)
    ensures !s.running ==> Turn(site, s, t) == s
  {
  }

  lemma UnansweredStays(s: State, s1: State, g: nat)
    requires ConnsExtend(s.conns, s1.conns)
    ensures ClosedUnanswered(s, g) ==> ClosedUnanswered(s1, g)
    ensures AnsweredEmpty(s, g) ==> AnsweredEmpty(s1, g)
  {
    if g < |s.conns| { assert Extends(s.conns[g], s1.conns[g]); }
  }

  ghost predicate ReusedReadIn(site: Site, ticks: seq<Tick>, g: nat, m: nat, i: nat, j: nat) {
    m < |ticks| && Before(site, ticks, m).running && ReusedRead(site, Before(site, ticks, m), ticks[m], g, i, j)
  }

  ghost predicate ReadsReady(site: Site, ticks: seq<Tick>) {
    forall m :: 0 <= m < |ticks| ==> ReadReady(site, Before(site, ticks, m), ticks[m])
  }

  /** Over every run in which read events bring something: a connection is answered without
      having been heard if and only if, within one turn, its descriptor was swept, given to it
      and then had a read event that found nothing. */
  lemma RunEmptyExactly(site: Site, ticks: seq<Tick>, g: nat)
    requires TicksOk(site, START, ticks) && ReadsReady(site, ticks)
    ensures AnsweredEmpty(Run(site, START, ticks), g) <==>
            exists m: nat, i: nat, j: nat :: ReusedReadIn(site, ticks, g, m, i, j)
  {
    hide Run, TicksOk, Turn, TickOk, Invariant, Unread, ReusedRead, ReadReady, ConnsExtend;
    var n := |ticks|;
    assert ticks[..n] == ticks;
    if AnsweredEmpty(Run(site, START, ticks), g) {
      var p := (k: nat) => k <= n && AnsweredEmpty(Before(site, ticks, k), g);
      assert !p(0) by { NoConns(site, ticks, g); }
      var m := Turning(p, n);
      BeforeNext(site, ticks, m);
      BeforeKept(site, ticks, m);
      var s := Before(site, ticks, m);
      assert s.running by { TurnHalted(site, s, ticks[m]); }
      TurnEmptyExactly(site, s, ticks[m], g);
      var i: nat, j: nat :| ReusedRead(site, s, ticks[m], g, i, j);
      assert ReusedReadIn(site, ticks, g, m, i, j);
    }
    if m: nat, i: nat, j: nat :| ReusedReadIn(site, ticks, g, m, i, j) {
      BeforeNext(site, ticks, m);
      BeforeKept(site, ticks, m);
      var s := Before(site, ticks, m);
      if !AnsweredEmpty(s, g) { TurnEmptyExactly(site, s, ticks[m], g); }
      BeforeExtends(site, ticks, m);
      BeforeExtends(site, ticks, m + 1);
      UnansweredStays(s, Run(site, START, ticks), g);
      UnansweredStays(Before(site, ticks, m + 1), Run(site, START, ticks), g);
    }
  }
}
