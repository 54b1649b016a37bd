/** Runs of the event loop (src/server.rs) event by event: which event answers a
    connection, which one stops the loop, and what has gone out at any moment. */
module ConnectionSteps {
  import opened Text
  import opened Connections
  import opened ConnectionInvariant
  import opened ConnectionRuns

  /** What a run consists of: the sweep of every turn, then its events. */
  datatype Step = Timeout(now: Time) | Ready(e: Event)

  function Do(site: Site, s: State, step: Step): State {
    if !s.running then s
    else match step
      case Timeout(now) => Sweep(s, now)
      case Ready(e) => Dispatch(site, s, e)
  }

  /** The state after n steps. */
  function From(site: Site, s: State, steps: seq<Step>, n: nat): State
    requires n <= |steps|
  {
    if n == 0 then s else Do(site, From(site, s, steps, n - 1), steps[n - 1])
  }

  function Readies(events: seq<Event>): (steps: seq<Step>)
    ensures |steps| == |events| && forall i :: 0 <= i < |steps| ==> steps[i] == Ready(events[i])
  {
    seq(|events|, i requires 0 <= i < |events| => Ready(events[i]))
  }

  function StepsOf(ticks: seq<Tick>): seq<Step> {
    if ticks == [] then [] else [Timeout(ticks[0].now)] + Readies(ticks[0].events) + StepsOf(ticks[1..])
  }

  lemma {:induction false} Halted(site: Site, s: State, steps: seq<Step>, n: nat)
    requires n <= |steps| && !s.running
    ensures From(site, s, steps, n) == s
  {
    if n > 0 { Halted(site, s, steps, n - 1); }
  }

  lemma {:induction false} FromJoin(site: Site, s: State, a: seq<Step>, b: seq<Step>, n: nat)
    requires n <= |b|
    ensures From(site, s, a + b, |a| + n) == From(site, From(site, s, a, |a|), b, n)
  {
    hide Do;
    if n == 0 {
      FromPrefix(site, s, a, b, |a|);
    } else {
      FromJoin(site, s, a, b, n - 1);
    }
  }

  lemma {:induction false} FromPrefix(site: Site, s: State, a: seq<Step>, b: seq<Step>, n: nat)
    requires n <= |a|
    ensures From(site, s, a + b, n) == From(site, s, a, n)
  {
    hide Do;
    if n > 0 { FromPrefix(site, s, a, b, n - 1); }
  }

  lemma FromFirst(site: Site, s: State, steps: seq<Step>, n: nat)
    requires 0 < n <= |steps|
    ensures From(site, s, steps, n) == From(site, Do(site, s, steps[0]), steps[1..], n - 1)
  {
    hide Do;
    assert steps == [steps[0]] + steps[1..];
    FromJoin(site, s, [steps[0]], steps[1..], n - 1);
    assert From(site, s, [steps[0]], 1) == Do(site, From(site, s, [steps[0]], 0), steps[0]);
  }

  lemma {:induction false} BatchSteps(site: Site, s: State, events: seq<Event>)
    ensures DispatchAll(site, s, events) == From(site, s, Readies(events), |events|)
    decreases |events|
  {
    hide Dispatch;
    if events != [] {
      FromFirst(site, s, Readies(events), |events|);
      assert Readies(events)[1..] == Readies(events[1..]);
      BatchSteps(site, Dispatch(site, s, events[0]), events[1..]);
      if !s.running { assert Dispatch(site, s, events[0]) == s by { StillHalted(site, s, events[0]); } }
    }
  }

  lemma StillHalted(site: Site, s: State, e: Event)
    requires !s.running
    ensures Dispatch(site, s, e) == s
  {
  }

  lemma TurnSteps(site: Site, s: State, t: Tick)
    ensures var steps := [Timeout(t.now)] + Readies(t.events);
            Turn(site, s, t) == From(site, s, steps, |steps|)
  {
    hide Dispatch, Sweep, DispatchAll;
    var steps := [Timeout(t.now)] + Readies(t.events);
    if s.running {
      FromFirst(site, s, steps, |steps|);
      assert steps[1..] == Readies(t.events);
      BatchSteps(site, Sweep(s, t.now), t.events);
    } else {
      Halted(site, s, steps, |steps|);
    }
  }

  /** A run arrives where its steps lead. */
  lemma {:induction false} RunSteps(site: Site, s: State, ticks: seq<Tick>)
    ensures Run(site, s, ticks) == From(site, s, StepsOf(ticks), |StepsOf(ticks)|)
    decreases |ticks|
  {
    hide Turn, Do;
    if ticks != [] {
      var first := [Timeout(ticks[0].now)] + Readies(ticks[0].events);
      TurnSteps(site, s, ticks[0]);
      RunSteps(site, Turn(site, s, ticks[0]), ticks[1..]);
      FromJoin(site, s, first, StepsOf(ticks[1..]), |StepsOf(ticks[1..])|);
    }
  }

  // ---- What holds at every moment ------------------------------------------

  predicate StepOk(site: Site, s: State, step: Step) {
    s.running && step.Ready? ==> EventOk(site, s, step.e) && Pending(site, s, [step.e])
  }

  /** Every step happens in a state where the kernel may answer as it does. */
  predicate Lawful(site: Site, s: State, steps: seq<Step>) {
    forall n :: 0 <= n < |steps| ==> StepOk(site, From(site, s, steps, n), steps[n])
  }

  lemma LawfulJoin(site: Site, s: State, a: seq<Step>, b: seq<Step>)
    requires Lawful(site, s, a) && Lawful(site, From(site, s, a, |a|), b)
    ensures Lawful(site, s, a + b)
  {
    hide From, StepOk;
    forall n | 0 <= n < |a + b| ensures StepOk(site, From(site, s, a + b, n), (a + b)[n]) {
      if n < |a| { FromPrefix(site, s, a, b, n); } else { FromJoin(site, s, a, b, n - |a|); }
    }
  }

  lemma LawfulHalted(site: Site, s: State, steps: seq<Step>)
    requires !s.running
    ensures Lawful(site, s, steps)
  {
    hide From;
    forall n | 0 <= n < |steps| ensures StepOk(site, From(site, s, steps, n), steps[n]) { Halted(site, s, steps, n); }
  }

  lemma LawfulOne(site: Site, s: State, step: Step)
    requires StepOk(site, s, step)
    ensures Lawful(site, s, [step]) && From(site, s, [step], 1) == Do(site, s, step)
  {
    hide StepOk, Do;
    assert From(site, s, [step], 0) == s;
    assert From(site, s, [step], 1) == Do(site, From(site, s, [step], 0), [step][0]);
  }

  lemma {:induction false} BatchLawful(site: Site, s: State, events: seq<Event>)
    requires Invariant(site, s) && Pending(site, s, events) && EventsOk(site, s, events)
    ensures Lawful(site, s, Readies(events))
    decreases |events|
  {
    hide Invariant, Pending, Dispatch, Lawful, EventOk;
    if !s.running {
      LawfulHalted(site, s, Readies(events));
    } else if events == [] {
      NoSteps(site, s);
      assert Readies(events) == [];
    } else {
      var e, rest := events[0], events[1..];
      assert events == [e] + rest;
      PendingSplits(site, s, e, rest);
      DispatchKeeps(site, s, e);
      BatchLawful(site, Dispatch(site, s, e), rest);
      LawfulOne(site, s, Ready(e));
      LawfulJoin(site, s, [Ready(e)], Readies(rest));
      assert Readies(events) == [Ready(e)] + Readies(rest);
    }
  }

  lemma NoSteps(site: Site, s: State)
    ensures Lawful(site, s, [])
  {
  }

  lemma TurnLawful(site: Site, s: State, t: Tick)
    requires Invariant(site, s) && TickOk(site, s, t)
    ensures Lawful(site, s, [Timeout(t.now)] + Readies(t.events))
  {
    hide Invariant, EventsOk, Lawful;
    if s.running {
      SweepKeeps(site, s, t.now);
      assert Pending(site, Sweep(s, t.now), t.events);
      hide Pending, Sweep;
      BatchLawful(site, Sweep(s, t.now), t.events);
      LawfulOne(site, s, Timeout(t.now));
      LawfulJoin(site, s, [Timeout(t.now)], Readies(t.events));
    } else {
      LawfulHalted(site, s, [Timeout(t.now)] + Readies(t.events));
    }
  }

  lemma {:induction false} RunLawful(site: Site, s: State, ticks: seq<Tick>)
    requires Invariant(site, s) && TicksOk(site, s, ticks)
    ensures Lawful(site, s, StepsOf(ticks))
    decreases |ticks|
  {
    hide Invariant, TickOk, Turn, Lawful;
    if ticks == [] {
      NoSteps(site, s);
    } else {
      TurnLawful(site, s, ticks[0]);
      TurnKeeps(site, s, ticks[0]);
      TurnSteps(site, s, ticks[0]);
      RunLawful(site, Turn(site, s, ticks[0]), ticks[1..]);
      LawfulJoin(site, s, [Timeout(ticks[0].now)] + Readies(ticks[0].events), StepsOf(ticks[1..]));
    }
  }

  /** While the loop runs, nothing has arrived on a socket that is still watched for reading:
      the first read that takes something also answers, closes or unregisters. */
  predicate Unread(s: State) {
    s.running ==>
      forall fd <- s.interest :: s.interest[fd] == In && IsOpen(s, fd) ==> ConnOf(s, fd).received == ""
  }

  /** The step is a read event, of a socket watched for reading, that takes all the socket
      has; g is the connection. */
  predicate Drains(site: Site, s: State, step: Step, g: nat) {
    && step.Ready? && s.running && step.e.fd != site.listener && !step.e.out
    && step.e.fd in s.interest && s.interest[step.e.fd] == In
    && IsOpen(s, step.e.fd) && s.sockets[step.e.fd] == g && ReadAll(step.e.reading).end == Drained
  }

  function Bytes(step: Step): string { if step.Ready? then ReadAll(step.e.reading).bytes else "" }

  function World(step: Step): nat { if step.Ready? then step.e.world else 0 }

  function ReplyAt(site: Site, step: Step): Option<Reply> { site.reply(Bytes(step), World(step)) }

  /** What a drain does: it takes the first bytes of its connection, and they alone are
      answered, or stop the loop. */
  lemma DrainEffect(site: Site, s: State, step: Step, g: nat)
    requires Invariant(site, s) && Unread(s) && Drains(site, s, step, g)
    ensures g < |s.conns| == |Do(site, s, step).conns|
    ensures s.conns[g].response.None? && s.conns[g].fate == Open
    ensures var s1 := Do(site, s, step);
            var c, r := s1.conns[g], ReplyAt(site, step);
            && c.received == Bytes(step) && c.fate == Open && s1.running == r.Some?
            && (if r.None? then c.response.None? else c.response == Some(r.value.bytes) && c.world == World(step))
  {
    hide HistoryOk;
    var fd := step.e.fd;
    assert LiveOk(s, fd);
    assert "" + Bytes(step) == Bytes(step);
  }

  predicate NotReading(s: State, fd: Fd) { s.running ==> !(fd in s.interest && s.interest[fd] == In) }

  lemma WroteNotReading(site: Site, s: State, fd: Fd, writing: seq<WriteResult>)
    requires Invariant(site, s)
    ensures NotReading(StopTimer(HandleWrite(s, fd, writing), fd), fd)
  {
    hide HistoryOk, LiveOk, WriteAll;
  }

  lemma HeardNotReading(site: Site, s: State, fd: Fd, reading: seq<ReadResult>, world: nat)
    requires Invariant(site, s)
    ensures NotReading(HandleRead(site, s, fd, reading, world), fd)
  {
    hide HistoryOk, LiveOk, ReadAll;
  }

  /** After its own event no socket is watched for reading. */
  lemma ReadOnce(site: Site, s: State, e: Event)
    requires Invariant(site, s) && s.running && e.fd != site.listener
    ensures NotReading(Dispatch(site, s, e), e.fd)
  {
    hide Invariant, HandleWrite, HandleRead, NotReading;
    if e.out {
      WroteNotReading(site, s, e.fd, e.writing);
    } else {
      HeardNotReading(site, s, e.fd, e.reading, e.world);
    }
  }

  /** A read that drains nothing watched answers nothing and stops nothing. */
  lemma NoDrain(site: Site, s: State, e: Event)
    requires Invariant(site, s) && s.running && e.fd != site.listener && !e.out && Pending(site, s, [e])
    requires IsOpen(s, e.fd) && !Drains(site, s, Ready(e), s.sockets[e.fd])
    ensures var s1 := Dispatch(site, s, e);
            s1.running && |s1.conns| == |s.conns|
            && s1.conns[s.sockets[e.fd]].response == s.conns[s.sockets[e.fd]].response
  {
    hide HistoryOk;
    assert [e][0] == e;
    assert LiveOk(s, e.fd);
  }

  lemma SweepUnread(site: Site, s: State, now: Time)
    requires Invariant(site, s) && Unread(s)
    ensures Unread(Sweep(s, now))
  {
    hide HistoryOk, LiveOk;
  }

  /** New descriptors and new generations, and the rest left alone. */
  predicate Grows(s: State, s1: State) {
    && s1.running == s.running && s1.writeBuffers == s.writeBuffers
    && |s1.conns| >= |s.conns| && (forall g :: 0 <= g < |s.conns| ==> s1.conns[g] == s.conns[g])
    && (forall g :: |s.conns| <= g < |s1.conns| ==> s1.conns[g].response.None? && s1.conns[g].fate == Open)
    && (forall fd <- s.sockets :: fd in s1.sockets && s1.sockets[fd] == s.sockets[fd])
    && (forall fd <- s1.sockets :: fd in s.sockets || |s.conns| <= s1.sockets[fd] < |s1.conns|)
    && (forall fd <- s.sockets :: fd in s.interest <==> fd in s1.interest)
    && (forall fd <- s.sockets :: fd in s.interest ==> s1.interest[fd] == s.interest[fd])
    && (forall fd <- s1.sockets :: fd in s.sockets || (fd in s1.interest && s1.interest[fd] == In))
  }

  lemma GrowsTwice(s: State, s1: State, s2: State)
    requires Grows(s, s1) && Grows(s1, s2)
    ensures Grows(s, s2)
  {
    forall g | |s.conns| <= g < |s2.conns| ensures s2.conns[g].response.None? && s2.conns[g].fate == Open {
      if g < |s1.conns| { assert s2.conns[g] == s1.conns[g]; }
    }
  }

  lemma AcceptOneGrows(s: State, a: Accepted)
    requires Registry(s) && a.fd !in s.sockets
    ensures Registry(AcceptOne(s, a)) && Grows(s, AcceptOne(s, a))
  {
  }

  lemma {:induction false} AcceptGrows(s: State, accepts: seq<Accepted>)
    requires Registry(s) && forall i :: 0 <= i < |accepts| ==> accepts[i].fd !in s.sockets
    requires forall i, j :: 0 <= i < j < |accepts| ==> accepts[i].fd != accepts[j].fd
    ensures Grows(s, AcceptAll(s, accepts))
    decreases |accepts|
  {
    if accepts != [] {
      var s1 := AcceptOne(s, accepts[0]);
      AcceptOneGrows(s, accepts[0]);
      forall i | 0 <= i < |accepts| - 1 ensures accepts[1..][i].fd !in s1.sockets {
        assert accepts[1..][i] == accepts[i + 1];
      }
      hide Registry, Grows, AcceptOne;
      AcceptGrows(s1, accepts[1..]);
      GrowsTwice(s, s1, AcceptAll(s1, accepts[1..]));
    }
  }

  lemma {:induction false} AcceptUnread(s: State, accepts: seq<Accepted>)
    requires Registry(s) && Unread(s) && forall i :: 0 <= i < |accepts| ==> accepts[i].fd !in s.sockets
    requires forall i, j :: 0 <= i < j < |accepts| ==> accepts[i].fd != accepts[j].fd
    ensures Unread(AcceptAll(s, accepts))
    decreases |accepts|
  {
    if accepts != [] {
      var s1 := AcceptOne(s, accepts[0]);
      forall i | 0 <= i < |accepts| - 1 ensures accepts[1..][i].fd !in s1.sockets {
        assert accepts[1..][i] == accepts[i + 1];
      }
      AcceptUnread(s1, accepts[1..]);
    }
  }

  lemma StepKeeps(site: Site, s: State, step: Step)
    requires Invariant(site, s) && Unread(s) && StepOk(site, s, step)
    ensures var s1 := Do(site, s, step);
            && Invariant(site, s1) && Unread(s1) && ConnsExtend(s.conns, s1.conns) && (s1.running ==> s.running)
  {
    if !s.running {
      ExtendSelf(s.conns);
    } else if step.Timeout? {
      SweepKeeps(site, s, step.now);
      SweepUnread(site, s, step.now);
    } else {
      var e := step.e;
      DispatchKeeps(site, s, e);
      if e.fd == site.listener {
        AcceptUnread(s, e.accepts);
      } else {
        ReadOnce(site, s, e);
        EventUnread(site, s, e);
      }
    }
  }

  lemma EventUnread(site: Site, s: State, e: Event)
    requires Invariant(site, s) && Unread(s) && s.running && e.fd != site.listener
    requires var s1 := Dispatch(site, s, e);
             Invariant(site, s1) && Local(s, s1, e.fd) && (s1.running ==> !(e.fd in s1.interest && s1.interest[e.fd] == In))
    ensures Unread(Dispatch(site, s, e))
  {
    hide Dispatch, HistoryOk, LiveOk, Extends;
    var s1 := Dispatch(site, s, e);
    forall fd <- s1.interest | s1.running && s1.interest[fd] == In && IsOpen(s1, fd)
      ensures ConnOf(s1, fd).received == ""
    {
      assert fd != e.fd && fd in s1.interest - {e.fd} && fd in s1.sockets - {e.fd};
      assert fd in s.interest && s.interest[fd] == In && fd in s.sockets && s1.sockets[fd] == s.sockets[fd];
      assert IsOpen(s, fd) && ConnOf(s1, fd) == ConnOf(s, fd);
    }
  }

  lemma {:induction false} MomentKeeps(site: Site, steps: seq<Step>, n: nat)
    requires Lawful(site, START, steps) && n <= |steps|
    ensures Invariant(site, From(site, START, steps, n)) && Unread(From(site, START, steps, n))
  {
    hide Do, StepOk;
    if n > 0 {
      MomentKeeps(site, steps, n - 1);
      StepKeeps(site, From(site, START, steps, n - 1), steps[n - 1]);
    }
  }

  lemma DoHalted(site: Site, s: State, step: Step)
    ensures !s.running ==> Do(site, s, step) == s
  {
  }

  /** Between two moments of a run histories only grow, and a stopped loop stays as it is. */
  lemma {:induction false} MomentsExtend(site: Site, steps: seq<Step>, m: nat, n: nat)
    requires Lawful(site, START, steps) && m <= n <= |steps|
    ensures var s, s1 := From(site, START, steps, m), From(site, START, steps, n);
            ConnsExtend(s.conns, s1.conns) && (s1.running ==> s.running) && (!s.running ==> s1 == s)
    decreases n - m
  {
    hide Do, StepOk, Extends, ConnsExtend, Invariant, Unread;
    var s := From(site, START, steps, m);
    if m == n {
      ExtendSelf(s.conns);
    } else {
      var s2 := From(site, START, steps, n - 1);
      MomentsExtend(site, steps, m, n - 1);
      MomentKeeps(site, steps, n - 1);
      StepKeeps(site, s2, steps[n - 1]);
      DoHalted(site, s2, steps[n - 1]);
      ExtendTwice(s.conns, s2.conns, From(site, START, steps, n).conns);
    }
  }

  // ---- Who answers, and what stops the loop --------------------------------

  ghost predicate Answered(s: State, g: nat) { g < |s.conns| && s.conns[g].response.Some? }

  /** The connection with the socket the event is for. */
  function Owner(s: State, step: Step): nat {
    if step.Ready? && IsOpen(s, step.e.fd) then s.sockets[step.e.fd] else 0
  }

  /** A step that answers a connection, or stops the loop, is a drain. */
  lemma OnlyDrains(site: Site, s: State, step: Step)
    requires Invariant(site, s) && Unread(s) && StepOk(site, s, step) && !Drains(site, s, step, Owner(s, step))
    ensures Do(site, s, step).running == s.running
    ensures forall g: nat :: Answered(Do(site, s, step), g) ==> Answered(s, g)
  {
    if s.running && step.Ready? {
      var e := step.e;
      if e.fd == site.listener {
        AcceptGrows(s, e.accepts);
        hide AcceptAll, Invariant, Unread;
      } else if e.out {
        WriteAnswersNothing(s, e.fd, e.writing);
      } else if IsOpen(s, e.fd) {
        NoDrain(site, s, e);
        DispatchKeeps(site, s, e);
        hide Dispatch, Invariant;
      }
    }
  }

  /** Only a response and the stop of the loop are at issue. */
  predicate SameAnswers(s: State, s1: State) {
    s1.running == s.running && |s1.conns| == |s.conns|
    && forall g :: 0 <= g < |s.conns| ==> s1.conns[g].response == s.conns[g].response
  }

  /** A step stops the loop if and only if it is a drain without a reply. */
  lemma StepStopsExactly(site: Site, s: State, step: Step)
    requires Invariant(site, s) && Unread(s) && StepOk(site, s, step) && s.running
    ensures !Do(site, s, step).running <==> Drains(site, s, step, Owner(s, step)) && ReplyAt(site, step).None?
  {
    hide Do, Invariant, Unread, StepOk, Drains;
    if Drains(site, s, step, Owner(s, step)) {
      DrainEffect(site, s, step, Owner(s, step));
    } else {
      OnlyDrains(site, s, step);
    }
  }

  lemma WriteAnswersNothing(s: State, fd: Fd, writing: seq<WriteResult>)
    ensures SameAnswers(s, HandleWrite(s, fd, writing))
  {
    hide WriteAll, Transmit, Close;
    if IsOpen(s, fd) {
      var s1 := if fd in s.writeBuffers then Transmit(s, fd, WriteAll(s.writeBuffers[fd], writing).taken)
                else SetConn(s, fd, ConnOf(s, fd).(wrote := true));
      assert SameAnswers(s, s1) by { if fd in s.writeBuffers { SendAnswersNothing(s, fd, WriteAll(s.writeBuffers[fd], writing).taken); } }
      CloseAnswersNothing(Unbuffer(s1, fd), fd, Finished);
      CloseAnswersNothing(Unbuffer(s1, fd), fd, WriteFailed);
    }
  }

  lemma SendAnswersNothing(s: State, fd: Fd, n: nat)
    requires IsOpen(s, fd) && fd in s.writeBuffers && n <= |s.writeBuffers[fd]|
    ensures SameAnswers(s, Transmit(s, fd, n))
  {
  }

  lemma CloseAnswersNothing(s: State, fd: Fd, fate: Fate)
    ensures SameAnswers(s, Close(s, fd, fate))
  {
  }

  predicate DrainAt(site: Site, steps: seq<Step>, n: nat, g: nat) {
    n < |steps| && Drains(site, From(site, START, steps, n), steps[n], g)
  }

  /** The last index at which something does not hold yet. */
  lemma {:induction false} Turning(p: nat -> bool, n: nat) returns (j: nat)
    requires !p(0) && p(n)
    ensures j < n && !p(j) && p(j + 1)
  {
    j := n - 1;
    if p(j) { j := Turning(p, j); }
  }

  /** After its drain, and for ever, a connection has received what that drain took, and is
      answered with the reply to that, or not at all when there is none. */
  lemma DrainSettles(site: Site, steps: seq<Step>, n: nat, g: nat)
    requires Lawful(site, START, steps) && DrainAt(site, steps, n, g)
    ensures var s, r := From(site, START, steps, |steps|), ReplyAt(site, steps[n]);
            && g < |s.conns| && s.conns[g].received == Bytes(steps[n])
            && (if r.Some? then s.conns[g].response == Some(r.value.bytes) && s.conns[g].world == World(steps[n])
                else s.conns[g].response.None? && s.conns[g].fate == Open && !s.running)
  {
    hide Invariant, Unread, StepOk, Drains, Do;
    MomentKeeps(site, steps, n);
    DrainEffect(site, From(site, START, steps, n), steps[n], g);
    MomentsExtend(site, steps, n + 1, |steps|);
    var s1, s := From(site, START, steps, n + 1), From(site, START, steps, |steps|);
    assert s1 == Do(site, From(site, START, steps, n), steps[n]);
    assert Extends(s1.conns[g], s.conns[g]);
  }

  /** A connection drains at most once. */
  lemma DrainsOnce(site: Site, steps: seq<Step>, m: nat, n: nat, g: nat)
    requires Lawful(site, START, steps) && m < n < |steps| && DrainAt(site, steps, m, g)
    ensures !DrainAt(site, steps, n, g)
  {
    hide Invariant, Unread, StepOk, Do, Drains;
    MomentKeeps(site, steps, m);
    DrainEffect(site, From(site, START, steps, m), steps[m], g);
    MomentsExtend(site, steps, m + 1, n);
    MomentKeeps(site, steps, n);
    var s1, s := From(site, START, steps, m + 1), From(site, START, steps, n);
    assert s1 == Do(site, From(site, START, steps, m), steps[m]);
    assert Extends(s1.conns[g], s.conns[g]);
    DrainIsFirst(site, s, steps[n], g);
  }

  lemma DrainIsFirst(site: Site, s: State, step: Step, g: nat)
    requires Invariant(site, s)
    ensures Drains(site, s, step, g) ==> s.running && g < |s.conns| && s.conns[g].response.None?
  {
    hide HistoryOk;
    if Drains(site, s, step, g) { assert LiveOk(s, step.e.fd); }
  }

  lemma AnsweredSteps(site: Site, steps: seq<Step>, g: nat)
    requires Lawful(site, START, steps)
    ensures Answered(From(site, START, steps, |steps|), g) <==>
            exists n: nat :: DrainAt(site, steps, n, g) && ReplyAt(site, steps[n]).Some?
  {
    hide Invariant, Unread, StepOk, Drains, Do;
    var s := From(site, START, steps, |steps|);
    if Answered(s, g) {
      var p := (k: nat) => k <= |steps| && Answered(From(site, START, steps, k), g);
      var n := Turning(p, |steps|);
      var b := From(site, START, steps, n);
      MomentKeeps(site, steps, n);
      if !Drains(site, b, steps[n], Owner(b, steps[n])) { OnlyDrains(site, b, steps[n]); }
      var h := Owner(b, steps[n]);
      OnlyItsDrain(site, b, steps[n], h, g);
      assert DrainAt(site, steps, n, h);
      DrainSettles(site, steps, n, h);
    }
    if n: nat :| DrainAt(site, steps, n, g) && ReplyAt(site, steps[n]).Some? { DrainSettles(site, steps, n, g); }
  }

  /** A drain answers its own connection only. */
  lemma OnlyItsDrain(site: Site, s: State, step: Step, h: nat, g: nat)
    requires Invariant(site, s) && StepOk(site, s, step) && Drains(site, s, step, h)
    requires Answered(Do(site, s, step), g) && !Answered(s, g)
    ensures g == h
  {
    DispatchKeeps(site, s, step.e);
    hide Dispatch, Invariant, Extends;
  }

  /** The one drain. In every run, a connection is answered if and only if one of its read
      events took all the socket had and there is a reply to that. There is at most one such
      event; what it took is all the connection ever receives, and its reply is the answer.
      Bytes that arrive later are never read: a message is answered as a whole if and only
      if that first drain holds all of it. */
  lemma AnsweredExactly(site: Site, ticks: seq<Tick>, g: nat)
    requires TicksOk(site, START, ticks) && g < |Run(site, START, ticks).conns|
    ensures var c, steps := Run(site, START, ticks).conns[g], StepsOf(ticks);
            && (c.response.Some? <==> exists n: nat :: DrainAt(site, steps, n, g) && ReplyAt(site, steps[n]).Some?)
            && (forall m: nat, n: nat :: DrainAt(site, steps, m, g) && DrainAt(site, steps, n, g) ==> m == n)
            && (forall n: nat :: DrainAt(site, steps, n, g) ==>
                  && c.received == Bytes(steps[n])
                  && (ReplyAt(site, steps[n]).Some? ==>
                        c.response == Some(ReplyAt(site, steps[n]).value.bytes) && c.world == World(steps[n])))
  {
    hide Lawful, Drains, From;
    var steps := StepsOf(ticks);
    StartKept(site);
    RunLawful(site, START, ticks);
    RunSteps(site, START, ticks);
    AnsweredSteps(site, steps, g);
    forall n: nat | DrainAt(site, steps, n, g)
      ensures var c, r := Run(site, START, ticks).conns[g], ReplyAt(site, steps[n]);
              c.received == Bytes(steps[n]) && (r.Some? ==> c.response == Some(r.value.bytes) && c.world == World(steps[n]))
    {
      DrainSettles(site, steps, n, g);
    }
    forall m: nat, n: nat | DrainAt(site, steps, m, g) && DrainAt(site, steps, n, g) ensures m == n {
      if m < n { DrainsOnce(site, steps, m, n, g); }
      if n < m { DrainsOnce(site, steps, n, m, g); }
    }
  }

  lemma StartKept(site: Site)
    ensures Invariant(site, START) && Unread(START)
  {
  }

  /** A connection that stopped the loop: open, unanswered, without a reply to its bytes. */
  ghost predicate Stopper(site: Site, ticks: seq<Tick>, n: nat, g: nat) {
    && DrainAt(site, StepsOf(ticks), n, g) && ReplyAt(site, StepsOf(ticks)[n]).None?
    && g < |Run(site, START, ticks).conns|
    && var c := Run(site, START, ticks).conns[g];
       c.fate == Open && c.response.None? && c.received == Bytes(StepsOf(ticks)[n])
  }

  /** A run has stopped if and only if one connection's drain had no reply; that connection
      is then left open and unanswered. */
  lemma StopsExactly(site: Site, ticks: seq<Tick>)
    requires TicksOk(site, START, ticks)
    ensures !Run(site, START, ticks).running <==> exists n: nat, g: nat :: Stopper(site, ticks, n, g)
  {
    hide Lawful, Invariant, Unread, Drains, Do;
    var steps := StepsOf(ticks);
    StartKept(site);
    RunLawful(site, START, ticks);
    RunSteps(site, START, ticks);
    var s := From(site, START, steps, |steps|);
    if !s.running {
      var p := (k: nat) => k <= |steps| && !From(site, START, steps, k).running;
      var n := Turning(p, |steps|);
      var b := From(site, START, steps, n);
      var g := Owner(b, steps[n]);
      MomentKeeps(site, steps, n);
      assert StepOk(site, b, steps[n]) by { LawfulAt(site, steps, n); }
      if !Drains(site, b, steps[n], g) { OnlyDrains(site, b, steps[n]); }
      DrainEffect(site, b, steps[n], g);
      DrainSettles(site, steps, n, g);
      assert Stopper(site, ticks, n, g);
    } else if n: nat, g: nat :| Stopper(site, ticks, n, g) {
      DrainSettles(site, steps, n, g);
    }
  }

  lemma LawfulAt(site: Site, steps: seq<Step>, n: nat)
    requires Lawful(site, START, steps) && n < |steps|
    ensures StepOk(site, From(site, START, steps, n), steps[n])
  {
  }

  // ---- Output --------------------------------------------------------------

  /** Output exactness. Whatever the pattern of reads, partial writes, errors, timeouts and
      descriptor reuse: a connection that was answered was answered with the reply to
      what one of its read events drained, and has sent a prefix of it; what is still to be
      sent is in its write buffer; a completed close sent all of it, and a timeout or an
      unanswered connection sent nothing. */
  lemma OutputExact(site: Site, ticks: seq<Tick>, g: nat)
    requires TicksOk(site, START, ticks)
    requires g < |Run(site, START, ticks).conns|
    ensures var s := Run(site, START, ticks);
            var c := s.conns[g];
            match c.response
            case None => c.sent == ""
            case Some(r) =>
              && (exists n: nat :: DrainAt(site, StepsOf(ticks), n, g) && c.received == Bytes(StepsOf(ticks)[n]))
              && site.reply(c.received, c.world).Some? && site.reply(c.received, c.world).value.bytes == r
              && IsPrefix(c.sent, r)
              && (c.fate == Open ==> c.fd in s.writeBuffers && c.sent + s.writeBuffers[c.fd] == r)
              && (c.fate == Finished ==> c.sent == r)
              && (c.fate == TimedOut ==> c.sent == "" && !c.wrote)
              && c.fate != ReadFailed
  {
    hide Drains, From;
    StartKept(site);
    AnsweredExactly(site, ticks, g);
    RunKeeps(site, START, ticks);
    var s := Run(site, START, ticks);
    var c := s.conns[g];
    assert HistoryOk(site, c);
    if c.fate == Open { assert IsOpen(s, c.fd) && ConnOf(s, c.fd) == c && LiveOk(s, c.fd); }
  }

  /** Isolation under descriptor reuse: in every run, a socket watched for reading has
      exactly its own connection's bytes in the read buffer, which are none as long as the
      loop runs, and its own accept time as timer, whatever its descriptor was used for. */
  lemma ReuseIsolated(site: Site, ticks: seq<Tick>, fd: Fd)
    requires TicksOk(site, START, ticks)
    requires fd in Run(site, START, ticks).interest && Run(site, START, ticks).interest[fd] == In
    ensures var s := Run(site, START, ticks);
            && IsOpen(s, fd) && ConnOf(s, fd).fd == fd && ConnOf(s, fd).fate == Open
            && fd in s.readBuffers && s.readBuffers[fd] == ConnOf(s, fd).received
            && (s.running ==> s.readBuffers[fd] == "")
            && fd in s.connectTimes && s.connectTimes[fd] == ConnOf(s, fd).acceptedAt && fd !in s.writeBuffers
  {
    StartKept(site);
    RunKeeps(site, START, ticks);
    RunLawful(site, START, ticks);
    RunSteps(site, START, ticks);
    MomentKeeps(site, StepsOf(ticks), |StepsOf(ticks)|);
    var s := Run(site, START, ticks);
    assert fd in s.sockets && LiveOk(s, fd);
  }
}
