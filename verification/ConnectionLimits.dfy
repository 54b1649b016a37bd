/** Where the event loop's promises end: what the code does at their edges (src/server.rs). */
module ConnectionLimits {
  import opened Text
  import opened Connections
  import opened ConnectionInvariant
  import opened ConnectionReuse

  const OK_SITE := Site(3, (data, world) => Some(Reply("ok", data != "")))

  function Plain(fd: Fd, out: bool): Event { Event(fd, out, [], [], [], 0) }

  function Arrival(fd: Fd, at: Time): Event { Event(3, false, [Accepted(fd, at)], [], [], 0) }

  lemma AcceptSingle(s: State, a: Accepted)
    ensures AcceptAll(s, [a]) == AcceptOne(s, a)
  {
    assert [a][1..] == [] && AcceptAll(s, [a]) == AcceptAll(AcceptOne(s, a), []);
  }

  const T1 := Tick(0, [Arrival(7, 0)])
  const T2 := Tick(0, [Plain(7, false)])
  const T3 := Tick(31 * SECOND, [Arrival(7, 31 * SECOND), Plain(7, true)])

  const FIRST := Conn(7, 0, "", None, 0, "", false, Open)
  const SECOND_CONN := Conn(7, 31 * SECOND, "", None, 0, "", false, Open)
  const ANSWERED := FIRST.(response := Some("ok"))

  const S1 := State(map[7 := ""], map[], map[7 := 0], map[7 := In], map[7 := 0], [FIRST], true)
  const S2 := State(map[], map[7 := "ok"], map[7 := 0], map[7 := Out], map[7 := 0], [ANSWERED], true)
  const SWEPT := State(map[], map[], map[], map[], map[], [ANSWERED.(fate := TimedOut)], true)

  lemma FirstTurn()
    ensures TickOk(OK_SITE, START, T1) && Turn(OK_SITE, START, T1) == S1
  {
    assert Sweep(START, 0) == START;
    AcceptSingle(START, Accepted(7, 0));
    assert Dispatch(OK_SITE, START, Arrival(7, 0)) == AcceptOne(START, Accepted(7, 0)) == S1;
    assert T1.events[1..] == [];
  }

  lemma SecondTurn()
    ensures TickOk(OK_SITE, S1, T2) && Turn(OK_SITE, S1, T2) == S2
  {
    assert Sweep(S1, 0) == S1;
    assert FIRST.received + "" == "";
    assert HandleRead(OK_SITE, S1, 7, [], 0) == S2;
    assert T2.events[1..] == [];
  }

  lemma LastTurn()
    ensures TickOk(OK_SITE, S2, T3)
    ensures Turn(OK_SITE, S2, T3).conns == [ANSWERED.(fate := TimedOut), SECOND_CONN.(wrote := true, fate := Finished)]
  {
    assert Sweep(S2, T3.now) == SWEPT;
    var a := Accepted(7, 31 * SECOND);
    AcceptSingle(SWEPT, a);
    var reused := Dispatch(OK_SITE, SWEPT, T3.events[0]);
    assert reused == AcceptOne(SWEPT, a);
    assert reused.conns == [ANSWERED.(fate := TimedOut), SECOND_CONN];
    assert T3.events[1..] == [Plain(7, true)] && [Plain(7, true)][1..] == [];
    assert DispatchAll(OK_SITE, SWEPT, T3.events) == Dispatch(OK_SITE, reused, Plain(7, true));
  }

  /** Such a run exists: a descriptor times out and is handed out again between the return
      of epoll_wait and its write event, which then closes the new connection unanswered. */
  lemma StaleWriteEvent()
    ensures exists ticks ::
      && TicksOk(OK_SITE, START, ticks)
      && var conns := Run(OK_SITE, START, ticks).conns;
         |conns| == 2 && conns[0].fate == TimedOut && conns[1].fate == Finished && conns[1].response.None?
  {
    hide Turn, TickOk, Run, TicksOk;
    FirstTurn();
    SecondTurn();
    LastTurn();
    Replay(OK_SITE, T1, T2, T3);
    var conns := Run(OK_SITE, START, [T1, T2, T3]).conns;
    assert conns[0].fate == TimedOut && conns[1].fate == Finished;
  }

  lemma Replay(site: Site, t1: Tick, t2: Tick, t3: Tick)
    ensures var s1 := Turn(site, START, t1);
            var s2 := Turn(site, s1, t2);
            Run(site, START, [t1, t2, t3]) == Turn(site, s2, t3)
            && (TicksOk(site, START, [t1, t2, t3]) <==> TickOk(site, START, t1) && TickOk(site, s1, t2) && TickOk(site, s2, t3))
  {
    hide Turn, TickOk;
    var ticks := [t1, t2, t3];
    var s1 := Turn(site, START, t1);
    var s2 := Turn(site, s1, t2);
    assert ticks[1..] == [t2, t3] && [t2, t3][1..] == [t3] && [t3][1..] == [];
    assert Run(site, START, ticks) == Run(site, s1, [t2, t3]) == Run(site, s2, [t3]) == Run(site, Turn(site, s2, t3), []);
    assert TicksOk(site, s2, [t3]) <==> TickOk(site, s2, t3);
    assert TicksOk(site, s1, [t2, t3]) <==> TickOk(site, s1, t2) && TicksOk(site, s2, [t3]);
  }

  const STALE_READ := Event(7, false, [], [], [], 0)

  function StaleTicks(site: Site): seq<Tick> {
    [Tick(0, [Event(site.listener, false, [Accepted(7, 0)], [], [], 0)]),
     Tick(31 * SECOND, [Event(site.listener, false, [Accepted(7, 31 * SECOND)], [], [], 0), STALE_READ])]
  }

  const SWEPT1 := State(map[], map[], map[], map[], map[], [FIRST.(fate := TimedOut)], true)

  const REGIVEN := State(map[7 := ""], map[], map[7 := 31 * SECOND], map[7 := In], map[7 := 1],
                         [FIRST.(fate := TimedOut), SECOND_CONN], true)

  lemma TwoEvents(site: Site, s: State, e1: Event, e2: Event)
    ensures DispatchAll(site, s, [e1, e2]) == Dispatch(site, Dispatch(site, s, e1), e2)
    ensures EventsOk(site, s, [e1, e2]) <==> EventOk(site, s, e1) && EventOk(site, Dispatch(site, s, e1), e2)
  {
    hide Dispatch, EventOk;
    var s1 := Dispatch(site, s, e1);
    assert [e1, e2][1..] == [e2] && [e2][1..] == [];
    assert DispatchAll(site, s, [e1, e2]) == DispatchAll(site, s1, [e2]) == DispatchAll(site, Dispatch(site, s1, e2), []);
    assert EventsOk(site, s1, [e2]) <==> EventOk(site, s1, e2);
  }

  lemma Regives(site: Site)
    requires site.listener != 7
    ensures var e := Event(site.listener, false, [Accepted(7, 31 * SECOND)], [], [], 0);
            EventOk(site, SWEPT1, e) && Dispatch(site, SWEPT1, e) == REGIVEN
  {
    AcceptSingle(SWEPT1, Accepted(7, 31 * SECOND));
  }

  lemma ReadsNothing(site: Site)
    requires site.listener != 7 && site.reply("", 0).Some?
    ensures Dispatch(site, REGIVEN, STALE_READ).conns
            == [FIRST.(fate := TimedOut), SECOND_CONN.(response := Some(site.reply("", 0).value.bytes))]
  {
    assert "" + "" == "" && Receive(REGIVEN, 7, "") == REGIVEN;
    assert Dispatch(site, REGIVEN, STALE_READ) == Respond(site, REGIVEN, 7, 0);
  }

  lemma StaleRead(site: Site)
    requires site.listener != 7 && site.reply("", 0).Some?
    ensures var t := StaleTicks(site)[1];
            && TickOk(site, S1, t) && ReadReady(site, S1, t)
            && Turn(site, S1, t).conns == [FIRST.(fate := TimedOut), SECOND_CONN.(response := Some(site.reply("", 0).value.bytes))]
  {
    hide Dispatch, EventsOk, DispatchAll;
    var t := StaleTicks(site)[1];
    assert Sweep(S1, t.now) == SWEPT1;
    TwoEvents(site, SWEPT1, t.events[0], t.events[1]);
    Regives(site);
    ReadsNothing(site);
    assert t.events == [t.events[0], t.events[1]];
  }

  /** Such a run exists as well: a descriptor times out and is handed out again between the
      return of epoll_wait and its read event, which finds nothing on the new connection and
      answers the empty buffer; the request that comes is never read. */
  lemma StaleReadEvent(site: Site)
    requires site.listener != 7 && site.reply("", 0).Some?
    ensures TicksOk(site, START, StaleTicks(site)) && ReadsReady(site, StaleTicks(site))
    ensures Run(site, START, StaleTicks(site)).conns
            == [FIRST.(fate := TimedOut), SECOND_CONN.(response := Some(site.reply("", 0).value.bytes))]
  {
    hide Turn, TickOk, Run, TicksOk, ReadReady;
    var ticks := StaleTicks(site);
    ClientAccepted(site);
    StaleRead(site);
    ReplayTwo(site, ticks[0], ticks[1]);
    assert ticks == [ticks[0], ticks[1]];
    assert ReadReady(site, START, ticks[0]) by { NothingToRead(site); }
    BeforeNext(site, ticks, 0);
    assert Before(site, ticks, 0) == START by { NoTurns(site, ticks); }
  }

  lemma NothingToRead(site: Site)
    ensures ReadReady(site, START, StaleTicks(site)[0])
  {
  }

  lemma NoTurns(site: Site, ticks: seq<Tick>)
    ensures Before(site, ticks, 0) == START
  {
    assert ticks[..0] == [];
  }

  // A 413 answer of two bytes, of which one has gone out.
  const BIG := Tick(0, [Event(7, false, [], [Data("big")], [], 0)])
  const ONE := Tick(0, [Event(7, true, [], [], [Wrote(1)], 0)])

  const BIG_ANSWERED := Conn(7, 0, "big", Some("ok"), 0, "", false, Open)
  const S3 := State(map[7 := "big"], map[7 := "ok"], map[7 := 0], map[7 := Out], map[7 := 0], [BIG_ANSWERED], true)
  const HALF_SENT := BIG_ANSWERED.(sent := "o", wrote := true)
  const S4 := State(map[7 := "big"], map[7 := "k"], map[], map[7 := Out], map[7 := 0], [HALF_SENT], true)

  lemma BigTurn()
    ensures TickOk(OK_SITE, S1, BIG) && Turn(OK_SITE, S1, BIG) == S3
  {
    assert Sweep(S1, 0) == S1;
    assert ReadAll([Data("big")]) == ReadRun("big", Drained) by {
      assert [Data("big")][1..] == [] && ReadAll([]) == ReadRun("", Drained) && "big" + "" == "big";
    }
    assert "" + "big" == "big";
    assert HandleRead(OK_SITE, S1, 7, [Data("big")], 0) == S3;
    assert BIG.events[1..] == [];
  }

  lemma OneTurn()
    ensures TickOk(OK_SITE, S3, ONE) && Turn(OK_SITE, S3, ONE) == S4
  {
    assert Sweep(S3, 0) == S3;
    assert WriteAll("ok", [Wrote(1)]) == WriteRun(1, Full) by {
      assert "ok"[1..] == "k" && [Wrote(1)][1..] == [] && WriteAll("k", []) == WriteRun(0, Full);
    }
    assert "ok"[..1] == "o" && "ok"[1..] == "k" && "" + "o" == "o";
    assert ONE.events[1..] == [];
  }

  /** The assumption on events without EPOLLOUT cannot be dropped: after a 413 answer the
      read buffer is still there, so such an event for a socket watched for writing starts
      the answer over, behind the part already sent. A run gets there. */
  lemma ErrorOnlyEventRestartsAnswer()
    ensures exists ticks, e ::
      && TicksOk(OK_SITE, START, ticks)
      && var s := Run(OK_SITE, START, ticks);
      && EventOk(OK_SITE, s, e) && e.fd != OK_SITE.listener && !e.out
      && IsOpen(s, e.fd) && ConnOf(s, e.fd).sent == "o" && s.writeBuffers == map[e.fd := "k"]
      && Dispatch(OK_SITE, s, e).writeBuffers == map[e.fd := "ok"]
      && !Invariant(OK_SITE, Dispatch(OK_SITE, s, e))
  {
    var e := Plain(7, false);
    RestartsAnswer();
    hide Turn, TickOk, Run, TicksOk, Invariant;
    FirstTurn();
    BigTurn();
    OneTurn();
    Replay(OK_SITE, T1, BIG, ONE);
    assert Run(OK_SITE, START, [T1, BIG, ONE]) == S4 && TicksOk(OK_SITE, START, [T1, BIG, ONE]);
    assert EventOk(OK_SITE, S4, e);
  }

  lemma RestartsAnswer()
    ensures var s1 := Dispatch(OK_SITE, S4, Plain(7, false));
            s1.writeBuffers == map[7 := "ok"] && !Invariant(OK_SITE, s1)
  {
    var s1 := Dispatch(OK_SITE, S4, Plain(7, false));
    assert "big" + "" == "big";
    assert s1.writeBuffers == map[7 := "ok"];
    assert IsOpen(s1, 7) && ConnOf(s1, 7).sent + s1.writeBuffers[7] == "ook" != "ok";
    assert !LiveOk(s1, 7);
  }

  // ---- One client, one drain -----------------------------------------------

  /** A client is accepted on descriptor 7; its first read event yields first, then would
      block, with rest arriving behind; then it is ready for writing. */
  function ClientTicks(site: Site, first: string, rest: string, world: nat, n: nat): seq<Tick> {
    [Tick(0, [Event(site.listener, false, [Accepted(7, 0)], [], [], 0)]),
     Tick(0, [Event(7, false, [], [Data(first), ReadWouldBlock, Data(rest)], [], world)]),
     Tick(0, [Event(7, true, [], [], [Wrote(n)], 0)])]
  }

  /** A turn of one event in which nothing times out. */
  lemma TurnOne(site: Site, s: State, e: Event)
    requires s.running && Sweep(s, 0) == s
    ensures Turn(site, s, Tick(0, [e])) == Dispatch(site, s, e)
    ensures TickOk(site, s, Tick(0, [e])) <==> Pending(site, s, [e]) && WriteReady(site, s, [e]) && EventOk(site, s, e)
  {
    hide Sweep, Dispatch, Pending, WriteReady, EventOk;
    assert [e][1..] == [];
    assert DispatchAll(site, s, [e]) == DispatchAll(site, Dispatch(site, s, e), []) == Dispatch(site, s, e);
    assert EventsOk(site, s, [e]) <==> EventOk(site, s, e) && EventsOk(site, Dispatch(site, s, e), []);
  }

  function Heard(first: string): State {
    State(map[7 := first], map[], map[7 := 0], map[7 := In], map[7 := 0], [FIRST.(received := first)], true)
  }

  lemma ClientAccepted(site: Site)
    requires site.listener != 7
    ensures var t := Tick(0, [Event(site.listener, false, [Accepted(7, 0)], [], [], 0)]);
            TickOk(site, START, t) && Turn(site, START, t) == S1
  {
    var e := Event(site.listener, false, [Accepted(7, 0)], [], [], 0);
    assert Sweep(START, 0) == START;
    AcceptSingle(START, Accepted(7, 0));
    assert Dispatch(site, START, e) == AcceptOne(START, Accepted(7, 0)) == S1;
    TurnOne(site, START, e);
  }

  lemma ClientHeard(site: Site, first: string, rest: string, world: nat)
    requires site.listener != 7 && first != ""
    ensures var t := Tick(0, [Event(7, false, [], [Data(first), ReadWouldBlock, Data(rest)], [], world)]);
            TickOk(site, S1, t) && Turn(site, S1, t) == Respond(site, Heard(first), 7, world)
  {
    hide Respond;
    var script := [Data(first), ReadWouldBlock, Data(rest)];
    var e := Event(7, false, [], script, [], world);
    assert Sweep(S1, 0) == S1;
    assert ReadAll(script) == ReadRun(first, Drained) by {
      assert script[1..] == [ReadWouldBlock, Data(rest)] && first + "" == first;
      assert ReadAll([ReadWouldBlock, Data(rest)]) == ReadRun("", Drained);
    }
    assert "" + first == first;
    assert Receive(S1, 7, first) == Heard(first);
    assert Dispatch(site, S1, e) == Respond(site, Heard(first), 7, world);
    TurnOne(site, S1, e);
  }

  function Asked(first: string, reply: string, world: nat): State {
    State(map[], map[7 := reply], map[7 := 0], map[7 := Out], map[7 := 0],
          [FIRST.(received := first, response := Some(reply), world := world)], true)
  }

  lemma ClientServed(site: Site, first: string, reply: string, world: nat)
    requires site.listener != 7 && reply != ""
    ensures var t := Tick(0, [Event(7, true, [], [], [Wrote(|reply|)], 0)]);
            TickOk(site, Asked(first, reply, world), t)
            && Turn(site, Asked(first, reply, world), t).conns == [Conn(7, 0, first, Some(reply), world, reply, true, Finished)]
            && Turn(site, Asked(first, reply, world), t).running
  {
    var s, e := Asked(first, reply, world), Event(7, true, [], [], [Wrote(|reply|)], 0);
    assert Sweep(s, 0) == s;
    assert WriteAll(reply, e.writing) == WriteRun(|reply|, AllSent) by { assert reply[|reply|..] == ""; }
    assert "" + reply[..|reply|] == reply;
    TurnOne(site, s, e);
  }

  /** Every message can be cut like this: the first part is answered as if it were all, the
      answer goes out, the connection is closed as complete, and the rest is never read. */
  lemma SplitMessage(site: Site, first: string, rest: string, world: nat)
    requires site.listener != 7 && first != "" && site.reply(first, world).Some?
    requires !site.reply(first, world).value.tooLarge && site.reply(first, world).value.bytes != ""
    ensures var reply := site.reply(first, world).value.bytes;
            var ticks := ClientTicks(site, first, rest, world, |reply|);
            && TicksOk(site, START, ticks)
            && Run(site, START, ticks).conns == [Conn(7, 0, first, Some(reply), world, reply, true, Finished)]
  {
    var reply := site.reply(first, world).value.bytes;
    assert Respond(site, Heard(first), 7, world) == Asked(first, reply, world);
    hide Respond, Turn, TickOk, Run, TicksOk;
    var ticks := ClientTicks(site, first, rest, world, |reply|);
    ClientAccepted(site);
    ClientHeard(site, first, rest, world);
    ClientServed(site, first, reply, world);
    Replay(site, ticks[0], ticks[1], ticks[2]);
  }

  /** A first part without a reply stops the loop for everyone. */
  lemma StoppingMessage(site: Site, first: string, world: nat)
    requires site.listener != 7 && first != "" && site.reply(first, world).None?
    ensures var ticks := ClientTicks(site, first, "", world, 0)[..2];
            && TicksOk(site, START, ticks)
            && !Run(site, START, ticks).running && Run(site, START, ticks).conns == [FIRST.(received := first)]
  {
    assert Respond(site, Heard(first), 7, world) == Heard(first).(running := false);
    hide Respond, Turn, TickOk, Run, TicksOk;
    var ticks := ClientTicks(site, first, "", world, 0);
    ClientAccepted(site);
    ClientHeard(site, first, "", world);
    ReplayTwo(site, ticks[0], ticks[1]);
    assert ticks[..2] == [ticks[0], ticks[1]];
  }

  lemma ReplayTwo(site: Site, t1: Tick, t2: Tick)
    ensures var s1 := Turn(site, START, t1);
            Run(site, START, [t1, t2]) == Turn(site, s1, t2)
            && (TicksOk(site, START, [t1, t2]) <==> TickOk(site, START, t1) && TickOk(site, s1, t2))
  {
    hide Turn, TickOk;
    var s1 := Turn(site, START, t1);
    assert [t1, t2][1..] == [t2] && [t2][1..] == [];
    assert Run(site, START, [t1, t2]) == Run(site, s1, [t2]) == Run(site, Turn(site, s1, t2), []);
    assert TicksOk(site, s1, [t2]) <==> TickOk(site, s1, t2);
  }
}
