/** What single events of the loop (src/server.rs) come to, in terms of what the kernel
    answers alone, and what that makes of a response over whole runs. */
module ConnectionEvents {
  import opened Text
  import opened Connections
  import opened ConnectionInvariant
  import opened ConnectionRuns
  import opened ConnectionSteps

  // ---- One drain: what read() answers --------------------------------------

  function Datas(ps: seq<string>): (script: seq<ReadResult>)
    ensures |script| == |ps| && forall i :: 0 <= i < |ps| ==> script[i] == Data(ps[i])
  {
    seq(|ps|, i requires 0 <= i < |ps| => Data(ps[i]))
  }

  predicate NonEmpty(ps: seq<string>) { forall i :: 0 <= i < |ps| ==> ps[i] != "" }

  /** What stands behind the pieces of a read that ends so. */
  predicate EndsRead(rest: seq<ReadResult>, end: ReadEnd) {
    match end
    case Drained => rest == [] || rest[0] == ReadWouldBlock
    case Eof => rest != [] && rest[0] == Data("")
    case Broke => rest != [] && rest[0] == ReadError
  }

  predicate ReadsAs(script: seq<ReadResult>, ps: seq<string>, rest: seq<ReadResult>, end: ReadEnd) {
    script == Datas(ps) + rest && NonEmpty(ps) && EndsRead(rest, end)
  }

  lemma {:induction false} PiecesJoin(ps: seq<string>, rest: seq<ReadResult>, end: ReadEnd)
    requires NonEmpty(ps) && EndsRead(rest, end)
    ensures ReadAll(Datas(ps) + rest) == ReadRun(Concat(ps), end)
  {
    var script := Datas(ps) + rest;
    if ps == [] {
      assert script == rest;
    } else {
      assert script[0] == Data(ps[0]) && script[1..] == Datas(ps[1..]) + rest;
      PiecesJoin(ps[1..], rest, end);
    }
  }

  lemma {:induction false} PiecesOfScript(script: seq<ReadResult>) returns (ps: seq<string>, rest: seq<ReadResult>)
    ensures ReadsAs(script, ps, rest, ReadAll(script).end)
  {
    if script == [] || !script[0].Data? || script[0].bytes == "" {
      ps, rest := [], script;
      assert Datas([]) + script == script;
    } else {
      ps, rest := PiecesOfScript(script[1..]);
      assert script == [script[0]] + script[1..];
      assert Datas([script[0].bytes] + ps) == [script[0]] + Datas(ps);
      ps := [script[0].bytes] + ps;
    }
  }

  /** A drain yields some bytes and ends in some way if and only if the socket gives pieces
      that join, in order, to these bytes, and then nothing more, an end of file or an error. */
  lemma ReadAllExactly(script: seq<ReadResult>, bytes: string, end: ReadEnd)
    ensures ReadAll(script) == ReadRun(bytes, end) <==>
            exists ps, rest :: ReadsAs(script, ps, rest, end) && Concat(ps) == bytes
  {
    var ps, rest := PiecesOfScript(script);
    PiecesJoin(ps, rest, ReadAll(script).end);
    if qs, more :| ReadsAs(script, qs, more, end) && Concat(qs) == bytes { PiecesJoin(qs, more, end); }
  }

  /** The same drain with the bytes cut into other pieces. */
  ghost predicate Recut(e: Event, f: Event) {
    f == e.(reading := f.reading)
    && exists ps, qs, rest, end :: Concat(ps) == Concat(qs) && ReadsAs(e.reading, ps, rest, end) && ReadsAs(f.reading, qs, rest, end)
  }

  ghost predicate RecutTick(t: Tick, u: Tick) {
    t.now == u.now && |t.events| == |u.events|
    && forall i :: 0 <= i < |t.events| ==> t.events[i] == u.events[i] || Recut(t.events[i], u.events[i])
  }

  lemma RecutEvent(site: Site, s: State, e: Event, f: Event)
    requires e == f || Recut(e, f)
    ensures Dispatch(site, s, e) == Dispatch(site, s, f)
  {
    if ps, qs, rest, end :| e != f && Concat(ps) == Concat(qs) && ReadsAs(e.reading, ps, rest, end) && ReadsAs(f.reading, qs, rest, end) {
      PiecesJoin(ps, rest, end);
      PiecesJoin(qs, rest, end);
    }
  }

  lemma {:induction false} RecutBatch(site: Site, s: State, es: seq<Event>, fs: seq<Event>)
    requires |es| == |fs| && forall i :: 0 <= i < |es| ==> es[i] == fs[i] || Recut(es[i], fs[i])
    ensures DispatchAll(site, s, es) == DispatchAll(site, s, fs)
    decreases |es|
  {
    hide Dispatch, Recut;
    if es != [] {
      RecutEvent(site, s, es[0], fs[0]);
      RecutBatch(site, Dispatch(site, s, es[0]), es[1..], fs[1..]);
    }
  }

  /** How the bytes of a drain are cut into reads makes no difference to any run. */
  lemma {:induction false} RunRecut(site: Site, s: State, ticks: seq<Tick>, us: seq<Tick>)
    requires |ticks| == |us| && forall m :: 0 <= m < |ticks| ==> RecutTick(ticks[m], us[m])
    ensures Run(site, s, ticks) == Run(site, s, us)
    decreases |ticks|
  {
    hide Dispatch, Recut, Sweep, DispatchAll;
    if ticks != [] {
      var s1 := Sweep(s, ticks[0].now);
      RecutBatch(site, s1, ticks[0].events, us[0].events);
      RunRecut(site, Turn(site, s, ticks[0]), ticks[1..], us[1..]);
    }
  }

  /** In every run, the pieces that the draining read of a connection got are joined in the
      order in which they came, and that is what is answered. */
  lemma PiecesAnswered(site: Site, ticks: seq<Tick>, g: nat, n: nat, ps: seq<string>, rest: seq<ReadResult>)
    requires TicksOk(site, START, ticks) && g < |Run(site, START, ticks).conns| && DrainAt(site, StepsOf(ticks), n, g)
    requires ReadsAs(StepsOf(ticks)[n].e.reading, ps, rest, Drained)
    ensures var c, e := Run(site, START, ticks).conns[g], StepsOf(ticks)[n].e;
            && c.received == Concat(ps)
            && (site.reply(Concat(ps), e.world).Some? ==> c.response == Some(site.reply(Concat(ps), e.world).value.bytes))
  {
    hide Run, TicksOk, From;
    PiecesJoin(ps, rest, Drained);
    AnsweredExactly(site, ticks, g);
  }

  // ---- One write event: what write() answers -------------------------------

  /** The first i answers each take some bytes. */
  predicate Taking(script: seq<WriteResult>, i: nat) {
    i <= |script| && forall j :: 0 <= j < i ==> script[j].Wrote? && script[j].n > 0
  }

  /** How many bytes the first i answers offer to take. */
  function Offer(script: seq<WriteResult>, i: nat): nat
    requires Taking(script, i)
  {
    if i == 0 then 0 else Offer(script, i - 1) + script[i - 1].n
  }

  /** The counts cover a buffer of size bytes. */
  ghost predicate Covers(script: seq<WriteResult>, size: nat) {
    exists i: nat :: Taking(script, i) && Offer(script, i) >= size
  }

  predicate BreaksAt(script: seq<WriteResult>, i: nat) {
    i < |script| && Taking(script, i) && (script[i] == WriteError || script[i] == Wrote(0))
  }

  /** An error or a count of zero comes while bytes are left. */
  ghost predicate Breaks(script: seq<WriteResult>, size: nat) {
    exists i: nat :: BreaksAt(script, i) && Offer(script, i) < size
  }

  /** Where the counts stop: at the end, at a would-block, or at an error or a zero. */
  predicate StopsAt(script: seq<WriteResult>, i: nat) {
    Taking(script, i) && (i < |script| ==> !(script[i].Wrote? && script[i].n > 0))
  }

  /** The answers up to there. */
  function Stop(script: seq<WriteResult>): (i: nat)
    ensures StopsAt(script, i)
  {
    StopFrom(script, 0)
  }

  function StopFrom(script: seq<WriteResult>, i: nat): (r: nat)
    requires Taking(script, i)
    ensures StopsAt(script, r) && i <= r
    decreases |script| - i
  {
    if i < |script| && script[i].Wrote? && script[i].n > 0 then StopFrom(script, i + 1) else i
  }

  /** The bytes a write event can take at most. */
  function Offered(script: seq<WriteResult>): nat { Offer(script, Stop(script)) }

  lemma StopUnique(script: seq<WriteResult>, i: nat, j: nat)
    requires StopsAt(script, i) && Taking(script, j)
    ensures j <= i
  {
  }

  lemma {:induction false} OfferGrows(script: seq<WriteResult>, i: nat, j: nat)
    requires Taking(script, j) && i <= j
    ensures Offer(script, i) <= Offer(script, j)
    decreases j - i
  {
    if i < j { OfferGrows(script, i, j - 1); }
  }

  /** Covering and breaking, at the one place where the counts stop. */
  lemma AtStop(script: seq<WriteResult>, size: nat)
    ensures Covers(script, size) <==> Offered(script) >= size
    ensures Breaks(script, size) <==> BreaksAt(script, Stop(script)) && Offered(script) < size
  {
    if i: nat :| Taking(script, i) && Offer(script, i) >= size {
      StopUnique(script, Stop(script), i);
      OfferGrows(script, i, Stop(script));
    }
    if i: nat :| BreaksAt(script, i) && Offer(script, i) < size {
      StopUnique(script, Stop(script), i);
      assert StopsAt(script, i);
      StopUnique(script, i, Stop(script));
    }
  }

  lemma {:induction false} OfferTail(script: seq<WriteResult>, i: nat)
    requires Taking(script, i) && i > 0
    ensures Taking(script[1..], i - 1) && Offer(script, i) == script[0].n + Offer(script[1..], i - 1)
    decreases i
  {
    if i > 1 {
      OfferTail(script, i - 1);
      assert script[1..][i - 2] == script[i - 1];
    }
  }

  lemma StopTail(script: seq<WriteResult>)
    requires script != [] && script[0].Wrote? && script[0].n > 0
    ensures Stop(script) == Stop(script[1..]) + 1 && Offered(script) == script[0].n + Offered(script[1..])
    ensures BreaksAt(script, Stop(script)) <==> BreaksAt(script[1..], Stop(script[1..]))
  {
    var i, k := Stop(script), Stop(script[1..]);
    forall j | 0 <= j < k + 1 ensures script[j].Wrote? && script[j].n > 0 {
      if j > 0 { assert script[1..][j - 1] == script[j]; }
    }
    StopUnique(script, i, k + 1);
    OfferTail(script, i);
    StopUnique(script[1..], k, i - 1);
    hide Stop;
    assert k < |script[1..]| ==> script[1..][k] == script[k + 1];
  }

  /** The loop over write(), exactly: what it takes and how it ends. */
  lemma {:induction false} WriteAllExactly(data: string, script: seq<WriteResult>)
    ensures WriteAll(data, script).taken == Min(Offered(script), |data|)
    ensures WriteAll(data, script).end ==
            if Offered(script) >= |data| then AllSent else if BreaksAt(script, Stop(script)) then Cut else Full
    decreases |script|
  {
    if data != "" && script != [] && script[0].Wrote? && script[0].n > 0 {
      StopTail(script);
      WriteAllExactly(data[Min(script[0].n, |data|)..], script[1..]);
    }
  }

  /** A write event of an open connection with a write buffer. */
  predicate Writes(site: Site, s: State, step: Step, g: nat) {
    && step.Ready? && s.running && step.e.fd != site.listener && step.e.out
    && IsOpen(s, step.e.fd) && s.sockets[step.e.fd] == g && step.e.fd in s.writeBuffers
  }

  /** A write event, in terms of what write() answers. With an error or a count of zero while
      bytes are left, the connection ends as failed; when the counts cover the buffer, it
      ends as finished with all of it sent; otherwise it stays open and watched for writing,
      with exactly the rest buffered. What is sent is the front of the buffer. */
  lemma WriteEventExactly(site: Site, s: State, step: Step, g: nat)
    requires Invariant(site, s) && Writes(site, s, step, g)
    ensures g < |s.conns| == |Do(site, s, step).conns|
    ensures var fd, script, data := step.e.fd, step.e.writing, s.writeBuffers[step.e.fd];
            var s1 := Do(site, s, step);
            var c := s1.conns[g];
            && (c.fate == WriteFailed <==> Breaks(script, |data|))
            && (c.fate == Finished <==> Covers(script, |data|))
            && (!Breaks(script, |data|) && !Covers(script, |data|) ==>
                  && c.fate == Open && IsOpen(s1, fd) && s1.sockets[fd] == g && fd in s1.interest && s1.interest[fd] == Out
                  && Offered(script) < |data| && fd in s1.writeBuffers && s1.writeBuffers[fd] == data[Offered(script)..])
            && (Breaks(script, |data|) || Covers(script, |data|) ==>
                  fd !in s1.sockets && fd !in s1.interest && fd !in s1.writeBuffers)
            && c.sent == s.conns[g].sent + data[..Min(Offered(script), |data|)]
            && c.response == s.conns[g].response && c.wrote && fd !in s1.connectTimes && s1.running
  {
    var fd, script, data := step.e.fd, step.e.writing, s.writeBuffers[step.e.fd];
    AtStop(script, |data|);
    WriteAllExactly(data, script);
    hide WriteAll, Offered, HistoryOk, BreaksAt, Covers, Breaks;
    assert LiveOk(s, fd);
  }

  // ---- One read event ------------------------------------------------------

  /** A read event of an open connection. */
  predicate Hears(site: Site, s: State, step: Step, g: nat) {
    && step.Ready? && s.running && step.e.fd != site.listener && !step.e.out
    && IsOpen(s, step.e.fd) && s.sockets[step.e.fd] == g
  }

  /** A read event of a socket watched for reading, in terms of what read() answers. An end of
      file unregisters the connection, drops its buffer and leaves it open; an error closes
      it. When there is no more to read, the reply to the buffer is queued and the socket is
      turned to writing; the read buffer stays when the size check made the reply. The timer
      is left alone in every case. */
  lemma ReadEventExactly(site: Site, s: State, step: Step, g: nat)
    requires Invariant(site, s) && Hears(site, s, step, g) && step.e.fd in s.interest && s.interest[step.e.fd] == In
    ensures g < |s.conns| == |Do(site, s, step).conns|
    ensures var fd, run, s1 := step.e.fd, ReadAll(step.e.reading), Do(site, s, step);
            var c, all := s1.conns[g], s.conns[g].received + run.bytes;
            && c.received == all && s1.connectTimes == s.connectTimes
            && match run.end
               case Eof =>
                 && c.fate == Open && IsOpen(s1, fd) && s1.sockets[fd] == g && c.response.None? && s1.running
                 && fd !in s1.interest && fd !in s1.readBuffers && fd !in s1.writeBuffers
               case Broke =>
                 && c.fate == ReadFailed && c.response.None? && s1.running
                 && fd !in s1.sockets && fd !in s1.interest && fd !in s1.readBuffers && fd !in s1.writeBuffers
               case Drained =>
                 var r := site.reply(all, step.e.world);
                 c.fate == Open && IsOpen(s1, fd) && s1.sockets[fd] == g && s1.running == r.Some?
                 && (if r.None? then c.response.None?
                     else c.response == Some(r.value.bytes) && fd in s1.interest && s1.interest[fd] == Out
                          && fd in s1.writeBuffers && s1.writeBuffers[fd] == r.value.bytes
                          && (fd in s1.readBuffers <==> r.value.tooLarge))
  {
    hide HistoryOk, ReadAll;
    assert LiveOk(s, step.e.fd);
  }

  // ---- One accept ----------------------------------------------------------

  function Fresh(a: Accepted): Conn { Conn(a.fd, a.at, "", None, 0, "", false, Open) }

  /** The tables under a descriptor that was just accepted. */
  predicate Welcomed(s: State, a: Accepted, g: nat) {
    && g < |s.conns| && s.conns[g] == Fresh(a) && a.fd in s.sockets && s.sockets[a.fd] == g
    && a.fd in s.interest && s.interest[a.fd] == In && a.fd in s.readBuffers && s.readBuffers[a.fd] == ""
    && a.fd in s.connectTimes && s.connectTimes[a.fd] == a.at
  }

  /** Every accept opens one connection, in order, watched for reading, with an empty buffer
      and a timer that starts at its own time. */
  lemma {:induction false} AcceptsExactly(s: State, accepts: seq<Accepted>, i: nat)
    requires i < |accepts| && forall j, k :: 0 <= j < k < |accepts| ==> accepts[j].fd != accepts[k].fd
    ensures Welcomed(AcceptAll(s, accepts), accepts[i], |s.conns| + i)
    ensures |AcceptAll(s, accepts).conns| == |s.conns| + |accepts|
    decreases |accepts|
  {
    var s1 := AcceptOne(s, accepts[0]);
    assert forall j :: 0 <= j < |accepts| - 1 ==> accepts[1..][j] == accepts[j + 1];
    if i > 0 {
      AcceptsExactly(s1, accepts[1..], i - 1);
    } else {
      StaysWelcome(s1, accepts[1..], accepts[0], |s.conns|);
    }
  }

  lemma {:induction false} StaysWelcome(s: State, accepts: seq<Accepted>, a: Accepted, g: nat)
    requires Welcomed(s, a, g) && forall j :: 0 <= j < |accepts| ==> accepts[j].fd != a.fd
    ensures Welcomed(AcceptAll(s, accepts), a, g) && |AcceptAll(s, accepts).conns| == |s.conns| + |accepts|
    decreases |accepts|
  {
    if accepts != [] { StaysWelcome(AcceptOne(s, accepts[0]), accepts[1..], a, g); }
  }

  // ---- How connections end -------------------------------------------------

  predicate Waiting(s: State, g: nat) { s.running && g < |s.conns| && s.conns[g].fate == Open }

  /** A write event of an open connection that has nothing to send. */
  predicate WritesNothing(site: Site, s: State, step: Step, g: nat) {
    && step.Ready? && s.running && step.e.fd != site.listener && step.e.out
    && IsOpen(s, step.e.fd) && s.sockets[step.e.fd] == g && step.e.fd !in s.writeBuffers
  }

  /** The steps that end a connection, one kind for every fate. */
  ghost predicate EndsAs(site: Site, s: State, step: Step, g: nat, fate: Fate) {
    match fate
    case Open => false
    case TimedOut =>
      step.Timeout? && Waiting(s, g) && !s.conns[g].wrote && ElapsedSecs(step.now, s.conns[g].acceptedAt) > TIMEOUT_SECS
    case ReadFailed => Hears(site, s, step, g) && ReadAll(step.e.reading).end == Broke
    case WriteFailed => Writes(site, s, step, g) && Breaks(step.e.writing, |s.writeBuffers[step.e.fd]|)
    case Finished =>
      WritesNothing(site, s, step, g) || (Writes(site, s, step, g) && Covers(step.e.writing, |s.writeBuffers[step.e.fd]|))
  }

  ghost predicate Ended(s: State, g: nat, fate: Fate) { g < |s.conns| && s.conns[g].fate == fate }

  lemma SweepEnds(site: Site, s: State, now: Time, g: nat, fate: Fate)
    requires Invariant(site, s) && s.running && (g < |s.conns| ==> s.conns[g].fate == Open) && fate != Open
    ensures Ended(Sweep(s, now), g, fate) <==> EndsAs(site, s, Timeout(now), g, fate)
  {
    hide HistoryOk;
    if g < |s.conns| { assert LiveOk(s, s.conns[g].fd); }
  }

  lemma WriteEnds(site: Site, s: State, e: Event, g: nat, fate: Fate)
    requires Invariant(site, s) && s.running && e.fd != site.listener && e.out && IsOpen(s, e.fd) && s.sockets[e.fd] == g
    requires fate != Open
    ensures Ended(Dispatch(site, s, e), g, fate) <==> EndsAs(site, s, Ready(e), g, fate)
  {
    if e.fd in s.writeBuffers {
      WriteEventExactly(site, s, Ready(e), g);
      NotBoth(e.writing, |s.writeBuffers[e.fd]|);
      hide Dispatch, Invariant, Breaks, Covers;
    } else {
      hide LiveOk, HistoryOk, Tables;
    }
  }

  lemma NotBoth(script: seq<WriteResult>, size: nat)
    ensures !(Breaks(script, size) && Covers(script, size))
  {
    AtStop(script, size);
  }

  lemma HearEnds(site: Site, s: State, e: Event, g: nat, fate: Fate)
    requires Invariant(site, s) && StepOk(site, s, Ready(e)) && Hears(site, s, Ready(e), g) && fate != Open
    ensures Ended(Dispatch(site, s, e), g, fate) <==> EndsAs(site, s, Ready(e), g, fate)
  {
    hide LiveOk, HistoryOk, Tables, ReadAll, Respond;
    var s1 := Receive(s, e.fd, ReadAll(e.reading).bytes);
    assert ConnOf(s, e.fd).fate == Open && ConnOf(s1, e.fd).fate == Open;
    RespondLeaves(site, s1, e.fd, e.world);
  }

  lemma RespondLeaves(site: Site, s: State, fd: Fd, world: nat)
    requires IsOpen(s, fd) && ConnOf(s, fd).fate == Open
    ensures var s1 := Respond(site, s, fd, world); |s1.conns| == |s.conns| && s1.conns[s.sockets[fd]].fate == Open
  {
  }

  /** Which steps end a connection, and how: exactly these. */
  lemma StepEnds(site: Site, s: State, step: Step, g: nat, fate: Fate)
    requires Invariant(site, s) && StepOk(site, s, step) && (g < |s.conns| ==> s.conns[g].fate == Open) && fate != Open
    ensures Ended(Do(site, s, step), g, fate) <==> EndsAs(site, s, step, g, fate)
  {
    if !s.running {
      hide Invariant, Breaks, Covers;
    } else if step.Timeout? {
      SweepEnds(site, s, step.now, g, fate);
    } else {
      var e := step.e;
      if e.fd == site.listener {
        AcceptGrows(s, e.accepts);
        hide AcceptAll, Invariant;
      } else if IsOpen(s, e.fd) && s.sockets[e.fd] == g {
        if e.out { WriteEnds(site, s, e, g, fate); } else { HearEnds(site, s, e, g, fate); }
      } else {
        DispatchKeeps(site, s, e);
        hide Dispatch, Invariant, Extends;
      }
    }
  }

  ghost predicate EndsAt(site: Site, steps: seq<Step>, n: nat, g: nat, fate: Fate) {
    n < |steps| && EndsAs(site, From(site, START, steps, n), steps[n], g, fate)
  }

  lemma EndedStays(s: State, s1: State, g: nat, fate: Fate)
    requires ConnsExtend(s.conns, s1.conns) && fate != Open
    ensures Ended(s, g, fate) ==> Ended(s1, g, fate)
    ensures Ended(s1, g, Open) && g < |s.conns| ==> Ended(s, g, Open)
  {
    if g < |s.conns| { assert Extends(s.conns[g], s1.conns[g]); }
  }

  lemma FromNext(site: Site, steps: seq<Step>, n: nat)
    requires n < |steps|
    ensures From(site, START, steps, n + 1) == Do(site, From(site, START, steps, n), steps[n])
  {
  }

  lemma FromStart(site: Site, steps: seq<Step>)
    ensures From(site, START, steps, 0) == START
  {
  }

  lemma StepsEnd(site: Site, steps: seq<Step>, g: nat, fate: Fate)
    requires Lawful(site, START, steps) && fate != Open
    ensures Ended(From(site, START, steps, |steps|), g, fate) <==> exists n: nat :: EndsAt(site, steps, n, g, fate)
  {
    hide Lawful, Invariant, Unread, Do, ConnsExtend, EndsAs, StepOk, From;
    var N := |steps|;
    FromStart(site, steps);
    if Ended(From(site, START, steps, N), g, fate) {
      var p := (k: nat) => k <= N && g < |From(site, START, steps, k).conns| && From(site, START, steps, k).conns[g].fate != Open;
      var n := Turning(p, N);
      var s, s1 := From(site, START, steps, n), From(site, START, steps, n + 1);
      MomentKeeps(site, steps, n);
      LawfulAt(site, steps, n);
      MomentsExtend(site, steps, n + 1, N);
      EndedStays(s1, From(site, START, steps, N), g, s1.conns[g].fate);
      FromNext(site, steps, n);
      StepEnds(site, s, steps[n], g, fate);
      assert EndsAt(site, steps, n, g, fate);
    }
    if n: nat :| EndsAt(site, steps, n, g, fate) {
      var s := From(site, START, steps, n);
      MomentKeeps(site, steps, n);
      LawfulAt(site, steps, n);
      assert g < |s.conns| ==> s.conns[g].fate == Open by { EndingIsOpen(site, s, steps[n], g, fate); }
      FromNext(site, steps, n);
      StepEnds(site, s, steps[n], g, fate);
      MomentsExtend(site, steps, n + 1, N);
      EndedStays(From(site, START, steps, n + 1), From(site, START, steps, N), g, fate);
    }
  }

  lemma EndingIsOpen(site: Site, s: State, step: Step, g: nat, fate: Fate)
    requires Invariant(site, s) && EndsAs(site, s, step, g, fate)
    ensures g < |s.conns| && s.conns[g].fate == Open
  {
    hide LiveOk, HistoryOk, Tables, Breaks, Covers;
  }

  /** Over every run: a connection has a fate if and only if one step of the run ended it so.
      It timed out in a sweep without having had a write event; a read failed; an error or a
      zero came in a write event while bytes were left; or a write event's counts covered all
      that was left, or there was nothing to send. No other step ends a connection. */
  lemma FateExactly(site: Site, ticks: seq<Tick>, g: nat, fate: Fate)
    requires TicksOk(site, START, ticks) && fate != Open
    ensures Ended(Run(site, START, ticks), g, fate) <==> exists n: nat :: EndsAt(site, StepsOf(ticks), n, g, fate)
  {
    hide Invariant, Unread, TicksOk, EndsAt;
    StartKept(site);
    RunLawful(site, START, ticks);
    RunSteps(site, START, ticks);
    StepsEnd(site, StepsOf(ticks), g, fate);
  }

  // ---- A response over its write events ------------------------------------

  predicate WriteAt(site: Site, steps: seq<Step>, n: nat, g: nat) {
    n < |steps| && Writes(site, From(site, START, steps, n), steps[n], g)
  }

  /** The bytes that the write events of a connection have offered to take, up to a moment. */
  function Total(site: Site, steps: seq<Step>, n: nat, g: nat): nat
    requires n <= |steps|
  {
    if n == 0 then 0
    else Total(site, steps, n - 1, g) + if WriteAt(site, steps, n - 1, g) then Offered(steps[n - 1].e.writing) else 0
  }

  ghost predicate HasWritten(site: Site, steps: seq<Step>, n: nat, g: nat) {
    exists m: nat :: m < n && WriteAt(site, steps, m, g)
  }

  /** What has gone out at a moment, from the counts alone. */
  ghost predicate SentSays(site: Site, steps: seq<Step>, n: nat, g: nat)
    requires n <= |steps|
  {
    var s, total := From(site, START, steps, n), Total(site, steps, n, g);
    if g < |s.conns| && s.conns[g].response.Some? then
      var c, r := s.conns[g], s.conns[g].response.value;
      && c.sent == r[..Min(|r|, total)]
      && (HasWritten(site, steps, n, g) <==> c.wrote)
      && (c.fate == Finished <==> HasWritten(site, steps, n, g) && total >= |r|)
    else total == 0 && !HasWritten(site, steps, n, g)
  }

  /** A step that is no write event of an answered connection sends nothing of it and does
      not finish it; when it answers the connection, nothing has been sent yet. */
  lemma OtherStep(site: Site, s: State, step: Step, g: nat)
    requires Invariant(site, s) && Unread(s) && StepOk(site, s, step) && !Writes(site, s, step, g)
    ensures var s1 := Do(site, s, step);
            && (g < |s.conns| && s.conns[g].response.Some? ==>
                  g < |s1.conns| && s1.conns[g].(fate := Open) == s.conns[g].(fate := Open)
                  && (s1.conns[g].fate == Finished <==> s.conns[g].fate == Finished))
            && (Answered(s1, g) && !Answered(s, g) ==>
                  s1.conns[g].sent == "" && !s1.conns[g].wrote && s1.conns[g].fate == Open)
  {
    StepKeeps(site, s, step);
    if Answered(s, g) {
      AnsweredStays(site, s, step, g);
    } else if Answered(Do(site, s, step), g) {
      if !Drains(site, s, step, Owner(s, step)) { OnlyDrains(site, s, step); }
      OnlyItsDrain(site, s, step, Owner(s, step), g);
      DrainEffect(site, s, step, g);
      DrainSendsNothing(site, s, step, g);
    }
  }

  lemma DrainSendsNothing(site: Site, s: State, step: Step, g: nat)
    requires Invariant(site, s) && Drains(site, s, step, g)
    ensures var s1 := Do(site, s, step); |s1.conns| == |s.conns| && s1.conns[g].sent == "" && !s1.conns[g].wrote
  {
    assert LiveOk(s, step.e.fd) && HistoryOk(site, ConnOf(s, step.e.fd));
    assert ConnOf(s, step.e.fd).sent == "";
    hide HistoryOk, LiveOk, ReadAll;
  }

  lemma AnsweredStays(site: Site, s: State, step: Step, g: nat)
    requires Invariant(site, s) && StepOk(site, s, step) && !Writes(site, s, step, g) && Answered(s, g)
    ensures var s1 := Do(site, s, step);
            g < |s1.conns| && s1.conns[g].(fate := Open) == s.conns[g].(fate := Open)
            && (s1.conns[g].fate == Finished <==> s.conns[g].fate == Finished)
  {
    if s.running && step.Ready? {
      var e := step.e;
      if e.fd == site.listener {
        AcceptGrows(s, e.accepts);
        hide AcceptAll, Invariant;
      } else {
        assert !(IsOpen(s, e.fd) && s.sockets[e.fd] == g) by { AnsweredIsWriting(site, s, step, g); }
        DispatchKeeps(site, s, e);
        hide Dispatch, Invariant, Extends;
      }
    } else if s.running {
      hide LiveOk, HistoryOk, Tables;
    }
  }

  /** The only events of an open answered connection are write events of its buffer. */
  lemma AnsweredIsWriting(site: Site, s: State, step: Step, g: nat)
    requires Invariant(site, s) && StepOk(site, s, step) && Answered(s, g) && s.running && step.Ready?
    ensures step.e.fd != site.listener && IsOpen(s, step.e.fd) && s.sockets[step.e.fd] == g ==> Writes(site, s, step, g)
  {
    hide HistoryOk;
    if IsOpen(s, step.e.fd) { assert LiveOk(s, step.e.fd); }
    assert [step.e][0] == step.e;
  }

  lemma HasWrittenNext(site: Site, steps: seq<Step>, n: nat, g: nat)
    ensures HasWritten(site, steps, n + 1, g) <==> HasWritten(site, steps, n, g) || WriteAt(site, steps, n, g)
  {
    hide WriteAt;
    if WriteAt(site, steps, n, g) { assert n < n + 1; }
  }

  lemma {:induction false} SentBySteps(site: Site, steps: seq<Step>, n: nat, g: nat)
    requires Lawful(site, START, steps) && n <= |steps|
    ensures SentSays(site, steps, n, g)
  {
    hide Lawful, Invariant, Unread, StepOk, Do, HasWritten, Writes, Offered, Extends;
    if n == 0 {
      assert !HasWritten(site, steps, 0, g) by { NoneWritten(site, steps, g); }
    } else {
      var s, step := From(site, START, steps, n - 1), steps[n - 1];
      SentBySteps(site, steps, n - 1, g);
      MomentKeeps(site, steps, n - 1);
      assert StepOk(site, s, step) by { LawfulAt(site, steps, n - 1); }
      HasWrittenNext(site, steps, n - 1, g);
      StepKeeps(site, s, step);
      if Writes(site, s, step, g) {
        WriteAdds(site, s, step, g, Total(site, steps, n - 1, g));
      } else {
        OtherStep(site, s, step, g);
        assert Answered(s, g) ==> Do(site, s, step).conns[g].sent == s.conns[g].sent;
      }
    }
  }

  lemma NoneWritten(site: Site, steps: seq<Step>, g: nat)
    ensures !HasWritten(site, steps, 0, g)
  {
  }

  /** What a write event adds to a response of which the front went out. */
  lemma WriteAdds(site: Site, s: State, step: Step, g: nat, total: nat)
    requires Invariant(site, s) && Writes(site, s, step, g)
    requires Answered(s, g) ==> s.conns[g].sent == s.conns[g].response.value[..Min(|s.conns[g].response.value|, total)]
    ensures g < |s.conns| && Answered(s, g) && s.conns[g].fate == Open
    ensures var s1 := Do(site, s, step);
            && Answered(s1, g) && s1.conns[g].response == s.conns[g].response && s1.conns[g].wrote
            && var r, all := s.conns[g].response.value, total + Offered(step.e.writing);
               s1.conns[g].sent == r[..Min(|r|, all)] && (s1.conns[g].fate == Finished <==> all >= |r|)
  {
    var fd := step.e.fd;
    assert LiveOk(s, fd);
    var r, data := s.conns[g].response.value, s.writeBuffers[fd];
    AtStop(step.e.writing, |data|);
    WriteEventExactly(site, s, step, g);
    hide Invariant, Do, Offered, Covers, Breaks;
    var k, m := Min(|r|, total), Min(Offered(step.e.writing), |data|);
    assert data == r[k..] by { assert r == r[..k] + data; }
    assert r[..k] + data[..m] == r[..k + m];
  }

  /** Over every run, a response goes out as the counts of its write events say, whatever the
      number of events, would-blocks and partial writes: what was sent is the front of the
      response of that length. The connection is finished if and only if it has had a write
      event and the counts reach the length of the response; it has failed to write if and
      only if an error or a zero came before they did; and after a write event without either
      it is open and watched for writing, with exactly the rest in its buffer. */
  lemma SentExactly(site: Site, ticks: seq<Tick>, g: nat)
    requires TicksOk(site, START, ticks)
    requires Answered(Run(site, START, ticks), g)
    ensures var s, steps := Run(site, START, ticks), StepsOf(ticks);
            var c, r, total := s.conns[g], s.conns[g].response.value, Total(site, steps, |steps|, g);
            && c.sent == r[..Min(|r|, total)]
            && (c.fate == Finished <==> HasWritten(site, steps, |steps|, g) && total >= |r|)
            && (c.fate == WriteFailed <==> exists n: nat :: EndsAt(site, steps, n, g, WriteFailed))
            && (HasWritten(site, steps, |steps|, g) && total < |r| && c.fate != WriteFailed ==>
                  && c.fate == Open && c.fd in s.interest && s.interest[c.fd] == Out
                  && c.fd in s.writeBuffers && s.writeBuffers[c.fd] == r[total..])
  {
    var steps := StepsOf(ticks);
    StartKept(site);
    RunLawful(site, START, ticks);
    RunSteps(site, START, ticks);
    SentBySteps(site, steps, |steps|, g);
    FateExactly(site, ticks, g, WriteFailed);
    OutputExact(site, ticks, g);
    RunKeeps(site, START, ticks);
    var s := Run(site, START, ticks);
    var c, r, total := s.conns[g], s.conns[g].response.value, Total(site, steps, |steps|, g);
    hide From, Run, TicksOk, Lawful, HasWritten, EndsAt, StepsOf, Total, DrainAt;
    assert HistoryOk(site, c);
    if c.fate == Open && total < |r| { assert r == r[..total] + r[total..] && r == c.sent + s.writeBuffers[c.fd]; }
  }
}
