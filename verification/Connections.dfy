/** The connection tables of the event loop (src/server.rs) as a state machine.

    The program's three tables, the kernel's two (the epoll interest list and the open
    sockets), and the history of every connection ever accepted. A descriptor is reused
    once closed; a connection is named by its generation, its index in conns. */
module Connections {
  import opened Text

  type Fd = int
  type Time = nat // nanoseconds

  const SECOND: nat := 1_000_000_000
  const TIMEOUT_SECS: nat := 30

  datatype Interest = In | Out

  datatype Fate = Open | TimedOut | ReadFailed | WriteFailed | Finished

  /** One connection, from accept to close: what arrived, what it was answered, what went out. */
  datatype Conn = Conn(
    fd: Fd,
    acceptedAt: Time,
    received: string,
    response: Option<string>,
    world: nat,        // the surroundings (files, processes) the response was built in
    sent: string,
    wrote: bool,       // a write event has been handled
    fate: Fate)

  datatype State = State(
    readBuffers: map<Fd, string>,
    writeBuffers: map<Fd, string>,
    connectTimes: map<Fd, Time>,
    interest: map<Fd, Interest>,
    sockets: map<Fd, nat>,
    conns: seq<Conn>,
    running: bool)

  /** The response to a buffer; tooLarge when the size check, not the handler, made it. */
  datatype Reply = Reply(bytes: string, tooLarge: bool)

  /** What a listener is set up with. None stands for a handler that panics. */
  datatype Site = Site(listener: Fd, reply: (string, nat) -> Option<Reply>)

  // ---- What the kernel answers ---------------------------------------------

  datatype ReadResult = Data(bytes: string) | ReadWouldBlock | ReadError
  datatype WriteResult = Wrote(n: nat) | WriteWouldBlock | WriteError
  datatype Accepted = Accepted(fd: Fd, at: Time)

  /** A ready descriptor, and what the calls made about it will be answered. A script
      that is used up answers WouldBlock; a write never takes more than it is given. */
  datatype Event = Event(
    fd: Fd,
    out: bool,                 // the EPOLLOUT flag
    accepts: seq<Accepted>,
    reading: seq<ReadResult>,
    writing: seq<WriteResult>,
    world: nat)

  /** One return of epoll_wait. */
  datatype Tick = Tick(now: Time, events: seq<Event>)

  datatype ReadEnd = Eof | Drained | Broke
  datatype ReadRun = ReadRun(bytes: string, end: ReadEnd)

  /** read() until it returns 0, would block or fails. */
  function ReadAll(script: seq<ReadResult>): ReadRun {
    if script == [] then ReadRun("", Drained)
    else match script[0]
      case ReadWouldBlock => ReadRun("", Drained)
      case ReadError => ReadRun("", Broke)
      case Data(bytes) =>
        if bytes == "" then ReadRun("", Eof)
        else var more := ReadAll(script[1..]); ReadRun(bytes + more.bytes, more.end)
  }

  datatype WriteEnd = AllSent | Full | Cut
  datatype WriteRun = WriteRun(taken: nat, end: WriteEnd)

  function Min(a: nat, b: nat): nat { if a < b then a else b }

  /** write() until the data is gone, it returns 0, would block or fails. */
  function WriteAll(data: string, script: seq<WriteResult>): (r: WriteRun)
    ensures r.taken <= |data| && (r.end == AllSent ==> r.taken == |data|)
    decreases |script|
  {
    if data == "" then WriteRun(0, AllSent)
    else if script == [] then WriteRun(0, Full)
    else match script[0]
      case WriteWouldBlock => WriteRun(0, Full)
      case WriteError => WriteRun(0, Cut)
      case Wrote(n) =>
        if n == 0 then WriteRun(0, Cut)
        else
          var k := Min(n, |data|);
          var more := WriteAll(data[k..], script[1..]);
          WriteRun(k + more.taken, more.end)
  }

  // ---- State changes -------------------------------------------------------

  predicate IsOpen(s: State, fd: Fd) { fd in s.sockets && s.sockets[fd] < |s.conns| }

  function ConnOf(s: State, fd: Fd): Conn
    requires IsOpen(s, fd)
  {
    s.conns[s.sockets[fd]]
  }

  function SetConn(s: State, fd: Fd, c: Conn): State
    requires IsOpen(s, fd)
  {
    s.(conns := s.conns[s.sockets[fd] := c])
  }

  /** close(): also unregisters. Closing a closed descriptor is an ignored error. */
  function Close(s: State, fd: Fd, fate: Fate): State {
    if IsOpen(s, fd) then
      SetConn(s, fd, ConnOf(s, fd).(fate := fate)).(sockets := s.sockets - {fd}, interest := s.interest - {fd})
    else s
  }

  /** Duration::as_secs of now.duration_since(t), which is zero for a later t. */
  function ElapsedSecs(now: Time, t: Time): nat { if now < t then 0 else (now - t) / SECOND }

  function Expired(s: State, now: Time): set<Fd> {
    set fd | fd in s.connectTimes && ElapsedSecs(now, s.connectTimes[fd]) > TIMEOUT_SECS
  }

  predicate Holds(s: State, g: nat, fds: set<Fd>) {
    g < |s.conns| && s.conns[g].fd in fds && s.conns[g].fd in s.sockets && s.sockets[s.conns[g].fd] == g
  }

  /** Timing out a set of descriptors. */
  function Evict(s: State, fds: set<Fd>): State {
    State(
      s.readBuffers - fds, s.writeBuffers - fds, s.connectTimes - fds, s.interest - fds, s.sockets - fds,
      seq(|s.conns|, g requires 0 <= g < |s.conns| =>
        if Holds(s, g, fds) then s.conns[g].(fate := TimedOut) else s.conns[g]),
      s.running)
  }

  function Sweep(s: State, now: Time): State { Evict(s, Expired(s, now)) }

  function AcceptOne(s: State, a: Accepted): State {
    s.(readBuffers := s.readBuffers[a.fd := ""],
       connectTimes := s.connectTimes[a.fd := a.at],
       interest := s.interest[a.fd := In],
       sockets := s.sockets[a.fd := |s.conns|],
       conns := s.conns + [Conn(a.fd, a.at, "", None, 0, "", false, Open)])
  }

  function AcceptAll(s: State, accepts: seq<Accepted>): State
    decreases |accepts|
  {
    if accepts == [] then s else AcceptAll(AcceptOne(s, accepts[0]), accepts[1..])
  }

  /** Bytes drained from the socket go to its read buffer, if it has one. */
  function Receive(s: State, fd: Fd, bytes: string): State
    requires IsOpen(s, fd)
  {
    var s1 := SetConn(s, fd, ConnOf(s, fd).(received := ConnOf(s, fd).received + bytes));
    if fd in s.readBuffers then s1.(readBuffers := s.readBuffers[fd := s.readBuffers[fd] + bytes]) else s1
  }

  function Forget(s: State, fd: Fd): State {
    s.(readBuffers := s.readBuffers - {fd}, writeBuffers := s.writeBuffers - {fd}, interest := s.interest - {fd})
  }

  /** The response goes to the write buffer and the socket is watched for writing. */
  function Answer(s: State, fd: Fd, r: Reply, world: nat): State
    requires IsOpen(s, fd)
  {
    SetConn(s, fd, ConnOf(s, fd).(response := Some(r.bytes), world := world)).(
      writeBuffers := s.writeBuffers[fd := r.bytes],
      interest := if fd in s.interest then s.interest[fd := Out] else s.interest)
  }

  /** The half of handle_read after the socket is drained. */
  function Respond(site: Site, s: State, fd: Fd, world: nat): State
    requires IsOpen(s, fd)
  {
    if fd !in s.readBuffers then s
    else match site.reply(s.readBuffers[fd], world)
      case None => s.(running := false)
      case Some(r) =>
        var s1 := Answer(s, fd, r, world);
        if r.tooLarge then s1 else s1.(readBuffers := s1.readBuffers - {fd})
  }

  /** handle_read. A read on a closed descriptor is a hard error. */
  function HandleRead(site: Site, s: State, fd: Fd, reading: seq<ReadResult>, world: nat): State {
    if !IsOpen(s, fd) then Forget(s, fd)
    else
      var run := ReadAll(reading);
      var s1 := Receive(s, fd, run.bytes);
      match run.end
      case Eof => Forget(s1, fd)
      case Broke => Close(Forget(s1, fd), fd, ReadFailed)
      case Drained => Respond(site, s1, fd, world)
  }

  function Transmit(s: State, fd: Fd, n: nat): State
    requires IsOpen(s, fd) && fd in s.writeBuffers && n <= |s.writeBuffers[fd]|
  {
    var data := s.writeBuffers[fd];
    SetConn(s, fd, ConnOf(s, fd).(sent := ConnOf(s, fd).sent + data[..n], wrote := true)).(
      writeBuffers := s.writeBuffers[fd := data[n..]])
  }

  function Unbuffer(s: State, fd: Fd): State {
    s.(writeBuffers := s.writeBuffers - {fd}, interest := s.interest - {fd})
  }

  /** handle_write. A write on a closed descriptor is a hard error; without a buffer the
      write counts as complete and the descriptor is closed. */
  function HandleWrite(s: State, fd: Fd, writing: seq<WriteResult>): State {
    if !IsOpen(s, fd) then Unbuffer(s, fd)
    else if fd !in s.writeBuffers then
      Close(Unbuffer(SetConn(s, fd, ConnOf(s, fd).(wrote := true)), fd), fd, Finished)
    else
      var run := WriteAll(s.writeBuffers[fd], writing);
      var s1 := Transmit(s, fd, run.taken);
      match run.end
      case Full => s1
      case Cut => Close(Unbuffer(s1, fd), fd, WriteFailed)
      case AllSent => Close(Unbuffer(s1, fd), fd, Finished)
  }

  /** The body of the loop over ready events. */
  function Dispatch(site: Site, s: State, e: Event): State {
    if !s.running then s
    else if e.fd == site.listener then AcceptAll(s, e.accepts)
    else if e.out then
      var s1 := HandleWrite(s, e.fd, e.writing);
      s1.(connectTimes := s1.connectTimes - {e.fd})
    else HandleRead(site, s, e.fd, e.reading, e.world)
  }

  function DispatchAll(site: Site, s: State, events: seq<Event>): State
    decreases |events|
  {
    if events == [] then s else DispatchAll(site, Dispatch(site, s, events[0]), events[1..])
  }

  /** One turn of the outer loop. */
  function Turn(site: Site, s: State, t: Tick): State {
    if !s.running then s else DispatchAll(site, Sweep(s, t.now), t.events)
  }

  function Run(site: Site, s: State, ticks: seq<Tick>): State
    decreases |ticks|
  {
    if ticks == [] then s else Run(site, Turn(site, s, ticks[0]), ticks[1..])
  }

  const START := State(map[], map[], map[], map[], map[], [], true)
}
