/** What clients get over whole runs of a listener (src/server.rs): the event loop of
    Connections with the replies of Dispatching. */
module ServerRuns {
  import opened Text
  import opened Settings
  import opened Connections
  import opened ConnectionInvariant
  import opened ConnectionSteps
  import opened Dispatching
  import opened Responses
  import opened MessageHead
  import opened ConnectionReuse
  import opened ConnectionLimits
  import opened RequestForm
  import opened Segments
  import Requests
  import VirtualHosts
  import Chunked

  /** The response to the bytes of a connection: the handler's, or one of the two that the
      loop makes itself. None when nothing is answered. */
  function ResponseTo(configs: seq<ServerConfig>, handler: Handler, received: string, world: nat): Option<Response>
    requires configs != []
  {
    match Judge(configs, received)
    case Panic => None
    case TooLarge => Some(ErrorResponse(ContentTooLarge))
    case Malformed => Some(ErrorResponse(BadRequest))
    case Serve(req, config) => handler(req, config, world)
  }

  lemma ReplyIsSerialized(configs: seq<ServerConfig>, handler: Handler, data: string, world: nat)
    requires configs != []
    ensures var r := ReplyTo(configs, handler, data, world);
            var response := ResponseTo(configs, handler, data, world);
            r.Some? == response.Some? && (r.Some? ==> r.value.bytes == Serialize(response.value))
    ensures ReplyTo(configs, handler, data, world).Some? ==>
              (ReplyTo(configs, handler, data, world).value.tooLarge <==> |data| > LimitFor(configs, Requests.Parse(data)))
  {
    JudgeExactly(configs, data);
    hide Judge, LimitFor, Requests.Parse;
  }

  lemma ServeIsAsked(configs: seq<ServerConfig>, handler: Handler, data: string, world: nat)
    requires configs != []
    ensures var v := Judge(configs, data);
            v.Serve? ==> ResponseTo(configs, handler, data, world) == handler(v.req, v.config, world)
  {
    hide Judge;
  }

  /** No proper prefix of a complete message is a complete message. */
  lemma PrefixUnreadable(bytes: string, n: nat)
    requires Read(bytes).Some? && n < |bytes|
    ensures Read(bytes[..n]).None?
  {
    hide Find, Lines, LengthIn;
    var end := Find(bytes, SEPARATOR).value;
    var p := bytes[..n];
    if Find(p, SEPARATOR).Some? {
      assert bytes == p + bytes[n..];
      FindExtend(p, SEPARATOR, bytes[n..]);
      assert p[..end] == bytes[..end];
    }
  }

  /** End to end, over every run: an answered connection is answered with the response to
      what its one draining read took; a request is served to the handler as it was parsed, with
      its query set apart, and fits the limit of the server block that serves it. If the response's fields hold no line ends, the bytes that went out
      are at any moment a complete message if and only if the whole response is out, and
      the client then reads the response's own header lines and body. */
  lemma ClientReads(listener: Fd, configs: seq<ServerConfig>, handler: Handler, ticks: seq<Tick>, g: nat)
    requires configs != [] && TicksOk(SiteOf(listener, configs, handler), START, ticks)
    requires g < |Run(SiteOf(listener, configs, handler), START, ticks).conns|
    ensures var c := Run(SiteOf(listener, configs, handler), START, ticks).conns[g];
            var response := ResponseTo(configs, handler, c.received, c.world);
            if c.response.None? then c.sent == ""
            else
              && (exists n: nat :: DrainAt(SiteOf(listener, configs, handler), StepsOf(ticks), n, g)
                    && c.received == Bytes(StepsOf(ticks)[n]))
              && response.Some? && c.response.value == Serialize(response.value) && IsPrefix(c.sent, c.response.value)
              && (c.fate == Finished ==> c.sent == c.response.value)
              && (Judge(configs, c.received).Serve? ==>
                    |c.received| <= Judge(configs, c.received).config.clientMaxBodySize
                    && Requests.Parse(c.received).Done?
                    && Served(Requests.Parse(c.received).value, Judge(configs, c.received).req)
                    && handler(Judge(configs, c.received).req, Judge(configs, c.received).config, c.world) == response)
              && (FieldsFlat(response.value) ==>
                    Read(c.sent) == if c.sent == c.response.value
                                    then Some(Received(HeadLines(response.value), response.value.body)) else None)
  {
    var site := SiteOf(listener, configs, handler);
    OutputExact(site, ticks, g);
    var c := Run(site, START, ticks).conns[g];
    hide Judge, Run, TicksOk, Drains, From, Read, Serialize, FieldsFlat, HeadLines, Served, LimitFor, ResponseTo;
    ServeIsAsked(configs, handler, c.received, c.world);
    if c.response.Some? {
      ReplyIsSerialized(configs, handler, c.received, c.world);
      var response := ResponseTo(configs, handler, c.received, c.world).value;
      if FieldsFlat(response) {
        SerializeRead(response);
        if c.sent != c.response.value { PrefixUnreadable(c.response.value, |c.sent|); }
      }
      if Judge(configs, c.received).Serve? { SizeLimitAgrees(configs, c.received); }
    }
  }

  /** Over every run: a buffer over its limit was told 413, whether it parses or not, and one
      within it that does not parse was told 400; nothing else was, unless the handler did. */
  lemma RefusalsExactly(listener: Fd, configs: seq<ServerConfig>, handler: Handler, ticks: seq<Tick>, g: nat)
    requires configs != [] && TicksOk(SiteOf(listener, configs, handler), START, ticks)
    requires g < |Run(SiteOf(listener, configs, handler), START, ticks).conns|
    ensures var c := Run(SiteOf(listener, configs, handler), START, ticks).conns[g];
            var parsed := Requests.Parse(c.received);
            c.response.Some? ==>
              && !parsed.Crash?
              && (|c.received| > LimitFor(configs, parsed) ==> c.response == Some(Serialize(ErrorResponse(ContentTooLarge))))
              && (parsed.Refused? && |c.received| <= LimitFor(configs, parsed) ==>
                    c.response == Some(Serialize(ErrorResponse(BadRequest))))
              && (parsed.Done? && |c.received| <= LimitFor(configs, parsed) ==> Judge(configs, c.received).Serve?)
  {
    var site := SiteOf(listener, configs, handler);
    OutputExact(site, ticks, g);
    var c := Run(site, START, ticks).conns[g];
    hide Judge, Run, TicksOk, Drains, From, Serialize, Requests.Parse, LimitFor;
    ReplyIsSerialized(configs, handler, c.received, c.world);
    JudgeExactly(configs, c.received);
  }

  // ---- Requests in pieces --------------------------------------------------

  /** Over every run, for whatever the draining read of a connection took that parses, with
      any spelling of its head: a plain body is all that was there behind the head, so that it
      has the length announced if and only if the read took the head and exactly as much
      more; a chunked one is that of the chunks up to their zero line. */
  lemma BodyExactly(listener: Fd, configs: seq<ServerConfig>, handler: Handler, ticks: seq<Tick>, g: nat, n: nat)
    requires configs != [] && TicksOk(SiteOf(listener, configs, handler), START, ticks)
    requires g < |Run(SiteOf(listener, configs, handler), START, ticks).conns|
    requires DrainAt(SiteOf(listener, configs, handler), StepsOf(ticks), n, g)
    requires Requests.Parse(Bytes(StepsOf(ticks)[n])).Done?
    ensures var d := Run(SiteOf(listener, configs, handler), START, ticks).conns[g].received;
            && d == Bytes(StepsOf(ticks)[n]) && Requests.Parse(d).Done?
            && var r := Requests.Parse(d).value;
            && (Judge(configs, d).Serve? ==> Judge(configs, d).req.body == r.body)
            && (!Requests.IsChunked(r.headers) ==>
                  r.body == Requests.BehindHead(d)
                  && (|r.body| == ContentLength(r.headers) <==> |d| == HeadLength(d) + ContentLength(r.headers)))
            && (Requests.IsChunked(r.headers) && |d| <= USIZE_MAX ==>
                  exists ps, last, more :: Carries(Requests.BehindHead(d), r.body, ps, last, more))
  {
    var site := SiteOf(listener, configs, handler);
    hide Judge, Run, TicksOk, Drains, From, ContentLength, HeadLength, Requests.BehindHead, Requests.IsChunked, Requests.Parse, Carries;
    AnsweredExactly(site, ticks, g);
    var d := Run(site, START, ticks).conns[g].received;
    var r := Requests.Parse(d).value;
    if Judge(configs, d).Serve? { SizeLimitAgrees(configs, d); }
    if !Requests.IsChunked(r.headers) {
      PlainCut(d, |d|);
      assert d[..|d|] == d;
    } else if |d| <= USIZE_MAX {
      BodyFits(d);
    }
  }

  /** The same for a whole stream of which the read took the first k bytes: a plain request is
      read with its announced body if and only if it took exactly that much. */
  lemma PlainStreamExactly(listener: Fd, configs: seq<ServerConfig>, handler: Handler, ticks: seq<Tick>, g: nat, n: nat,
                           t: string, k: nat)
    requires configs != [] && TicksOk(SiteOf(listener, configs, handler), START, ticks)
    requires g < |Run(SiteOf(listener, configs, handler), START, ticks).conns|
    requires DrainAt(SiteOf(listener, configs, handler), StepsOf(ticks), n, g)
    requires Requests.Parse(t).Done? && !Requests.IsChunked(Requests.Parse(t).value.headers)
    requires k <= |t| && Bytes(StepsOf(ticks)[n]) == t[..k]
    ensures var d, r := Run(SiteOf(listener, configs, handler), START, ticks).conns[g].received, Requests.Parse(t).value;
            && HeadLength(t) <= |t|
            && Requests.Parse(d) == (if k < HeadLength(t) then Refused else Done(r.(body := t[HeadLength(t)..k])))
            && (Judge(configs, d).Serve? ==>
                  (|Judge(configs, d).req.body| == ContentLength(r.headers) <==> k == HeadLength(t) + ContentLength(r.headers)))
  {
    var site := SiteOf(listener, configs, handler);
    hide Judge, Run, TicksOk, Drains, From, ContentLength, HeadLength, Requests.IsChunked, Requests.Parse;
    AnsweredExactly(site, ticks, g);
    PlainCut(t, k);
    if Judge(configs, t[..k]).Serve? { SizeLimitAgrees(configs, t[..k]); }
  }

  /** A chunked stream is read as it was meant if and only if the read took it up to the end of
      its zero line; with less it is refused, or stops the listener. */
  lemma ChunkedStreamExactly(listener: Fd, configs: seq<ServerConfig>, handler: Handler, ticks: seq<Tick>, g: nat, n: nat,
                             t: string, k: nat, ps: seq<Chunked.Piece>, last: string, more: string)
    requires configs != [] && TicksOk(SiteOf(listener, configs, handler), START, ticks)
    requires g < |Run(SiteOf(listener, configs, handler), START, ticks).conns|
    requires DrainAt(SiteOf(listener, configs, handler), StepsOf(ticks), n, g)
    requires Requests.Parse(t).Done? && Requests.IsChunked(Requests.Parse(t).value.headers)
    requires k <= |t| <= USIZE_MAX && Bytes(StepsOf(ticks)[n]) == t[..k]
    requires Chunked.Framed(Requests.BehindHead(t), ps, last, more)
    ensures var d := Run(SiteOf(listener, configs, handler), START, ticks).conns[g].received;
            var h, m := HeadLength(t), |Chunked.SentAll(ps)| + |last| + 2;
            && (Requests.Parse(d) == Requests.Parse(t) <==> k >= h + m)
            && (Requests.Parse(d).Crash? <==> h <= k < h + m && Chunked.CutsCloser(ps, k - h))
  {
    var site := SiteOf(listener, configs, handler);
    hide Run, TicksOk, Drains, From, HeadLength, Requests.IsChunked, Requests.Parse, Requests.BehindHead,
      Chunked.Framed, Chunked.SentAll, Chunked.CutsCloser;
    AnsweredExactly(site, ticks, g);
    ChunkedCut(t, ps, last, more, k);
  }

  /** So a printed plain request with its announced length is read as it was meant if and only
      if the draining read of its connection took exactly this request. With less, the handler is
      asked about a shorter body; with more, about a longer one. */
  lemma ReadWholeExactly(listener: Fd, configs: seq<ServerConfig>, handler: Handler, ticks: seq<Tick>, g: nat, n: nat,
                         o: Opening, body: string, more: string, k: nat)
    requires configs != [] && TicksOk(SiteOf(listener, configs, handler), START, ticks)
    requires g < |Run(SiteOf(listener, configs, handler), START, ticks).conns|
    requires DrainAt(SiteOf(listener, configs, handler), StepsOf(ticks), n, g)
    requires OpeningOk(o) && !Requests.IsChunked(HeadersOf(o)) && ContentLength(HeadersOf(o)) == |body|
    requires |OpeningText(o)| <= k <= |OpeningText(o) + (body + more)|
    requires Bytes(StepsOf(ticks)[n]) == (OpeningText(o) + (body + more))[..k]
    ensures var c := Run(SiteOf(listener, configs, handler), START, ticks).conns[g];
            && Requests.Parse(c.received) == Done(Carrying(o, (body + more)[..k - |OpeningText(o)|]))
            && (Requests.Parse(c.received) == Done(Carrying(o, body)) <==> k == |OpeningText(o) + body|)
            && (Judge(configs, c.received).Serve? ==>
                  (|Judge(configs, c.received).req.body| == ContentLength(HeadersOf(o)) <==> k == |OpeningText(o) + body|))
  {
    var site := SiteOf(listener, configs, handler);
    hide Judge, Run, TicksOk, Drains, From, OpeningText, OpeningOk, ContentLength, HeadersOf, Requests.IsChunked, Requests.Parse;
    AnsweredExactly(site, ticks, g);
    var c := Run(site, START, ticks).conns[g];
    PlainSegment(o, body, more, k);
    if Judge(configs, c.received).Serve? { SizeLimitAgrees(configs, c.received); }
  }

  const POST_TWO := Opening("POST", "/", "HTTP/1.1", [("Content-Length", "2")])
  const FIRST_PART := OpeningText(POST_TWO) + "a"
  const ONE_HOST := ServerConfig("h", 80, None, |FIRST_PART|, map[], [])
  const ECHO_BODY: Handler := (req: Requests.Request, config: ServerConfig, world: nat) => Some(Response(Ok, "text/plain", req.body, [], None))
  const ECHO_SITE := SiteOf(3, [ONE_HOST], ECHO_BODY)

  lemma PostTwoOk()
    ensures OpeningOk(POST_TWO) && !Requests.IsChunked(HeadersOf(POST_TWO)) && ContentLength(HeadersOf(POST_TWO)) == 2
  {
    var hs := [("Content-Length", "2")];
    assert OpeningOk(POST_TWO) by { assert Requests.HeaderOk(hs[0]); }
    hide OpeningOk;
    assert hs[1..] == [] && Lower("Content-Length") == "content-length";
    assert Requests.HeaderMap(map[], hs) == Requests.HeaderMap(map["content-length" := "2"], []) == map["content-length" := "2"];
    assert "2"[..0] == "" && ParseDigits("2", 10) == Some(2);
  }

  lemma FirstPartServed(world: nat)
    ensures Judge([ONE_HOST], FIRST_PART) == Serve(SplitQuery(Carrying(POST_TWO, "a")), ONE_HOST)
    ensures ECHO_SITE.reply(FIRST_PART, world) == Some(Reply(Serialize(Response(Ok, "text/plain", "a", [], None)), false))
  {
    hide Requests.Parse, OpeningText, OpeningOk, Requests.IsChunked, Serialize, ContentLength;
    ParsedFirstPart();
    hide HeadersOf, VirtualHosts.HostOf, Find;
    OneConfig(FIRST_PART);
  }

  lemma OneConfig(data: string)
    requires Requests.Parse(data).Done? && |data| <= ONE_HOST.clientMaxBodySize
    ensures Judge([ONE_HOST], data) == Serve(SplitQuery(Requests.Parse(data).value), ONE_HOST)
  {
    hide Requests.Parse, VirtualHosts.HostOf;
    assert [ONE_HOST][1..] == [];
    assert forall host :: VirtualHosts.FirstNamed([ONE_HOST], host).None?;
  }

  /** So the body is not what Content-Length announces, whenever a request comes in pieces:
      in this run the first read of a request with a body of two bytes finds one of them,
      and the response to that is sent in full and the connection closed. */
  lemma ShortBodyAnswered()
    ensures exists ticks ::
      && TicksOk(ECHO_SITE, START, ticks)
      && var c, r := Run(ECHO_SITE, START, ticks).conns, Response(Ok, "text/plain", "a", [], None);
      && |c| == 1 && c[0].fate == Finished && c[0].sent == Serialize(r)
      && Judge([ONE_HOST], c[0].received).Serve? && Judge([ONE_HOST], c[0].received).req.body == "a"
      && Requests.Parse(c[0].received).Done? && ContentLength(Requests.Parse(c[0].received).value.headers) == 2
  {
    hide Judge, Serialize, OpeningText, ContentLength, Run, TicksOk, Requests.Parse, OpeningOk, Requests.IsChunked, HeadersOf;
    PostTwoOk();
    FirstPartServed(0);
    var reply := ECHO_SITE.reply(FIRST_PART, 0).value.bytes;
    assert reply != "" by { SomeBytes(Response(Ok, "text/plain", "a", [], None)); }
    SplitMessage(ECHO_SITE, FIRST_PART, "b", 0);
    SizeLimitAgrees([ONE_HOST], FIRST_PART);
    ParsedFirstPart();
    var ticks := ClientTicks(ECHO_SITE, FIRST_PART, "b", 0, |reply|);
    assert Run(ECHO_SITE, START, ticks).conns[0].received == FIRST_PART;
  }

  lemma ParsedFirstPart()
    ensures Requests.Parse(FIRST_PART) == Done(Carrying(POST_TWO, "a"))
  {
    hide Requests.Parse, OpeningText, OpeningOk, Requests.IsChunked, ContentLength, HeadersOf;
    PostTwoOk();
    ReadOpening(POST_TWO, "a");
  }

  lemma SomeBytes(r: Response)
    ensures Serialize(r) != ""
  {
    hide CookieHeaders, StatusText;
  }

  // ---- Requests that stop the listener -------------------------------------

  ghost predicate NeverPanics(handler: Handler) { forall req, config, world :: handler(req, config, world).Some? }

  /** Every buffer fits the address space. */
  ghost predicate Addressable(steps: seq<Step>) {
    forall n :: 0 <= n < |steps| ==> |Bytes(steps[n])| <= USIZE_MAX
  }

  ghost predicate DrainsOver(site: Site, steps: seq<Step>, n: nat, g: nat) {
    DrainAt(site, steps, n, g) && RunsOver(Bytes(steps[n]))
  }

  /** With a handler that never panics, a listener stops if and only if the draining read of
      some connection took a chunked request whose chunks run over the end of what it took. */
  lemma ListenerStopsExactly(listener: Fd, configs: seq<ServerConfig>, handler: Handler, ticks: seq<Tick>)
    requires configs != [] && NeverPanics(handler) && TicksOk(SiteOf(listener, configs, handler), START, ticks)
    ensures !Run(SiteOf(listener, configs, handler), START, ticks).running <==>
            exists n: nat, g: nat :: DrainAt(SiteOf(listener, configs, handler), StepsOf(ticks), n, g)
              && Requests.Parse(Bytes(StepsOf(ticks)[n])).Crash?
    ensures Addressable(StepsOf(ticks)) ==>
              (!Run(SiteOf(listener, configs, handler), START, ticks).running <==>
               exists n: nat, g: nat :: DrainsOver(SiteOf(listener, configs, handler), StepsOf(ticks), n, g))
  {
    var site, steps := SiteOf(listener, configs, handler), StepsOf(ticks);
    hide Run, TicksOk, Drains, From, Requests.Parse, Judge, RunsOver;
    StopsExactly(site, ticks);
    forall n: nat | n < |steps|
      ensures ReplyAt(site, steps[n]).None? <==> Requests.Parse(Bytes(steps[n])).Crash?
      ensures |Bytes(steps[n])| <= USIZE_MAX ==> (Requests.Parse(Bytes(steps[n])).Crash? <==> RunsOver(Bytes(steps[n])))
    {
      NoReply(configs, handler, Bytes(steps[n]), World(steps[n]));
      if |Bytes(steps[n])| <= USIZE_MAX { CrashExactly(Bytes(steps[n])); }
    }
    if n: nat, g: nat :| DrainAt(site, steps, n, g) && Requests.Parse(Bytes(steps[n])).Crash? {
      DrainStops(site, ticks, n, g);
      assert Addressable(steps) ==> DrainsOver(site, steps, n, g);
    }
    if Addressable(steps) {
      if n: nat, g: nat :| DrainsOver(site, steps, n, g) { DrainStops(site, ticks, n, g); }
    }
  }

  lemma NoReply(configs: seq<ServerConfig>, handler: Handler, data: string, world: nat)
    requires configs != [] && NeverPanics(handler)
    ensures ReplyTo(configs, handler, data, world).None? <==> Requests.Parse(data).Crash?
  {
    hide Requests.Parse, Serialize;
  }

  lemma DrainStops(site: Site, ticks: seq<Tick>, n: nat, g: nat)
    requires TicksOk(site, START, ticks) && DrainAt(site, StepsOf(ticks), n, g) && ReplyAt(site, StepsOf(ticks)[n]).None?
    ensures Stopper(site, ticks, n, g) && !Run(site, START, ticks).running
  {
    hide Drains, From, Lawful;
    StartKept(site);
    RunLawful(site, START, ticks);
    RunSteps(site, START, ticks);
    DrainSettles(site, StepsOf(ticks), n, g);
  }

  const CHUNKED_POST := Opening("POST", "/", "HTTP/1.1", [("Transfer-Encoding", "chunked")])
  const STOPPING := OpeningText(CHUNKED_POST) + "3\r\nabc"

  lemma ChunkedPostOk()
    ensures OpeningOk(CHUNKED_POST) && Requests.IsChunked(HeadersOf(CHUNKED_POST))
  {
    var hs := [("Transfer-Encoding", "chunked")];
    assert hs[1..] == [] && Lower("Transfer-Encoding") == "transfer-encoding";
    assert Requests.HeaderMap(map[], hs) == Requests.HeaderMap(map["transfer-encoding" := "chunked"], [])
        == map["transfer-encoding" := "chunked"];
    assert Requests.IsChunked(HeadersOf(CHUNKED_POST)) by {
      hide Requests.HeaderMap;
      assert Lower("chunked") == "chunked" && At("chunked", "chunked", 0);
      FindIs("chunked", "chunked", 0);
    }
    assert OpeningOk(CHUNKED_POST) by { ChunkedHeaderOk(); }
  }

  lemma ChunkedHeaderOk()
    ensures OpeningOk(CHUNKED_POST)
  {
    var h := ("Transfer-Encoding", "chunked");
    assert Requests.HeaderOk(h);
    hide Requests.HeaderOk;
  }

  /** One such request stops any listener, whatever its configuration and its handler. */
  lemma OneRequestStops(listener: Fd, configs: seq<ServerConfig>, handler: Handler)
    requires configs != [] && listener != 7
    ensures exists ticks ::
      && TicksOk(SiteOf(listener, configs, handler), START, ticks)
      && !Run(SiteOf(listener, configs, handler), START, ticks).running
      && Run(SiteOf(listener, configs, handler), START, ticks).conns == [Conn(7, 0, STOPPING, None, 0, "", false, Open)]
  {
    hide OpeningText, Requests.Parse, Run, TicksOk, Chunked.Decode, Requests.IsChunked, HeadersOf;
    ChunkedPostOk();
    ReadOpening(CHUNKED_POST, "3\r\nabc");
    Chunked.UnclosedChunkCrashes();
    StoppingMessage(SiteOf(listener, configs, handler), STOPPING, 0);
  }

  // ---- Requests that are never read ----------------------------------------

  /** An empty buffer is answered with 400 under any configuration. */
  lemma EmptyIsMalformed(configs: seq<ServerConfig>)
    requires configs != []
    ensures Judge(configs, "") == Malformed
  {
  }

  /** So a new client on the descriptor of one that timed out can be told 400 before it has
      sent anything, whatever it goes on to send. */
  lemma UnreadClientRefused(listener: Fd, configs: seq<ServerConfig>, handler: Handler)
    requires configs != [] && listener != 7
    ensures var site := SiteOf(listener, configs, handler);
            && TicksOk(site, START, StaleTicks(site)) && ReadsReady(site, StaleTicks(site))
            && var conns := Run(site, START, StaleTicks(site)).conns;
            |conns| == 2 && conns[1].fate == Open && conns[1].received == ""
            && conns[1].response == Some(Serialize(ErrorResponse(BadRequest)))
  {
    hide Judge, Run, TicksOk, ReadsReady, Serialize;
    EmptyIsMalformed(configs);
    ReplyIsSerialized(configs, handler, "", 0);
    StaleReadEvent(SiteOf(listener, configs, handler));
  }
}
