/** From the bytes of a connection to its response (the second half of handle_read in
    src/server.rs). The handler is any function of the request, the server block chosen
    and the surroundings; None stands for a handler that panics. */
module Dispatching {
  import opened Text
  import opened Settings
  import opened Connections
  import Requests
  import Responses
  import VirtualHosts
  import Chunked

  type Request = Requests.Request
  type Handler = (Request, ServerConfig, nat) -> Option<Responses.Response>

  /** The path up to its first question mark; what is behind it goes to a header. */
  function SplitQuery(req: Request): Request {
    var q := Find(req.path, "?");
    var query := if q.Some? then req.path[q.value + 1..] else "";
    req.(path := if q.Some? then req.path[..q.value] else req.path,
         headers := req.headers["x-query-string" := query])
  }

  datatype Verdict = TooLarge | Malformed | Serve(req: Request, config: ServerConfig) | Panic

  /** What becomes of a buffer, before the handler is asked. */
  function Judge(configs: seq<ServerConfig>, data: string): Verdict
    requires configs != []
  {
    var parsed := Requests.Parse(data);
    if parsed.Crash? then Panic
    else
      var config := if parsed.Done? then VirtualHosts.MatchConfig(configs, parsed.value) else configs[0];
      if |data| > config.clientMaxBodySize then TooLarge
      else if parsed.Refused? then Malformed
      else
        var req := SplitQuery(parsed.value);
        Serve(req, VirtualHosts.MatchConfig(configs, req))
  }

  function ReplyTo(configs: seq<ServerConfig>, handler: Handler, data: string, world: nat): Option<Reply>
    requires configs != []
  {
    match Judge(configs, data)
    case Panic => None
    case TooLarge => Some(Reply(Responses.Serialize(Responses.ErrorResponse(Responses.ContentTooLarge)), true))
    case Malformed => Some(Reply(Responses.Serialize(Responses.ErrorResponse(Responses.BadRequest)), false))
    case Serve(req, config) =>
      var r := handler(req, config, world);
      if r.None? then None else Some(Reply(Responses.Serialize(r.value), false))
  }

  /** A listener's socket and its replies. */
  function SiteOf(listener: Fd, configs: seq<ServerConfig>, handler: Handler): Site {
    Site(listener, (data: string, world: nat) => if configs == [] then None else ReplyTo(configs, handler, data, world))
  }

  /** The request that the handler gets, against the one that was parsed: the path up to its
      first question mark and what is behind it in a header, which is empty when there is
      none; all else is as it was. */
  predicate Served(parsed: Request, req: Request) {
    && "x-query-string" in req.headers && '?' !in req.path
    && (if '?' in parsed.path then req.path + "?" + req.headers["x-query-string"] == parsed.path
        else req.path == parsed.path && req.headers["x-query-string"] == "")
    && req.verb == parsed.verb && req.version == parsed.version && req.body == parsed.body
    && req.headers - {"x-query-string"} == parsed.headers - {"x-query-string"}
  }

  lemma QuerySplit(req: Request)
    ensures Served(req, SplitQuery(req))
  {
    hide Find;
    var q, split := Find(req.path, "?"), SplitQuery(req);
    forall i | 0 <= i < |split.path| ensures split.path[i] != '?' {
      if req.path[i] == '?' {
        assert At(req.path, "?", i);
        FindFirst(req.path, "?", i);
      }
    }
    if q.Some? {
      assert req.path[q.value..q.value + 1] == "?";
      assert req.path == req.path[..q.value] + "?" + req.path[q.value + 1..];
      assert req.path[q.value] == '?';
    }
  }

  /** The size check and the handler use the same server block, although the choice is made
      twice and the request changes in between: whatever is served fits the limit of the
      block that serves it, and is the request that was parsed with its query set apart. */
  lemma SizeLimitAgrees(configs: seq<ServerConfig>, data: string)
    requires configs != [] && Judge(configs, data).Serve?
    ensures var v := Judge(configs, data);
            && Requests.Parse(data).Done?
            && v.config == VirtualHosts.MatchConfig(configs, Requests.Parse(data).value)
            && |data| <= v.config.clientMaxBodySize
            && Served(Requests.Parse(data).value, v.req)
  {
    hide Requests.Parse, Find;
    var req := Requests.Parse(data).value;
    assert VirtualHosts.HostOf(SplitQuery(req).headers) == VirtualHosts.HostOf(req.headers);
    QuerySplit(req);
  }

  /** The block whose limit counts: the one for the request, or the first when there is none. */
  function LimitFor(configs: seq<ServerConfig>, parsed: Outcome<Request>): nat
    requires configs != []
  {
    if parsed.Done? then VirtualHosts.MatchConfig(configs, parsed.value).clientMaxBodySize else configs[0].clientMaxBodySize
  }

  /** What becomes of a buffer: too large for its block's limit whether it parses or not; in
      the limit, malformed if and only if it does not parse, served if and only if it does;
      and a panic of the parser before all that. */
  lemma JudgeExactly(configs: seq<ServerConfig>, data: string)
    requires configs != []
    ensures var v, parsed := Judge(configs, data), Requests.Parse(data);
            && (v == Panic <==> parsed.Crash?)
            && (v == TooLarge <==> !parsed.Crash? && |data| > LimitFor(configs, parsed))
            && (v == Malformed <==> parsed.Refused? && |data| <= LimitFor(configs, parsed))
            && (v.Serve? <==> parsed.Done? && |data| <= LimitFor(configs, parsed))
  {
    hide Requests.Parse, VirtualHosts.MatchConfig, SplitQuery;
  }

  /** data is chunks that carry body, their end, and something more. */
  ghost predicate Carries(data: string, body: string, ps: seq<Chunked.Piece>, last: string, rest: string) {
    Chunked.Framed(data, ps, last, rest) && Chunked.Body(ps) == body && |body| + 5 * |ps| + 3 <= |data|
  }

  /** A body is never longer than the buffer it came in; a chunked one is shorter by at
      least five bytes a chunk and three at the end. */
  lemma {:induction false} BodyFits(data: string)
    requires |data| <= USIZE_MAX && Requests.Parse(data).Done?
    ensures |Requests.Parse(data).value.body| + 4 <= |data|
    ensures Requests.IsChunked(Requests.Parse(data).value.headers) ==>
              exists ps, last, rest ::
                Carries(Requests.BehindHead(data), Requests.Parse(data).value.body, ps, last, rest)
  {
    hide Find, Chunked.Decode, Requests.ParseHead;
    var rest := Requests.BehindHead(data);
    var r := Requests.Parse(data).value;
    if Requests.IsChunked(r.headers) {
      Chunked.DecodesExactly(rest, r.body);
      var ps, last, tail :| Chunked.Framed(rest, ps, last, tail) && Chunked.Body(ps) == r.body;
      Chunked.BodyBound(rest, ps, last, tail);
      assert Carries(rest, r.body, ps, last, tail);
    }
  }

  /** So a served body fits the limit too. */
  lemma ServedBodyFits(configs: seq<ServerConfig>, data: string)
    requires configs != [] && |data| <= USIZE_MAX && Judge(configs, data).Serve?
    ensures |Judge(configs, data).req.body| + 4 <= Judge(configs, data).config.clientMaxBodySize
  {
    hide Requests.Parse, Judge;
    SizeLimitAgrees(configs, data);
    BodyFits(data);
  }
}
