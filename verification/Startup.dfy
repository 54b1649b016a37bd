/** From the text of a configuration file to the servers behind each address: the rest of
    Config::from_file (src/config/mod.rs), main (src/main.rs), and what the choice by Host
    (src/server.rs) then makes of them. */
module Startup {
  import opened Text
  import opened Settings
  import opened Tokenizer
  import opened Recognizer
  import opened ConfigText
  import opened VirtualHosts
  import ConfigParser
  import Requests

  /** A configuration that the program starts with. */
  predicate Accepted(text: string, c: Config) { Load(text) == Some(c) && DistinctKeys(c.servers) }

  /** Config::from_file on the content of the file. */
  method FromText(text: string) returns (r: Option<Config>)
    ensures r.Some? ==> Accepted(text, r.value)
    ensures r.None? ==> forall c :: !Accepted(text, c)
  {
    hide Tokens, Kinds, ParseKinds, DistinctKeys;
    var tokens := Tokenize(text);
    var parser := new ConfigParser.Parser(tokens);
    var c := parser.ParseConfig();
    if c.None? { return None; }
    var ok := CheckDuplicates(c.value.servers);
    return if ok then c else None;
  }

  /** The bytes of a request with these headers and no body. */
  function Asking(hs: seq<(string, string)>): string { Requests.PrintRequest("GET", "/", "HTTP/1.1", hs, "") }

  /** Such a request, with a Host header or without one. */
  function Asked(headers: Requests.Headers): Requests.Request {
    Requests.Request(Requests.Get, "/", "HTTP/1.1", headers, "")
  }

  lemma AskingParses(name: string)
    requires WordOk(name)
    ensures Requests.Parse(Asking([("Host", name)])) == Done(Asked(map["host" := name]))
    ensures Requests.Parse(Asking([])) == Done(Asked(map[]))
  {
    hide Requests.Parse, Requests.PrintRequest;
    var hs := [("Host", name)];
    assert Requests.HeaderOk(hs[0]) by { assert IsWordChar(name[0]) && IsWordChar(name[|name| - 1]); }
    assert hs[1..] == [];
    assert Lower("Host") == "host";
    assert Requests.HeaderMap(map[], hs) == Requests.HeaderMap(map["host" := name], []) == map["host" := name];
    Requests.PlainRoundTrip("GET", "/", "HTTP/1.1", hs, "");
    Requests.PlainRoundTrip("GET", "/", "HTTP/1.1", [], "");
  }

  lemma HostIs(host: string)
    ensures ':' !in host ==> HostOf(map["host" := host]) == host
    ensures HostOf(map[]) == ""
  {
    if Find(host, ":").Some? { assert host[Find(host, ":").value..Find(host, ":").value + 1][0] == ':'; }
  }

  lemma HostHasNoColon(headers: Requests.Headers)
    ensures ':' !in HostOf(headers)
  {
    hide Find;
    var r := HostOf(headers);
    if i :| 0 <= i < |r| && r[i] == ':' {
      var h := headers["host"];
      assert h[i] == ':' && At(h, ":", i);
      FindFirst(h, ":", i);
      assert false;
    }
  }

  lemma {:induction false} BucketHas(ss: seq<ServerConfig>, s: ServerConfig)
    requires s in ss
    ensures s in Bucket(ss, Addr(s))
  {
    hide Addr;
    assert s in multiset(ss);
    BucketExactly(ss, s, Addr(s));
    assert s in multiset(Bucket(ss, Addr(s)));
  }

  /** The server block is the one that answers a request to its own address. */
  predicate Chosen(c: Config, s: ServerConfig, req: Requests.Request) {
    Bucket(c.servers, Addr(s)) != [] && MatchConfig(Bucket(c.servers, Addr(s)), req) == s
  }

  predicate ChosenBy(c: Config, s: ServerConfig, data: string) {
    Requests.Parse(data).Done? && Chosen(c, s, Requests.Parse(data).value)
  }

  /** Some bytes sent to its own address are answered under this server block. */
  ghost predicate Reachable(c: Config, s: ServerConfig) { exists data :: ChosenBy(c, s, data) }

  /** What the author of a configuration can rely on: in any accepted file, a server block
      gets requests if and only if it is the first one of its address, or has a name without
      a colon. */
  lemma ReachableExactly(text: string, c: Config, s: ServerConfig)
    requires Accepted(text, c) && s in c.servers
    ensures Bucket(c.servers, Addr(s)) != []
    ensures Reachable(c, s) <==>
            s == Bucket(c.servers, Addr(s))[0] || (s.serverName.Some? && ':' !in s.serverName.value)
  {
    hide Load, DistinctKeys, Addr, Requests.Parse, Asking, WordOk;
    var group := Bucket(c.servers, Addr(s));
    BucketHas(c.servers, s);
    assert forall t <- group :: t.serverName.Some? ==> WordOk(t.serverName.value) by { NamesAreWords(text, c, Addr(s)); }
    GroupNamesDistinct(c.servers, Addr(s));
    if s.serverName.Some? && ':' !in s.serverName.value {
      NamedChosen(group, s);
      AskingParses(s.serverName.value);
      assert ChosenBy(c, s, Asking([("Host", s.serverName.value)]));
    }
    if s == group[0] {
      FirstChosen(group);
      AskingParses("any") by { AnyWord(); }
      assert ChosenBy(c, s, Asking([]));
    }
    if data :| ChosenBy(c, s, data) {
      var headers := Requests.Parse(data).value.headers;
      HostHasNoColon(headers);
      FirstNamedExactly(group, HostOf(headers));
    }
  }

  lemma AnyWord()
    ensures WordOk("any")
  {
  }

  lemma NamedChosen(group: seq<ServerConfig>, s: ServerConfig)
    requires DistinctNames(group) && s in group && s.serverName.Some? && ':' !in s.serverName.value
    ensures MatchConfig(group, Asked(map["host" := s.serverName.value])) == s
  {
    var name := s.serverName.value;
    HostIs(name);
    FirstNamedExactly(group, name);
    NamedOnce(group, s, Choose(group, name));
  }

  lemma FirstChosen(group: seq<ServerConfig>)
    requires group != [] && forall t <- group :: t.serverName.Some? ==> WordOk(t.serverName.value)
    ensures MatchConfig(group, Asked(map[])) == group[0]
  {
    HostIs("");
    FirstNamedExactly(group, "");
  }

  lemma NamesAreWords(text: string, c: Config, addr: string)
    requires Load(text) == Some(c)
    ensures forall t <- Bucket(c.servers, addr) :: t.serverName.Some? ==> WordOk(t.serverName.value)
  {
    hide Load, LocationsOk, PagesOk, WordOk;
    LoadedOk(text, c);
    BucketMembers(c.servers, addr);
    forall t <- Bucket(c.servers, addr) ensures t.serverName.Some? ==> WordOk(t.serverName.value) {
      assert t in c.servers;
      var i :| 0 <= i < |c.servers| && c.servers[i] == t;
      assert ServerOk(c.servers[i]);
    }
  }

  // A named server behind an unnamed one, with a colon in its name.
  const PLAIN := ServerConfig("h", 80, None, 1, map[], [])
  const COLON := ServerConfig("h", 80, Some("a:b"), 1, map[], [])
  const TWO_SERVERS := Config([PLAIN, COLON])

  /** The program starts with this file, and no request is ever answered under its second block. */
  lemma SecondBlockUnreachable()
    ensures Accepted(Print(TWO_SERVERS), TWO_SERVERS) && COLON in TWO_SERVERS.servers
    ensures !Reachable(TWO_SERVERS, COLON)
  {
    hide ConfigOk, Load, Print, Reachable, Key, Addr;
    TwoServersOk();
    RoundTrip(TWO_SERVERS);
    TwoServersShare();
    assert COLON.serverName.value[1] == ':';
    ReachableExactly(Print(TWO_SERVERS), TWO_SERVERS, COLON);
  }

  lemma TwoServersOk()
    ensures ConfigOk(TWO_SERVERS)
  {
    assert WordOk("h") && WordOk("a:b");
  }

  lemma TwoServersShare()
    ensures DistinctKeys(TWO_SERVERS.servers) && Bucket(TWO_SERVERS.servers, Addr(COLON)) == [PLAIN, COLON]
  {
    assert Key(COLON) == Key(PLAIN) + "a:b";
    hide Addr;
    SameAddr();
    var ss := TWO_SERVERS.servers;
    assert ss[..1] == [PLAIN] && [PLAIN][..0] == [];
    assert Bucket([PLAIN], Addr(COLON)) == Bucket([], Addr(COLON)) + [PLAIN];
  }

  lemma SameAddr()
    ensures Addr(PLAIN) == Addr(COLON)
  {
  }

  // ---- The choice for a Host header ----------------------------------------

  /** The header names the host, perhaps with a port or anything else behind a colon. */
  ghost predicate NamesHost(value: string, name: string) {
    ':' !in name && (value == name || exists rest :: value == name + ":" + rest)
  }

  lemma HostOfHeader(headers: Requests.Headers, name: string)
    requires "host" in headers && NamesHost(headers["host"], name)
    ensures HostOf(headers) == name
  {
    hide Find;
    var h := headers["host"];
    if rest :| h == name + ":" + rest {
      assert h[|name|..|name| + 1] == ":";
      forall j: nat | j < |name| ensures !At(h, ":", j) { assert h[j..j + 1] == [h[j]] && h[j] == name[j]; }
      FindIs(h, ":", |name|);
    } else {
      FoundColon(h);
    }
  }

  lemma FoundColon(h: string)
    ensures Find(h, ":").Some? ==> ':' in h
  {
    hide Find;
    if Find(h, ":").Some? { assert h[Find(h, ":").value..Find(h, ":").value + 1][0] == ':'; }
  }

  /** The server at k has the name, and none before it. */
  predicate FirstWith(group: seq<ServerConfig>, k: nat, name: string) {
    k < |group| && group[k].serverName == Some(name) && forall j :: 0 <= j < k ==> group[j].serverName != Some(name)
  }

  lemma {:induction false} FirstNamedAt(group: seq<ServerConfig>, name: string) returns (k: nat)
    ensures if FirstNamed(group, name).Some? then FirstWith(group, k, name) && FirstNamed(group, name).value == group[k]
            else forall j :: 0 <= j < |group| ==> group[j].serverName != Some(name)
  {
    k := 0;
    if group != [] && group[0].serverName != Some(name) {
      var i := FirstNamedAt(group[1..], name);
      assert forall j :: 0 < j < |group| ==> group[j] == group[1..][j - 1];
      k := i + 1;
    }
  }

  lemma OneFirst(group: seq<ServerConfig>, i: nat, k: nat, name: string)
    requires FirstWith(group, i, name) && FirstWith(group, k, name)
    ensures i == k
  {
  }

  /** The bytes of any request that names a host, with or without a port, are answered by the
      first server of the group with that name; by the first server of all when none has it. */
  lemma NamedHostExactly(group: seq<ServerConfig>, data: string, name: string)
    requires group != [] && Requests.Parse(data).Done? && "host" in Requests.Parse(data).value.headers
    requires NamesHost(Requests.Parse(data).value.headers["host"], name)
    ensures var c := MatchConfig(group, Requests.Parse(data).value);
            && (forall k: nat :: FirstWith(group, k, name) ==> c == group[k])
            && ((forall k :: 0 <= k < |group| ==> group[k].serverName != Some(name)) ==> c == group[0])
  {
    hide Requests.Parse;
    HostOfHeader(Requests.Parse(data).value.headers, name);
    var k := FirstNamedAt(group, name);
    forall i: nat | FirstWith(group, i, name) ensures Choose(group, name) == group[i] { OneFirst(group, i, k, name); }
  }

  /** So it is for printed requests, and for the Host header as browsers send it. */
  lemma PrintedHostExactly(group: seq<ServerConfig>, verb: string, path: string, version: string,
                           value: string, body: string, name: string)
    requires group != [] && Requests.TokenOk(verb) && Requests.TokenOk(path) && Requests.TokenOk(version)
    requires Requests.HeaderOk(("Host", value)) && NamesHost(value, name)
    ensures var parsed := Requests.Parse(Requests.PrintRequest(verb, path, version, [("Host", value)], body));
            && parsed.Done? && parsed.value.verb == Requests.VerbOf(verb) && parsed.value.body == body
            && (forall k: nat :: FirstWith(group, k, name) ==> MatchConfig(group, parsed.value) == group[k])
            && ((forall k :: 0 <= k < |group| ==> group[k].serverName != Some(name)) ==> MatchConfig(group, parsed.value) == group[0])
  {
    hide Requests.Parse, Requests.PrintRequest, Requests.TokenOk, Requests.HeaderOk;
    var hs := [("Host", value)];
    assert hs[1..] == [] && Lower("Host") == "host";
    assert Requests.HeaderMap(map[], hs) == Requests.HeaderMap(map["host" := value], []) == map["host" := value];
    Requests.PlainRoundTrip(verb, path, version, hs, body);
    NamedHostExactly(group, Requests.PrintRequest(verb, path, version, hs, body), name);
  }

  const A_COM := ServerConfig("127.0.0.1", 8090, Some("a.com"), 1, map[], [])
  const B_COM := ServerConfig("127.0.0.1", 8090, Some("b.com"), 1, map[], [])

  /** Two blocks of one address: the port in the header does not hide the second. */
  lemma SecondBlockNamed()
    ensures var data := Requests.PrintRequest("GET", "/", "HTTP/1.1", [("Host", "b.com:8090")], "");
            Requests.Parse(data).Done? && MatchConfig([A_COM, B_COM], Requests.Parse(data).value) == B_COM
  {
    hide Requests.Parse, Requests.PrintRequest;
    assert "b.com:8090" == "b.com" + ":" + "8090";
    assert A_COM.serverName != Some("b.com") by { assert "a.com"[0] != "b.com"[0]; }
    assert FirstWith([A_COM, B_COM], 1, "b.com");
    PrintedHostExactly([A_COM, B_COM], "GET", "/", "HTTP/1.1", "b.com:8090", "", "b.com");
  }

  /** What the duplicate check accepts, for files whose hosts hold no colon: those in which no
      two servers have the same host, port and name. */
  lemma DuplicatesExactly(text: string, c: Config)
    requires Load(text) == Some(c) && forall s <- c.servers :: ':' !in s.host
    ensures Accepted(text, c) <==>
            forall i, j :: 0 <= i < j < |c.servers| ==> !SameServer(c.servers[i], c.servers[j])
  {
    hide Load, Key;
    var ss := c.servers;
    forall i, j | 0 <= i < j < |ss| ensures Key(ss[i]) == Key(ss[j]) <==> SameServer(ss[i], ss[j]) {
      assert ss[i] in ss && ss[j] in ss;
      KeyExactly(ss[i], ss[j]);
      NameIsWord(text, c, ss[i]);
      NameIsWord(text, c, ss[j]);
    }
  }

  predicate SameServer(s: ServerConfig, t: ServerConfig) {
    s.host == t.host && s.port == t.port && s.serverName == t.serverName
  }

  lemma NameIsWord(text: string, c: Config, s: ServerConfig)
    requires Load(text) == Some(c) && s in c.servers
    ensures s.serverName != Some("")
  {
    hide Load, Addr;
    BucketHas(c.servers, s);
    NamesAreWords(text, c, Addr(s));
  }
}
