/** Which server block answers a request: the duplicate check (src/config/mod.rs), the
    grouping by address (src/main.rs) and the choice by Host (src/server.rs). */
module VirtualHosts {
  import opened Text
  import opened Settings
  import Requests

  function NameText(s: ServerConfig): string { if s.serverName.Some? then s.serverName.value else "" }

  function Addr(s: ServerConfig): string { s.host + ":" + Decimal(s.port) }

  function Key(s: ServerConfig): string { s.host + ":" + Decimal(s.port) + ":" + NameText(s) }

  predicate DistinctKeys(ss: seq<ServerConfig>) { forall i, j :: 0 <= i < j < |ss| ==> Key(ss[i]) != Key(ss[j]) }

  /** The duplicate check of Config::from_file. */
  method CheckDuplicates(servers: seq<ServerConfig>) returns (ok: bool)
    ensures ok <==> DistinctKeys(servers)
  {
    hide Key;
    var seen: set<string> := {};
    for i := 0 to |servers|
      invariant DistinctKeys(servers[..i])
      invariant seen == set j | 0 <= j < i :: Key(servers[j])
    {
      var key := Key(servers[i]);
      if key in seen { return false; }
      seen := seen + {key};
    }
    assert servers[..|servers|] == servers;
    return true;
  }

  lemma KeyParts(s: ServerConfig)
    ensures Key(s) == Addr(s) + (":" + NameText(s))
    ensures Key(s) == s.host + ":" + (Decimal(s.port) + ":" + NameText(s))
  {
    hide Decimal, NameText;
  }

  lemma SameTail(a: string, u: string, v: string)
    ensures a + u == a + v <==> u == v
  {
    assert (a + u)[|a|..] == u && (a + v)[|a|..] == v;
  }

  /** Within one address the key of the duplicate check tells exactly the names apart. */
  lemma KeyWithin(s: ServerConfig, t: ServerConfig)
    requires Addr(s) == Addr(t)
    ensures Key(s) == Key(t) <==> NameText(s) == NameText(t)
  {
    hide Key, Addr, NameText;
    KeyParts(s);
    KeyParts(t);
    SameTail(Addr(s), ":" + NameText(s), ":" + NameText(t));
    SameTail(":", NameText(s), NameText(t));
  }

  /** When hosts hold no colon, it tells exactly host, port and name apart. */
  lemma KeyExactly(s: ServerConfig, t: ServerConfig)
    requires ':' !in s.host && ':' !in t.host
    ensures Key(s) == Key(t) <==> s.host == t.host && s.port == t.port && NameText(s) == NameText(t)
  {
    hide Key, NameText, Decimal;
    KeyParts(s);
    KeyParts(t);
    if Key(s) == Key(t) {
      var d, e := Decimal(s.port), Decimal(t.port);
      FirstColon(s.host, d + ":" + NameText(s), t.host, e + ":" + NameText(t));
      NoColon(s.port);
      NoColon(t.port);
      FirstColon(d, NameText(s), e, NameText(t));
      SamePort(s.port, t.port);
    }
  }

  lemma SamePort(p: nat, q: nat)
    requires Decimal(p) == Decimal(q)
    ensures p == q
  {
    DigitsParse(p, 10);
    DigitsParse(q, 10);
  }

  lemma FirstColon(a: string, x: string, b: string, y: string)
    requires a + ":" + x == b + ":" + y && ':' !in a && ':' !in b
    ensures a == b && x == y
  {
    var s, t := a + ":" + x, b + ":" + y;
    assert s[|a|] == ':' && t[|b|] == ':';
    assert forall i :: 0 <= i < |a| ==> s[i] == a[i];
    assert forall i :: 0 <= i < |b| ==> t[i] == b[i];
    assert |a| == |b|;
    assert a == s[..|a|] && b == t[..|b|] && x == s[|a| + 1..] && y == t[|b| + 1..];
  }

  /** With a colon in a host it tells less: these two servers differ in host, port and name,
      and one file may not hold both. */
  lemma KeyCollides()
    ensures Key(ServerConfig("a", 1, Some("2:b"), 1, map[], [])) == Key(ServerConfig("a:1", 2, Some("b"), 1, map[], []))
  {
    assert Decimal(1) == "1" && Decimal(2) == "2";
  }

  // ---- Groups --------------------------------------------------------------

  /** The servers of an address, in the order of the file. */
  function Bucket(ss: seq<ServerConfig>, addr: string): seq<ServerConfig> {
    if ss == [] then []
    else
      var front, last := Bucket(ss[..|ss| - 1], addr), ss[|ss| - 1];
      if Addr(last) == addr then front + [last] else front
  }

  method GroupByAddr(servers: seq<ServerConfig>) returns (groups: map<string, seq<ServerConfig>>)
    ensures groups.Keys == set i | 0 <= i < |servers| :: Addr(servers[i])
    ensures forall addr <- groups :: groups[addr] == Bucket(servers, addr)
  {
    hide Addr;
    groups := map[];
    for i := 0 to |servers|
      invariant groups.Keys == set j | 0 <= j < i :: Addr(servers[j])
      invariant forall addr :: Bucket(servers[..i], addr) == if addr in groups then groups[addr] else []
    {
      var server := servers[i];
      var addr := Addr(server);
      assert servers[..i + 1][..i] == servers[..i] && servers[..i + 1][i] == server;
      groups := groups[addr := (if addr in groups then groups[addr] else []) + [server]];
    }
    assert servers[..|servers|] == servers;
  }

  /** Grouping is a partition: a bucket holds only servers of its address, and every server
      as often as the file does. */
  lemma {:induction false} BucketExactly(ss: seq<ServerConfig>, s: ServerConfig, addr: string)
    ensures multiset(Bucket(ss, addr))[s] == if Addr(s) == addr then multiset(ss)[s] else 0
    decreases |ss|
  {
    hide Addr;
    if ss != [] {
      var front, last := ss[..|ss| - 1], ss[|ss| - 1];
      assert ss == front + [last];
      BucketExactly(front, s, addr);
    }
  }

  /** Grouping keeps the order of the file. */
  lemma {:induction false} BucketJoin(a: seq<ServerConfig>, b: seq<ServerConfig>, addr: string)
    ensures Bucket(a + b, addr) == Bucket(a, addr) + Bucket(b, addr)
    decreases |b|
  {
    hide Addr;
    if b == [] {
      assert a + b == a;
    } else {
      assert (a + b)[..|a + b| - 1] == a + b[..|b| - 1] && (a + b)[|a + b| - 1] == b[|b| - 1];
      BucketJoin(a, b[..|b| - 1], addr);
    }
  }

  lemma {:induction false} BucketMembers(ss: seq<ServerConfig>, addr: string)
    ensures forall s :: s in Bucket(ss, addr) ==> s in ss && Addr(s) == addr
  {
    hide Addr;
    if ss != [] { BucketMembers(ss[..|ss| - 1], addr); }
  }

  /** An address names one host and one port. */
  lemma AddrExactly(s: ServerConfig, t: ServerConfig)
    ensures Addr(s) == Addr(t) <==> s.host == t.host && s.port == t.port
  {
    if Addr(s) == Addr(t) {
      var d, e := Decimal(s.port), Decimal(t.port);
      NoColon(s.port);
      NoColon(t.port);
      ColonSplit(s.host, d, t.host, e);
      DigitsParse(s.port, 10);
      DigitsParse(t.port, 10);
    }
  }

  lemma NoColon(n: nat)
    ensures ':' !in Decimal(n)
  {
    var d := Decimal(n);
    assert forall i :: 0 <= i < |d| ==> IsDecimal(d[i]);
  }

  lemma ColonSplit(a: string, d: string, b: string, e: string)
    requires a + ":" + d == b + ":" + e && ':' !in d && ':' !in e
    ensures a == b && d == e
  {
    var s, t := a + ":" + d, b + ":" + e;
    assert s[|a|] == ':' && t[|b|] == ':';
    assert forall i :: |a| < i < |s| ==> s[i] == d[i - |a| - 1];
    assert forall i :: |b| < i < |t| ==> t[i] == e[i - |b| - 1];
    assert |a| == |b|;
    assert a == s[..|a|] && b == t[..|b|] && d == s[|a| + 1..] && e == t[|b| + 1..];
  }

  // ---- Names within a group ------------------------------------------------

  predicate DistinctNames(ss: seq<ServerConfig>) {
    forall i, j :: 0 <= i < j < |ss| ==> NameText(ss[i]) != NameText(ss[j])
  }

  lemma {:induction false} BucketKeysDistinct(ss: seq<ServerConfig>, addr: string)
    requires DistinctKeys(ss)
    ensures DistinctKeys(Bucket(ss, addr))
    decreases |ss|
  {
    hide Key, Addr;
    if ss != [] {
      var front, last := ss[..|ss| - 1], ss[|ss| - 1];
      BucketKeysDistinct(front, addr);
      BucketMembers(front, addr);
      var b := Bucket(front, addr);
      forall i | 0 <= i < |b| ensures Key(b[i]) != Key(last) {
        assert b[i] in front;
      }
    }
  }

  /** The duplicate check leaves no two servers of a group with the same name. */
  lemma GroupNamesDistinct(servers: seq<ServerConfig>, addr: string)
    requires DistinctKeys(servers)
    ensures DistinctNames(Bucket(servers, addr))
  {
    BucketKeysDistinct(servers, addr);
    BucketMembers(servers, addr);
    var b := Bucket(servers, addr);
    forall i, j | 0 <= i < j < |b| ensures NameText(b[i]) != NameText(b[j]) {
      assert b[i] in b && b[j] in b;
      assert Key(b[i]) == Addr(b[i]) + ":" + NameText(b[i]) && Key(b[j]) == Addr(b[j]) + ":" + NameText(b[j]);
    }
  }

  // ---- The choice by Host --------------------------------------------------

  /** The Host header up to its first colon. */
  function HostOf(headers: Requests.Headers): string {
    if "host" !in headers then ""
    else
      var h := headers["host"];
      var colon := Find(h, ":");
      if colon.Some? then h[..colon.value] else h
  }

  function FirstNamed(configs: seq<ServerConfig>, host: string): Option<ServerConfig> {
    if configs == [] then None
    else if configs[0].serverName == Some(host) then Some(configs[0])
    else FirstNamed(configs[1..], host)
  }

  function Choose(configs: seq<ServerConfig>, host: string): ServerConfig
    requires configs != []
  {
    var named := FirstNamed(configs, host);
    if named.Some? then named.value else configs[0]
  }

  /** Server::match_config. */
  function MatchConfig(configs: seq<ServerConfig>, req: Requests.Request): ServerConfig
    requires configs != []
  {
    Choose(configs, HostOf(req.headers))
  }

  ghost predicate Named(configs: seq<ServerConfig>, host: string) {
    exists c :: c in configs && c.serverName == Some(host)
  }

  lemma {:induction false} FirstNamedExactly(configs: seq<ServerConfig>, host: string)
    ensures FirstNamed(configs, host).Some? <==> Named(configs, host)
    ensures FirstNamed(configs, host).Some? ==>
              FirstNamed(configs, host).value in configs && FirstNamed(configs, host).value.serverName == Some(host)
  {
    if configs != [] {
      FirstNamedExactly(configs[1..], host);
      if c :| c in configs && c.serverName == Some(host) && c != configs[0] { assert c in configs[1..]; }
    }
  }

  lemma NamedOnce(configs: seq<ServerConfig>, c: ServerConfig, d: ServerConfig)
    requires DistinctNames(configs) && c in configs && d in configs && NameText(c) == NameText(d)
    ensures c == d
  {
  }

  predicate ChoosesSame(configs: seq<ServerConfig>, other: seq<ServerConfig>, host: string) {
    configs != [] && other != [] && Choose(other, host) == Choose(configs, host)
  }

  /** Any permutation of the servers gives the same choice. */
  ghost predicate OrderFree(configs: seq<ServerConfig>, host: string) {
    forall other :: multiset(other) == multiset(configs) ==> ChoosesSame(configs, other, host)
  }

  /** Within a group, the choice does not depend on the order of the servers exactly when
      some server has the name asked for, or the group has one server. */
  lemma ChoiceOrderExactly(configs: seq<ServerConfig>, host: string)
    requires configs != [] && DistinctNames(configs)
    ensures OrderFree(configs, host) <==> Named(configs, host) || |configs| == 1
  {
    if Named(configs, host) || |configs| == 1 {
      forall other | multiset(other) == multiset(configs) ensures ChoosesSame(configs, other, host) {
        SameChoice(configs, other, host);
      }
    } else {
      FirstTwoSwapped(configs, host);
    }
  }

  lemma FirstTwoSwapped(configs: seq<ServerConfig>, host: string)
    requires |configs| > 1 && DistinctNames(configs) && !Named(configs, host)
    ensures var other := [configs[1], configs[0]] + configs[2..];
            multiset(other) == multiset(configs) && !ChoosesSame(configs, other, host)
  {
    var other := [configs[1], configs[0]] + configs[2..];
    assert configs == [configs[0], configs[1]] + configs[2..];
    assert multiset(other) == multiset(configs);
    FirstNamedExactly(configs, host);
    FirstNamedExactly(other, host);
    assert forall c <- other :: c in multiset(configs);
    assert NameText(configs[0]) != NameText(configs[1]);
  }

  lemma SameChoice(configs: seq<ServerConfig>, other: seq<ServerConfig>, host: string)
    requires configs != [] && DistinctNames(configs) && multiset(other) == multiset(configs)
    requires Named(configs, host) || |configs| == 1
    ensures ChoosesSame(configs, other, host)
  {
    assert forall c :: c in other <==> c in multiset(other);
    assert forall c :: c in configs <==> c in multiset(configs);
    assert |other| == |multiset(other)| == |multiset(configs)| == |configs|;
    FirstNamedExactly(configs, host);
    FirstNamedExactly(other, host);
    if Named(configs, host) {
      NamedOnce(configs, Choose(configs, host), Choose(other, host));
    } else {
      assert configs[0] in configs && other[0] in other;
    }
  }
}
