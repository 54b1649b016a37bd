/** The configuration language, declaratively: which token sequences derive which
    directives, and what the directives mean. The parser (src/config/parser.rs) is proved
    to accept exactly this. */
module Grammar {
  import opened Text
  import opened Tokenizer
  import opened Settings

  datatype LocItem =
    | Root(word: string)
    | Index(word: string)
    | Methods(names: seq<string>)
    | Autoindex(word: string)
    | Redirect(word: string)
    | CgiItem(ext: string, interpreter: Option<string>)

  datatype ServerItem =
    | Host(word: string)
    | Port(word: string)
    | ServerName(word: string)
    | BodySize(word: string)
    | ErrorPage(code: string, page: string)
    | Loc(path: string, items: seq<LocItem>)

  // ---- Concrete syntax -----------------------------------------------------

  function Words(ws: seq<string>): (ks: seq<TokenKind>)
    ensures |ks| == |ws| && forall i :: 0 <= i < |ws| ==> ks[i] == Word(ws[i])
  {
    seq(|ws|, i requires 0 <= i < |ws| => Word(ws[i]))
  }

  function Directive(name: string, args: seq<string>): (ks: seq<TokenKind>)
    ensures |ks| == |args| + 2
  {
    [Word(name)] + Words(args) + [Semicolon]
  }

  function LocItemTokens(item: LocItem): seq<TokenKind> {
    match item
    case Root(w) => Directive("root", [w])
    case Index(w) => Directive("index", [w])
    case Methods(names) => Directive("methods", names)
    case Autoindex(w) => Directive("autoindex", [w])
    case Redirect(w) => Directive("redirect", [w])
    case CgiItem(ext, None) => Directive("cgi", [ext])
    case CgiItem(ext, Some(i)) => Directive("cgi", [ext, i])
  }

  function LocItemsTokens(items: seq<LocItem>): seq<TokenKind> {
    if items == [] then [] else LocItemTokens(items[0]) + LocItemsTokens(items[1..])
  }

  function ServerItemTokens(item: ServerItem): seq<TokenKind> {
    match item
    case Host(w) => Directive("host", [w])
    case Port(w) => Directive("port", [w])
    case ServerName(w) => Directive("server_name", [w])
    case BodySize(w) => Directive("client_max_body_size", [w])
    case ErrorPage(code, page) => Directive("error_page", [code, page])
    case Loc(path, items) => [Word("location"), Word(path), LBrace] + LocItemsTokens(items) + [RBrace]
  }

  function ServerItemsTokens(items: seq<ServerItem>): seq<TokenKind> {
    if items == [] then [] else ServerItemTokens(items[0]) + ServerItemsTokens(items[1..])
  }

  function ConfigTokens(blocks: seq<seq<ServerItem>>): seq<TokenKind> {
    if blocks == [] then []
    else [Word("server"), LBrace] + ServerItemsTokens(blocks[0]) + [RBrace] + ConfigTokens(blocks[1..])
  }

  // ---- Meaning -------------------------------------------------------------

  function MethodNamed(name: string): Option<Method> {
    if name == "GET" then Some(Get) else if name == "POST" then Some(Post)
    else if name == "DELETE" then Some(Delete) else None
  }

  function MethodsNamed(names: seq<string>): Option<seq<Method>> {
    if names == [] then Some([])
    else
      var first, rest := MethodNamed(names[0]), MethodsNamed(names[1..]);
      if first.None? || rest.None? then None else Some([first.value] + rest.value)
  }

  function DefaultInterpreter(ext: string): string {
    if ext == ".py" then "python3" else if ext == ".php" then "php" else "sh"
  }

  function ApplyLoc(l: Location, item: LocItem): Option<Location> {
    match item
    case Root(w) => Some(l.(root := w))
    case Index(w) => Some(l.(index := Some(w)))
    case Methods(names) =>
      var ms := MethodsNamed(names);
      if ms.None? then None else Some(l.(methods := l.methods + ms.value))
    case Autoindex(w) =>
      if w == "on" then Some(l.(autoindex := true)) else if w == "off" then Some(l.(autoindex := false)) else None
    case Redirect(w) => Some(l.(redirect := Some(w)))
    case CgiItem(ext, i) =>
      Some(l.(cgi := Some(Cgi(ext, if i.Some? then i.value else DefaultInterpreter(ext)))))
  }

  function ApplyLocs(l: Location, items: seq<LocItem>): Option<Location>
    decreases |items|
  {
    if items == [] then Some(l)
    else
      var l1 := ApplyLoc(l, items[0]);
      if l1.None? then None else ApplyLocs(l1.value, items[1..])
  }

  function NewLocation(path: string): Location { Location(path, "", None, [], false, None, None) }

  function LocationOf(path: string, items: seq<LocItem>): Option<Location> {
    if path == "" then None else ApplyLocs(NewLocation(path), items)
  }

  /** A server block being read. */
  datatype Draft = Draft(
    host: Option<string>,
    port: Option<nat>,
    serverName: Option<string>,
    bodySize: nat,
    errorPages: map<nat, string>,
    locations: seq<Location>)

  const NEW_DRAFT := Draft(None, None, None, DEFAULT_BODY_SIZE, map[], [])

  function ApplyServer(d: Draft, item: ServerItem): Option<Draft> {
    match item
    case Host(w) => Some(d.(host := Some(w)))
    case Port(w) => var p := ParseU16(w); if p.None? then None else Some(d.(port := p))
    case ServerName(w) => Some(d.(serverName := Some(w)))
    case BodySize(w) => var n := ParseBodySize(w); if n.None? then None else Some(d.(bodySize := n.value))
    case ErrorPage(code, page) =>
      var c := ParseU16(code); if c.None? then None else Some(d.(errorPages := d.errorPages[c.value := page]))
    case Loc(path, items) =>
      var l := LocationOf(path, items); if l.None? then None else Some(d.(locations := d.locations + [l.value]))
  }

  function ApplyServers(d: Draft, items: seq<ServerItem>): Option<Draft>
    decreases |items|
  {
    if items == [] then Some(d)
    else
      var d1 := ApplyServer(d, items[0]);
      if d1.None? then None else ApplyServers(d1.value, items[1..])
  }

  function Finish(d: Draft): Option<ServerConfig> {
    if d.host.None? || d.port.None? then None
    else Some(ServerConfig(d.host.value, d.port.value, d.serverName, d.bodySize, d.errorPages, d.locations))
  }

  function ServerOf(items: seq<ServerItem>): Option<ServerConfig> {
    var d := ApplyServers(NEW_DRAFT, items);
    if d.None? then None else Finish(d.value)
  }

  function ServersOf(blocks: seq<seq<ServerItem>>): Option<seq<ServerConfig>> {
    if blocks == [] then Some([])
    else
      var s, rest := ServerOf(blocks[0]), ServersOf(blocks[1..]);
      if s.None? || rest.None? then None else Some([s.value] + rest.value)
  }

  function ConfigOf(blocks: seq<seq<ServerItem>>): Option<Config> {
    if blocks == [] then None
    else
      var ss := ServersOf(blocks);
      if ss.None? then None else Some(Config(ss.value))
  }

  /** The token kinds are those of some server blocks whose meaning is c. */
  ghost predicate Derives(ks: seq<TokenKind>, c: Config) {
    exists blocks :: ConfigTokens(blocks) == ks && ConfigOf(blocks) == Some(c)
  }

  // ---- What a block says as a whole ----------------------------------------

  /** The pick from the last item that has one. */
  function LastOf<I, T>(items: seq<I>, pick: I -> Option<T>): Option<T> {
    if items == [] then None
    else var later := LastOf(items[1..], pick); if later.Some? then later else pick(items[0])
  }

  function Or<T>(w: Option<T>, default: T): T { if w.Some? then w.value else default }

  function RootIn(i: LocItem): Option<string> { if i.Root? then Some(i.word) else None }
  function IndexIn(i: LocItem): Option<string> { if i.Index? then Some(i.word) else None }
  function AutoindexIn(i: LocItem): Option<bool> { if i.Autoindex? then Some(i.word == "on") else None }
  function RedirectIn(i: LocItem): Option<string> { if i.Redirect? then Some(i.word) else None }
  function CgiIn(i: LocItem): Option<Cgi> {
    if i.CgiItem? then Some(Cgi(i.ext, Or(i.interpreter, DefaultInterpreter(i.ext)))) else None
  }

  function Every<I, T>(items: seq<I>, pick: I -> seq<T>): seq<T> {
    if items == [] then [] else pick(items[0]) + Every(items[1..], pick)
  }

  function MethodsIn(i: LocItem): seq<Method> { if i.Methods? then Or(MethodsNamed(i.names), []) else [] }

  /** l with the last root, index, autoindex, redirect and cgi of the items, and their
      methods added. */
  function Amended(l: Location, items: seq<LocItem>): Location {
    Location(
      l.path,
      Or(LastOf(items, RootIn), l.root),
      if LastOf(items, IndexIn).Some? then LastOf(items, IndexIn) else l.index,
      l.methods + Every(items, MethodsIn),
      Or(LastOf(items, AutoindexIn), l.autoindex),
      if LastOf(items, RedirectIn).Some? then LastOf(items, RedirectIn) else l.redirect,
      if LastOf(items, CgiIn).Some? then LastOf(items, CgiIn) else l.cgi)
  }

  lemma AmendedStep(l: Location, items: seq<LocItem>)
    requires items != [] && ApplyLoc(l, items[0]).Some?
    ensures Amended(ApplyLoc(l, items[0]).value, items[1..]) == Amended(l, items)
  {
    hide MethodsNamed, DefaultInterpreter;
    var l1, rest := ApplyLoc(l, items[0]).value, Every(items[1..], MethodsIn);
    assert l.methods + (MethodsIn(items[0]) + rest) == l1.methods + rest by { assert l.methods + [] == l.methods; }
  }

  /** In a location block the last of every scalar directive wins and the methods add up. */
  lemma {:induction false} LocationMeans(l: Location, items: seq<LocItem>)
    requires ApplyLocs(l, items).Some?
    ensures ApplyLocs(l, items).value == Amended(l, items)
    decreases |items|
  {
    hide ApplyLoc;
    if items == [] {
      assert l.methods + [] == l.methods;
    } else {
      hide Amended;
      AmendedStep(l, items);
      LocationMeans(ApplyLoc(l, items[0]).value, items[1..]);
    }
  }

  function HostIn(i: ServerItem): Option<string> { if i.Host? then Some(i.word) else None }
  function PortIn(i: ServerItem): Option<nat> { if i.Port? then ParseU16(i.word) else None }
  function NameIn(i: ServerItem): Option<string> { if i.ServerName? then Some(i.word) else None }
  function BodySizeIn(i: ServerItem): Option<nat> { if i.BodySize? then ParseBodySize(i.word) else None }
  function LocationsIn(i: ServerItem): seq<Location> {
    if i.Loc? && LocationOf(i.path, i.items).Some? then [LocationOf(i.path, i.items).value] else []
  }
  function PageIn(i: ServerItem, code: nat): Option<string> {
    if i.ErrorPage? && ParseU16(i.code) == Some(code) then Some(i.page) else None
  }

  function PageFor(d: Draft, code: nat): Option<string> {
    if code in d.errorPages then Some(d.errorPages[code]) else None
  }

  /** In a server block the last of every scalar directive wins, for error pages the last
      of every code, and the locations add up. */
  lemma {:induction false} ServerMeans(d: Draft, items: seq<ServerItem>)
    requires ApplyServers(d, items).Some?
    ensures var r := ApplyServers(d, items).value;
            && r.host == (if LastOf(items, HostIn).Some? then LastOf(items, HostIn) else d.host)
            && r.port == (if LastOf(items, PortIn).Some? then LastOf(items, PortIn) else d.port)
            && r.serverName == (if LastOf(items, NameIn).Some? then LastOf(items, NameIn) else d.serverName)
            && r.bodySize == Or(LastOf(items, BodySizeIn), d.bodySize)
            && r.locations == d.locations + Every(items, LocationsIn)
    decreases |items|
  {
    hide ParseU16, ParseBodySize, LocationOf;
    if items == [] {
      assert d.locations + [] == d.locations;
    } else {
      var d1 := ApplyServer(d, items[0]).value;
      ServerMeans(d1, items[1..]);
      assert d.locations + (LocationsIn(items[0]) + Every(items[1..], LocationsIn))
          == d1.locations + Every(items[1..], LocationsIn);
    }
  }

  lemma {:induction false} PagesLastWins(d: Draft, items: seq<ServerItem>, code: nat)
    requires ApplyServers(d, items).Some?
    ensures var last := LastOf(items, (i: ServerItem) => PageIn(i, code));
            PageFor(ApplyServers(d, items).value, code) == if last.Some? then last else PageFor(d, code)
    decreases |items|
  {
    hide ParseU16, ParseBodySize, LocationOf;
    if items != [] {
      var d1 := ApplyServer(d, items[0]).value;
      PagesLastWins(d1, items[1..], code);
    }
  }

  // ---- Which blocks have a meaning -----------------------------------------

  predicate LocItemValid(i: LocItem) {
    match i
    case Methods(names) => forall k :: 0 <= k < |names| ==> names[k] == "GET" || names[k] == "POST" || names[k] == "DELETE"
    case Autoindex(w) => w == "on" || w == "off"
    case _ => true
  }

  lemma {:induction false} MethodsValid(names: seq<string>)
    ensures MethodsNamed(names).Some? <==> LocItemValid(Methods(names))
  {
    if names != [] {
      MethodsValid(names[1..]);
      assert forall k :: 0 < k < |names| ==> names[k] == names[1..][k - 1];
    }
  }

  predicate LocItemsValid(items: seq<LocItem>) { forall k :: 0 <= k < |items| ==> LocItemValid(items[k]) }

  lemma {:induction false} ApplyLocsExactly(l: Location, items: seq<LocItem>)
    ensures ApplyLocs(l, items).Some? <==> LocItemsValid(items)
    decreases |items|
  {
    hide LocItemValid, ApplyLoc;
    if items != [] {
      assert ApplyLoc(l, items[0]).Some? <==> LocItemValid(items[0]) by { ApplyLocExactly(l, items[0]); }
      if ApplyLoc(l, items[0]).Some? { ApplyLocsExactly(ApplyLoc(l, items[0]).value, items[1..]); }
      assert forall k :: 0 < k < |items| ==> items[k] == items[1..][k - 1];
    }
  }

  lemma ApplyLocExactly(l: Location, item: LocItem)
    ensures ApplyLoc(l, item).Some? <==> LocItemValid(item)
  {
    if item.Methods? { MethodsValid(item.names); }
    hide MethodsNamed;
  }

  /** A location block has a meaning if and only if its path is not empty, its methods are
      the three known ones and its autoindex is on or off. */
  lemma LocationExactly(path: string, items: seq<LocItem>)
    ensures LocationOf(path, items).Some? <==> path != "" && LocItemsValid(items)
  {
    ApplyLocsExactly(NewLocation(path), items);
  }

  predicate ServerItemValid(i: ServerItem) {
    match i
    case Port(w) => ParseU16(w).Some?
    case BodySize(w) => ParseBodySize(w).Some?
    case ErrorPage(code, page) => ParseU16(code).Some?
    case Loc(path, items) => path != "" && LocItemsValid(items)
    case _ => true
  }

  predicate ServerItemsValid(items: seq<ServerItem>) { forall k :: 0 <= k < |items| ==> ServerItemValid(items[k]) }

  lemma ApplyServerExactly(d: Draft, item: ServerItem)
    ensures ApplyServer(d, item).Some? <==> ServerItemValid(item)
  {
    hide ParseU16, ParseBodySize, LocationOf, LocItemsValid;
    if item.Loc? { LocationExactly(item.path, item.items); }
  }

  lemma {:induction false} ApplyServersExactly(d: Draft, items: seq<ServerItem>)
    ensures ApplyServers(d, items).Some? <==> ServerItemsValid(items)
    decreases |items|
  {
    hide ServerItemValid, ApplyServer;
    if items != [] {
      ApplyServerExactly(d, items[0]);
      if ApplyServer(d, items[0]).Some? { ApplyServersExactly(ApplyServer(d, items[0]).value, items[1..]); }
      assert forall k :: 0 < k < |items| ==> items[k] == items[1..][k - 1];
    }
  }

  lemma {:induction false} LastOfSome<I, T>(items: seq<I>, pick: I -> Option<T>)
    ensures LastOf(items, pick).Some? <==> exists k :: 0 <= k < |items| && pick(items[k]).Some?
  {
    if items != [] {
      LastOfSome(items[1..], pick);
      assert forall k :: 0 < k < |items| ==> items[k] == items[1..][k - 1];
      if k :| 0 <= k < |items| && pick(items[k]).Some? && k > 0 { assert pick(items[1..][k - 1]).Some?; }
    }
  }

  /** A server block has a meaning if and only if it has a host and a port, its ports, sizes
      and codes are numbers in range, and its locations have a meaning. */
  lemma ServerExactly(items: seq<ServerItem>)
    ensures ServerOf(items).Some? <==>
            && ServerItemsValid(items)
            && (exists k :: 0 <= k < |items| && items[k].Host?)
            && (exists k :: 0 <= k < |items| && items[k].Port?)
  {
    hide ServerItemValid, ApplyServers, ParseU16, LastOf;
    ApplyServersExactly(NEW_DRAFT, items);
    if ServerItemsValid(items) {
      ServerMeans(NEW_DRAFT, items);
      LastOfSome(items, HostIn);
      LastOfSome(items, PortIn);
      forall k | 0 <= k < |items| ensures (HostIn(items[k]).Some? <==> items[k].Host?) && (PortIn(items[k]).Some? <==> items[k].Port?) {
        ValidPort(items[k]);
      }
    }
  }

  lemma ValidPort(i: ServerItem)
    requires ServerItemValid(i)
    ensures PortIn(i).Some? <==> i.Port?
  {
  }
}
