/** Configurations as text: printing one and reading it back, and which configurations
    any text can produce (src/config/tokenizer.rs, src/config/parser.rs). */
module ConfigText {
  import opened Text
  import opened Tokenizer
  import opened Settings
  import opened Grammar
  import opened Recognizer

  /** What Config::from_file reads from a text, before the duplicate check. */
  function Load(text: string): Option<Config> { ParseKinds(Kinds(Tokens(text))) }

  // ---- Well-formed values --------------------------------------------------

  predicate OptionalWordOk(w: Option<string>) { w.Some? ==> WordOk(w.value) }

  predicate LocationOk(l: Location) {
    && WordOk(l.path) && (l.root == "" || WordOk(l.root)) && OptionalWordOk(l.index) && OptionalWordOk(l.redirect)
    && (l.cgi.Some? ==> WordOk(l.cgi.value.extension) && WordOk(l.cgi.value.interpreter))
  }

  predicate LocationsOk(ls: seq<Location>) { forall i :: 0 <= i < |ls| ==> LocationOk(ls[i]) }

  predicate PagesOk(pages: map<nat, string>) {
    forall code :: code in pages ==> code <= U16_MAX && WordOk(pages[code])
  }

  predicate ServerOk(s: ServerConfig) {
    && WordOk(s.host) && s.port <= U16_MAX && OptionalWordOk(s.serverName) && s.clientMaxBodySize < USIZE
    && PagesOk(s.errorPages) && LocationsOk(s.locations)
  }

  predicate ConfigOk(c: Config) { c.servers != [] && forall i :: 0 <= i < |c.servers| ==> ServerOk(c.servers[i]) }

  // ---- The printer ---------------------------------------------------------

  function MethodName(m: Method): string {
    match m case Get => "GET" case Post => "POST" case Delete => "DELETE"
  }

  function MethodNames(ms: seq<Method>): seq<string> {
    if ms == [] then [] else [MethodName(ms[0])] + MethodNames(ms[1..])
  }

  function Given(w: Option<string>, make: string -> LocItem): seq<LocItem> {
    if w.Some? then [make(w.value)] else []
  }

  function LocItemsFor(l: Location): seq<LocItem> {
    (if l.root != "" then [Root(l.root)] else [])
    + Given(l.index, w => Index(w))
    + (if l.methods != [] then [Methods(MethodNames(l.methods))] else [])
    + (if l.autoindex then [Autoindex("on")] else [])
    + Given(l.redirect, w => Redirect(w))
    + (if l.cgi.Some? then [CgiItem(l.cgi.value.extension, Some(l.cgi.value.interpreter))] else [])
  }

  function LocsFor(ls: seq<Location>): seq<ServerItem> {
    if ls == [] then [] else [Loc(ls[0].path, LocItemsFor(ls[0]))] + LocsFor(ls[1..])
  }

  /** The error pages in order of their codes, from code on. */
  function PagesFrom(pages: map<nat, string>, code: nat): seq<ServerItem>
    decreases U16_MAX + 1 - code
  {
    if code > U16_MAX then []
    else (if code in pages then [ErrorPage(Decimal(code), pages[code])] else []) + PagesFrom(pages, code + 1)
  }

  function ItemsFor(s: ServerConfig): seq<ServerItem> {
    [Host(s.host), Port(Decimal(s.port)), BodySize(Decimal(s.clientMaxBodySize))]
    + (if s.serverName.Some? then [ServerName(s.serverName.value)] else [])
    + PagesFrom(s.errorPages, 0) + LocsFor(s.locations)
  }

  function BlocksFor(ss: seq<ServerConfig>): seq<seq<ServerItem>> {
    if ss == [] then [] else [ItemsFor(ss[0])] + BlocksFor(ss[1..])
  }

  function Spaced(ks: seq<TokenKind>): (ps: seq<Spelled>)
    ensures |ps| == |ks| && forall i :: 0 <= i < |ks| ==> ps[i] == Spelled(" ", ks[i])
  {
    seq(|ks|, i requires 0 <= i < |ks| => Spelled(" ", ks[i]))
  }

  function Print(c: Config): string { Render(Spaced(ConfigTokens(BlocksFor(c.servers))), "\n") }

  // ---- Printed items mean the value ----------------------------------------

  lemma {:induction false} ApplyLocsTwo(l: Location, a: seq<LocItem>, b: seq<LocItem>)
    ensures ApplyLocs(l, a + b) == if ApplyLocs(l, a).None? then None else ApplyLocs(ApplyLocs(l, a).value, b)
    decreases |a|
  {
    hide ApplyLoc;
    if a == [] {
      assert a + b == b;
    } else {
      assert (a + b)[1..] == a[1..] + b;
      var l1 := ApplyLoc(l, a[0]);
      if l1.Some? { ApplyLocsTwo(l1.value, a[1..], b); }
    }
  }

  lemma {:induction false} ApplyServersTwo(d: Draft, a: seq<ServerItem>, b: seq<ServerItem>)
    ensures ApplyServers(d, a + b)
            == if ApplyServers(d, a).None? then None else ApplyServers(ApplyServers(d, a).value, b)
    decreases |a|
  {
    hide ApplyServer;
    if a == [] {
      assert a + b == b;
    } else {
      assert (a + b)[1..] == a[1..] + b;
      var d1 := ApplyServer(d, a[0]);
      if d1.Some? { ApplyServersTwo(d1.value, a[1..], b); }
    }
  }

  lemma {:induction false} MethodNamesRead(ms: seq<Method>)
    ensures MethodsNamed(MethodNames(ms)) == Some(ms)
  {
    if ms != [] {
      MethodNamesRead(ms[1..]);
      assert MethodNames(ms)[1..] == MethodNames(ms[1..]);
      assert MethodNamed(MethodName(ms[0])) == Some(ms[0]);
      assert ms == [ms[0]] + ms[1..];
    }
  }

  /** Nothing more, or one more item, behind a list that means l. */
  lemma Segment(l0: Location, items: seq<LocItem>, l: Location, more: seq<LocItem>, l1: Location)
    requires ApplyLocs(l0, items) == Some(l)
    requires if more == [] then l1 == l else |more| == 1 && ApplyLoc(l, more[0]) == Some(l1)
    ensures ApplyLocs(l0, items + more) == Some(l1)
  {
    hide ApplyLoc;
    ApplyLocsTwo(l0, items, more);
    if more != [] { assert more[1..] == []; }
  }

  lemma LocItemsMean(l: Location)
    requires LocationOk(l)
    ensures LocationOf(l.path, LocItemsFor(l)) == Some(l)
  {
    hide ApplyLocs, MethodsNamed, WordOk;
    assert l.path != "" by { WordNotEmpty(l.path); }
    var l0 := NewLocation(l.path);
    var i1 := if l.root != "" then [Root(l.root)] else [];
    var i2 := Given(l.index, w => Index(w));
    var i3 := if l.methods != [] then [Methods(MethodNames(l.methods))] else [];
    var i4 := if l.autoindex then [Autoindex("on")] else [];
    var i5 := Given(l.redirect, w => Redirect(w));
    var i6 := if l.cgi.Some? then [CgiItem(l.cgi.value.extension, Some(l.cgi.value.interpreter))] else [];
    var l1 := l0.(root := l.root);
    var l2 := l1.(index := l.index);
    var l3 := l2.(methods := l.methods);
    var l4 := l3.(autoindex := l.autoindex);
    var l5 := l4.(redirect := l.redirect);
    NoLocs(l0);
    Segment(l0, [], l0, i1, l1);
    Segment(l0, [] + i1, l1, i2, l2);
    assert ApplyLoc(l2, Methods(MethodNames(l.methods))) == Some(l3) by {
      MethodNamesRead(l.methods);
      assert [] + l.methods == l.methods;
    }
    Segment(l0, [] + i1 + i2, l2, i3, l3);
    Segment(l0, [] + i1 + i2 + i3, l3, i4, l4);
    Segment(l0, [] + i1 + i2 + i3 + i4, l4, i5, l5);
    Segment(l0, [] + i1 + i2 + i3 + i4 + i5, l5, i6, l);
    assert [] + i1 == i1;
  }

  lemma WordNotEmpty(w: string)
    requires WordOk(w)
    ensures w != ""
  {
  }

  lemma NoLocs(l: Location)
    ensures ApplyLocs(l, []) == Some(l)
  {
  }

  // Server items

  lemma NoItems(d: Draft)
    ensures ApplyServers(d, []) == Some(d)
  {
  }

  lemma OneItem(d: Draft, item: ServerItem)
    ensures ApplyServers(d, [item]) == ApplyServer(d, item)
  {
    hide ApplyServer;
    assert [item][1..] == [];
  }

  /** The pages with a code of at least from. */
  function PagesAbove(pages: map<nat, string>, from: nat): map<nat, string> {
    map code | code in pages && code >= from :: pages[code]
  }

  lemma PageMeans(d: Draft, code: nat, page: string)
    requires code <= U16_MAX
    ensures ApplyServers(d, [ErrorPage(Decimal(code), page)]) == Some(d.(errorPages := d.errorPages[code := page]))
  {
    hide ApplyServers, Decimal, ParseUnsigned;
    UnsignedRoundTrip(code, 10, U16_MAX);
    DecimalDigits(code);
    OneItem(d, ErrorPage(Decimal(code), page));
  }

  lemma PagesStep(pages: map<nat, string>, from: nat, before: map<nat, string>)
    requires from in pages
    ensures before[from := pages[from]] + PagesAbove(pages, from + 1) == before + PagesAbove(pages, from)
  {
  }

  lemma {:induction false} PagesMean(pages: map<nat, string>, from: nat, d: Draft)
    requires forall code :: code in pages ==> code <= U16_MAX
    ensures ApplyServers(d, PagesFrom(pages, from))
            == Some(d.(errorPages := d.errorPages + PagesAbove(pages, from)))
    decreases U16_MAX + 1 - from
  {
    hide ApplyServers, Decimal, ApplyServer;
    var rest := PagesFrom(pages, from + 1);
    if from > U16_MAX {
      NoItems(d);
      assert d.errorPages + PagesAbove(pages, from) == d.errorPages;
    } else if from in pages {
      var item := ErrorPage(Decimal(from), pages[from]);
      var d1 := d.(errorPages := d.errorPages[from := pages[from]]);
      PageMeans(d, from, pages[from]);
      PagesMean(pages, from + 1, d1);
      ApplyServersTwo(d, [item], rest);
      PagesStep(pages, from, d.errorPages);
    } else {
      PagesMean(pages, from + 1, d);
      assert [] + rest == rest;
      assert PagesAbove(pages, from + 1) == PagesAbove(pages, from);
    }
  }

  lemma {:induction false} LocsMean(ls: seq<Location>, d: Draft)
    requires LocationsOk(ls)
    ensures ApplyServers(d, LocsFor(ls)) == Some(d.(locations := d.locations + ls))
    decreases |ls|
  {
    hide ApplyServers, LocationOk, LocItemsFor, LocationOf;
    if ls == [] {
      NoItems(d);
      assert d.locations + ls == d.locations;
    } else {
      LocItemsMean(ls[0]);
      var item := Loc(ls[0].path, LocItemsFor(ls[0]));
      var d1 := d.(locations := d.locations + [ls[0]]);
      OneItem(d, item);
      LocsMean(ls[1..], d1);
      ApplyServersTwo(d, [item], LocsFor(ls[1..]));
      assert d1.locations + ls[1..] == d.locations + ls;
    }
  }

  lemma ScalarsMean(s: ServerConfig)
    requires ServerOk(s)
    ensures ApplyServers(NEW_DRAFT, [Host(s.host), Port(Decimal(s.port)), BodySize(Decimal(s.clientMaxBodySize))])
            == Some(NEW_DRAFT.(host := Some(s.host), port := Some(s.port), bodySize := s.clientMaxBodySize))
  {
    hide ApplyServers, WordOk, PagesOk, LocationsOk, Decimal, ParseBodySize, ParseUnsigned;
    UnsignedRoundTrip(s.port, 10, U16_MAX);
    DecimalBodySize(s.clientMaxBodySize);
    assert ParseU16(Decimal(s.port)) == Some(s.port) by { DecimalDigits(s.port); }
    var h, p, b := Host(s.host), Port(Decimal(s.port)), BodySize(Decimal(s.clientMaxBodySize));
    var d1 := NEW_DRAFT.(host := Some(s.host));
    var d2 := d1.(port := Some(s.port));
    OneItem(NEW_DRAFT, h);
    OneItem(d1, p);
    OneItem(d2, b);
    ApplyServersTwo(NEW_DRAFT, [h], [p]);
    ApplyServersTwo(NEW_DRAFT, [h] + [p], [b]);
    assert [h] + [p] + [b] == [h, p, b];
  }

  lemma ItemsMean(s: ServerConfig)
    requires ServerOk(s)
    ensures ServerOf(ItemsFor(s)) == Some(s)
  {
    hide ApplyServers, WordOk, Decimal, LocationsOk, PagesFrom, LocsFor;
    var i1 := [Host(s.host), Port(Decimal(s.port)), BodySize(Decimal(s.clientMaxBodySize))];
    var i2 := if s.serverName.Some? then [ServerName(s.serverName.value)] else [];
    var i3, i4 := PagesFrom(s.errorPages, 0), LocsFor(s.locations);
    var d1 := NEW_DRAFT.(host := Some(s.host), port := Some(s.port), bodySize := s.clientMaxBodySize);
    var d2 := d1.(serverName := s.serverName);
    var d3 := d2.(errorPages := map[] + PagesAbove(s.errorPages, 0));
    ScalarsMean(s);
    NoItems(d1);
    if s.serverName.Some? { OneItem(d1, i2[0]); }
    ApplyServersTwo(NEW_DRAFT, i1, i2);
    PagesMean(s.errorPages, 0, d2);
    ApplyServersTwo(NEW_DRAFT, i1 + i2, i3);
    LocsMean(s.locations, d3);
    ApplyServersTwo(NEW_DRAFT, i1 + i2 + i3, i4);
    assert map[] + PagesAbove(s.errorPages, 0) == s.errorPages;
    assert [] + s.locations == s.locations;
  }

  lemma {:induction false} BlocksMean(ss: seq<ServerConfig>)
    requires forall i :: 0 <= i < |ss| ==> ServerOk(ss[i])
    ensures ServersOf(BlocksFor(ss)) == Some(ss)
  {
    hide ServerOk, ServerOf, ItemsFor, ServersOf;
    if ss == [] {
      NoServers();
    } else {
      ItemsMean(ss[0]);
      BlocksMean(ss[1..]);
      ServersCons(ItemsFor(ss[0]), ss[0], BlocksFor(ss[1..]), ss[1..]);
      assert ss == [ss[0]] + ss[1..];
    }
  }

  lemma ServersCons(items: seq<ServerItem>, s: ServerConfig, blocks: seq<seq<ServerItem>>, ss: seq<ServerConfig>)
    requires ServerOf(items) == Some(s) && ServersOf(blocks) == Some(ss)
    ensures ServersOf([items] + blocks) == Some([s] + ss)
  {
    hide ServerOf;
    assert ([items] + blocks)[1..] == blocks;
  }

  // ---- Every word of the tokens is a proper word ---------------------------

  predicate WordsOk(ks: seq<TokenKind>) { forall k :: k in ks && k.Word? ==> WordOk(k.text) }

  predicate NamesOk(ws: seq<string>) { forall w :: w in ws ==> WordOk(w) }

  lemma WordsOkNames(ws: seq<string>)
    ensures WordsOk(Words(ws)) <==> NamesOk(ws)
  {
    hide WordOk;
    forall w | w in ws ensures Word(w) in Words(ws) {
      var i :| 0 <= i < |ws| && ws[i] == w;
      assert Words(ws)[i] == Word(w);
    }
    forall k | k in Words(ws) ensures k.Word? && k.text in ws {
      var i :| 0 <= i < |ws| && Words(ws)[i] == k;
      assert ws[i] == k.text;
    }
    if WordsOk(Words(ws)) {
      forall w | w in ws ensures WordOk(w) { assert Word(w) in Words(ws); }
    }
  }

  lemma DirectiveWords(name: string, args: seq<string>)
    ensures WordsOk(Directive(name, args)) <==> WordOk(name) && NamesOk(args)
  {
    hide WordOk, NamesOk;
    WordsOkNames(args);
    assert Word(name) in Directive(name, args);
    assert forall k :: k in Words(args) ==> k in Directive(name, args);
    assert forall k :: k in Directive(name, args) ==> k == Word(name) || k in Words(args) || k == Semicolon;
  }

  predicate LocItemOk(item: LocItem) {
    match item
    case Root(w) => WordOk(w)
    case Index(w) => WordOk(w)
    case Methods(names) => NamesOk(names)
    case Autoindex(w) => WordOk(w)
    case Redirect(w) => WordOk(w)
    case CgiItem(ext, i) => WordOk(ext) && OptionalWordOk(i)
  }

  predicate LocItemsOk(items: seq<LocItem>) { forall item :: item in items ==> LocItemOk(item) }

  predicate ServerItemOk(item: ServerItem) {
    match item
    case ErrorPage(code, page) => WordOk(code) && WordOk(page)
    case Loc(path, items) => WordOk(path) && LocItemsOk(items)
    case _ => WordOk(item.word)
  }

  predicate ServerItemsOk(items: seq<ServerItem>) { forall item :: item in items ==> ServerItemOk(item) }

  predicate IsPlain(c: char) { 'a' <= c <= 'z' || 'A' <= c <= 'Z' || '0' <= c <= '9' || c == '_' }

  lemma PlainOk(w: string)
    requires w != "" && All(w, IsPlain)
    ensures WordOk(w)
  {
    assert forall c :: IsPlain(c) ==> IsWordChar(c);
    assert forall i :: 0 <= i < |w| ==> IsPlain(w[i]);
  }

  lemma PlainDirective(name: string, args: seq<string>)
    requires name != "" && All(name, IsPlain)
    ensures WordsOk(Directive(name, args)) <==> NamesOk(args)
  {
    PlainOk(name);
    hide WordOk, Directive;
    DirectiveWords(name, args);
  }

  lemma LocItemWords(item: LocItem)
    ensures WordsOk(LocItemTokens(item)) <==> LocItemOk(item)
  {
    hide WordOk, WordsOk, Directive;
    match item
    case Root(w) => PlainDirective("root", [w]);
    case Index(w) => PlainDirective("index", [w]);
    case Methods(names) => PlainDirective("methods", names);
    case Autoindex(w) => PlainDirective("autoindex", [w]);
    case Redirect(w) => PlainDirective("redirect", [w]);
    case CgiItem(ext, None) => PlainDirective("cgi", [ext]);
    case CgiItem(ext, Some(i)) => PlainDirective("cgi", [ext, i]);
  }

  lemma WordsOkTwo(a: seq<TokenKind>, b: seq<TokenKind>)
    ensures WordsOk(a + b) <==> WordsOk(a) && WordsOk(b)
  {
    hide WordOk;
    assert forall k :: k in a + b <==> k in a || k in b;
  }

  lemma {:induction false} LocItemsWords(items: seq<LocItem>)
    ensures WordsOk(LocItemsTokens(items)) <==> LocItemsOk(items)
  {
    hide WordOk, LocItemOk, LocItemTokens;
    if items != [] {
      LocItemWords(items[0]);
      LocItemsWords(items[1..]);
      WordsOkTwo(LocItemTokens(items[0]), LocItemsTokens(items[1..]));
      assert items == [items[0]] + items[1..];
    }
  }

  lemma ServerItemWords(item: ServerItem)
    ensures WordsOk(ServerItemTokens(item)) <==> ServerItemOk(item)
  {
    hide WordOk, WordsOk, Directive, LocItemsOk;
    match item
    case Host(w) => PlainDirective("host", [w]);
    case Port(w) => PlainDirective("port", [w]);
    case ServerName(w) => PlainDirective("server_name", [w]);
    case BodySize(w) => PlainDirective("client_max_body_size", [w]);
    case ErrorPage(code, page) => PlainDirective("error_page", [code, page]);
    case Loc(path, items) => LocWords(path, items);
  }

  lemma LocWords(path: string, items: seq<LocItem>)
    ensures WordsOk(ServerItemTokens(Loc(path, items))) <==> WordOk(path) && LocItemsOk(items)
  {
    hide WordOk, LocItemsOk, LocItemsTokens;
    PlainOk("location");
    LocItemsWords(items);
    var head := [Word("location"), Word(path), LBrace];
    WordsOkTwo(head + LocItemsTokens(items), [RBrace]);
    WordsOkTwo(head, LocItemsTokens(items));
    assert Word(path) in head && Word("location") in head;
  }

  lemma {:induction false} ServerItemsWords(items: seq<ServerItem>)
    ensures WordsOk(ServerItemsTokens(items)) <==> ServerItemsOk(items)
  {
    hide WordOk, ServerItemOk, ServerItemTokens;
    if items != [] {
      ServerItemWords(items[0]);
      ServerItemsWords(items[1..]);
      WordsOkTwo(ServerItemTokens(items[0]), ServerItemsTokens(items[1..]));
      assert items == [items[0]] + items[1..];
    }
  }

  predicate BlocksOk(blocks: seq<seq<ServerItem>>) { forall b :: b in blocks ==> ServerItemsOk(b) }

  lemma {:induction false} ConfigWords(blocks: seq<seq<ServerItem>>)
    ensures WordsOk(ConfigTokens(blocks)) <==> BlocksOk(blocks)
  {
    hide WordOk, ServerItemsOk, ServerItemsTokens;
    if blocks != [] {
      PlainOk("server");
      ServerItemsWords(blocks[0]);
      ConfigWords(blocks[1..]);
      FirstBlock(blocks);
      WordsOkTwo(BlockTokens(blocks[0]), ConfigTokens(blocks[1..]));
      WordsOkTwo([Word("server"), LBrace] + ServerItemsTokens(blocks[0]), [RBrace]);
      WordsOkTwo([Word("server"), LBrace], ServerItemsTokens(blocks[0]));
      assert blocks == [blocks[0]] + blocks[1..];
    }
  }

  // ---- Printed text is legible ---------------------------------------------

  lemma LocItemsTwo(a: seq<LocItem>, b: seq<LocItem>)
    ensures LocItemsOk(a + b) <==> LocItemsOk(a) && LocItemsOk(b)
  {
    hide LocItemOk;
    assert forall item :: item in a + b <==> item in a || item in b;
  }

  lemma LocItemsForOk(l: Location)
    requires LocationOk(l)
    ensures LocItemsOk(LocItemsFor(l))
  {
    hide WordOk, LocItemsOk, NamesOk, MethodNames;
    var root, index := if l.root != "" then [Root(l.root)] else [], Given(l.index, w => Index(w));
    var methods := if l.methods != [] then [Methods(MethodNames(l.methods))] else [];
    var autoindex := if l.autoindex then [Autoindex("on")] else [];
    var redirect := Given(l.redirect, w => Redirect(w));
    var cgi := if l.cgi.Some? then [CgiItem(l.cgi.value.extension, Some(l.cgi.value.interpreter))] else [];
    MethodNamesOk(l.methods);
    PlainOk("on");
    FewItemsOk(root);
    FewItemsOk(index);
    FewItemsOk(methods);
    FewItemsOk(autoindex);
    FewItemsOk(redirect);
    FewItemsOk(cgi);
    LocItemsTwo(root, index);
    LocItemsTwo(root + index, methods);
    LocItemsTwo(root + index + methods, autoindex);
    LocItemsTwo(root + index + methods + autoindex, redirect);
    LocItemsTwo(root + index + methods + autoindex + redirect, cgi);
  }

  lemma FewItemsOk(items: seq<LocItem>)
    requires items == [] || (|items| == 1 && LocItemOk(items[0]))
    ensures LocItemsOk(items)
  {
  }

  lemma {:induction false} MethodNamesOk(ms: seq<Method>)
    ensures NamesOk(MethodNames(ms))
  {
    hide WordOk;
    if ms != [] {
      PlainOk(MethodName(ms[0]));
      MethodNamesOk(ms[1..]);
    }
  }

  lemma DecimalOk(n: nat)
    ensures WordOk(Decimal(n))
  {
    hide WordOk;
    var s := Decimal(n);
    assert forall i :: 0 <= i < |s| ==> IsDecimal(s[i]);
    PlainOk(s);
  }

  lemma {:induction false} PagesFromOk(pages: map<nat, string>, from: nat)
    requires PagesOk(pages)
    ensures ServerItemsOk(PagesFrom(pages, from))
    decreases U16_MAX + 1 - from
  {
    hide WordOk, Decimal;
    if from <= U16_MAX {
      DecimalOk(from);
      PagesFromOk(pages, from + 1);
    }
  }

  lemma {:induction false} LocsForOk(ls: seq<Location>)
    requires LocationsOk(ls)
    ensures ServerItemsOk(LocsFor(ls))
  {
    hide WordOk, LocItemsFor, LocItemsOk;
    if ls != [] {
      LocItemsForOk(ls[0]);
      LocsForOk(ls[1..]);
    }
  }

  lemma ItemsForOk(s: ServerConfig)
    requires ServerOk(s)
    ensures ServerItemsOk(ItemsFor(s))
  {
    hide WordOk, Decimal, PagesFrom, LocsFor, PagesOk, LocationsOk;
    DecimalOk(s.port);
    DecimalOk(s.clientMaxBodySize);
    PagesFromOk(s.errorPages, 0);
    LocsForOk(s.locations);
  }

  lemma {:induction false} BlocksForOk(ss: seq<ServerConfig>)
    requires forall i :: 0 <= i < |ss| ==> ServerOk(ss[i])
    ensures BlocksOk(BlocksFor(ss))
  {
    hide ServerOk, ServerItemsOk, ItemsFor;
    if ss != [] {
      ItemsForOk(ss[0]);
      BlocksForOk(ss[1..]);
    }
  }

  lemma SpacedLegible(ks: seq<TokenKind>)
    requires WordsOk(ks)
    ensures Legible(Spaced(ks)) && Kinds(Located(Spaced(ks), 1)) == ks
  {
    hide WordOk;
    forall i | 0 <= i < |ks| ensures ks[i] in ks {}
  }

  // ---- The theorems --------------------------------------------------------

  /** Printing a well-formed configuration and loading the text gives it back. */
  lemma RoundTrip(c: Config)
    requires ConfigOk(c)
    ensures Load(Print(c)) == Some(c)
  {
    hide ServerOk, ParseKinds, Lex, Legible, ConfigTokens, WordsOk;
    var blocks := BlocksFor(c.servers);
    var ks := ConfigTokens(blocks);
    BlocksForOk(c.servers);
    ConfigWords(blocks);
    SpacedLegible(ks);
    assert All("\n", IsSpace);
    ReadsSpelling(Spaced(ks), "\n", 1);
    BlocksMean(c.servers);
    assert ConfigOf(blocks) == Some(c);
    ParsesExactly(ks, c);
  }

  lemma {:induction false} ApplyLocsOk(l: Location, items: seq<LocItem>)
    requires LocationOk(l) && LocItemsOk(items) && ApplyLocs(l, items).Some?
    ensures LocationOk(ApplyLocs(l, items).value)
    decreases |items|
  {
    hide WordOk, ApplyLoc, LocationOk, LocItemOk;
    if items != [] {
      ApplyLocOk(l, items[0]);
      ApplyLocsOk(ApplyLoc(l, items[0]).value, items[1..]);
    }
  }

  lemma ApplyLocOk(l: Location, item: LocItem)
    requires LocationOk(l) && LocItemOk(item)
    ensures ApplyLoc(l, item).Some? ==> LocationOk(ApplyLoc(l, item).value)
  {
    hide WordOk, MethodsNamed;
    if item.CgiItem? && item.interpreter.None? { PlainOk(DefaultInterpreter(item.ext)); }
  }

  predicate DraftOk(d: Draft) {
    && OptionalWordOk(d.host) && (d.port.Some? ==> d.port.value <= U16_MAX) && OptionalWordOk(d.serverName)
    && d.bodySize < USIZE && PagesOk(d.errorPages) && LocationsOk(d.locations)
  }

  lemma {:induction false} ApplyServersOk(d: Draft, items: seq<ServerItem>)
    requires DraftOk(d) && ServerItemsOk(items) && ApplyServers(d, items).Some?
    ensures DraftOk(ApplyServers(d, items).value)
    decreases |items|
  {
    hide WordOk, LocationOk, LocItemsOk, ApplyLocs, ParseUnsigned, ParseBodySize;
    if items != [] {
      var item := items[0];
      assert ServerItemOk(item);
      if item.Loc? { NewLocationOk(item.path, item.items); }
      ApplyServersOk(ApplyServer(d, item).value, items[1..]);
    }
  }

  lemma NewLocationOk(path: string, items: seq<LocItem>)
    requires WordOk(path) && LocItemsOk(items)
    ensures LocationOf(path, items).Some? ==> LocationOk(LocationOf(path, items).value)
  {
    hide WordOk;
    if LocationOf(path, items).Some? { ApplyLocsOk(NewLocation(path), items); }
  }

  lemma {:induction false} ServersOfOk(blocks: seq<seq<ServerItem>>)
    requires BlocksOk(blocks) && ServersOf(blocks).Some?
    ensures var ss := ServersOf(blocks).value;
            |ss| == |blocks| && forall i :: 0 <= i < |ss| ==> ServerOk(ss[i])
  {
    hide WordOk, LocationOk, ServerItemsOk, ApplyServers;
    if blocks != [] {
      assert ServerItemsOk(blocks[0]);
      ApplyServersOk(NEW_DRAFT, blocks[0]);
      ServersOfOk(blocks[1..]);
    }
  }

  /** Every configuration that any text loads to is well-formed. */
  lemma LoadedOk(text: string, c: Config)
    requires Load(text) == Some(c)
    ensures ConfigOk(c)
  {
    hide Legible, Lex, ServersOf, ServerOk;
    var ps, tail := TokensExactly(text);
    var ks := Kinds(Tokens(text));
    assert WordsOk(ks) by { KindsOk(ps); }
    ParsesExactly(ks, c);
    var blocks :| ConfigTokens(blocks) == ks && ConfigOf(blocks) == Some(c);
    ConfigWords(blocks);
    ServersOfOk(blocks);
  }

  lemma KindsOk(ps: seq<Spelled>)
    requires Legible(ps)
    ensures WordsOk(Kinds(Located(ps, 1)))
  {
    hide WordOk;
  }

  /** Printing normalizes: whatever a text loads to, its printed form loads to as well. */
  lemma PrintNormalizes(text: string)
    requires Load(text).Some?
    ensures Load(Print(Load(text).value)) == Load(text)
  {
    hide ConfigOk, Load;
    LoadedOk(text, Load(text).value);
    RoundTrip(Load(text).value);
  }

  /** The configurations that some text loads to are exactly the well-formed ones. */
  lemma LoadableExactly(c: Config)
    ensures ConfigOk(c) <==> exists text :: Load(text) == Some(c)
  {
    hide ConfigOk, Load;
    if ConfigOk(c) {
      RoundTrip(c);
    } else if text :| Load(text) == Some(c) {
      LoadedOk(text, c);
    }
  }

  // ---- A file that uses everything -----------------------------------------

  function Line(name: string, args: seq<string>): seq<TokenKind> { [Word(name)] + Words(args) + [Semicolon] }

  /** A location block and a server block of these lines. */
  function Block(head: seq<string>, body: seq<TokenKind>): seq<TokenKind> { Words(head) + [LBrace] + body + [RBrace] }

  function Together(parts: seq<seq<TokenKind>>): seq<TokenKind> {
    if parts == [] then [] else parts[0] + Together(parts[1..])
  }

  const SAMPLE_LOC_LINES :=
    [Line("root", ["./cgi-bin"]), Line("index", ["index.html"]), Line("methods", ["GET", "POST", "DELETE"]),
     Line("autoindex", ["on"]), Line("redirect", ["/new-page"]), Line("cgi", [".py"])]

  const SAMPLE_LOCATION := Block(["location", "/cgi"], Together(SAMPLE_LOC_LINES))

  const SAMPLE_LINES :=
    [Line("host", ["127.0.0.1"]), Line("port", ["8090"]), Line("server_name", ["main.com"]),
     Line("error_page", ["404", "./error_pages/404.html"]), SAMPLE_LOCATION]

  const SAMPLE_LOC_ITEMS :=
    [Root("./cgi-bin"), Index("index.html"), Methods(["GET", "POST", "DELETE"]), Autoindex("on"), Redirect("/new-page"),
     CgiItem(".py", None)]

  const SAMPLE_LOC_MEANS :=
    Location("/cgi", "./cgi-bin", Some("index.html"), [Get, Post, Delete], true, Some("/new-page"), Some(Cgi(".py", "python3")))

  lemma {:induction false} LocLines(items: seq<LocItem>, lines: seq<seq<TokenKind>>)
    requires |items| == |lines| && forall i :: 0 <= i < |items| ==> LocItemTokens(items[i]) == lines[i]
    ensures LocItemsTokens(items) == Together(lines)
    decreases |items|
  {
    hide LocItemTokens;
    if items != [] { LocLines(items[1..], lines[1..]); }
  }

  lemma {:induction false} ServerLines(items: seq<ServerItem>, lines: seq<seq<TokenKind>>)
    requires |items| == |lines| && forall i :: 0 <= i < |items| ==> ServerItemTokens(items[i]) == lines[i]
    ensures ServerItemsTokens(items) == Together(lines)
    decreases |items|
  {
    hide ServerItemTokens;
    if items != [] { ServerLines(items[1..], lines[1..]); }
  }

  lemma SampleLocItems()
    ensures LocItemsTokens(SAMPLE_LOC_ITEMS) == Together(SAMPLE_LOC_LINES)
  {
    hide Words, Together, LocItemsTokens;
    LocLines(SAMPLE_LOC_ITEMS, SAMPLE_LOC_LINES);
  }

  lemma SampleLocMeans()
    ensures LocationOf("/cgi", SAMPLE_LOC_ITEMS) == Some(SAMPLE_LOC_MEANS)
  {
    var i := SAMPLE_LOC_ITEMS;
    SampleMethods();
    hide MethodsNamed;
    var l0 := NewLocation("/cgi");
    var l1 := l0.(root := "./cgi-bin");
    var l2 := l1.(index := Some("index.html"));
    var l3 := l2.(methods := [Get, Post, Delete]);
    var l4 := l3.(autoindex := true);
    var l5 := l4.(redirect := Some("/new-page"));
    assert l2.methods + [Get, Post, Delete] == [Get, Post, Delete];
    assert i[1..][1..] == i[2..] && i[2..][1..] == i[3..] && i[3..][1..] == i[4..] && i[4..][1..] == i[5..] && i[5..][1..] == [];
    assert ApplyLocs(l5, i[5..]) == ApplyLocs(SAMPLE_LOC_MEANS, []);
    assert ApplyLocs(l4, i[4..]) == ApplyLocs(l5, i[5..]);
    assert ApplyLocs(l3, i[3..]) == ApplyLocs(l4, i[4..]);
    assert ApplyLocs(l2, i[2..]) == ApplyLocs(l3, i[3..]);
    assert ApplyLocs(l1, i[1..]) == ApplyLocs(l2, i[2..]);
    assert ApplyLocs(l0, i) == ApplyLocs(l1, i[1..]);
  }

  lemma SampleMethods()
    ensures MethodsNamed(["GET", "POST", "DELETE"]) == Some([Get, Post, Delete])
  {
    assert ["GET", "POST", "DELETE"] == MethodNames([Get, Post, Delete]) by {
      assert [Get, Post, Delete][1..] == [Post, Delete] && [Post, Delete][1..] == [Delete] && [Delete][1..] == [];
    }
    MethodNamesRead([Get, Post, Delete]);
  }

  const SAMPLE_ITEMS :=
    [Host("127.0.0.1"), Port("8090"), ServerName("main.com"), ErrorPage("404", "./error_pages/404.html"), Loc("/cgi", SAMPLE_LOC_ITEMS)]

  const SAMPLE_MEANS :=
    ServerConfig("127.0.0.1", 8090, Some("main.com"), 1_048_576, map[404 := "./error_pages/404.html"], [SAMPLE_LOC_MEANS])

  lemma SampleItems()
    ensures ServerItemsTokens(SAMPLE_ITEMS) == Together(SAMPLE_LINES)
  {
    SampleLocTokens();
    hide Words, Together, ServerItemsTokens, LocItemsTokens;
    ServerLines(SAMPLE_ITEMS, SAMPLE_LINES);
  }

  lemma SampleLocTokens()
    ensures ServerItemTokens(Loc("/cgi", SAMPLE_LOC_ITEMS)) == SAMPLE_LOCATION
  {
    SampleLocItems();
    hide LocItemsTokens, Line, Together;
    assert Words(["location", "/cgi"]) == [Word("location"), Word("/cgi")];
  }

  lemma SampleMeaning()
    ensures ServerOf(SAMPLE_ITEMS) == Some(SAMPLE_MEANS)
  {
    var i := SAMPLE_ITEMS;
    SampleLocMeans();
    SampleNumbers();
    hide LocationOf, ParseU16;
    var d1 := NEW_DRAFT.(host := Some("127.0.0.1"));
    var d2 := d1.(port := Some(8090));
    var d3 := d2.(serverName := Some("main.com"));
    var d4 := d3.(errorPages := map[404 := "./error_pages/404.html"]);
    var d5 := d4.(locations := [SAMPLE_LOC_MEANS]);
    assert d3.errorPages[404 := "./error_pages/404.html"] == d4.errorPages && [] + [SAMPLE_LOC_MEANS] == [SAMPLE_LOC_MEANS];
    assert i[1..][1..] == i[2..] && i[2..][1..] == i[3..] && i[3..][1..] == i[4..] && i[4..][1..] == [];
    assert ApplyServers(d4, i[4..]) == ApplyServers(d5, []);
    assert ApplyServers(d3, i[3..]) == ApplyServers(d4, i[4..]);
    assert ApplyServers(d2, i[2..]) == ApplyServers(d3, i[3..]);
    assert ApplyServers(d1, i[1..]) == ApplyServers(d2, i[2..]);
    assert ApplyServers(NEW_DRAFT, i) == ApplyServers(d1, i[1..]);
  }

  lemma SampleNumbers()
    ensures ParseU16("8090") == Some(8090) && ParseU16("404") == Some(404)
  {
    assert Digits(8090, 10) == "8090" && Digits(404, 10) == "404";
    hide Digits, ParseUnsigned;
    UnsignedRoundTrip(8090, 10, U16_MAX);
    UnsignedRoundTrip(404, 10, U16_MAX);
  }

  predicate IsGraph(c: char) { '!' <= c <= '~' && !IsMark(c) }

  /** Visible ASCII characters but the marks make words. */
  lemma GraphOk(w: string)
    requires w != "" && All(w, IsGraph)
    ensures WordOk(w)
  {
  }

  lemma SampleItemsOk()
    ensures ServerItemsOk(SAMPLE_ITEMS)
  {
    hide WordOk, LocItemsOk;
    SampleLocWords();
    GraphOk("127.0.0.1");
    GraphOk("8090");
    GraphOk("main.com");
    GraphOk("404");
    GraphOk("./error_pages/404.html");
    GraphOk("/cgi");
  }

  lemma SampleLocWords()
    ensures LocItemsOk(SAMPLE_LOC_ITEMS)
  {
    hide WordOk;
    GraphOk("./cgi-bin");
    GraphOk("index.html");
    GraphOk("GET");
    GraphOk("POST");
    GraphOk("DELETE");
    GraphOk("on");
    GraphOk("/new-page");
    GraphOk(".py");
  }

  lemma OneServer(items: seq<ServerItem>, s: ServerConfig)
    requires ServerOf(items) == Some(s)
    ensures ConfigOf([items]) == Some(Config([s]))
  {
    hide ServerOf;
    var blocks := [items];
    assert blocks[1..] == [] && ServersOf(blocks[1..]) == Some([]);
    assert ServersOf(blocks) == Some([s] + []) && [s] + [] == [s];
  }

  /** A file of one server block, line by line. */
  lemma OneServerLoads(items: seq<ServerItem>, lines: seq<seq<TokenKind>>, s: ServerConfig)
    requires ServerItemsTokens(items) == Together(lines) && ServerItemsOk(items) && ServerOf(items) == Some(s)
    ensures Load(Render(Spaced(Block(["server"], Together(lines))), "\n")) == Some(Config([s]))
  {
    var ks := Block(["server"], Together(lines));
    assert ConfigTokens([items]) == ks by { BlockTokensAre(items); }
    hide ServerOf, ConfigTokens, Block, WordsOk, Render, Lex, Legible, ServerItemsOk;
    ConfigWords([items]);
    assert BlocksOk([items]);
    SpacedLegible(ks);
    assert All("\n", IsSpace);
    ReadsSpelling(Spaced(ks), "\n", 1);
    OneServer(items, s);
    ParsesExactly(ks, Config([s]));
  }

  lemma BlockTokensAre(items: seq<ServerItem>)
    ensures ConfigTokens([items]) == Block(["server"], ServerItemsTokens(items))
  {
    hide ServerItemsTokens;
    assert Words(["server"]) == [Word("server")];
    assert [items][1..] == [] && ConfigTokens([]) == [];
  }

  /** The language by example: a file in these words loads to this configuration. A block
      without a size has 1048576 bytes, a cgi line without an interpreter the one for its
      extension. */
  lemma SampleLoads()
    ensures Load(Render(Spaced(Block(["server"], Together(SAMPLE_LINES))), "\n")) == Some(Config([SAMPLE_MEANS]))
  {
    hide ServerOf, ServerItemsOk, Together, ServerItemsTokens;
    SampleItems();
    SampleItemsOk();
    SampleMeaning();
    OneServerLoads(SAMPLE_ITEMS, SAMPLE_LINES, SAMPLE_MEANS);
  }

  const SIZED_LINES :=
    [Line("host", ["h"]), Line("port", ["80"]), Line("client_max_body_size", ["20MB"]),
     Block(["location", "/"], Together([Line("methods", []), Line("autoindex", ["off"]), Line("cgi", [".x", "run"])]))]

  const SIZED_LOC_ITEMS := [Methods([]), Autoindex("off"), CgiItem(".x", Some("run"))]

  const SIZED_ITEMS := [Host("h"), Port("80"), BodySize("20MB"), Loc("/", SIZED_LOC_ITEMS)]

  const SIZED_LOC_MEANS := Location("/", "", None, [], false, None, Some(Cgi(".x", "run")))

  const SIZED_MEANS := ServerConfig("h", 80, None, 20_971_520, map[], [SIZED_LOC_MEANS])

  lemma SizedLocTokens()
    ensures ServerItemTokens(Loc("/", SIZED_LOC_ITEMS))
            == Block(["location", "/"], Together([Line("methods", []), Line("autoindex", ["off"]), Line("cgi", [".x", "run"])]))
  {
    var lines := [Line("methods", []), Line("autoindex", ["off"]), Line("cgi", [".x", "run"])];
    assert LocItemsTokens(SIZED_LOC_ITEMS) == Together(lines) by {
      hide Words, Together, LocItemsTokens;
      LocLines(SIZED_LOC_ITEMS, lines);
    }
    hide LocItemsTokens, Line, Together;
    assert Words(["location", "/"]) == [Word("location"), Word("/")];
  }

  lemma SizedMeaning()
    ensures LocationOf("/", SIZED_LOC_ITEMS) == Some(SIZED_LOC_MEANS)
  {
    var i, l := SIZED_LOC_ITEMS, NewLocation("/");
    assert i[1..][1..] == i[2..] && i[2..][1..] == [] && [] + [] == l.methods;
    assert MethodsNamed([]) == Some([]);
    hide MethodsNamed;
    assert ApplyLocs(l, i[2..]) == ApplyLocs(SIZED_LOC_MEANS, []);
    assert ApplyLocs(l, i[1..]) == ApplyLocs(l, i[2..]);
    assert ApplyLocs(l, i) == ApplyLocs(l, i[1..]);
  }

  lemma SizedNumbers()
    ensures ParseU16("80") == Some(80) && ParseBodySize("20MB") == Some(20_971_520)
  {
    hide ParseU16, ParseBodySize, Decimal;
    PortsExactly(80);
    SizedDigits();
    MegabyteSize(20);
  }

  lemma SizedDigits()
    ensures Decimal(80) == "80" && Decimal(20) + "MB" == "20MB"
  {
    assert Digits(20, 10) == "20" && "20" + "MB" == "20MB";
  }

  lemma SizedServer()
    ensures ServerOf(SIZED_ITEMS) == Some(SIZED_MEANS)
  {
    var i := SIZED_ITEMS;
    SizedMeaning();
    SizedNumbers();
    hide LocationOf, ParseU16, ParseBodySize;
    var d1 := NEW_DRAFT.(host := Some("h"));
    var d2 := d1.(port := Some(80));
    var d3 := d2.(bodySize := 20_971_520);
    var d4 := d3.(locations := [SIZED_LOC_MEANS]);
    assert [] + [SIZED_LOC_MEANS] == [SIZED_LOC_MEANS];
    assert i[1..][1..] == i[2..] && i[2..][1..] == i[3..] && i[3..][1..] == [];
    assert ApplyServers(d3, i[3..]) == ApplyServers(d4, []);
    assert ApplyServers(d2, i[2..]) == ApplyServers(d3, i[3..]);
    assert ApplyServers(d1, i[1..]) == ApplyServers(d2, i[2..]);
    assert ApplyServers(NEW_DRAFT, i) == ApplyServers(d1, i[1..]);
  }

  lemma SizedItemsOk()
    ensures ServerItemsOk(SIZED_ITEMS)
  {
    hide WordOk;
    GraphOk("h");
    GraphOk("80");
    GraphOk("20MB");
    GraphOk("/");
    GraphOk("off");
    GraphOk(".x");
    GraphOk("run");
  }

  /** The same with a size, no methods, no listing and an interpreter. */
  lemma SizedLoads()
    ensures Load(Render(Spaced(Block(["server"], Together(SIZED_LINES))), "\n")) == Some(Config([SIZED_MEANS]))
  {
    SizedLocTokens();
    assert ServerItemsTokens(SIZED_ITEMS) == Together(SIZED_LINES) by {
      hide Words, Together, ServerItemsTokens, LocItemsTokens;
      ServerLines(SIZED_ITEMS, SIZED_LINES);
    }
    hide ServerOf, ServerItemsOk, Together, ServerItemsTokens;
    SizedItemsOk();
    SizedServer();
    OneServerLoads(SIZED_ITEMS, SIZED_LINES, SIZED_MEANS);
  }

  /** The interpreter for an extension, when none is given. */
  lemma InterpretersExactly(path: string, ext: string)
    requires path != ""
    ensures var l := LocationOf(path, [CgiItem(ext, None)]);
            l.Some? && l.value.cgi == Some(Cgi(ext, match ext case ".py" => "python3" case ".php" => "php" case _ => "sh"))
  {
    assert [CgiItem(ext, None)][1..] == [];
    assert ApplyLocs(ApplyLoc(NewLocation(path), CgiItem(ext, None)).value, []).Some?;
  }
}
