/** The recursive descent over token kinds (src/config/parser.rs) as functions of the
    cursor, and the proof that it accepts exactly the grammar. */
module Recognizer {
  import opened Text
  import opened Tokenizer
  import opened Settings
  import opened Grammar

  function WordAt(ks: seq<TokenKind>, pos: nat): (r: Option<string>)
    ensures r.Some? ==> pos < |ks|
  {
    if pos < |ks| && ks[pos].Word? then Some(ks[pos].text) else None
  }

  predicate IsAt(ks: seq<TokenKind>, pos: nat, k: TokenKind) { pos < |ks| && ks[pos] == k }

  /** One word and a semicolon. */
  function SettingAt(ks: seq<TokenKind>, pos: nat): Option<string> {
    if IsAt(ks, pos + 1, Semicolon) then WordAt(ks, pos) else None
  }

  /** The words up to the next token that is none. */
  function NamesAt(ks: seq<TokenKind>, pos: nat): (ws: seq<string>)
    ensures pos <= |ks| ==> pos + |ws| <= |ks|
    decreases |ks| - pos
  {
    var w := WordAt(ks, pos);
    if w.None? then [] else [w.value] + NamesAt(ks, pos + 1)
  }

  function Tag<T>(w: Option<string>, make: string -> T, next: nat): Option<(T, nat)> {
    if w.None? then None else Some((make(w.value), next))
  }

  function CgiAt(ks: seq<TokenKind>, pos: nat): (r: Option<(LocItem, nat)>)
    ensures r.Some? ==> r.value.0.CgiItem?
  {
    var ext, interpreter := WordAt(ks, pos), WordAt(ks, pos + 1);
    if ext.None? then None
    else
      var p := if interpreter.Some? then pos + 2 else pos + 1;
      if IsAt(ks, p, Semicolon) then Some((CgiItem(ext.value, interpreter), p + 1)) else None
  }

  function LocItemAt(ks: seq<TokenKind>, pos: nat): (r: Option<(LocItem, nat)>)
    ensures r.Some? ==> pos < r.value.1 <= |ks|
  {
    match WordAt(ks, pos)
    case None => None
    case Some(d) =>
      if d == "root" then Tag(SettingAt(ks, pos + 1), w => Root(w), pos + 3)
      else if d == "index" then Tag(SettingAt(ks, pos + 1), w => Index(w), pos + 3)
      else if d == "methods" then
        var names := NamesAt(ks, pos + 1);
        if IsAt(ks, pos + 1 + |names|, Semicolon) then Some((Methods(names), pos + 2 + |names|)) else None
      else if d == "autoindex" then Tag(SettingAt(ks, pos + 1), w => Autoindex(w), pos + 3)
      else if d == "redirect" then Tag(SettingAt(ks, pos + 1), w => Redirect(w), pos + 3)
      else if d == "cgi" then CgiAt(ks, pos + 1)
      else None
  }

  function LocBodyAt(ks: seq<TokenKind>, pos: nat, l: Location): (r: Option<(Location, nat)>)
    ensures r.Some? ==> pos < r.value.1 <= |ks|
    decreases |ks| - pos
  {
    if IsAt(ks, pos, RBrace) then Some((l, pos + 1))
    else
      var item := LocItemAt(ks, pos);
      if item.None? then None
      else
        var l1 := ApplyLoc(l, item.value.0);
        if l1.None? then None else LocBodyAt(ks, item.value.1, l1.value)
  }

  /** A location from behind its keyword. */
  function LocationAt(ks: seq<TokenKind>, pos: nat): (r: Option<(Location, nat)>)
    ensures r.Some? ==> pos < r.value.1 <= |ks|
  {
    var path := WordAt(ks, pos);
    if path.None? || !IsAt(ks, pos + 1, LBrace) || path.value == "" then None
    else LocBodyAt(ks, pos + 2, NewLocation(path.value))
  }

  function ErrorPageAt(ks: seq<TokenKind>, pos: nat): Option<(ServerItem, nat)> {
    var code, page := WordAt(ks, pos), SettingAt(ks, pos + 1);
    if code.None? || page.None? then None else Some((ErrorPage(code.value, page.value), pos + 3))
  }

  function ScalarAt(ks: seq<TokenKind>, pos: nat): (r: Option<(ServerItem, nat)>)
    ensures r.Some? ==> pos < r.value.1 <= |ks| && !r.value.0.Loc? && WordAt(ks, pos).Some?
  {
    match WordAt(ks, pos)
    case None => None
    case Some(d) =>
      if d == "host" then Tag(SettingAt(ks, pos + 1), w => Host(w), pos + 3)
      else if d == "port" then Tag(SettingAt(ks, pos + 1), w => Port(w), pos + 3)
      else if d == "server_name" then Tag(SettingAt(ks, pos + 1), w => ServerName(w), pos + 3)
      else if d == "client_max_body_size" then Tag(SettingAt(ks, pos + 1), w => BodySize(w), pos + 3)
      else if d == "error_page" then ErrorPageAt(ks, pos + 1)
      else None
  }

  function ServerBodyAt(ks: seq<TokenKind>, pos: nat, d: Draft): (r: Option<(Draft, nat)>)
    ensures r.Some? ==> pos < r.value.1 <= |ks|
    decreases |ks| - pos
  {
    if IsAt(ks, pos, RBrace) then Some((d, pos + 1))
    else if WordAt(ks, pos) == Some("location") then
      var l := LocationAt(ks, pos + 1);
      if l.None? then None
      else ServerBodyAt(ks, l.value.1, d.(locations := d.locations + [l.value.0]))
    else
      var item := ScalarAt(ks, pos);
      if item.None? then None
      else
        var d1 := ApplyServer(d, item.value.0);
        if d1.None? then None else ServerBodyAt(ks, item.value.1, d1.value)
  }

  /** A server from behind its keyword. */
  function ServerAt(ks: seq<TokenKind>, pos: nat): (r: Option<(ServerConfig, nat)>)
    ensures r.Some? ==> pos < r.value.1 <= |ks|
  {
    if !IsAt(ks, pos, LBrace) then None
    else
      var body := ServerBodyAt(ks, pos + 1, NEW_DRAFT);
      if body.None? then None
      else
        var s := Finish(body.value.0);
        if s.None? then None else Some((s.value, body.value.1))
  }

  function ServersAt(ks: seq<TokenKind>, pos: nat): Option<seq<ServerConfig>>
    decreases |ks| - pos
  {
    if pos >= |ks| then Some([])
    else if WordAt(ks, pos) != Some("server") then None
    else
      var s := ServerAt(ks, pos + 1);
      if s.None? then None
      else
        var rest := ServersAt(ks, s.value.1);
        if rest.None? then None else Some([s.value.0] + rest.value)
  }

  function ParseKinds(ks: seq<TokenKind>): Option<Config> {
    var ss := ServersAt(ks, 0);
    if ss.None? || ss.value == [] then None else Some(Config(ss.value))
  }

  // ---- Reading at the cursor -----------------------------------------------

  /** The tokens ts stand at the cursor. */
  predicate Reads(ks: seq<TokenKind>, pos: nat, ts: seq<TokenKind>) {
    pos + |ts| <= |ks| && ks[pos..pos + |ts|] == ts
  }

  lemma ReadsTwo(ks: seq<TokenKind>, pos: nat, a: seq<TokenKind>, b: seq<TokenKind>)
    ensures Reads(ks, pos, a + b) <==> Reads(ks, pos, a) && Reads(ks, pos + |a|, b)
  {
    if pos + |a + b| <= |ks| {
      var whole := ks[pos..pos + |a + b|];
      assert whole[..|a|] == ks[pos..pos + |a|] && whole[|a|..] == ks[pos + |a|..pos + |a + b|];
      assert (a + b)[..|a|] == a && (a + b)[|a|..] == b;
      assert whole == whole[..|a|] + whole[|a|..];
    }
  }

  lemma ReadsOne(ks: seq<TokenKind>, pos: nat, k: TokenKind)
    ensures Reads(ks, pos, [k]) <==> IsAt(ks, pos, k)
  {
  }

  lemma ReadsWords(ks: seq<TokenKind>, pos: nat, names: seq<string>)
    requires names != []
    ensures Reads(ks, pos, Words(names)) <==> WordAt(ks, pos) == Some(names[0]) && Reads(ks, pos + 1, Words(names[1..]))
  {
    assert Words(names) == [Word(names[0])] + Words(names[1..]);
    hide Reads, Words;
    ReadsTwo(ks, pos, [Word(names[0])], Words(names[1..]));
    ReadsOne(ks, pos, Word(names[0]));
  }

  lemma ReadsNothing(ks: seq<TokenKind>, pos: nat)
    requires pos <= |ks|
    ensures Reads(ks, pos, Words([]))
  {
  }

  lemma NamesStep(ks: seq<TokenKind>, pos: nat)
    ensures NamesAt(ks, pos) == if WordAt(ks, pos).None? then [] else [WordAt(ks, pos).value] + NamesAt(ks, pos + 1)
  {
    hide WordAt;
  }

  lemma SameNames(first: string, more: seq<string>, names: seq<string>)
    requires names != []
    ensures [first] + more == names <==> first == names[0] && more == names[1..]
  {
    assert ([first] + more)[1..] == more;
  }

  lemma {:induction false} NamesExactly(ks: seq<TokenKind>, pos: nat, names: seq<string>)
    requires pos <= |ks|
    ensures NamesAt(ks, pos) == names <==> Reads(ks, pos, Words(names)) && WordAt(ks, pos + |names|).None?
    decreases |ks| - pos
  {
    hide Reads, Words, NamesAt;
    NamesStep(ks, pos);
    if names == [] {
      ReadsNothing(ks, pos);
    } else {
      ReadsWords(ks, pos, names);
      if WordAt(ks, pos).Some? {
        NamesExactly(ks, pos + 1, names[1..]);
        SameNames(WordAt(ks, pos).value, NamesAt(ks, pos + 1), names);
      }
    }
  }

  // ---- Directives ----------------------------------------------------------

  lemma DirectiveReads(ks: seq<TokenKind>, pos: nat, name: string, args: seq<string>)
    ensures Reads(ks, pos, Directive(name, args)) <==>
            WordAt(ks, pos) == Some(name) && Reads(ks, pos + 1, Words(args)) && IsAt(ks, pos + 1 + |args|, Semicolon)
  {
    hide Reads;
    ReadsTwo(ks, pos, [Word(name)] + Words(args), [Semicolon]);
    ReadsTwo(ks, pos, [Word(name)], Words(args));
    ReadsOne(ks, pos, Word(name));
    ReadsOne(ks, pos + 1 + |args|, Semicolon);
  }

  lemma NamesDirective(ks: seq<TokenKind>, pos: nat, name: string, names: seq<string>)
    ensures Reads(ks, pos, Directive(name, names)) <==>
            WordAt(ks, pos) == Some(name) && NamesAt(ks, pos + 1) == names && IsAt(ks, pos + 1 + |names|, Semicolon)
  {
    hide Reads, Directive, NamesAt;
    DirectiveReads(ks, pos, name, names);
    if pos < |ks| { NamesExactly(ks, pos + 1, names); }
  }

  lemma SettingDirective(ks: seq<TokenKind>, pos: nat, name: string, w: string)
    ensures Reads(ks, pos, Directive(name, [w])) <==> WordAt(ks, pos) == Some(name) && SettingAt(ks, pos + 1) == Some(w)
  {
    hide Directive;
    DirectiveReads(ks, pos, name, [w]);
    assert Words([w]) == [Word(w)];
    ReadsOne(ks, pos + 1, Word(w));
  }

  lemma PairDirective(ks: seq<TokenKind>, pos: nat, name: string, v: string, w: string)
    ensures Reads(ks, pos, Directive(name, [v, w])) <==>
            WordAt(ks, pos) == Some(name) && WordAt(ks, pos + 1) == Some(v) && SettingAt(ks, pos + 2) == Some(w)
  {
    hide Directive;
    DirectiveReads(ks, pos, name, [v, w]);
    assert Words([v, w]) == [Word(v)] + [Word(w)];
    ReadsTwo(ks, pos + 1, [Word(v)], [Word(w)]);
    ReadsOne(ks, pos + 1, Word(v));
    ReadsOne(ks, pos + 2, Word(w));
  }

  /** The directive at the cursor is item, and the next token is at next. */
  lemma LocItemExactly(ks: seq<TokenKind>, pos: nat, item: LocItem, next: nat)
    ensures LocItemAt(ks, pos) == Some((item, next)) <==>
            Reads(ks, pos, LocItemTokens(item)) && next == pos + |LocItemTokens(item)|
  {
    hide Reads, Directive, NamesAt, SettingAt;
    match item
    case Root(w) => SettingDirective(ks, pos, "root", w);
    case Index(w) => SettingDirective(ks, pos, "index", w);
    case Methods(names) => NamesDirective(ks, pos, "methods", names);
    case Autoindex(w) => SettingDirective(ks, pos, "autoindex", w);
    case Redirect(w) => SettingDirective(ks, pos, "redirect", w);
    case CgiItem(ext, None) => CgiOne(ks, pos, ext);
    case CgiItem(ext, Some(i)) => CgiTwo(ks, pos, ext, i);
  }

  lemma CgiOne(ks: seq<TokenKind>, pos: nat, ext: string)
    ensures Reads(ks, pos, Directive("cgi", [ext])) <==>
            WordAt(ks, pos) == Some("cgi") && CgiAt(ks, pos + 1) == Some((CgiItem(ext, None), pos + 3))
  {
    hide Reads, Directive;
    SettingDirective(ks, pos, "cgi", ext);
  }

  lemma CgiTwo(ks: seq<TokenKind>, pos: nat, ext: string, i: string)
    ensures Reads(ks, pos, Directive("cgi", [ext, i])) <==>
            WordAt(ks, pos) == Some("cgi") && CgiAt(ks, pos + 1) == Some((CgiItem(ext, Some(i)), pos + 4))
  {
    hide Reads, Directive;
    PairDirective(ks, pos, "cgi", ext, i);
  }

  lemma ScalarExactly(ks: seq<TokenKind>, pos: nat, item: ServerItem, next: nat)
    requires !item.Loc?
    ensures ScalarAt(ks, pos) == Some((item, next)) <==>
            Reads(ks, pos, ServerItemTokens(item)) && next == pos + |ServerItemTokens(item)|
  {
    hide Reads, Directive, SettingAt;
    match item
    case Host(w) => SettingDirective(ks, pos, "host", w);
    case Port(w) => SettingDirective(ks, pos, "port", w);
    case ServerName(w) => SettingDirective(ks, pos, "server_name", w);
    case BodySize(w) => SettingDirective(ks, pos, "client_max_body_size", w);
    case ErrorPage(code, page) => PairDirective(ks, pos, "error_page", code, page);
  }

  // ---- Blocks --------------------------------------------------------------

  lemma {:induction false} LocBodySound(ks: seq<TokenKind>, pos: nat, l: Location) returns (items: seq<LocItem>)
    requires LocBodyAt(ks, pos, l).Some?
    ensures var (l1, next) := LocBodyAt(ks, pos, l).value;
            && Reads(ks, pos, LocItemsTokens(items) + [RBrace]) && next == pos + |LocItemsTokens(items)| + 1
            && ApplyLocs(l, items) == Some(l1)
    decreases |ks| - pos
  {
    hide Reads, LocItemAt, LocItemTokens, ApplyLoc;
    if IsAt(ks, pos, RBrace) {
      items := [];
      assert LocItemsTokens(items) + [RBrace] == [RBrace];
      ReadsOne(ks, pos, RBrace);
    } else {
      var (item, next) := LocItemAt(ks, pos).value;
      LocItemExactly(ks, pos, item, next);
      var rest := LocBodySound(ks, next, ApplyLoc(l, item).value);
      items := [item] + rest;
      assert items[1..] == rest;
      ReadsTwo(ks, pos, LocItemTokens(item), LocItemsTokens(rest) + [RBrace]);
      assert LocItemTokens(item) + (LocItemsTokens(rest) + [RBrace]) == LocItemsTokens(items) + [RBrace];
    }
  }

  lemma LocItemStart(item: LocItem)
    ensures |LocItemTokens(item)| > 0 && LocItemTokens(item)[0].Word?
  {
  }

  lemma {:induction false} LocBodyComplete(ks: seq<TokenKind>, pos: nat, l: Location, items: seq<LocItem>)
    requires Reads(ks, pos, LocItemsTokens(items) + [RBrace])
    ensures var l1 := ApplyLocs(l, items);
            LocBodyAt(ks, pos, l) == if l1.None? then None else Some((l1.value, pos + |LocItemsTokens(items)| + 1))
    decreases |items|
  {
    hide Reads, LocItemAt, LocItemTokens, ApplyLoc;
    ReadsTwo(ks, pos, LocItemsTokens(items), [RBrace]);
    ReadsOne(ks, pos + |LocItemsTokens(items)|, RBrace);
    if items != [] {
      var item, rest := items[0], items[1..];
      var next := pos + |LocItemTokens(item)|;
      assert LocItemTokens(item) + (LocItemsTokens(rest) + [RBrace]) == LocItemsTokens(items) + [RBrace];
      ReadsTwo(ks, pos, LocItemTokens(item), LocItemsTokens(rest) + [RBrace]);
      LocItemExactly(ks, pos, item, next);
      StartNotBrace(ks, pos, LocItemTokens(item)) by { LocItemStart(item); }
      var l1 := ApplyLoc(l, item);
      if l1.Some? { LocBodyComplete(ks, next, l1.value, rest); }
    }
  }

  lemma StartNotBrace(ks: seq<TokenKind>, pos: nat, ts: seq<TokenKind>)
    requires Reads(ks, pos, ts) && |ts| > 0 && ts[0].Word?
    ensures !IsAt(ks, pos, RBrace) && WordAt(ks, pos) == Some(ts[0].text)
  {
    assert ks[pos..pos + |ts|][0] == ks[pos];
  }

  lemma LocTokensSplit(ks: seq<TokenKind>, pos: nat, path: string, items: seq<LocItem>)
    ensures Reads(ks, pos, ServerItemTokens(Loc(path, items))) <==>
            && WordAt(ks, pos) == Some("location") && WordAt(ks, pos + 1) == Some(path) && IsAt(ks, pos + 2, LBrace)
            && Reads(ks, pos + 3, LocItemsTokens(items) + [RBrace])
  {
    hide Reads, LocItemsTokens;
    var head, body := [Word("location")] + ([Word(path)] + [LBrace]), LocItemsTokens(items) + [RBrace];
    assert head == [Word("location"), Word(path), LBrace];
    assert ServerItemTokens(Loc(path, items)) == head + body;
    ReadsTwo(ks, pos, head, body);
    ReadsTwo(ks, pos, [Word("location")], [Word(path)] + [LBrace]);
    ReadsTwo(ks, pos + 1, [Word(path)], [LBrace]);
    ReadsOne(ks, pos, Word("location"));
    ReadsOne(ks, pos + 1, Word(path));
    ReadsOne(ks, pos + 2, LBrace);
  }

  lemma LocationSound(ks: seq<TokenKind>, pos: nat) returns (item: ServerItem)
    requires WordAt(ks, pos) == Some("location") && LocationAt(ks, pos + 1).Some?
    ensures var (l, next) := LocationAt(ks, pos + 1).value;
            && item.Loc? && LocationOf(item.path, item.items) == Some(l)
            && Reads(ks, pos, ServerItemTokens(item)) && next == pos + |ServerItemTokens(item)|
  {
    hide Reads, LocBodyAt, LocItemsTokens, ApplyLocs;
    var path := WordAt(ks, pos + 1).value;
    var items := LocBodySound(ks, pos + 3, NewLocation(path));
    item := Loc(path, items);
    LocTokensSplit(ks, pos, path, items);
  }

  lemma LocationComplete(ks: seq<TokenKind>, pos: nat, path: string, items: seq<LocItem>)
    requires Reads(ks, pos, ServerItemTokens(Loc(path, items)))
    ensures WordAt(ks, pos) == Some("location")
    ensures var l := LocationOf(path, items);
            LocationAt(ks, pos + 1)
            == if l.None? then None else Some((l.value, pos + |ServerItemTokens(Loc(path, items))|))
  {
    hide Reads, LocBodyAt, LocItemsTokens, ApplyLocs;
    LocTokensSplit(ks, pos, path, items);
    LocBodyComplete(ks, pos + 3, NewLocation(path), items);
  }

  lemma {:induction false} ServerBodySound(ks: seq<TokenKind>, pos: nat, d: Draft) returns (items: seq<ServerItem>)
    requires ServerBodyAt(ks, pos, d).Some?
    ensures var (d1, next) := ServerBodyAt(ks, pos, d).value;
            && Reads(ks, pos, ServerItemsTokens(items) + [RBrace]) && next == pos + |ServerItemsTokens(items)| + 1
            && ApplyServers(d, items) == Some(d1)
    decreases |ks| - pos
  {
    hide Reads, ScalarAt, LocationAt, ServerItemTokens, LocationOf;
    if IsAt(ks, pos, RBrace) {
      items := [];
      assert ServerItemsTokens(items) + [RBrace] == [RBrace];
      ReadsOne(ks, pos, RBrace);
    } else {
      var item, next;
      if WordAt(ks, pos) == Some("location") {
        item := LocationSound(ks, pos);
        next := LocationAt(ks, pos + 1).value.1;
      } else {
        item, next := ScalarAt(ks, pos).value.0, ScalarAt(ks, pos).value.1;
        ScalarExactly(ks, pos, item, next);
      }
      var rest := ServerBodySound(ks, next, ApplyServer(d, item).value);
      items := [item] + rest;
      assert items[1..] == rest;
      ReadsTwo(ks, pos, ServerItemTokens(item), ServerItemsTokens(rest) + [RBrace]);
      assert ServerItemTokens(item) + (ServerItemsTokens(rest) + [RBrace]) == ServerItemsTokens(items) + [RBrace];
    }
  }

  lemma ScalarStart(item: ServerItem)
    requires !item.Loc?
    ensures |ServerItemTokens(item)| > 0 && ServerItemTokens(item)[0].Word?
    ensures ServerItemTokens(item)[0].text != "location"
  {
  }

  lemma {:induction false} ServerBodyComplete(ks: seq<TokenKind>, pos: nat, d: Draft, items: seq<ServerItem>)
    requires Reads(ks, pos, ServerItemsTokens(items) + [RBrace])
    ensures var d1 := ApplyServers(d, items);
            ServerBodyAt(ks, pos, d) == if d1.None? then None else Some((d1.value, pos + |ServerItemsTokens(items)| + 1))
    decreases |items|
  {
    hide Reads, ScalarAt, LocationAt, ServerItemTokens, LocationOf;
    ReadsTwo(ks, pos, ServerItemsTokens(items), [RBrace]);
    ReadsOne(ks, pos + |ServerItemsTokens(items)|, RBrace);
    if items != [] {
      var item, rest := items[0], items[1..];
      var next := pos + |ServerItemTokens(item)|;
      assert ServerItemTokens(item) + (ServerItemsTokens(rest) + [RBrace]) == ServerItemsTokens(items) + [RBrace];
      ReadsTwo(ks, pos, ServerItemTokens(item), ServerItemsTokens(rest) + [RBrace]);
      if item.Loc? {
        LocationComplete(ks, pos, item.path, item.items);
      } else {
        ScalarExactly(ks, pos, item, next);
        StartNotBrace(ks, pos, ServerItemTokens(item)) by { ScalarStart(item); }
        ScalarStart(item);
      }
      var d1 := ApplyServer(d, item);
      if d1.Some? { ServerBodyComplete(ks, next, d1.value, rest); }
    }
  }

  function BlockTokens(items: seq<ServerItem>): seq<TokenKind> {
    [Word("server"), LBrace] + ServerItemsTokens(items) + [RBrace]
  }

  lemma BlockSplit(ks: seq<TokenKind>, pos: nat, items: seq<ServerItem>)
    ensures Reads(ks, pos, BlockTokens(items)) <==>
            && WordAt(ks, pos) == Some("server") && IsAt(ks, pos + 1, LBrace)
            && Reads(ks, pos + 2, ServerItemsTokens(items) + [RBrace])
  {
    hide Reads, ServerItemsTokens;
    assert [Word("server")] + [LBrace] == [Word("server"), LBrace];
    assert BlockTokens(items) == [Word("server")] + [LBrace] + (ServerItemsTokens(items) + [RBrace]);
    ReadsTwo(ks, pos, [Word("server")] + [LBrace], ServerItemsTokens(items) + [RBrace]);
    ReadsTwo(ks, pos, [Word("server")], [LBrace]);
    ReadsOne(ks, pos, Word("server"));
    ReadsOne(ks, pos + 1, LBrace);
  }

  lemma {:induction false} ServersSound(ks: seq<TokenKind>, pos: nat) returns (blocks: seq<seq<ServerItem>>)
    requires pos <= |ks| && ServersAt(ks, pos).Some?
    ensures ks[pos..] == ConfigTokens(blocks) && ServersOf(blocks) == ServersAt(ks, pos)
    decreases |ks| - pos
  {
    hide Reads, ServerBodyAt, ServerItemsTokens;
    if pos >= |ks| {
      blocks := [];
    } else {
      var (s, next) := ServerAt(ks, pos + 1).value;
      var items := ServerBodySound(ks, pos + 2, NEW_DRAFT);
      BlockSplit(ks, pos, items);
      var rest := ServersSound(ks, next);
      blocks := [items] + rest;
      assert blocks[1..] == rest;
      assert next == pos + |BlockTokens(items)|;
      assert ks[pos..] == BlockTokens(items) + ks[next..] by { ReadsCut(ks, pos, BlockTokens(items)); }
    }
  }

  lemma ReadsCut(ks: seq<TokenKind>, pos: nat, ts: seq<TokenKind>)
    requires pos <= |ks|
    ensures Reads(ks, pos, ts) <==> pos + |ts| <= |ks| && ks[pos..] == ts + ks[pos + |ts|..]
  {
    if pos + |ts| <= |ks| {
      assert ks[pos..] == ks[pos..pos + |ts|] + ks[pos + |ts|..];
    }
  }

  lemma {:induction false} ServersComplete(ks: seq<TokenKind>, pos: nat, blocks: seq<seq<ServerItem>>)
    requires pos <= |ks| && ks[pos..] == ConfigTokens(blocks)
    ensures ServersAt(ks, pos) == ServersOf(blocks)
    decreases |blocks|
  {
    hide Reads, ServerAt, ServerItemsTokens, ServerOf, BlockTokens, ServersAt, ConfigTokens;
    if blocks == [] {
      NoBlocks(ks, pos);
    } else {
      var items, rest := blocks[0], blocks[1..];
      var next := pos + |BlockTokens(items)|;
      FirstBlock(blocks);
      assert ks[next..] == ks[pos..][|BlockTokens(items)|..] == ConfigTokens(rest);
      ReadsCut(ks, pos, BlockTokens(items));
      ServerComplete(ks, pos, items);
      ServersStep(ks, pos);
      ServersComplete(ks, next, rest);
    }
  }

  lemma NoBlocks(ks: seq<TokenKind>, pos: nat)
    requires pos <= |ks| && ks[pos..] == ConfigTokens([])
    ensures ServersAt(ks, pos) == Some([])
  {
  }

  lemma ServersStep(ks: seq<TokenKind>, pos: nat)
    requires WordAt(ks, pos) == Some("server")
    ensures var s := ServerAt(ks, pos + 1);
            ServersAt(ks, pos) ==
            if s.None? then None
            else var rest := ServersAt(ks, s.value.1); if rest.None? then None else Some([s.value.0] + rest.value)
  {
    hide ServerAt;
  }

  lemma FirstBlock(blocks: seq<seq<ServerItem>>)
    requires blocks != []
    ensures ConfigTokens(blocks) == BlockTokens(blocks[0]) + ConfigTokens(blocks[1..])
  {
  }

  lemma ServerComplete(ks: seq<TokenKind>, pos: nat, items: seq<ServerItem>)
    requires Reads(ks, pos, BlockTokens(items))
    ensures WordAt(ks, pos) == Some("server")
    ensures ServerAt(ks, pos + 1)
            == if ServerOf(items).None? then None else Some((ServerOf(items).value, pos + |BlockTokens(items)|))
  {
    hide Reads, ServerBodyAt, ServerItemsTokens, ApplyServers;
    BlockSplit(ks, pos, items);
    ServerBodyComplete(ks, pos + 2, NEW_DRAFT, items);
  }

  /** The parser accepts exactly the derivable token sequences, with their meaning. */
  lemma ParsesExactly(ks: seq<TokenKind>, c: Config)
    ensures ParseKinds(ks) == Some(c) <==> Derives(ks, c)
  {
    hide ServersAt, ServersOf, ConfigTokens;
    assert ks[0..] == ks;
    if ParseKinds(ks) == Some(c) {
      var blocks := ServersSound(ks, 0);
      if blocks == [] { NoServers(); }
      assert ConfigTokens(blocks) == ks && ConfigOf(blocks) == Some(c);
    } else if blocks :| ConfigTokens(blocks) == ks && ConfigOf(blocks) == Some(c) {
      ServersComplete(ks, 0, blocks);
      SomeServers(blocks);
    }
  }

  lemma NoServers()
    ensures ServersOf([]) == Some([])
  {
  }

  lemma SomeServers(blocks: seq<seq<ServerItem>>)
    requires blocks != [] && ServersOf(blocks).Some?
    ensures ServersOf(blocks).value != []
  {
  }
}
