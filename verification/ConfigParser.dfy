/** The cursor-based recursive-descent parser (src/config/parser.rs), method by method.

    None stands for Err(ParseError); the message and the line of an error are left out. */
module ConfigParser {
  import opened Text
  import opened Tokenizer
  import opened Settings
  import opened Grammar
  import opened Recognizer

  class Parser {
    const tokens: seq<Token>
    var pos: nat

    constructor (tokens: seq<Token>)
      ensures this.tokens == tokens && pos == 0
    {
      this.tokens := tokens;
      pos := 0;
    }

    ghost function Ks(): (ks: seq<TokenKind>)
      ensures |ks| == |tokens|
    {
      Kinds(tokens)
    }

    function Peek(): (r: Option<TokenKind>)
      reads this
      ensures r == if pos < |Ks()| then Some(Ks()[pos]) else None
    {
      if pos < |tokens| then Some(tokens[pos].kind) else None
    }

    method Next() returns (r: Option<TokenKind>)
      modifies this
      ensures pos == old(pos) + 1
      ensures r == if old(pos) < |Ks()| then Some(Ks()[old(pos)]) else None
    {
      r := Peek();
      pos := pos + 1;
    }

    method ExpectWord() returns (r: Option<string>)
      modifies this
      ensures pos == old(pos) + 1 && r == WordAt(Ks(), old(pos))
    {
      var tok := Next();
      if tok.Some? && tok.value.Word? { return Some(tok.value.text); }
      return None;
    }

    method Expect(expected: TokenKind) returns (ok: bool)
      modifies this
      ensures pos == old(pos) + 1 && ok == IsAt(Ks(), old(pos), expected)
    {
      var tok := Next();
      return tok == Some(expected);
    }

    /** expect_word, then expect(Semicolon): the common end of most directives. */
    method Setting() returns (r: Option<string>)
      requires pos <= |tokens|
      modifies this
      ensures r == SettingAt(Ks(), old(pos))
      ensures old(pos) < pos <= |tokens| + 1 && (r.Some? ==> pos == old(pos) + 2 <= |tokens|)
    {
      r := ExpectWord();
      if r.None? { return; }
      var ok := Expect(Semicolon);
      if !ok { return None; }
    }

    /** The words behind "methods", with their meaning, and the semicolon. */
    method MethodNames() returns (r: Option<seq<Method>>)
      requires pos <= |tokens|
      modifies this
      ensures var names := NamesAt(Ks(), old(pos));
              r == if IsAt(Ks(), old(pos) + |names|, Semicolon) then MethodsNamed(names) else None
      ensures old(pos) < pos <= |tokens| + 1
      ensures r.Some? ==> pos == old(pos) + |NamesAt(Ks(), old(pos))| + 1 <= |tokens|
    {
      var methods: seq<Method> := [];
      ghost var ks, names := Ks(), NamesAt(Ks(), pos);
      BehindNothing(MethodsNamed(names));
      while Peek().Some? && Peek().value.Word?
        invariant old(pos) <= pos <= |tokens| && pos + |NamesAt(ks, pos)| == old(pos) + |names|
        invariant MethodsNamed(names) == Behind(methods, MethodsNamed(NamesAt(ks, pos)))
        decreases |tokens| - pos
      {
        ghost var rest := NamesAt(ks, pos);
        assert rest == [rest[0]] + NamesAt(ks, pos + 1) && rest[1..] == NamesAt(ks, pos + 1);
        var m := ExpectWord();
        var named := MethodNamed(m.value);
        if named.None? { return None; }
        BehindTwice(methods, named.value, MethodsNamed(NamesAt(ks, pos)));
        methods := methods + [named.value];
      }
      assert NamesAt(ks, pos) == [];
      assert methods + [] == methods;
      var ok := Expect(Semicolon);
      return if ok then Some(methods) else None;
    }

    /** The words behind "cgi" and the semicolon; the interpreter is optional. */
    method CgiSetting() returns (r: Option<Cgi>)
      requires pos <= |tokens|
      modifies this
      ensures var item := CgiAt(Ks(), old(pos));
              if item.None? then r.None?
              else pos == item.value.1 <= |tokens|
                   && r == ApplyLoc(NewLocation(""), item.value.0).value.cgi
      ensures old(pos) < pos <= |tokens| + 1
    {
      var ext := ExpectWord();
      if ext.None? { return None; }
      var interpreter;
      if Peek().Some? && Peek().value.Word? {
        var i := ExpectWord();
        interpreter := i.value;
      } else {
        interpreter := DefaultInterpreter(ext.value);
      }
      var ok := Expect(Semicolon);
      return if ok then Some(Cgi(ext.value, interpreter)) else None;
    }

    /** One directive of a location block, carried out on the location read so far. */
    method LocationDirective(l: Location) returns (r: Option<Location>)
      requires pos < |tokens|
      modifies this
      ensures var item := LocItemAt(Ks(), old(pos));
              r == (if item.None? then None else ApplyLoc(l, item.value.0)) && (r.Some? ==> pos == item.value.1)
      ensures old(pos) < pos <= |tokens| + 1
    {
      hide CgiAt, SettingAt, NamesAt, MethodsNamed;
      var directive := ExpectWord();
      if directive.None? { return None; }
      match directive.value {
        case "root" =>
          var w := Setting();
          return if w.None? then None else Some(l.(root := w.value));
        case "index" =>
          var w := Setting();
          return if w.None? then None else Some(l.(index := w));
        case "methods" =>
          var ms := MethodNames();
          return if ms.None? then None else Some(l.(methods := l.methods + ms.value));
        case "autoindex" =>
          var w := Setting();
          if w.None? || (w.value != "on" && w.value != "off") { return None; }
          return Some(l.(autoindex := w.value == "on"));
        case "redirect" =>
          var w := Setting();
          return if w.None? then None else Some(l.(redirect := w));
        case "cgi" =>
          var c := CgiSetting();
          return if c.None? then None else Some(l.(cgi := c));
        case _ => return None;
      }
    }

    /** parse_location, from behind the keyword. */
    method ParseLocation() returns (r: Option<Location>)
      requires pos <= |tokens|
      modifies this
      ensures var l := LocationAt(Ks(), old(pos));
              if l.None? then r.None? else r == Some(l.value.0) && pos == l.value.1
      ensures old(pos) < pos <= |tokens| + 1
    {
      hide LocItemAt, ApplyLoc;
      ghost var ks := Ks();
      var path := ExpectWord();
      if path.None? { return None; }
      var brace := Expect(LBrace);
      if !brace { return None; }
      var l := NewLocation(path.value);
      var closed := false;
      ghost var body := LocBodyAt(ks, pos, l);
      while !closed && Peek().Some?
        invariant old(pos) < pos <= |tokens|
        invariant body == if closed then Some((l, pos)) else LocBodyAt(ks, pos, l)
        decreases |tokens| - pos, !closed
      {
        if Peek().value == RBrace {
          var _ := Next();
          closed := true;
        } else {
          var next := LocationDirective(l);
          if next.None? { return None; }
          l := next.value;
        }
      }
      if !closed || path.value == "" { return None; }
      return Some(l);
    }

    /** One scalar directive of a server block, carried out on the draft. */
    method ScalarDirective(directive: string, d: Draft) returns (r: Option<Draft>)
      requires 0 < pos <= |tokens| && WordAt(Ks(), pos - 1) == Some(directive) && directive != "location"
      modifies this
      ensures var item := ScalarAt(Ks(), old(pos) - 1);
              r == (if item.None? then None else ApplyServer(d, item.value.0)) && (r.Some? ==> pos == item.value.1)
      ensures old(pos) < pos <= |tokens| + 1 || (r.None? && pos == old(pos))
    {
      hide SettingAt, ParseU16, ParseBodySize, LocationOf;
      match directive {
        case "host" =>
          var w := Setting();
          return if w.None? then None else Some(d.(host := w));
        case "port" =>
          var w := Setting();
          if w.None? { return None; }
          var port := ParseU16(w.value);
          return if port.None? then None else Some(d.(port := port));
        case "server_name" =>
          var w := Setting();
          return if w.None? then None else Some(d.(serverName := w));
        case "client_max_body_size" =>
          var w := Setting();
          if w.None? { return None; }
          var size := ParseBodySize(w.value);
          return if size.None? then None else Some(d.(bodySize := size.value));
        case "error_page" =>
          var codeWord := ExpectWord();
          if codeWord.None? { return None; }
          var code := ParseU16(codeWord.value);
          if code.None? { return None; }
          var page := Setting();
          return if page.None? then None else Some(d.(errorPages := d.errorPages[code.value := page.value]));
        case _ => return None;
      }
    }

    /** parse_server, from behind the keyword. */
    method ParseServer() returns (r: Option<ServerConfig>)
      requires pos <= |tokens|
      modifies this
      ensures var s := ServerAt(Ks(), old(pos));
              if s.None? then r.None? else r == Some(s.value.0) && pos == s.value.1
      ensures old(pos) < pos <= |tokens| + 1
    {
      hide ScalarAt, ApplyServer, LocationAt;
      ghost var ks := Ks();
      var brace := Expect(LBrace);
      if !brace { return None; }
      var d := NEW_DRAFT;
      var closed := false;
      ghost var body := ServerBodyAt(ks, pos, d);
      while !closed && Peek().Some?
        invariant old(pos) < pos <= |tokens|
        invariant body == if closed then Some((d, pos)) else ServerBodyAt(ks, pos, d)
        decreases |tokens| - pos, !closed
      {
        if Peek().value == RBrace {
          var _ := Next();
          closed := true;
        } else {
          var directive := ExpectWord();
          if directive.None? { return None; }
          if directive.value == "location" {
            var l := ParseLocation();
            if l.None? { return None; }
            d := d.(locations := d.locations + [l.value]);
          } else {
            var next := ScalarDirective(directive.value, d);
            if next.None? { return None; }
            d := next.value;
          }
        }
      }
      if !closed || d.host.None? || d.port.None? { return None; }
      return Some(ServerConfig(d.host.value, d.port.value, d.serverName, d.bodySize, d.errorPages, d.locations));
    }

    /** parse_config. Success leaves the cursor exactly at the end of the tokens. */
    method ParseConfig() returns (r: Option<Config>)
      requires pos == 0
      modifies this
      ensures r == ParseKinds(Ks())
      ensures pos <= |tokens| + 1 && (r.Some? ==> pos == |tokens|)
    {
      hide ServerAt;
      ghost var ks := Ks();
      var servers: seq<ServerConfig> := [];
      AheadNothing(ServersAt(ks, 0));
      while Peek().Some?
        invariant pos <= |tokens|
        invariant ServersAt(ks, 0) == Ahead(servers, ServersAt(ks, pos))
        decreases |tokens| - pos
      {
        var word := ExpectWord();
        if word != Some("server") { return None; }
        var s := ParseServer();
        if s.None? { return None; }
        AheadTwice(servers, s.value, ServersAt(ks, pos));
        servers := servers + [s.value];
      }
      assert servers + [] == servers;
      return if servers == [] then None else Some(Config(servers));
    }
  }

  function Behind(ms: seq<Method>, rest: Option<seq<Method>>): Option<seq<Method>> {
    if rest.None? then None else Some(ms + rest.value)
  }

  lemma BehindNothing(rest: Option<seq<Method>>)
    ensures Behind([], rest) == rest
  {
    if rest.Some? { assert [] + rest.value == rest.value; }
  }

  lemma BehindTwice(ms: seq<Method>, m: Method, rest: Option<seq<Method>>)
    ensures Behind(ms, Behind([m], rest)) == Behind(ms + [m], rest)
  {
    if rest.Some? { assert ms + ([m] + rest.value) == ms + [m] + rest.value; }
  }

  function Ahead(ss: seq<ServerConfig>, rest: Option<seq<ServerConfig>>): Option<seq<ServerConfig>> {
    if rest.None? then None else Some(ss + rest.value)
  }

  lemma AheadTwice(ss: seq<ServerConfig>, s: ServerConfig, rest: Option<seq<ServerConfig>>)
    ensures Ahead(ss, Ahead([s], rest)) == Ahead(ss + [s], rest)
  {
    if rest.Some? { assert ss + ([s] + rest.value) == ss + [s] + rest.value; }
  }

  lemma AheadNothing(rest: Option<seq<ServerConfig>>)
    ensures Ahead([], rest) == rest
  {
    if rest.Some? { assert [] + rest.value == rest.value; }
  }
}
