/** The configuration lexer (src/config/tokenizer.rs) and what its tokens say about the text. */
module Tokenizer {
  import opened Text

  datatype TokenKind = Word(text: string) | LBrace | RBrace | Semicolon
  datatype Token = Token(kind: TokenKind, line: nat)

  predicate IsMark(c: char) { c == '{' || c == '}' || c == ';' }

  function MarkKind(c: char): TokenKind
    requires IsMark(c)
  {
    if c == '{' then LBrace else if c == '}' then RBrace else Semicolon
  }

  /** A character that ends a word. */
  predicate IsBreak(c: char) { IsMark(c) || IsSpace(c) }

  predicate IsWordChar(c: char) { !IsBreak(c) }

  predicate WordOk(w: string) { w != "" && All(w, IsWordChar) }

  // ---- The loop ------------------------------------------------------------

  function Flush(current: string, line: nat): seq<Token> {
    if current == "" then [] else [Token(Word(current), line)]
  }

  /** The tokens still to come with current read so far and line lines counted. */
  function Lex(input: string, current: string, line: nat): seq<Token>
    decreases |input|
  {
    if input == "" then Flush(current, line)
    else
      var c, rest := input[0], input[1..];
      if c == '\n' then Flush(current, line) + Lex(rest, "", line + 1)
      else if IsMark(c) then Flush(current, line) + [Token(MarkKind(c), line)] + Lex(rest, "", line)
      else if IsSpace(c) then Flush(current, line) + Lex(rest, "", line)
      else Lex(rest, current + [c], line)
  }

  function Tokens(input: string): seq<Token> { Lex(input, "", 1) }

  method PushWord(tokens: seq<Token>, current: string, line: nat) returns (pushed: seq<Token>, cleared: string)
    ensures pushed == tokens + Flush(current, line) && cleared == ""
  {
    pushed, cleared := tokens, current;
    if current != "" {
      pushed := pushed + [Token(Word(current), line)];
      cleared := "";
    }
  }

  /** One character of the input. */
  method ReadChar(tokens: seq<Token>, current: string, line: nat, c: char)
    returns (read: seq<Token>, pending: string, next: nat)
    ensures read == tokens + Emitted(c, current, line) && pending == Next(c, current)
    ensures next == line + if c == '\n' then 1 else 0
  {
    read, pending, next := tokens, current, line;
    match c {
      case '\n' =>
        read, pending := PushWord(read, pending, line);
        next := line + 1;
      case '{' =>
        read, pending := PushWord(read, pending, line);
        read := read + [Token(LBrace, line)];
      case '}' =>
        read, pending := PushWord(read, pending, line);
        read := read + [Token(RBrace, line)];
      case ';' =>
        read, pending := PushWord(read, pending, line);
        read := read + [Token(Semicolon, line)];
      case _ =>
        if IsSpace(c) {
          read, pending := PushWord(read, pending, line);
        } else {
          pending := pending + [c];
        }
    }
  }

  method Tokenize(input: string) returns (tokens: seq<Token>)
    ensures tokens == Tokens(input)
  {
    hide Lex, Emitted, Next;
    tokens := [];
    var current := "";
    var line := 1;
    assert input[0..] == input;
    for i := 0 to |input|
      invariant tokens + Lex(input[i..], current, line) == Tokens(input)
    {
      assert input[i..][0] == input[i] && input[i..][1..] == input[i + 1..];
      LexStep(input[i..], current, line);
      tokens, current, line := ReadChar(tokens, current, line, input[i]);
    }
    assert input[|input|..] == "";
    LexEnd(current, line);
    tokens, current := PushWord(tokens, current, line);
  }

  // ---- Text as gaps and token texts ----------------------------------------

  /** A token as written: the white space in front of it and what it is. */
  datatype Spelled = Spelled(gap: string, kind: TokenKind)

  function TextOf(kind: TokenKind): string {
    match kind
    case Word(w) => w
    case LBrace => "{"
    case RBrace => "}"
    case Semicolon => ";"
  }

  function Render(ps: seq<Spelled>, tail: string): string {
    if ps == [] then tail else ps[0].gap + TextOf(ps[0].kind) + Render(ps[1..], tail)
  }

  /** Gaps are white space, words are proper words, and no two words touch. */
  predicate Legible(ps: seq<Spelled>) {
    && (forall i :: 0 <= i < |ps| ==> All(ps[i].gap, IsSpace) && (ps[i].kind.Word? ==> WordOk(ps[i].kind.text)))
    && (forall i :: 0 < i < |ps| && ps[i - 1].kind.Word? && ps[i].kind.Word? ==> ps[i].gap != "")
  }

  function Newlines(s: string): nat {
    if s == "" then 0 else (if s[0] == '\n' then 1 else 0) + Newlines(s[1..])
  }

  /** The tokens with their lines: one line up for every newline passed. */
  function Located(ps: seq<Spelled>, line: nat): (ts: seq<Token>)
    ensures |ts| == |ps| && forall i :: 0 <= i < |ps| ==> ts[i].kind == ps[i].kind
  {
    if ps == [] then []
    else
      var at := line + Newlines(ps[0].gap);
      [Token(ps[0].kind, at)] + Located(ps[1..], at)
  }

  lemma {:induction false} LexGap(gap: string, rest: string, line: nat)
    requires All(gap, IsSpace)
    ensures Lex(gap + rest, "", line) == Lex(rest, "", line + Newlines(gap))
    decreases |gap|
  {
    if gap == "" {
      assert gap + rest == rest;
    } else {
      assert (gap + rest)[1..] == gap[1..] + rest && IsSpace(gap[0]);
      LexGap(gap[1..], rest, line + if gap[0] == '\n' then 1 else 0);
    }
  }

  lemma {:induction false} LexWord(w: string, rest: string, current: string, line: nat)
    requires All(w, IsWordChar)
    ensures Lex(w + rest, current, line) == Lex(rest, current + w, line)
    decreases |w|
  {
    if w == "" {
      assert w + rest == rest && current + w == current;
    } else {
      assert (w + rest)[1..] == w[1..] + rest && IsWordChar(w[0]);
      LexWord(w[1..], rest, current + [w[0]], line);
      assert current + [w[0]] + w[1..] == current + w;
    }
  }

  /** At a break or at the end, what was read so far is a token of its own. */
  lemma LexBreak(rest: string, current: string, line: nat)
    requires rest == "" || IsBreak(rest[0])
    ensures Lex(rest, current, line) == Flush(current, line) + Lex(rest, "", line)
  {
  }

  /** Putting a token in front, when it does not touch a word behind it. */
  lemma PutFirst(p: Spelled, ps: seq<Spelled>, tail: string)
    requires Legible(ps) && All(p.gap, IsSpace) && (p.kind.Word? ==> WordOk(p.kind.text))
    requires p.kind.Word? && ps != [] && ps[0].kind.Word? ==> ps[0].gap != ""
    ensures Legible([p] + ps) && Render([p] + ps, tail) == p.gap + TextOf(p.kind) + Render(ps, tail)
  {
    hide WordOk;
    assert ([p] + ps)[1..] == ps;
    assert forall i :: 0 < i < |[p] + ps| ==> ([p] + ps)[i] == ps[i - 1];
  }

  lemma TailLegible(ps: seq<Spelled>, tail: string)
    requires Legible(ps) && ps != []
    ensures Legible(ps[1..]) && (ps[0].kind.Word? && ps[1..] != [] && ps[1..][0].kind.Word? ==> ps[1..][0].gap != "")
  {
    hide WordOk;
    assert forall i :: 0 <= i < |ps| - 1 ==> ps[1..][i] == ps[i + 1];
  }

  lemma RenderStart(ps: seq<Spelled>, tail: string)
    requires Legible(ps) && All(tail, IsSpace)
    requires ps != [] && ps[0].kind.Word? ==> ps[0].gap != ""
    ensures Render(ps, tail) == "" || IsBreak(Render(ps, tail)[0])
  {
  }

  /** Completeness: a legible spelling is read as exactly its tokens, on their lines. */
  lemma {:induction false} ReadsSpelling(ps: seq<Spelled>, tail: string, line: nat)
    requires Legible(ps) && All(tail, IsSpace)
    ensures Lex(Render(ps, tail), "", line) == Located(ps, line)
    decreases |ps|
  {
    hide IsSpace, Legible, WordOk, Lex, IsBreak;
    if ps == [] {
      LexGap(tail, "", line);
      LexEnd("", line + Newlines(tail));
      assert tail + "" == tail;
    } else {
      var p, rest := ps[0], Render(ps[1..], tail);
      var at := line + Newlines(p.gap);
      TailLegible(ps, tail);
      ReadsSpelling(ps[1..], tail, at);
      assert Render(ps, tail) == p.gap + (TextOf(p.kind) + rest);
      assert All(p.gap, IsSpace) && (p.kind.Word? ==> WordOk(p.kind.text)) by { HeadOk(ps); }
      LexGap(p.gap, TextOf(p.kind) + rest, line);
      assert p.kind.Word? ==> rest == "" || IsBreak(rest[0]) by {
        if p.kind.Word? { RenderStart(ps[1..], tail); }
      }
      LexToken(p.kind, rest, at);
    }
  }

  lemma LexToken(kind: TokenKind, rest: string, line: nat)
    requires kind.Word? ==> WordOk(kind.text) && (rest == "" || IsBreak(rest[0]))
    ensures Lex(TextOf(kind) + rest, "", line) == [Token(kind, line)] + Lex(rest, "", line)
  {
    hide IsSpace, IsBreak;
    if kind.Word? {
      LexWord(kind.text, rest, "", line);
      assert "" + kind.text == kind.text;
      LexBreak(rest, kind.text, line);
    } else {
      assert (TextOf(kind) + rest)[1..] == rest;
    }
  }

  lemma HeadOk(ps: seq<Spelled>)
    requires Legible(ps) && ps != []
    ensures All(ps[0].gap, IsSpace) && (ps[0].kind.Word? ==> WordOk(ps[0].kind.text))
  {
  }

  lemma NoneLegible()
    ensures Legible([]) && Render([], "") == ""
  {
  }

  /** One more character in front: it widens the gap, widens the word, or is a token. */
  lemma SpellSpace(c: char, ps: seq<Spelled>, tail: string) returns (qs: seq<Spelled>, tail': string)
    requires Legible(ps) && All(tail, IsSpace) && IsSpace(c)
    ensures Legible(qs) && All(tail', IsSpace) && Render(qs, tail') == [c] + Render(ps, tail)
  {
    hide Legible, IsSpace;
    if ps == [] {
      qs, tail' := ps, [c] + tail;
    } else {
      HeadOk(ps);
      TailLegible(ps, tail);
      var p := ps[0].(gap := [c] + ps[0].gap);
      PutFirst(p, ps[1..], tail);
      qs, tail' := [p] + ps[1..], tail;
      hide Render;
      assert [c] + ps[0].gap + TextOf(p.kind) + Render(ps[1..], tail) == [c] + Render(ps, tail) by {
        RenderHead(ps, tail);
      }
    }
  }

  lemma RenderHead(ps: seq<Spelled>, tail: string)
    requires ps != []
    ensures Render(ps, tail) == ps[0].gap + TextOf(ps[0].kind) + Render(ps[1..], tail)
  {
  }

  lemma SpellLetter(c: char, ps: seq<Spelled>, tail: string) returns (qs: seq<Spelled>)
    requires Legible(ps) && IsWordChar(c)
    ensures Legible(qs) && Render(qs, tail) == [c] + Render(ps, tail)
  {
    hide Legible, IsWordChar, Render;
    if ps != [] && ps[0].gap == "" && ps[0].kind.Word? {
      HeadOk(ps);
      TailLegible(ps, tail);
      var p := Spelled("", Word([c] + ps[0].kind.text));
      PutFirst(p, ps[1..], tail);
      qs := [p] + ps[1..];
      RenderHead(ps, tail);
    } else {
      PutFirst(Spelled("", Word([c])), ps, tail);
      qs := [Spelled("", Word([c]))] + ps;
    }
  }

  /** Soundness: every text is a legible spelling of some tokens. */
  lemma {:induction false} Spelling(input: string) returns (ps: seq<Spelled>, tail: string)
    ensures Legible(ps) && All(tail, IsSpace) && Render(ps, tail) == input
  {
    hide IsSpace, Legible, Render;
    if input == "" {
      NoneLegible();
      return [], "";
    }
    ps, tail := Spelling(input[1..]);
    var c := input[0];
    assert input == [c] + input[1..];
    if IsSpace(c) {
      ps, tail := SpellSpace(c, ps, tail);
    } else if IsMark(c) {
      PutFirst(Spelled("", MarkKind(c)), ps, tail);
      ps := [Spelled("", MarkKind(c))] + ps;
    } else {
      ps := SpellLetter(c, ps, tail);
    }
  }

  /** The tokens of any text are those of a legible spelling of it: words are non-empty
      and free of delimiters, and a token's line is one plus the newlines before it. */
  lemma TokensExactly(input: string) returns (ps: seq<Spelled>, tail: string)
    ensures Legible(ps) && All(tail, IsSpace) && Render(ps, tail) == input
    ensures Tokens(input) == Located(ps, 1)
  {
    ps, tail := Spelling(input);
    ReadsSpelling(ps, tail, 1);
  }

  function Kinds(ts: seq<Token>): (ks: seq<TokenKind>)
    ensures |ks| == |ts| && forall i :: 0 <= i < |ts| ==> ks[i] == ts[i].kind
  {
    seq(|ts|, i requires 0 <= i < |ts| => ts[i].kind)
  }

  /** How white space runs are spelled does not matter to the kinds of the tokens. */
  lemma {:induction false} GapsDoNotMatter(ps: seq<Spelled>, tail: string, qs: seq<Spelled>, tail': string)
    requires Legible(ps) && Legible(qs) && All(tail, IsSpace) && All(tail', IsSpace)
    requires |ps| == |qs| && forall i :: 0 <= i < |ps| ==> ps[i].kind == qs[i].kind
    ensures Kinds(Tokens(Render(ps, tail))) == Kinds(Tokens(Render(qs, tail')))
  {
    hide Legible, Lex;
    ReadsSpelling(ps, tail, 1);
    ReadsSpelling(qs, tail', 1);
  }

  /** A text may be read in two parts at any break, counting lines on. */
  lemma {:induction false} LexSplit(a: string, b: string, current: string, line: nat)
    requires a == "" || b == "" || IsBreak(a[|a| - 1]) || IsBreak(b[0])
    requires a == "" ==> current == "" || b == "" || IsBreak(b[0])
    ensures Lex(a + b, current, line) == Lex(a, current, line) + Lex(b, "", line + Newlines(a))
    decreases |a|
  {
    hide IsSpace, Lex;
    if a == "" {
      assert a + b == b;
      LexEnd(current, line);
      if b == "" || IsBreak(b[0]) { LexBreak(b, current, line); }
    } else {
      var c, rest := a[0], a[1..];
      assert (a + b)[1..] == rest + b;
      assert rest != "" ==> rest[|rest| - 1] == a[|a| - 1];
      NewlineIsSpace();
      LexStep(a + b, current, line);
      LexStep(a, current, line);
      LexSplit(rest, b, Next(c, current), line + if c == '\n' then 1 else 0);
    }
  }

  function Next(c: char, current: string): string { if IsBreak(c) then "" else current + [c] }

  function Emitted(c: char, current: string, line: nat): seq<Token> {
    if IsMark(c) then Flush(current, line) + [Token(MarkKind(c), line)]
    else if IsSpace(c) then Flush(current, line)
    else []
  }

  lemma LexStep(input: string, current: string, line: nat)
    requires input != ""
    ensures var c := input[0];
            Lex(input, current, line)
            == Emitted(c, current, line) + Lex(input[1..], Next(c, current), line + if c == '\n' then 1 else 0)
  {
  }

  lemma LexEnd(current: string, line: nat)
    ensures Lex("", current, line) == Flush(current, line)
  {
  }

  lemma NewlineIsSpace()
    ensures IsSpace('\n')
  {
  }

  // ---- What separates words ------------------------------------------------

  /** The white space and the marks of a configuration file, each by itself. */
  lemma BreaksExactly(c: char)
    requires c as int < 128
    ensures IsSpace(c) <==> c == ' ' || c == '\t' || c == '\n' || c == '\r' || c == '\U{000B}' || c == '\U{000C}'
    ensures IsMark(c) <==> c == '{' || c == '}' || c == ';'
  {
  }

  /** Two words with a tab, a blank, a carriage return or a newline between them are two
      words, and the newline moves the second to the next line. */
  lemma WordsApart(a: string, c: char, b: string)
    requires WordOk(a) && WordOk(b) && (c == ' ' || c == '\t' || c == '\r' || c == '\n')
    ensures Tokens(a + [c] + b) == [Token(Word(a), 1), Token(Word(b), if c == '\n' then 2 else 1)]
  {
    hide Lex, WordOk;
    var ps := [Spelled("", Word(a)), Spelled([c], Word(b))];
    assert ps[1..] == [Spelled([c], Word(b))] && ps[1..][1..] == [];
    assert Render(ps[1..], "") == [c] + b + Render([], "") && Render(ps, "") == "" + a + Render(ps[1..], "");
    assert Render(ps, "") == a + [c] + b;
    assert Legible(ps);
    ReadsSpelling(ps, "", 1);
    assert Newlines([c]) == (if c == '\n' then 1 else 0) by { assert [c][1..] == ""; }
    assert Located(ps, 1) == [Token(Word(a), 1)] + Located(ps[1..], 1);
    assert Located(ps[1..], 1) == [Token(Word(b), 1 + Newlines([c]))] + Located([], 1 + Newlines([c]));
  }

  /** The marks, by their characters. */
  lemma MarksRead()
    ensures Tokens("{};") == [Token(LBrace, 1), Token(RBrace, 1), Token(Semicolon, 1)]
  {
    var s := "{};";
    assert s[1..] == "};" && s[1..][1..] == ";" && s[1..][1..][1..] == "";
    assert Lex(";", "", 1) == [] + [Token(Semicolon, 1)] + Lex("", "", 1);
    assert Lex("};", "", 1) == [] + [Token(RBrace, 1)] + Lex(";", "", 1);
  }
}
