/** What exactly a buffer must look like for Request::parse (src/request.rs) to accept it,
    and what it then reads: lines, words, headers and body in declarative terms. */
module RequestForm {
  import opened Text
  import opened MessageHead
  import opened Requests
  import Chunked

  // ---- Lines ---------------------------------------------------------------

  function Spell(ls: seq<string>, ends: seq<string>): string
    requires |ends| == |ls|
  {
    if ls == [] then "" else ls[0] + ends[0] + Spell(ls[1..], ends[1..])
  }

  /** A line ends with CRLF, or with LF when it does not itself end with CR, or, being the
      last one and not empty, with the text. */
  predicate LineSpelled(line: string, end: string, last: bool) {
    && '\n' !in line
    && (end == CRLF || (end == "\n" && StripCr(line) == line) || (last && end == "" && line != ""))
  }

  predicate LinesSpelled(text: string, ls: seq<string>, ends: seq<string>) {
    && |ends| == |ls| && text == Spell(ls, ends)
    && forall i :: 0 <= i < |ls| ==> LineSpelled(ls[i], ends[i], i == |ls| - 1)
  }

  ghost predicate IsLines(text: string, ls: seq<string>) { exists ends :: LinesSpelled(text, ls, ends) }

  lemma FindLineFeed(a: string, rest: string)
    requires '\n' !in a
    ensures Find(a + "\n" + rest, "\n") == Some(|a|)
  {
    hide Find;
    var s := a + "\n" + rest;
    assert s[|a|..|a| + 1] == "\n";
    forall j: nat | j < |a| ensures !At(s, "\n", j) {
      assert s[j..j + 1] == [s[j]] && s[j] == a[j];
    }
    FindIs(s, "\n", |a|);
  }

  lemma NoLineFeed(a: string)
    ensures Find(a, "\n").None? <==> '\n' !in a
    ensures Find(a, "\n").Some? ==> '\n' !in a[..Find(a, "\n").value] && a[Find(a, "\n").value] == '\n'
  {
    hide Find;
    var i := Find(a, "\n");
    forall j: nat | j < |a| && (i.Some? ==> j < i.value) ensures a[j] != '\n' {
      FindFirst(a, "\n", j);
      assert a[j..j + 1] == [a[j]];
    }
    if i.Some? { assert a[i.value..i.value + 1][0] == '\n'; }
  }

  /** A line with its end, in front of a text. */
  lemma LineFirst(line: string, end: string, rest: string)
    requires LineSpelled(line, end, rest == "")
    ensures Lines(line + end + rest) == [line] + Lines(rest)
  {
    hide Find;
    var text := line + end + rest;
    if end == "" {
      assert text == line && rest == "";
      NoLineFeed(line);
    } else {
      var before := if end == CRLF then line + "\r" else line;
      assert text == before + "\n" + rest;
      FindLineFeed(before, rest);
      assert text[..|before|] == before && text[|before| + 1..] == rest && StripCr(before) == line;
    }
  }

  lemma {:induction false} SpelledLinesRead(ls: seq<string>, ends: seq<string>)
    requires |ends| == |ls| && forall i :: 0 <= i < |ls| ==> LineSpelled(ls[i], ends[i], i == |ls| - 1)
    ensures Lines(Spell(ls, ends)) == ls
  {
    hide LineSpelled, Lines;
    if ls == [] {
      NoLines();
    } else {
      SpelledLinesRead(ls[1..], ends[1..]);
      var rest := Spell(ls[1..], ends[1..]);
      if |ls| > 1 {
        assert LineSpelled(ls[1], ends[1], 1 == |ls| - 1);
        SpelledSome(ls[0], ends[0], ls[1..], ends[1..]);
      } else {
        assert rest == "";
      }
      LineFirst(ls[0], ends[0], rest);
      assert ls == [ls[0]] + ls[1..];
    }
  }

  lemma NoLines()
    ensures Lines("") == []
  {
  }

  lemma SpelledSome(line: string, end: string, ls: seq<string>, ends: seq<string>)
    requires LineSpelled(line, end, false) && |ls| == |ends| && ls != [] && LineSpelled(ls[0], ends[0], |ls| == 1)
    ensures LineSpelled(line, end, Spell(ls, ends) == "")
  {
  }

  /** The first line of a text that has a line feed, and what stands behind it. */
  lemma FirstLine(text: string) returns (line: string, end: string, rest: string)
    requires '\n' in text
    ensures text == line + end + rest && end != "" && LineSpelled(line, end, false) && Lines(text) == [line] + Lines(rest)
  {
    hide Find;
    NoLineFeed(text);
    var eol := Find(text, "\n").value;
    var front := text[..eol];
    line, end, rest := StripCr(front), if StripCr(front) == front then "\n" else CRLF, text[eol + 1..];
    hide Lines;
    assert text == front + "\n" + rest && line + end == front + "\n";
    FeedFree(front);
    LineFirst(line, end, rest) by { NotLast(line, end, rest == ""); }
  }

  lemma FeedFree(front: string)
    requires '\n' !in front
    ensures LineSpelled(StripCr(front), if StripCr(front) == front then "\n" else CRLF, false)
  {
    var line := StripCr(front);
    assert forall i :: 0 <= i < |line| ==> line[i] == front[i];
  }

  lemma {:induction false} SpellingOfLines(text: string) returns (ends: seq<string>)
    ensures LinesSpelled(text, Lines(text), ends)
    decreases |text|
  {
    hide Lines, LinesSpelled, LineSpelled;
    if text == "" {
      NoLines();
      ends := [];
      assert LinesSpelled(text, [], ends) by { NothingSpelled(); }
    } else if '\n' !in text {
      ends := [""];
      OneLine(text);
    } else {
      var line, end, rest := FirstLine(text);
      var more := SpellingOfLines(rest);
      ends := [end] + more;
      LineInFront(line, end, rest, Lines(rest), more);
    }
  }

  lemma NothingSpelled()
    ensures LinesSpelled("", [], [])
  {
  }

  lemma LineInFront(line: string, end: string, rest: string, ls: seq<string>, ends: seq<string>)
    requires LinesSpelled(rest, ls, ends) && LineSpelled(line, end, false)
    ensures LinesSpelled(line + end + rest, [line] + ls, [end] + ends)
  {
    var ls1, ends1 := [line] + ls, [end] + ends;
    assert ls1[1..] == ls && ends1[1..] == ends;
    hide LineSpelled;
    forall i | 0 <= i < |ls1| ensures LineSpelled(ls1[i], ends1[i], i == |ls1| - 1) {
      if i > 0 {
        assert LineSpelled(ls[i - 1], ends[i - 1], i - 1 == |ls| - 1);
      } else {
        NotLast(line, end, i == |ls1| - 1);
      }
    }
  }

  lemma NotLast(line: string, end: string, last: bool)
    requires LineSpelled(line, end, false)
    ensures LineSpelled(line, end, last)
  {
  }

  lemma OneLine(text: string)
    requires text != "" && '\n' !in text
    ensures Lines(text) == [text] && LinesSpelled(text, [text], [""])
  {
    hide Find;
    NoLineFeed(text);
    assert [text][1..] == [] && Spell([text], [""]) == text + "" + Spell([], []);
  }

  /** str::lines, both ways. */
  lemma LinesExactly(text: string, ls: seq<string>)
    ensures Lines(text) == ls <==> IsLines(text, ls)
  {
    hide Lines, Spell, LineSpelled;
    var ends := SpellingOfLines(text);
    if ends' :| LinesSpelled(text, ls, ends') { SpelledLinesRead(ls, ends'); }
  }

  // ---- Words ---------------------------------------------------------------

  function Weave(gaps: seq<string>, ws: seq<string>): string
    requires |gaps| == |ws| + 1
  {
    if ws == [] then gaps[0] else gaps[0] + ws[0] + Weave(gaps[1..], ws[1..])
  }

  /** Words with white space around them and between any two of them. */
  predicate WordsSpelled(s: string, ws: seq<string>, gaps: seq<string>) {
    && |gaps| == |ws| + 1 && s == Weave(gaps, ws)
    && (forall i :: 0 <= i < |gaps| ==> All(gaps[i], IsBlank))
    && (forall i :: 0 <= i < |ws| ==> TokenOk(ws[i]))
    && (forall i :: 0 < i < |ws| ==> gaps[i] != "")
  }

  ghost predicate IsWords(s: string, ws: seq<string>) { exists gaps :: WordsSpelled(s, ws, gaps) }

  lemma SkipGap(gap: string, rest: string)
    requires All(gap, IsBlank) && (rest == "" || NotBlank(rest[0]))
    ensures TrimStart(gap + rest, IsBlank) == rest
  {
    var s := gap + rest;
    assert forall i :: 0 <= i < |gap| ==> s[i] == gap[i];
    assert rest != "" ==> s[|gap|] == rest[0];
    assert Leading(s, IsBlank) == |gap|;
  }

  lemma TakeWord(w: string, rest: string)
    requires TokenOk(w) && (rest == "" || IsBlank(rest[0]))
    ensures Leading(w + rest, NotBlank) == |w|
  {
    var s := w + rest;
    assert forall i :: 0 <= i < |w| ==> s[i] == w[i] && NotBlank(s[i]);
    assert rest != "" ==> s[|w|] == rest[0];
  }

  /** White space, a word, and what stands behind it. */
  lemma WordFirst(gap: string, w: string, rest: string)
    requires All(gap, IsBlank) && TokenOk(w) && (rest == "" || IsBlank(rest[0]))
    ensures SplitBlanks(gap + w + rest) == [w] + SplitBlanks(rest)
  {
    assert gap + w + rest == gap + (w + rest) && NotBlank((w + rest)[0]);
    SkipGap(gap, w + rest);
    TakeWord(w, rest);
    assert (w + rest)[..|w|] == w && (w + rest)[|w|..] == rest;
  }

  lemma OnlyGap(gap: string)
    requires All(gap, IsBlank)
    ensures SplitBlanks(gap) == []
  {
    assert gap + "" == gap;
    SkipGap(gap, "");
  }

  lemma WeaveStart(gaps: seq<string>, ws: seq<string>)
    requires |gaps| == |ws| + 1 && All(gaps[0], IsBlank) && (ws != [] ==> gaps[0] != "")
    ensures Weave(gaps, ws) == "" || IsBlank(Weave(gaps, ws)[0])
  {
  }

  lemma {:induction false} SpelledWordsRead(ws: seq<string>, gaps: seq<string>)
    requires |gaps| == |ws| + 1 && WordsSpelled(Weave(gaps, ws), ws, gaps)
    ensures SplitBlanks(Weave(gaps, ws)) == ws
    decreases |ws|
  {
    hide TokenOk, SplitBlanks;
    assert All(gaps[0], IsBlank);
    if ws == [] {
      OnlyGap(gaps[0]);
    } else {
      assert TokenOk(ws[0]) && All(gaps[1], IsBlank);
      assert forall i :: 0 < i < |ws| - 1 ==> gaps[1..][i] == gaps[i + 1];
      SpelledWordsRead(ws[1..], gaps[1..]);
      WeaveStart(gaps[1..], ws[1..]);
      WordFirst(gaps[0], ws[0], Weave(gaps[1..], ws[1..]));
      assert ws == [ws[0]] + ws[1..];
    }
  }

  /** The first word, the white space before it and what stands behind it. */
  lemma FirstWord(s: string) returns (gap: string, w: string, rest: string)
    ensures s == gap + w + rest && All(gap, IsBlank)
    ensures if w == "" then rest == "" && SplitBlanks(s) == []
            else TokenOk(w) && (rest == "" || IsBlank(rest[0])) && SplitBlanks(s) == [w] + SplitBlanks(rest)
  {
    var n := Leading(s, IsBlank);
    var t := s[n..];
    var m := Leading(t, NotBlank);
    gap, w, rest := s[..n], t[..m], t[m..];
    SplitStep(s, n, t, m);
    LeadingSplits(s, IsBlank);
    LeadingSplits(t, NotBlank);
    hide Leading, SplitBlanks, All;
    ThreeParts(s, n, m);
  }

  lemma LeadingSplits(s: string, space: char -> bool)
    ensures var n := Leading(s, space);
            && All(s[..n], space) && s == s[..n] + s[n..]
            && (s != "" && space(s[0]) ==> n > 0) && (s[n..] != "" ==> !space(s[n..][0]))
  {
    hide Leading;
  }

  lemma SplitStep(s: string, n: nat, t: string, m: nat)
    requires n == Leading(s, IsBlank) && t == s[n..] && m == Leading(t, NotBlank)
    ensures SplitBlanks(s) == if t == "" then [] else [t[..m]] + SplitBlanks(t[m..])
  {
    hide Leading, IsBlank, NotBlank;
  }

  lemma {:induction false} SpellingOfWords(s: string) returns (gaps: seq<string>)
    ensures WordsSpelled(s, SplitBlanks(s), gaps)
    decreases |s|
  {
    hide SplitBlanks, IsBlank, TokenOk;
    var gap, w, rest := FirstWord(s);
    if w == "" {
      assert s == gap;
      gaps := [s];
    } else {
      assert |w| > 0 by { TokenSome(w); }
      var more := SpellingOfWords(rest);
      gaps := [gap] + more;
      WordInFront(gap, w, rest, SplitBlanks(rest), more);
    }
  }

  lemma TokenSome(w: string)
    requires TokenOk(w)
    ensures |w| > 0 && NotBlank(w[0])
  {
  }

  lemma WordInFront(gap: string, w: string, rest: string, ws: seq<string>, more: seq<string>)
    requires WordsSpelled(rest, ws, more) && All(gap, IsBlank) && TokenOk(w) && (rest == "" || IsBlank(rest[0]))
    ensures WordsSpelled(gap + w + rest, [w] + ws, [gap] + more)
  {
    hide TokenOk;
    var ws1, gaps := [w] + ws, [gap] + more;
    assert ws1[1..] == ws && gaps[1..] == more;
    if ws != [] && more[0] == "" {
      TokenSome(ws[0]);
      FirstOfWeave(more, ws);
    }
  }

  lemma FirstOfWeave(gaps: seq<string>, ws: seq<string>)
    requires |gaps| == |ws| + 1 && ws != [] && gaps[0] == "" && ws[0] != ""
    ensures Weave(gaps, ws) != "" && Weave(gaps, ws)[0] == ws[0][0]
  {
  }

  /** str::split_whitespace, both ways. */
  lemma WordsExactly(s: string, ws: seq<string>)
    ensures SplitBlanks(s) == ws <==> IsWords(s, ws)
  {
    hide SplitBlanks, Weave, TokenOk;
    var gaps := SpellingOfWords(s);
    if gaps' :| WordsSpelled(s, ws, gaps') { SpelledWordsRead(ws, gaps'); }
  }

  // ---- Headers -------------------------------------------------------------

  /** A header line: name, colon, value, each with white space around it. */
  predicate HeaderSpelled(line: string, name: string, value: string, gaps: (string, string, string, string)) {
    && line == gaps.0 + name + gaps.1 + ":" + (gaps.2 + value + gaps.3)
    && All(gaps.0, IsBlank) && All(gaps.1, IsBlank) && All(gaps.2, IsBlank) && All(gaps.3, IsBlank)
    && Trimmed(name, IsBlank) && Trimmed(value, IsBlank) && ':' !in name
  }

  /** The line gives the header key, which is its name in lower case, this value. */
  ghost predicate Gives(line: string, key: string, value: string) {
    exists name, gaps :: HeaderSpelled(line, name, value, gaps) && Lower(name) == key
  }

  lemma SplitAtColon(front: string, back: string)
    requires ':' !in front
    ensures Find(front + ":" + back, ":") == Some(|front|)
  {
    hide Find;
    var s := front + ":" + back;
    assert s[|front|..|front| + 1] == ":";
    forall j: nat | j < |front| ensures !At(s, ":", j) {
      assert s[j..j + 1] == [s[j]] && s[j] == front[j];
    }
    FindIs(s, ":", |front|);
  }

  lemma SpelledHeaderReads(line: string, name: string, value: string, gaps: (string, string, string, string))
    requires HeaderSpelled(line, name, value, gaps)
    ensures HeaderOf(line) == Some((Lower(name), value))
  {
    hide Find, Trim, Lower;
    var front, back := gaps.0 + name + gaps.1, gaps.2 + value + gaps.3;
    assert ':' !in front;
    SplitAtColon(front, back);
    assert line[..|front|] == front && line[|front| + 1..] == back;
    TrimIs(gaps.0, name, gaps.1, IsBlank);
    TrimIs(gaps.2, value, gaps.3, IsBlank);
  }

  /** Any text is its trimmed part with white space around it. */
  lemma TrimSplits(s: string, space: char -> bool) returns (left: string, right: string)
    ensures s == left + Trim(s, space) + right && All(left, space) && All(right, space) && Trimmed(Trim(s, space), space)
  {
    hide Leading, Kept, Trimmed;
    var n := Leading(s, space);
    var t := s[n..];
    var k := Kept(t, space);
    left, right := s[..n], t[k..];
    assert All(left, space);
    assert All(right, space) by { assert forall i :: 0 <= i < |right| ==> right[i] == t[k + i]; }
    assert Trimmed(t[..k], space) by { KeptTrimmed(t, space); }
    assert Trim(s, space) == t[..k];
    hide All, Trim;
    assert s == left + t && t == t[..k] + right;
  }

  lemma KeptTrimmed(t: string, space: char -> bool)
    requires t == "" || !space(t[0])
    ensures Trimmed(t[..Kept(t, space)], space)
  {
    var k := Kept(t, space);
    if k > 0 { assert t[..k][0] == t[0] && t[..k][k - 1] == t[k - 1]; }
  }

  lemma SpellingOfHeader(line: string) returns (name: string, gaps: (string, string, string, string))
    requires HeaderOf(line).Some?
    ensures HeaderSpelled(line, name, HeaderOf(line).value.1, gaps) && Lower(name) == HeaderOf(line).value.0
  {
    hide Find, Trim, Lower;
    var i := Find(line, ":").value;
    var front, back := line[..i], line[i + 1..];
    assert line == front + ":" + back by { assert line[i..i + 1] == ":"; }
    forall j: nat | j < i ensures front[j] != ':' {
      FindFirst(line, ":", j);
      assert line[j..j + 1] == [line[j]];
    }
    name := Trim(front, IsBlank);
    var a, b := TrimSplits(front, IsBlank);
    var c, d := TrimSplits(back, IsBlank);
    gaps := (a, b, c, d);
    assert forall ch :: ch in name ==> ch in front;
  }

  lemma HeaderExactly(line: string, key: string, value: string)
    ensures HeaderOf(line) == Some((key, value)) <==> Gives(line, key, value)
  {
    hide HeaderOf, HeaderSpelled, Lower;
    if HeaderOf(line) == Some((key, value)) {
      var name, gaps := SpellingOfHeader(line);
    }
    if name, gaps :| HeaderSpelled(line, name, value, gaps) && Lower(name) == key {
      SpelledHeaderReads(line, name, value, gaps);
    }
  }

  /** The last line that gives the header a value gives it this one; other lines, and lines
      without a colon, do not count. */
  ghost predicate LastGives(ls: seq<string>, key: string, value: string) {
    exists i :: 0 <= i < |ls| && LastAt(ls, i, key, value)
  }

  ghost predicate LastAt(ls: seq<string>, i: nat, key: string, value: string) {
    && i < |ls| && Gives(ls[i], key, value)
    && forall j, other :: i < j < |ls| ==> !Gives(ls[j], key, other)
  }

  function HeaderFor(headers: Headers, key: string): Option<string> {
    if key in headers then Some(headers[key]) else None
  }

  /** The value that the last header line of this key gives. */
  function LastIn(ls: seq<string>, key: string): Option<string> {
    if ls == [] then None
    else
      var later, h := LastIn(ls[1..], key), HeaderOf(ls[0]);
      if later.Some? then later else if h.Some? && h.value.0 == key then Some(h.value.1) else None
  }

  lemma {:induction false} AddedHeader(headers: Headers, ls: seq<string>, key: string)
    ensures HeaderFor(AddHeaders(headers, ls), key)
            == if LastIn(ls, key).Some? then LastIn(ls, key) else HeaderFor(headers, key)
    decreases |ls|
  {
    hide HeaderOf;
    if ls != [] {
      var h := HeaderOf(ls[0]);
      AddedHeader(if h.Some? then headers[h.value.0 := h.value.1] else headers, ls[1..], key);
    }
  }

  predicate HasKey(line: string, key: string) { HeaderOf(line).Some? && HeaderOf(line).value.0 == key }

  lemma {:induction false} LastIndex(ls: seq<string>, key: string) returns (i: nat)
    ensures if LastIn(ls, key).None? then forall j :: 0 <= j < |ls| ==> !HasKey(ls[j], key)
            else i < |ls| && HeaderOf(ls[i]) == Some((key, LastIn(ls, key).value))
                 && forall j :: i < j < |ls| ==> !HasKey(ls[j], key)
    decreases |ls|
  {
    hide HeaderOf;
    i := 0;
    if ls != [] {
      var k := LastIndex(ls[1..], key);
      assert forall j :: 0 < j < |ls| ==> ls[j] == ls[1..][j - 1];
      if LastIn(ls[1..], key).Some? { i := k + 1; }
    }
  }

  lemma LastExactly(ls: seq<string>, key: string, value: string)
    ensures LastIn(ls, key) == Some(value) <==> LastGives(ls, key, value)
  {
    hide HeaderOf, Gives, LastIn;
    var last := LastIn(ls, key);
    var i := LastIndex(ls, key);
    if last.Some? {
      HeaderExactly(ls[i], key, last.value);
      forall j, other | i < j < |ls| ensures !Gives(ls[j], key, other) { HeaderExactly(ls[j], key, other); }
      assert LastAt(ls, i, key, last.value);
    }
    if LastGives(ls, key, value) {
      var k: nat :| k < |ls| && LastAt(ls, k, key, value);
      HeaderExactly(ls[k], key, value);
      assert HasKey(ls[k], key) && k == i;
    }
  }

  ghost predicate HeadersSay(ls: seq<string>, headers: Headers) {
    forall key, value :: HeaderFor(headers, key) == Some(value) <==> LastGives(ls, key, value)
  }

  lemma HeadersExactly(ls: seq<string>, headers: Headers)
    ensures AddHeaders(map[], ls) == headers <==> HeadersSay(ls, headers)
  {
    hide AddHeaders, LastGives;
    var added := AddHeaders(map[], ls);
    forall key, value ensures HeaderFor(added, key) == Some(value) <==> LastGives(ls, key, value) {
      AddedHeader(map[], ls, key);
      LastExactly(ls, key, value);
    }
    if HeadersSay(ls, headers) {
      forall key ensures HeaderFor(added, key) == HeaderFor(headers, key) {
        assert forall value :: HeaderFor(added, key) == Some(value) <==> HeaderFor(headers, key) == Some(value);
      }
      SameHeaders(added, headers);
    }
  }

  lemma SameHeaders(a: Headers, b: Headers)
    requires forall key :: HeaderFor(a, key) == HeaderFor(b, key)
    ensures a == b
  {
    assert forall key :: key in a <==> HeaderFor(a, key).Some?;
    assert forall key :: key in b <==> HeaderFor(b, key).Some?;
    assert forall key :: key in a ==> HeaderFor(a, key) == Some(a[key]);
    assert forall key :: key in b ==> HeaderFor(b, key) == Some(b[key]);
  }

  // ---- Requests ------------------------------------------------------------

  /** The buffer is a head, which is the first to be followed by a blank line, that line and
      rest; the head has lines, the first at least three words, the others headers. */
  ghost predicate OpensAs(buffer: string, r: Request, rest: string, head: string, ls: seq<string>, ws: seq<string>) {
    && buffer == head + SEPARATOR + rest && (forall j: nat :: j < |head| ==> !At(buffer, SEPARATOR, j))
    && IsLines(head, ls) && ls != [] && IsWords(ls[0], ws) && |ws| >= 3
    && r.verb == VerbOf(ws[0]) && r.path == ws[1] && r.version == ws[2] && HeadersSay(ls[1..], r.headers)
  }

  ghost predicate Opens(buffer: string, r: Request, rest: string) {
    exists head, ls, ws :: OpensAs(buffer, r, rest, head, ls, ws)
  }

  lemma OpensExactly(buffer: string, r: Request, rest: string)
    ensures Opens(buffer, r, rest) <==>
            Find(buffer, SEPARATOR).Some? && rest == BehindHead(buffer)
            && ParseHead(Lines(buffer[..Find(buffer, SEPARATOR).value])) == Some(r.(body := ""))
  {
    hide Find, Lines, IsLines, IsWords, SplitBlanks, AddHeaders, HeadersSay;
    if Find(buffer, SEPARATOR).Some? {
      var end := Find(buffer, SEPARATOR).value;
      var head := buffer[..end];
      var ls := Lines(head);
      HeadFirst(buffer);
      LinesExactly(head, ls);
      if ls != [] && rest == BehindHead(buffer) {
        WordsExactly(ls[0], SplitBlanks(ls[0]));
        HeadersExactly(ls[1..], r.headers);
        if ParseHead(ls) == Some(r.(body := "")) { assert OpensAs(buffer, r, rest, head, ls, SplitBlanks(ls[0])); }
      }
    }
    if head, ls, ws :| OpensAs(buffer, r, rest, head, ls, ws) {
      assert At(buffer, SEPARATOR, |head|) by { SeparatorAt(head, rest); }
      FindIs(buffer, SEPARATOR, |head|);
      assert buffer[..|head|] == head && buffer[|head| + 4..] == rest;
      LinesExactly(head, ls);
      WordsExactly(ls[0], ws);
      HeadersExactly(ls[1..], r.headers);
    }
  }

  lemma SeparatorAt(head: string, rest: string)
    ensures At(head + SEPARATOR + rest, SEPARATOR, |head|)
  {
  }

  lemma HeadFirst(buffer: string)
    requires Find(buffer, SEPARATOR).Some?
    ensures buffer == buffer[..Find(buffer, SEPARATOR).value] + SEPARATOR + BehindHead(buffer)
    ensures forall j: nat :: j < Find(buffer, SEPARATOR).value ==> !At(buffer, SEPARATOR, j)
  {
    hide Find;
    var end := Find(buffer, SEPARATOR).value;
    assert buffer == buffer[..end] + buffer[end..end + 4] + buffer[end + 4..];
    hide At;
    forall j: nat | j < end ensures !At(buffer, SEPARATOR, j) { FindFirst(buffer, SEPARATOR, j); }
  }

  /** Plainly all that follows the head; or the bytes of well-formed chunks up to a zero line. */
  ghost predicate CarriesBody(headers: Headers, rest: string, body: string) {
    if IsChunked(headers) then exists ps, last, more :: Chunked.Framed(rest, ps, last, more) && Chunked.Body(ps) == body
    else body == rest
  }

  ghost predicate IsRequest(buffer: string, r: Request) {
    exists rest :: Opens(buffer, r, rest) && CarriesBody(r.headers, rest, r.body)
  }

  /** The parser accepts exactly the requests, and reads from them what they say. */
  lemma RequestExactly(buffer: string, r: Request)
    requires |buffer| <= USIZE_MAX
    ensures Parse(buffer) == Done(r) <==> IsRequest(buffer, r)
  {
    hide Find, Lines, ParseHead, Opens, Chunked.Decode, Chunked.Framed, IsChunked;
    var rest := BehindHead(buffer);
    OpensExactly(buffer, r, rest);
    if Parse(buffer).Done? { HeadHasNoBody(Lines(buffer[..Find(buffer, SEPARATOR).value])); }
    Chunked.DecodesExactly(rest, r.body);
    if other :| Opens(buffer, r, other) && CarriesBody(r.headers, other, r.body) { OpensExactly(buffer, r, other); }
  }

  ghost predicate Overrun(rest: string) { exists ps, line, size, tail :: Chunked.Overruns(rest, ps, line, size, tail) }

  ghost predicate RunsOver(buffer: string) {
    exists r, rest :: Opens(buffer, r, rest) && IsChunked(r.headers) && Overrun(rest)
  }

  /** The parser leaves the buffer exactly on the chunked requests whose chunks overrun. */
  lemma CrashExactly(buffer: string)
    requires |buffer| <= USIZE_MAX
    ensures Parse(buffer).Crash? <==> RunsOver(buffer)
  {
    hide Find, Lines, ParseHead, Opens, Chunked.Decode, Chunked.Overruns, IsChunked;
    var rest := BehindHead(buffer);
    Chunked.CrashesExactly(rest);
    if Parse(buffer).Crash? {
      var r := ParseHead(Lines(buffer[..Find(buffer, SEPARATOR).value])).value;
      HeadHasNoBody(Lines(buffer[..Find(buffer, SEPARATOR).value]));
      OpensExactly(buffer, r, rest);
    }
    if r, other :| Opens(buffer, r, other) && IsChunked(r.headers) && Overrun(other) { OpensExactly(buffer, r, other); }
  }

  lemma HeadHasNoBody(ls: seq<string>)
    requires ParseHead(ls).Some?
    ensures ParseHead(ls).value.body == ""
  {
  }
}
