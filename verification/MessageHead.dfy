/** Message heads: lines, each ended by CRLF, up to a blank line (section 2.1 of RFC 9112). */
module MessageHead {
  import opened Text

  const SEPARATOR := "\r\n\r\n"

  function JoinLines(ls: seq<string>): string {
    if ls == [] then "" else ls[0] + CRLF + JoinLines(ls[1..])
  }

  function HeadText(ls: seq<string>): string { JoinLines(ls) + CRLF }

  predicate Flat(s: string) { '\r' !in s && '\n' !in s }

  predicate LineOk(l: string) { l != "" && Flat(l) }

  predicate LinesOk(ls: seq<string>) { forall i :: 0 <= i < |ls| ==> LineOk(ls[i]) }

  /** One carriage return less at the end. */
  function StripCr(s: string): string {
    if s != "" && s[|s| - 1] == '\r' then s[..|s| - 1] else s
  }

  /** str::lines: a line ends at LF or CRLF, the last one also at the end of the text. */
  function Lines(text: string): seq<string>
    decreases |text|
  {
    if text == "" then []
    else
      var eol := Find(text, "\n");
      if eol.None? then [text] else [StripCr(text[..eol.value])] + Lines(text[eol.value + 1..])
  }

  lemma AtShift(a: string, b: string, needle: string, k: nat)
    ensures At(a + b, needle, |a| + k) == At(b, needle, k)
  {
    if k + |needle| <= |b| {
      var left, right := (a + b)[|a| + k..|a| + k + |needle|], b[k..k + |needle|];
      assert |left| == |right| && forall i :: 0 <= i < |left| ==> left[i] == b[k + i] == right[i];
    }
  }

  /** Where nothing fits in front, the search goes on behind it. */
  lemma FindShift(a: string, b: string, needle: string)
    requires forall j: nat :: j < |a| ==> !At(a + b, needle, j)
    requires Find(b, needle).Some?
    ensures Find(a + b, needle) == Some(|a| + Find(b, needle).value)
  {
    hide Find, At;
    var i := Find(b, needle).value;
    AtShift(a, b, needle, i);
    forall j: nat | j < |a| + i ensures !At(a + b, needle, j) {
      if j >= |a| {
        FindFirst(b, needle, j - |a|);
        AtShift(a, b, needle, j - |a|);
      }
    }
    FindIs(a + b, needle, |a| + i);
  }

  lemma NoSeparatorInLine(l: string, rest: string)
    requires Flat(l) && (rest == "" || rest[0] != '\r')
    ensures forall j: nat :: j < |l| + 2 ==> !At(l + CRLF + rest, SEPARATOR, j)
  {
    var s := l + CRLF + rest;
    forall j: nat | j < |l| + 2 ensures !At(s, SEPARATOR, j) {
      if j + 4 <= |s| {
        var w := s[j..j + 4];
        assert w[0] == s[j] && w[2] == s[j + 2];
        assert j < |l| ==> s[j] == l[j];
        assert j == |l| ==> s[j + 2] == rest[0];
      }
    }
  }

  /** The first blank line of a head is its last. */
  lemma {:induction false} HeadEnds(ls: seq<string>, rest: string)
    requires ls != [] && LinesOk(ls)
    ensures Find(HeadText(ls) + rest, SEPARATOR) == Some(|JoinLines(ls)| - 2)
    decreases |ls|
  {
    hide Find;
    var l, text := ls[0], HeadText(ls) + rest;
    if |ls| == 1 {
      assert JoinLines(ls) == l + CRLF by { assert ls[1..] == []; }
      assert text == l + SEPARATOR + rest;
      assert At(text, SEPARATOR, |l|);
      forall j: nat | j < |l| ensures !At(text, SEPARATOR, j) {
        assert text[j] == l[j];
        if j + 4 <= |text| { assert text[j..j + 4][0] == text[j]; }
      }
      FindIs(text, SEPARATOR, |l|);
    } else {
      var behind := HeadText(ls[1..]) + rest;
      assert text == l + CRLF + behind;
      assert behind[0] == ls[1][0];
      HeadEnds(ls[1..], rest);
      NoSeparatorInLine(l, behind);
      FindShift(l + CRLF, behind, SEPARATOR);
    }
  }

  lemma FindNewline(l: string, rest: string)
    requires Flat(l)
    ensures Find(l + CRLF + rest, "\n") == Some(|l| + 1)
  {
    hide Find;
    var s := l + CRLF + rest;
    assert s[|l| + 1..|l| + 2] == "\n";
    forall j: nat | j < |l| + 1 ensures !At(s, "\n", j) {
      assert s[j..j + 1] == [s[j]];
      assert j < |l| ==> s[j] == l[j];
    }
    FindIs(s, "\n", |l| + 1);
  }

  lemma LinesCons(l: string, rest: string)
    requires Flat(l)
    ensures Lines(l + CRLF + rest) == [l] + Lines(rest)
  {
    hide Find;
    var text := l + CRLF + rest;
    FindNewline(l, rest);
    assert text[..|l| + 1] == l + "\r" && text[|l| + 2..] == rest;
    assert StripCr(l + "\r") == l;
  }

  lemma LinesLast(l: string)
    requires LineOk(l)
    ensures Lines(l) == [l]
  {
    hide Find;
    assert forall j :: At(l, "\n", j) ==> l[j..j + 1][0] == l[j] && l[j] in l;
  }

  /** Reading back the lines in front of the blank line. */
  lemma {:induction false} LinesOfHead(ls: seq<string>)
    requires ls != [] && LinesOk(ls)
    ensures |JoinLines(ls)| >= 2 && Lines(JoinLines(ls)[..|JoinLines(ls)| - 2]) == ls
    decreases |ls|
  {
    hide Find, Lines;
    var l, joined := ls[0], JoinLines(ls);
    if |ls| == 1 {
      assert JoinLines(ls[1..]) == "" by { assert ls[1..] == []; }
      assert joined == l + CRLF + "" == l + CRLF;
      assert joined[..|l|] == l;
      LinesLast(l);
    } else {
      LinesOfHead(ls[1..]);
      var behind := JoinLines(ls[1..]);
      assert joined[..|joined| - 2] == l + CRLF + behind[..|behind| - 2];
      LinesCons(l, behind[..|behind| - 2]);
      assert ls == [l] + ls[1..];
    }
  }

  /** A head and what follows it, taken apart at the first blank line. */
  lemma HeadSplit(ls: seq<string>, rest: string)
    requires ls != [] && LinesOk(ls)
    ensures var text := HeadText(ls) + rest;
            var end := Find(text, SEPARATOR);
            end.Some? && Lines(text[..end.value]) == ls && text[end.value + 4..] == rest
  {
    hide Find, Lines, JoinLines;
    HeadEnds(ls, rest);
    LinesOfHead(ls);
    var n := |JoinLines(ls)|;
    assert (HeadText(ls) + rest)[..n - 2] == JoinLines(ls)[..n - 2];
  }
}
