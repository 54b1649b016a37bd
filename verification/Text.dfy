/** Text and number helpers shared by the message and the configuration models.
    A byte is a char below 256; nothing here depends on that bound. */
module Text {

  datatype Option<+T> = None | Some(value: T)

  /** What a call into code that may panic yields. */
  datatype Outcome<+T> = Done(value: T) | Refused | Crash

  const CRLF := "\r\n"

  const USIZE_MAX: nat := 0xFFFF_FFFF_FFFF_FFFF

  /** The parts, in order. */
  function Concat(parts: seq<string>): string {
    if parts == [] then "" else parts[0] + Concat(parts[1..])
  }

  lemma ThreeParts(s: string, n: nat, m: nat)
    requires n + m <= |s|
    ensures s == s[..n] + s[n..][..m] + s[n..][m..]
  {
  }

  // ---- Searching -----------------------------------------------------------

  predicate At(hay: string, needle: string, i: int) {
    0 <= i && i + |needle| <= |hay| && hay[i..i + |needle|] == needle
  }

  /** The first position of needle, as windows(n).position or str::find give it. */
  function Find(hay: string, needle: string): (r: Option<nat>)
    ensures r.Some? ==> At(hay, needle, r.value)
  {
    if |hay| < |needle| then None
    else if hay[..|needle|] == needle then Some(0)
    else
      var rest := Find(hay[1..], needle);
      if rest.None? then None
      else assert hay[rest.value + 1..] == hay[1..][rest.value..]; Some(rest.value + 1)
  }

  lemma AtTail(hay: string, needle: string, j: int)
    requires 1 <= j && hay != ""
    ensures At(hay, needle, j) == At(hay[1..], needle, j - 1)
  {
    if j + |needle| <= |hay| {
      var left, right := hay[j..j + |needle|], hay[1..][j - 1..j - 1 + |needle|];
      assert |left| == |right| && forall i :: 0 <= i < |left| ==> left[i] == hay[j + i] == right[i];
    }
  }

  /** No position before the one found fits, and none fits when nothing is found. */
  lemma {:induction false} FindFirst(hay: string, needle: string, j: nat)
    requires Find(hay, needle).Some? ==> j < Find(hay, needle).value
    ensures !At(hay, needle, j)
  {
    if |hay| >= |needle| && hay[..|needle|] != needle && j > 0 {
      AtTail(hay, needle, j);
      FindFirst(hay[1..], needle, j - 1);
    }
  }

  lemma FindIs(hay: string, needle: string, i: nat)
    requires At(hay, needle, i)
    requires forall j: nat :: j < i ==> !At(hay, needle, j)
    ensures Find(hay, needle) == Some(i)
  {
    var r := Find(hay, needle);
    if r.None? || i < r.value { FindFirst(hay, needle, i); }
  }

  /** A found position stays the first one however the text goes on. */
  lemma FindExtend(hay: string, needle: string, more: string)
    requires Find(hay, needle).Some?
    ensures Find(hay + more, needle) == Find(hay, needle)
  {
    var i := Find(hay, needle).value;
    assert (hay + more)[i..i + |needle|] == hay[i..i + |needle|];
    forall j: nat | j < i ensures !At(hay + more, needle, j) {
      FindFirst(hay, needle, j);
      assert (hay + more)[j..j + |needle|] == hay[j..j + |needle|];
    }
    FindIs(hay + more, needle, i);
  }

  predicate StartsWith(s: string, prefix: string) {
    |prefix| <= |s| && s[..|prefix|] == prefix
  }

  predicate EndsWith(s: string, suffix: string) {
    |suffix| <= |s| && s[|s| - |suffix|..] == suffix
  }

  // ---- Character classes ---------------------------------------------------

  /** The Unicode White_Space property, as char::is_whitespace tests it. */
  predicate IsSpace(c: char) {
    || '\U{0009}' <= c <= '\U{000D}' || c == ' ' || c == '\U{0085}' || c == '\U{00A0}' || c == '\U{1680}'
    || '\U{2000}' <= c <= '\U{200A}' || c == '\U{2028}' || c == '\U{2029}' || c == '\U{202F}'
    || c == '\U{205F}' || c == '\U{3000}'
  }

  /** White space among ASCII characters, for text that is held as bytes. */
  predicate IsBlank(c: char) {
    '\U{0009}' <= c <= '\U{000D}' || c == ' '
  }

  /** Lower case. U+212A (the Kelvin sign) is the one character outside ASCII that
      lowers to an ASCII letter. */
  function LowerChar(c: char): char {
    if 'A' <= c <= 'Z' then (c as int + 32) as char
    else if c == '\U{212A}' then 'k'
    else c
  }

  function Lower(s: string): (r: string)
    ensures |r| == |s| && forall i :: 0 <= i < |s| ==> r[i] == LowerChar(s[i])
  {
    seq(|s|, i requires 0 <= i < |s| => LowerChar(s[i]))
  }

  // ---- Trimming ------------------------------------------------------------

  /** How many characters at the front belong to the class. */
  function Leading(s: string, space: char -> bool): (n: nat)
    ensures n <= |s| && (forall i :: 0 <= i < n ==> space(s[i])) && (n < |s| ==> !space(s[n]))
  {
    if s != "" && space(s[0]) then 1 + Leading(s[1..], space) else 0
  }

  /** What is left in front once the characters of the class at the end are dropped. */
  function Kept(s: string, space: char -> bool): (n: nat)
    ensures n <= |s| && (forall i :: n <= i < |s| ==> space(s[i])) && (n > 0 ==> !space(s[n - 1]))
  {
    if s != "" && space(s[|s| - 1]) then Kept(s[..|s| - 1], space) else |s|
  }

  function TrimStart(s: string, space: char -> bool): string {
    s[Leading(s, space)..]
  }

  function Trim(s: string, space: char -> bool): string {
    var t := TrimStart(s, space);
    t[..Kept(t, space)]
  }

  predicate All(s: string, p: char -> bool) {
    forall i :: 0 <= i < |s| ==> p(s[i])
  }

  predicate Trimmed(s: string, space: char -> bool) {
    s == "" || (!space(s[0]) && !space(s[|s| - 1]))
  }

  /** Trimming takes off exactly the padding. */
  lemma TrimIs(left: string, s: string, right: string, space: char -> bool)
    requires All(left, space) && All(right, space) && Trimmed(s, space)
    ensures Trim(left + s + right, space) == s
  {
    var whole := left + s + right;
    var n := Leading(whole, space);
    var t := TrimStart(whole, space);
    assert forall i :: 0 <= i < |left| ==> whole[i] == left[i];
    assert forall i :: 0 <= i < |right| ==> whole[|left| + |s| + i] == right[i];
    if s == "" {
      assert forall i :: |left| <= i < |whole| ==> whole[i] == right[i - |left|];
      assert t == "";
    } else {
      assert whole[|left|] == s[0];
      assert n == |left| && t == s + right;
      assert forall i :: |s| <= i < |t| ==> t[i] == right[i - |s|];
      assert t[|s| - 1] == s[|s| - 1];
      assert Kept(t, space) == |s|;
    }
  }

  // ---- Numbers -------------------------------------------------------------

  type Radix = b: nat | b == 10 || b == 16 witness 10

  predicate IsDecimal(c: char) { '0' <= c <= '9' }

  /** The digits the printer uses: lower case. */
  predicate IsDigit(c: char) { '0' <= c <= '9' || 'a' <= c <= 'f' }

  function DigitChar(d: nat): (c: char)
    requires d < 16
    ensures IsDigit(c) && (d < 10 ==> IsDecimal(c))
  {
    if d < 10 then ('0' as int + d) as char else ('a' as int + d - 10) as char
  }

  /** Digits of n without leading zeros: the {} and {:x} formats. */
  function Digits(n: nat, base: Radix): (s: string)
    ensures |s| > 0 && All(s, IsDigit) && (base == 10 ==> All(s, IsDecimal))
  {
    if n < base then [DigitChar(n)] else Digits(n / base, base) + [DigitChar(n % base)]
  }

  function Decimal(n: nat): (s: string)
    ensures |s| > 0 && All(s, IsDecimal)
  {
    Digits(n, 10)
  }

  /** char::to_digit: either case. */
  function DigitOf(c: char, base: nat): (r: Option<nat>)
    ensures r.Some? ==> r.value < base
  {
    var v := if '0' <= c <= '9' then c as int - '0' as int
             else if 'a' <= c <= 'z' then c as int - 'a' as int + 10
             else if 'A' <= c <= 'Z' then c as int - 'A' as int + 10
             else base;
    if v < base then Some(v) else None
  }

  function ParseDigits(s: string, base: nat): Option<nat>
  {
    if s == "" then Some(0)
    else
      var front := ParseDigits(s[..|s| - 1], base);
      var last := DigitOf(s[|s| - 1], base);
      if front.None? || last.None? then None else Some(front.value * base + last.value)
  }

  /** from_str_radix on an unsigned type: an optional '+', at least one digit, no overflow. */
  function ParseUnsigned(s: string, base: nat, max: nat): (r: Option<nat>)
    ensures r.Some? ==> r.value <= max && s != ""
  {
    if s == "" || s == "+" then None
    else
      var v := ParseDigits(if s[0] == '+' then s[1..] else s, base);
      if v.Some? && v.value <= max then v else None
  }

  lemma {:induction false} DigitsParse(n: nat, base: Radix)
    ensures ParseDigits(Digits(n, base), base) == Some(n)
  {
    var s := Digits(n, base);
    if n < base {
      assert s[..0] == "";
    } else {
      DigitsParse(n / base, base);
      assert s[..|s| - 1] == Digits(n / base, base);
    }
  }

  /** Printing and reading back a number in range. */
  lemma UnsignedRoundTrip(n: nat, base: Radix, max: nat)
    requires n <= max
    ensures ParseUnsigned(Digits(n, base), base, max) == Some(n)
  {
    DigitsParse(n, base);
    assert IsDigit(Digits(n, base)[0]);
  }
}
