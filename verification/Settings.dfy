/** Configuration values (src/config/mod.rs) and the meaning of the words in them. */
module Settings {
  import opened Text

  const USIZE: nat := USIZE_MAX + 1
  const U16_MAX: nat := 65535
  const DEFAULT_BODY_SIZE: nat := 1024 * 1024

  datatype Method = Get | Post | Delete
  datatype Cgi = Cgi(extension: string, interpreter: string)

  datatype Location = Location(
    path: string,
    root: string,
    index: Option<string>,
    methods: seq<Method>,
    autoindex: bool,
    redirect: Option<string>,
    cgi: Option<Cgi>)

  datatype ServerConfig = ServerConfig(
    host: string,
    port: nat,
    serverName: Option<string>,
    clientMaxBodySize: nat,
    errorPages: map<nat, string>,
    locations: seq<Location>)

  datatype Config = Config(servers: seq<ServerConfig>)

  /** u16::from_str. */
  function ParseU16(raw: string): Option<nat> { ParseUnsigned(raw, 10, U16_MAX) }

  /** The product wraps, as in a build without overflow checks. */
  function Scaled(digits: string, unit: nat): Option<nat> {
    var n := ParseUnsigned(Trim(digits, IsSpace), 10, USIZE_MAX);
    if n.None? then None else Some(n.value * unit % USIZE)
  }

  /** "10MB", "1kb", "500" to bytes. */
  function ParseBodySize(raw: string): (r: Option<nat>)
    ensures r.Some? ==> r.value < USIZE
  {
    var s := Lower(raw);
    if EndsWith(s, "mb") then Scaled(s[..|s| - 2], 1024 * 1024)
    else if EndsWith(s, "kb") then Scaled(s[..|s| - 2], 1024)
    else ParseUnsigned(Trim(s, IsSpace), 10, USIZE_MAX)
  }

  predicate IsNumeral(c: char) { IsDecimal(c) || c == '+' }

  lemma {:induction false} DigitsOnly(s: string)
    requires ParseDigits(s, 10).Some?
    ensures All(s, IsDecimal)
  {
    if s != "" { DigitsOnly(s[..|s| - 1]); }
  }

  /** What reads as a number: digits, perhaps behind a plus sign. */
  lemma NumeralText(w: string, max: nat)
    requires ParseUnsigned(w, 10, max).Some?
    ensures w != "" && All(w, IsNumeral) && Trimmed(w, IsSpace)
  {
    hide ParseDigits;
    DigitsOnly(if w[0] == '+' then w[1..] else w);
    assert forall i :: 1 <= i < |w| && w[0] == '+' ==> w[i] == w[1..][i - 1];
  }

  lemma LowerAppend(a: string, b: string)
    ensures Lower(a + b) == Lower(a) + Lower(b)
  {
  }

  /** Lower-casing leaves numbers and white space alone. */
  lemma LowerKeeps(s: string)
    requires forall i :: 0 <= i < |s| ==> IsNumeral(s[i]) || IsSpace(s[i])
    ensures Lower(s) == s
  {
  }

  predicate Padded(s: string, left: string, w: string, right: string) {
    s == left + w + right && All(left, IsSpace) && All(right, IsSpace)
  }

  lemma PaddedNumber(s: string, left: string, w: string, right: string)
    requires Padded(s, left, w, right) && ParseUnsigned(w, 10, USIZE_MAX).Some?
    ensures Trim(s, IsSpace) == w && Lower(s) == s && s != "" && (IsNumeral(s[|s| - 1]) || IsSpace(s[|s| - 1]))
  {
    hide ParseUnsigned, Trim, Lower, IsSpace;
    NumeralText(w, USIZE_MAX);
    TrimIs(left, w, right, IsSpace);
    forall i | 0 <= i < |s| ensures IsNumeral(s[i]) || IsSpace(s[i]) {
      assert s[i] == if i < |left| then left[i] else if i < |left + w| then w[i - |left|] else right[i - |left + w|];
    }
    LowerKeeps(s);
  }

  /** Any spelling of a number within usize stands for itself: a plus sign, leading zeros,
      and white space around it do not matter. */
  lemma PlainBodySize(s: string, left: string, w: string, right: string)
    requires Padded(s, left, w, right) && ParseUnsigned(w, 10, USIZE_MAX).Some?
    ensures ParseBodySize(s) == ParseUnsigned(w, 10, USIZE_MAX)
  {
    hide Trim, ParseUnsigned, Lower, Padded;
    PaddedNumber(s, left, w, right);
    assert s[|s| - 1] != 'b';
    if |s| >= 2 { assert s[|s| - 2..][1] == s[|s| - 1]; }
  }

  lemma DecimalBodySize(n: nat)
    requires n < USIZE
    ensures ParseBodySize(Decimal(n)) == Some(n)
  {
    hide ParseBodySize, ParseUnsigned;
    UnsignedRoundTrip(n, 10, USIZE_MAX);
    assert Padded(Decimal(n), "", Decimal(n), "") by { assert "" + Decimal(n) + "" == Decimal(n); }
    PlainBodySize(Decimal(n), "", Decimal(n), "");
  }

  /** Any spelling of a number, with a unit in any case, stands for that many units exactly
      while the product fits usize; beyond that the value is a smaller one. */
  lemma UnitBodySize(s: string, left: string, w: string, right: string, suffix: string)
    requires Padded(s, left, w, right) && ParseUnsigned(w, 10, USIZE_MAX).Some?
    requires Lower(suffix) == "mb" || Lower(suffix) == "kb"
    ensures var n, unit := ParseUnsigned(w, 10, USIZE_MAX).value, if Lower(suffix) == "mb" then 1024 * 1024 else 1024;
            var r := ParseBodySize(s + suffix);
            r == Some(n * unit % USIZE) && (r.value == n * unit <==> n * unit < USIZE) && r.value <= n * unit
  {
    hide Trim, ParseUnsigned, Lower, Padded;
    var whole := Lower(s + suffix);
    LowerAppend(s, suffix);
    PaddedNumber(s, left, w, right);
    assert whole[..|whole| - 2] == s && whole[|whole| - 2..] == Lower(suffix);
    WrapExactly(ParseUnsigned(w, 10, USIZE_MAX).value, 1024);
    WrapExactly(ParseUnsigned(w, 10, USIZE_MAX).value, 1024 * 1024);
  }

  lemma WrapExactly(n: nat, unit: nat)
    ensures n * unit % USIZE <= n * unit && (n * unit % USIZE == n * unit <==> n * unit < USIZE)
  {
  }

  lemma MegabyteSize(n: nat)
    requires n < USIZE
    ensures ParseBodySize(Decimal(n) + "MB") == Some(n * (1024 * 1024) % USIZE)
  {
    hide ParseBodySize, ParseUnsigned;
    var w := Decimal(n);
    UnsignedRoundTrip(n, 10, USIZE_MAX);
    assert Padded(w, "", w, "") by { assert "" + w + "" == w; }
    assert Lower("MB") == "mb";
    UnitBodySize(w, "", w, "", "MB");
  }

  /** So "17592186044416MB", sixteen exabytes, stands for no bytes at all. */
  lemma SizeWraps()
    ensures ParseBodySize(Decimal(17592186044416) + "MB") == Some(0)
  {
    hide ParseBodySize, Decimal;
    MegabyteSize(17592186044416);
  }

  lemma DecimalDigits(n: nat)
    ensures Decimal(n) == Digits(n, 10)
  {
  }

  /** Ports and status codes are numbers up to 65535. */
  lemma PortsExactly(n: nat)
    ensures ParseU16(Decimal(n)) == if n <= 65535 then Some(n) else None
  {
    hide ParseDigits, Digits;
    DigitsParse(n, 10);
    DecimalDigits(n);
    assert IsDecimal(Decimal(n)[0]);
  }
}
