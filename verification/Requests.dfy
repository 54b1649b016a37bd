/** Request::parse (src/request.rs) and the request text it inverts.

    A header byte above 127 stays one opaque character, where the code decodes UTF-8. */
module Requests {
  import opened Text
  import opened MessageHead
  import Chunked

  datatype Verb = Get | Post | Delete | Unknown(name: string)

  type Headers = map<string, string>

  datatype Request = Request(verb: Verb, path: string, version: string, headers: Headers, body: string)

  // ---- Parsing -------------------------------------------------------------

  function VerbOf(name: string): Verb {
    if name == "GET" then Get else if name == "POST" then Post else if name == "DELETE" then Delete else Unknown(name)
  }

  predicate NotBlank(c: char) { !IsBlank(c) }

  /** str::split_whitespace. */
  function SplitBlanks(s: string): seq<string>
    decreases |s|
  {
    var t := TrimStart(s, IsBlank);
    if t == "" then []
    else var n := Leading(t, NotBlank); [t[..n]] + SplitBlanks(t[n..])
  }

  /** str::split_once. */
  function SplitOnce(s: string, c: char): Option<(string, string)> {
    var i := Find(s, [c]);
    if i.None? then None else Some((s[..i.value], s[i.value + 1..]))
  }

  /** "Key: Value" to a lower-case key and a trimmed value. */
  function HeaderOf(line: string): Option<(string, string)> {
    var kv := SplitOnce(line, ':');
    if kv.None? then None else Some((Lower(Trim(kv.value.0, IsBlank)), Trim(kv.value.1, IsBlank)))
  }

  /** A later header line of the same name replaces an earlier one. */
  function AddHeaders(headers: Headers, lines: seq<string>): Headers
    decreases |lines|
  {
    if lines == [] then headers
    else
      var h := HeaderOf(lines[0]);
      AddHeaders(if h.Some? then headers[h.value.0 := h.value.1] else headers, lines[1..])
  }

  predicate IsChunked(headers: Headers) {
    "transfer-encoding" in headers && Find(Lower(headers["transfer-encoding"]), "chunked").Some?
  }

  /** The head of a request: the request line and the headers. */
  function ParseHead(lines: seq<string>): Option<Request> {
    if lines == [] then None
    else
      var parts := SplitBlanks(lines[0]);
      if |parts| < 3 then None
      else Some(Request(VerbOf(parts[0]), parts[1], parts[2], AddHeaders(map[], lines[1..]), ""))
  }

  function WithBody(head: Request, rest: string): Outcome<Request> {
    if !IsChunked(head.headers) then Done(head.(body := rest))
    else
      match Chunked.Decode(rest, 0)
      case Refused => Refused
      case Crash => Crash
      case Done(body) => Done(head.(body := body))
  }

  function Parse(buffer: string): Outcome<Request> {
    var end := Find(buffer, SEPARATOR);
    if end.None? then Refused
    else
      var head := ParseHead(Lines(buffer[..end.value]));
      if head.None? then Refused else WithBody(head.value, buffer[end.value + 4..])
  }

  /** What stands behind the head of a message. */
  function BehindHead(data: string): string {
    var end := Find(data, SEPARATOR);
    if end.Some? then data[end.value + 4..] else ""
  }

  method ParseRequest(buffer: string) returns (r: Outcome<Request>)
    ensures r == Parse(buffer)
  {
    hide Find, Lines, SplitBlanks, HeaderOf, Lower, Chunked.Decode;
    var end := Find(buffer, SEPARATOR);
    if end.None? { return Refused; }
    var lines := Lines(buffer[..end.value]);
    if lines == [] { return Refused; }
    var parts := SplitBlanks(lines[0]);
    if |parts| < 3 { return Refused; }
    var headers: Headers := map[];
    for i := 1 to |lines|
      invariant AddHeaders(headers, lines[i..]) == AddHeaders(map[], lines[1..])
    {
      assert lines[i..][0] == lines[i] && lines[i..][1..] == lines[i + 1..];
      var kv := SplitOnce(lines[i], ':');
      var h := HeaderOf(lines[i]);
      if h.Some? { headers := headers[h.value.0 := h.value.1]; }
    }
    assert lines[|lines|..] == [];
    var body := buffer[end.value + 4..];
    if IsChunked(headers) {
      var decoded := Chunked.DecodeChunked(body);
      if decoded.Refused? { return Refused; }
      if decoded.Crash? { return Crash; }
      body := decoded.value;
    }
    return Done(Request(VerbOf(parts[0]), parts[1], parts[2], headers, body));
  }

  // ---- More bytes ----------------------------------------------------------

  /** A buffer that parses goes on parsing as bytes arrive: to the same head, with the
      bytes added to the body unless the body is chunked. */
  lemma ParseExtends(buffer: string, more: string)
    requires Parse(buffer).Done?
    ensures var r := Parse(buffer).value;
            Parse(buffer + more) == Done(if IsChunked(r.headers) then r else r.(body := r.body + more))
  {
    hide Find, Lines, ParseHead, Chunked.Decode, IsChunked;
    FindExtend(buffer, SEPARATOR, more);
    var end := Find(buffer, SEPARATOR).value;
    assert (buffer + more)[..end] == buffer[..end];
    assert (buffer + more)[end + 4..] == buffer[end + 4..] + more;
    var head := ParseHead(Lines(buffer[..end])).value;
    if IsChunked(head.headers) { Chunked.DecodeExtends(buffer[end + 4..], 0, more); }
  }

  // ---- Printing ------------------------------------------------------------

  function Join(a: string, b: string, c: string): string { a + " " + b + " " + c }

  function HeaderLine(h: (string, string)): string { h.0 + ": " + h.1 }

  function HeaderLines(hs: seq<(string, string)>): (ls: seq<string>)
    ensures |ls| == |hs| && forall i :: 0 <= i < |hs| ==> ls[i] == HeaderLine(hs[i])
  {
    seq(|hs|, i requires 0 <= i < |hs| => HeaderLine(hs[i]))
  }

  /** A request as a client sends it. */
  function PrintRequest(verb: string, path: string, version: string, hs: seq<(string, string)>, body: string): string {
    HeadText([Join(verb, path, version)] + HeaderLines(hs)) + body
  }

  function HeaderMap(headers: Headers, hs: seq<(string, string)>): Headers
    decreases |hs|
  {
    if hs == [] then headers else HeaderMap(headers[Lower(hs[0].0) := hs[0].1], hs[1..])
  }

  predicate TokenOk(t: string) { t != "" && All(t, NotBlank) }

  /** A header as it is sent: trimmed name without a colon, in any case; trimmed value; no line ends. */
  predicate HeaderOk(h: (string, string)) {
    && Flat(h.0) && Flat(h.1) && ':' !in h.0 && Trimmed(h.0, IsBlank) && Trimmed(h.1, IsBlank)
  }

  lemma SplitToken(t: string, rest: string)
    requires TokenOk(t) && (rest == "" || rest[0] == ' ')
    ensures SplitBlanks(t + rest) == [t] + SplitBlanks(rest)
  {
    var s := t + rest;
    assert forall i :: 0 <= i < |t| ==> s[i] == t[i] && NotBlank(s[i]);
    assert TrimStart(s, IsBlank) == s;
    assert rest != "" ==> s[|t|] == ' ';
    assert Leading(s, NotBlank) == |t|;
    assert s[..|t|] == t && s[|t|..] == rest;
  }

  lemma SplitJoin(a: string, b: string, c: string)
    requires TokenOk(a) && TokenOk(b) && TokenOk(c)
    ensures SplitBlanks(Join(a, b, c)) == [a, b, c]
  {
    hide SplitBlanks, TokenOk;
    assert Join(a, b, c) == a + (" " + (b + (" " + c)));
    SplitToken(a, " " + (b + (" " + c)));
    SplitSpaceThen(b, " " + c);
    SplitToken(b, " " + c);
    SplitSpaceThen(c, "");
    SplitToken(c, "");
    assert c + "" == c;
    NoBlanks();
  }

  lemma NoBlanks()
    ensures SplitBlanks("") == []
  {
  }

  lemma SplitSpaceThen(t: string, rest: string)
    requires TokenOk(t)
    ensures SplitBlanks(" " + (t + rest)) == SplitBlanks(t + rest)
  {
    var s := t + rest;
    assert NotBlank(t[0]) && s[0] == t[0];
    assert (" " + s)[1..] == s;
    assert Leading(s, IsBlank) == 0 && Leading(" " + s, IsBlank) == 1;
    assert TrimStart(" " + s, IsBlank) == s == TrimStart(s, IsBlank);
  }

  lemma HeaderReads(h: (string, string))
    requires HeaderOk(h)
    ensures HeaderOf(HeaderLine(h)) == Some((Lower(h.0), h.1))
  {
    hide Find, Trim, Lower;
    var s := HeaderLine(h);
    assert s == h.0 + ":" + (" " + h.1);
    assert s[|h.0|..|h.0| + 1] == ":";
    forall j: nat | j < |h.0| ensures !At(s, ":", j) {
      assert s[j..j + 1] == [s[j]] && s[j] == h.0[j];
    }
    FindIs(s, ":", |h.0|);
    assert s[..|h.0|] == h.0 && s[|h.0| + 1..] == " " + h.1;
    TrimIs("", h.0, "", IsBlank);
    assert "" + h.0 + "" == h.0;
    TrimIs(" ", h.1, "", IsBlank);
    assert " " + h.1 + "" == " " + h.1;
  }

  lemma {:induction false} HeadersRead(headers: Headers, hs: seq<(string, string)>)
    requires forall i :: 0 <= i < |hs| ==> HeaderOk(hs[i])
    ensures AddHeaders(headers, HeaderLines(hs)) == HeaderMap(headers, hs)
    decreases |hs|
  {
    hide HeaderOk, HeaderOf, HeaderLine;
    if hs != [] {
      HeaderReads(hs[0]);
      assert HeaderLines(hs)[1..] == HeaderLines(hs[1..]);
      HeadersRead(headers[Lower(hs[0].0) := hs[0].1], hs[1..]);
    }
  }

  lemma TokenFlat(t: string)
    requires TokenOk(t)
    ensures Flat(t)
  {
    assert forall i :: 0 <= i < |t| ==> NotBlank(t[i]);
  }

  lemma PrintedLinesOk(verb: string, path: string, version: string, hs: seq<(string, string)>)
    requires TokenOk(verb) && TokenOk(path) && TokenOk(version)
    requires forall i :: 0 <= i < |hs| ==> HeaderOk(hs[i])
    ensures LinesOk([Join(verb, path, version)] + HeaderLines(hs))
  {
    hide TokenOk;
    TokenFlat(verb);
    TokenFlat(path);
    TokenFlat(version);
    assert LineOk(Join(verb, path, version));
    forall i | 0 <= i < |hs| ensures LineOk(HeaderLine(hs[i])) { assert HeaderOk(hs[i]); }
  }

  /** Parsing inverts printing: the request line, the headers by name, and any body, which
      is decoded exactly when the headers ask for it. */
  lemma {:induction false} PrintParse(verb: string, path: string, version: string, hs: seq<(string, string)>, body: string)
    requires TokenOk(verb) && TokenOk(path) && TokenOk(version)
    requires forall i :: 0 <= i < |hs| ==> HeaderOk(hs[i])
    ensures Parse(PrintRequest(verb, path, version, hs, body))
            == WithBody(Request(VerbOf(verb), path, version, HeaderMap(map[], hs), ""), body)
  {
    hide Find, Lines, TokenOk, HeaderOk, SplitBlanks, AddHeaders, WithBody, HeadText;
    var ls := [Join(verb, path, version)] + HeaderLines(hs);
    PrintedLinesOk(verb, path, version, hs);
    HeadSplit(ls, body);
    SplitJoin(verb, path, version);
    assert ls[1..] == HeaderLines(hs);
    HeadersRead(map[], hs);
  }

  /** The three methods by name, and any other as it is spelled; names are told apart by case. */
  lemma VerbsExactly(name: string)
    ensures VerbOf("GET") == Get && VerbOf("POST") == Post && VerbOf("DELETE") == Delete
    ensures name != "GET" && name != "POST" && name != "DELETE" ==> VerbOf(name) == Unknown(name)
  {
  }

  /** The verb of a printed request that parses is the one named first. */
  lemma PrintedVerb(name: string, path: string, version: string, hs: seq<(string, string)>, body: string)
    requires TokenOk(name) && TokenOk(path) && TokenOk(version) && forall i :: 0 <= i < |hs| ==> HeaderOk(hs[i])
    requires Parse(PrintRequest(name, path, version, hs, body)).Done?
    ensures var verb := Parse(PrintRequest(name, path, version, hs, body)).value.verb;
            && (verb == Get <==> name == "GET") && (verb == Post <==> name == "POST")
            && (verb == Delete <==> name == "DELETE") && (verb.Unknown? ==> verb.name == name)
  {
    hide TokenOk, HeaderOk, Parse, PrintRequest, IsChunked, Chunked.Decode;
    PrintParse(name, path, version, hs, body);
    VerbsExactly(name);
  }

  /** Chunked coding is asked for by any transfer-encoding that holds the word, in any case. */
  lemma ChunkedExactly(headers: Headers)
    ensures IsChunked(headers) <==>
            "transfer-encoding" in headers
            && exists a, b :: Lower(headers["transfer-encoding"]) == a + "chunked" + b
  {
    hide Find;
    if "transfer-encoding" in headers {
      var v := Lower(headers["transfer-encoding"]);
      var i := Find(v, "chunked");
      if i.Some? { assert v == v[..i.value] + "chunked" + v[i.value + 7..]; }
      if a, b :| v == a + "chunked" + b {
        assert v[|a|..|a| + 7] == "chunked";
        if i.None? { FindFirst(v, "chunked", |a|); }
      }
    }
  }

  /** A plain body of any bytes comes back as it was sent. */
  lemma {:induction false} PlainRoundTrip(verb: string, path: string, version: string, hs: seq<(string, string)>, body: string)
    requires TokenOk(verb) && TokenOk(path) && TokenOk(version)
    requires forall i :: 0 <= i < |hs| ==> HeaderOk(hs[i])
    requires !IsChunked(HeaderMap(map[], hs))
    ensures Parse(PrintRequest(verb, path, version, hs, body))
            == Done(Request(VerbOf(verb), path, version, HeaderMap(map[], hs), body))
  {
    hide TokenOk, HeaderOk, Parse, PrintRequest, IsChunked;
    PrintParse(verb, path, version, hs, body);
  }

  /** A chunked body, however split and whatever follows it, comes back whole. */
  lemma {:induction false} ChunkedRoundTrip(verb: string, path: string, version: string, hs: seq<(string, string)>,
                         chunks: seq<string>, trailing: string)
    requires TokenOk(verb) && TokenOk(path) && TokenOk(version)
    requires forall i :: 0 <= i < |hs| ==> HeaderOk(hs[i])
    requires IsChunked(HeaderMap(map[], hs))
    requires Chunked.NonEmptyChunks(chunks) && |Chunked.Encode(chunks) + trailing| <= USIZE_MAX
    ensures Parse(PrintRequest(verb, path, version, hs, Chunked.Encode(chunks) + trailing))
            == Done(Request(VerbOf(verb), path, version, HeaderMap(map[], hs), Concat(chunks)))
  {
    hide TokenOk, HeaderOk, Parse, PrintRequest, IsChunked, Chunked.Decode, Chunked.Encode;
    PrintParse(verb, path, version, hs, Chunked.Encode(chunks) + trailing);
    Chunked.ChunkedRoundTrip(chunks, trailing);
  }
}
