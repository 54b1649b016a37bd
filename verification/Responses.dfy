/** Response bytes (serialize_response in src/server.rs, src/response.rs) and reading them back. */
module Responses {
  import opened Text
  import opened MessageHead

  datatype Status = Ok | BadRequest | Forbidden | NotFound | MethodNotAllowed | ContentTooLarge | InternalServerError

  function StatusText(s: Status): string {
    match s
    case Ok => "200 OK"
    case BadRequest => "400 Bad Request"
    case Forbidden => "403 Forbidden"
    case NotFound => "404 Not Found"
    case MethodNotAllowed => "405 Method Not Allowed"
    case ContentTooLarge => "413 Content Too Large"
    case InternalServerError => "500 Internal Server Error"
  }

  datatype Response = Response(
    status: Status,
    contentType: string,
    body: string,
    cookies: seq<string>,
    redirect: Option<string>)

  /** Response::error. */
  function ErrorResponse(status: Status): Response {
    Response(status, "text/html", "<html><body><h1>" + StatusText(status) + "</h1></body></html>", [], None)
  }

  function CookieHeaders(cookies: seq<string>): string {
    if cookies == [] then "" else "Set-Cookie: " + cookies[0] + "\r\n" + CookieHeaders(cookies[1..])
  }

  function Header(r: Response): string {
    "HTTP/1.1 " + (if r.redirect.Some? then "301 Moved Permanently" else StatusText(r.status)) + "\r\n"
    + "Content-Type: " + r.contentType + "\r\n"
    + "Content-Length: " + Decimal(|r.body|) + "\r\n"
    + (if r.redirect.Some? then "Location: " + r.redirect.value + "\r\n" else "")
    + CookieHeaders(r.cookies) + "\r\n"
  }

  function Serialize(r: Response): string { Header(r) + r.body }

  // ---- A reader on the other side ------------------------------------------

  const LENGTH_NAME := "Content-Length: "

  /** The first Content-Length line, read as a number. */
  function LengthIn(lines: seq<string>): Option<nat> {
    if lines == [] then None
    else if StartsWith(lines[0], LENGTH_NAME) then ParseDigits(lines[0][|LENGTH_NAME|..], 10)
    else LengthIn(lines[1..])
  }

  datatype Received = Received(lines: seq<string>, body: string)

  /** Lines up to the first blank line, then as many bytes as Content-Length says, no more. */
  function Read(bytes: string): Option<Received> {
    var end := Find(bytes, SEPARATOR);
    if end.None? then None
    else
      var lines, body := Lines(bytes[..end.value]), bytes[end.value + 4..];
      if LengthIn(lines) == Some(|body|) then Some(Received(lines, body)) else None
  }

  // ---- The inverse ---------------------------------------------------------

  function CookieLines(cookies: seq<string>): (ls: seq<string>)
    ensures |ls| == |cookies| && forall i :: 0 <= i < |ls| ==> ls[i] == "Set-Cookie: " + cookies[i]
  {
    seq(|cookies|, i requires 0 <= i < |cookies| => "Set-Cookie: " + cookies[i])
  }

  function HeadLines(r: Response): seq<string> {
    ["HTTP/1.1 " + if r.redirect.Some? then "301 Moved Permanently" else StatusText(r.status)]
    + ["Content-Type: " + r.contentType]
    + [LENGTH_NAME + Decimal(|r.body|)]
    + (if r.redirect.Some? then ["Location: " + r.redirect.value] else [])
    + CookieLines(r.cookies)
  }

  /** The fields that come from elsewhere hold no line ends. */
  predicate FieldsFlat(r: Response) {
    && Flat(r.contentType) && (r.redirect.Some? ==> Flat(r.redirect.value))
    && forall i :: 0 <= i < |r.cookies| ==> Flat(r.cookies[i])
  }

  lemma {:induction false} JoinTwo(a: seq<string>, b: seq<string>)
    ensures JoinLines(a + b) == JoinLines(a) + JoinLines(b)
    decreases |a|
  {
    if a == [] {
      assert a + b == b;
    } else {
      assert (a + b)[1..] == a[1..] + b;
      JoinTwo(a[1..], b);
    }
  }

  lemma JoinOne(l: string)
    ensures JoinLines([l]) == l + CRLF
  {
    assert [l][1..] == [];
  }

  lemma {:induction false} CookiesJoin(cookies: seq<string>)
    ensures JoinLines(CookieLines(cookies)) == CookieHeaders(cookies)
  {
    if cookies != [] {
      assert CookieLines(cookies)[1..] == CookieLines(cookies[1..]);
      CookiesJoin(cookies[1..]);
    }
  }

  lemma JoinThree(a: string, b: string, c: string)
    ensures JoinLines([a] + [b] + [c]) == a + CRLF + b + CRLF + c + CRLF
  {
    hide JoinLines;
    JoinTwo([a] + [b], [c]);
    JoinTwo([a], [b]);
    JoinOne(a);
    JoinOne(b);
    JoinOne(c);
  }

  lemma LocationJoin(redirect: Option<string>)
    ensures JoinLines(if redirect.Some? then ["Location: " + redirect.value] else [])
            == if redirect.Some? then "Location: " + redirect.value + CRLF else ""
  {
    hide JoinLines;
    JoinNone();
    if redirect.Some? { JoinOne("Location: " + redirect.value); }
  }

  lemma HeaderIsHead(r: Response)
    ensures Header(r) == HeadText(HeadLines(r))
  {
    hide JoinLines, CookieLines, CookieHeaders, StatusText, Decimal;
    var l1 := "HTTP/1.1 " + if r.redirect.Some? then "301 Moved Permanently" else StatusText(r.status);
    var l2, l3 := "Content-Type: " + r.contentType, LENGTH_NAME + Decimal(|r.body|);
    var l4 := if r.redirect.Some? then ["Location: " + r.redirect.value] else [];
    JoinTwo([l1] + [l2] + [l3] + l4, CookieLines(r.cookies));
    JoinTwo([l1] + [l2] + [l3], l4);
    JoinThree(l1, l2, l3);
    LocationJoin(r.redirect);
    CookiesJoin(r.cookies);
  }

  lemma JoinNone()
    ensures JoinLines([]) == ""
  {
  }

  lemma PrefixedOk(name: string, value: string)
    requires name != "" && Flat(name) && Flat(value)
    ensures LineOk(name + value)
  {
  }

  lemma StatusFlat(r: Response)
    ensures Flat(if r.redirect.Some? then "301 Moved Permanently" else StatusText(r.status))
  {
    assert Flat("301 Moved Permanently") && Flat("200 OK") && Flat("403 Forbidden");
    ErrorTextsFlat();
  }

  lemma ErrorTextsFlat()
    ensures Flat("400 Bad Request") && Flat("404 Not Found") && Flat("405 Method Not Allowed")
    ensures Flat("413 Content Too Large") && Flat("500 Internal Server Error")
  {
    assert Flat("400 Bad Request");
    assert Flat("404 Not Found");
    assert Flat("405 Method Not Allowed");
  }

  lemma DecimalFlat(n: nat)
    ensures Flat(Decimal(n))
  {
    var d := Decimal(n);
    assert forall i :: 0 <= i < |d| ==> IsDecimal(d[i]);
  }

  lemma CookieLinesOk(r: Response)
    requires FieldsFlat(r)
    ensures LinesOk(CookieLines(r.cookies))
  {
    hide LineOk;
    forall i | 0 <= i < |r.cookies| ensures LineOk(CookieLines(r.cookies)[i]) { PrefixedOk("Set-Cookie: ", r.cookies[i]); }
  }

  lemma HeadLinesOk(r: Response)
    requires FieldsFlat(r)
    ensures LinesOk(HeadLines(r))
  {
    hide CookieLines, LineOk, StatusText, Decimal, Flat;
    StatusFlat(r);
    DecimalFlat(|r.body|);
    PrefixesFlat();
    PrefixedOk("HTTP/1.1 ", if r.redirect.Some? then "301 Moved Permanently" else StatusText(r.status));
    PrefixedOk("Content-Type: ", r.contentType);
    PrefixedOk(LENGTH_NAME, Decimal(|r.body|));
    if r.redirect.Some? { PrefixedOk("Location: ", r.redirect.value); }
    CookieLinesOk(r);
  }

  lemma PrefixesFlat()
    ensures Flat("HTTP/1.1 ") && Flat("Content-Type: ") && Flat(LENGTH_NAME) && Flat("Location: ")
  {
  }

  lemma LengthSkip(l: string, ls: seq<string>)
    requires |l| >= 9 && l[..9] != LENGTH_NAME[..9]
    ensures LengthIn([l] + ls) == LengthIn(ls)
  {
    assert ([l] + ls)[1..] == ls;
    if |l| >= |LENGTH_NAME| { assert l[..|LENGTH_NAME|][..9] == l[..9]; }
  }

  lemma LengthHere(n: nat, ls: seq<string>)
    ensures LengthIn([LENGTH_NAME + Decimal(n)] + ls) == Some(n)
  {
    DigitsParse(n, 10);
    hide Digits, ParseDigits;
    var l := LENGTH_NAME + Decimal(n);
    assert l[..|LENGTH_NAME|] == LENGTH_NAME && l[|LENGTH_NAME|..] == Decimal(n);
  }

  lemma LengthRead(r: Response)
    ensures LengthIn(HeadLines(r)) == Some(|r.body|)
  {
    hide CookieLines, LengthIn, Decimal;
    var l1 := "HTTP/1.1 " + if r.redirect.Some? then "301 Moved Permanently" else StatusText(r.status);
    var l2, l3 := "Content-Type: " + r.contentType, LENGTH_NAME + Decimal(|r.body|);
    var rest := (if r.redirect.Some? then ["Location: " + r.redirect.value] else []) + CookieLines(r.cookies);
    assert HeadLines(r) == [l1] + ([l2] + ([l3] + rest));
    assert l1[..9] == "HTTP/1.1 " && l2[..9] == "Content-T" && LENGTH_NAME[..9] == "Content-L";
    LengthSkip(l1, [l2] + ([l3] + rest));
    LengthSkip(l2, [l3] + rest);
    LengthHere(|r.body|, rest);
  }

  /** What is serialized reads back: the head ends at the first blank line, its lines are
      the header fields, and the body has exactly the length announced. */
  lemma SerializeRead(r: Response)
    requires FieldsFlat(r)
    ensures Read(Serialize(r)) == Some(Received(HeadLines(r), r.body))
  {
    hide Find, Lines, HeadText, HeadLines, Header, LengthIn, LinesOk;
    HeaderIsHead(r);
    HeadLinesOk(r);
    HeadSplit(HeadLines(r), r.body) by { assert HeadLines(r) != [] by { SomeLines(r); } }
    LengthRead(r);
  }

  lemma SomeLines(r: Response)
    ensures HeadLines(r) != []
  {
  }

  /** The status lines, as they are read back. */
  lemma StatusLines(r: Response)
    requires FieldsFlat(r)
    ensures Read(Serialize(r)).Some? && Read(Serialize(r)).value.lines != []
    ensures Read(Serialize(r)).value.lines[0] == "HTTP/1.1 " +
            if r.redirect.Some? then "301 Moved Permanently"
            else match r.status
              case Ok => "200 OK"
              case BadRequest => "400 Bad Request"
              case Forbidden => "403 Forbidden"
              case NotFound => "404 Not Found"
              case MethodNotAllowed => "405 Method Not Allowed"
              case ContentTooLarge => "413 Content Too Large"
              case InternalServerError => "500 Internal Server Error"
  {
    hide Read, Serialize, FieldsFlat, HeadLines;
    SerializeRead(r);
    FirstLine(r);
  }

  lemma FirstLine(r: Response)
    ensures HeadLines(r) != []
    ensures HeadLines(r)[0] == "HTTP/1.1 " + if r.redirect.Some? then "301 Moved Permanently" else StatusText(r.status)
  {
    hide StatusText, CookieLines, Decimal;
  }

  /** The two answers that the loop makes itself, as they are read back. */
  lemma OwnAnswers()
    ensures Read(Serialize(ErrorResponse(BadRequest)))
            == Some(Received(["HTTP/1.1 " + "400 Bad Request", "Content-Type: " + "text/html", "Content-Length: " + "50"],
                             "<html><body><h1>" + "400 Bad Request" + "</h1></body></html>"))
    ensures Read(Serialize(ErrorResponse(ContentTooLarge)))
            == Some(Received(["HTTP/1.1 " + "413 Content Too Large", "Content-Type: " + "text/html", "Content-Length: " + "56"],
                             "<html><body><h1>" + "413 Content Too Large" + "</h1></body></html>"))
  {
    hide Read, Serialize, HeadLines;
    assert Decimal(50) == "50" && Decimal(56) == "56";
    ErrorTextsFlat();
    HtmlFlat();
    SerializeRead(ErrorResponse(BadRequest));
    SerializeRead(ErrorResponse(ContentTooLarge));
    ErrorLines(BadRequest);
    ErrorLines(ContentTooLarge);
  }

  lemma HtmlFlat()
    ensures Flat("text/html")
  {
  }

  lemma ErrorLines(s: Status)
    ensures HeadLines(ErrorResponse(s))
            == ["HTTP/1.1 " + StatusText(s), "Content-Type: " + "text/html", "Content-Length: " + Decimal(|ErrorResponse(s).body|)]
  {
    hide StatusText, Decimal;
    assert CookieLines([]) == [];
  }
}
