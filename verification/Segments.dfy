/** What the parser (src/request.rs) makes of any first part of what a client sends: a
    request cut short, whole, or with more bytes behind it. */
module Segments {
  import opened Text
  import opened MessageHead
  import opened Requests
  import Chunked

  /** Request::content_length, which the parser does not consult. */
  function ContentLength(headers: Headers): nat {
    if "content-length" !in headers then 0
    else
      var n := ParseUnsigned(headers["content-length"], 10, USIZE_MAX);
      if n.Some? then n.value else 0
  }

  // ---- Any request ---------------------------------------------------------

  function HeadLength(data: string): nat {
    var end := Find(data, SEPARATOR);
    if end.Some? then end.value + 4 else 0
  }

  /** The first k bytes of a buffer with a whole head. */
  lemma CutAnywhere(t: string, k: nat)
    requires Parse(t).Done? && k <= |t|
    ensures HeadLength(t) <= |t| && t == t[..HeadLength(t)] + BehindHead(t)
    ensures var r := Parse(t).value.(body := "");
            Parse(t[..k]) == (if k < HeadLength(t) then Refused else WithBody(r, t[HeadLength(t)..k]))
            && (k >= HeadLength(t) ==> BehindHead(t[..k]) == t[HeadLength(t)..k] && HeadLength(t[..k]) == HeadLength(t))
  {
    hide Find, Lines, ParseHead, Chunked.Decode, IsChunked;
    var end, h := Find(t, SEPARATOR).value, HeadLength(t);
    BodyOnlyAdded(t);
    assert t == t[..k] + t[k..];
    if Find(t[..k], SEPARATOR).Some? { FindExtend(t[..k], SEPARATOR, t[k..]); }
    if k >= h {
      forall j: nat | j < end ensures !At(t[..k], SEPARATOR, j) {
        FindFirst(t, SEPARATOR, j);
        if j + 4 <= k { assert t[..k][j..j + 4] == t[j..j + 4]; }
      }
      assert t[..k][end..end + 4] == t[end..end + 4];
      FindIs(t[..k], SEPARATOR, end);
      assert t[..k][..end] == t[..end] && t[..k][h..] == t[h..k];
    }
  }

  lemma BodyOnlyAdded(t: string)
    requires Parse(t).Done?
    ensures ParseHead(Lines(t[..Find(t, SEPARATOR).value])) == Some(Parse(t).value.(body := ""))
  {
    hide Find, Lines, Chunked.Decode, IsChunked, SplitBlanks, AddHeaders;
  }

  /** Any plain request, with any spelling of its lines, cut anywhere: it parses as soon as
      its head is complete, with the body as far as it goes, which has the announced length
      if and only if the cut is that far behind the head. */
  lemma PlainCut(t: string, k: nat)
    requires Parse(t).Done? && !IsChunked(Parse(t).value.headers) && k <= |t|
    ensures var r, h := Parse(t).value, HeadLength(t);
            && h <= |t| && r.body == BehindHead(t) == t[h..]
            && Parse(t[..k]) == (if k < h then Refused else Done(r.(body := t[h..k])))
            && (Parse(t[..k]).Done? ==>
                  (|Parse(t[..k]).value.body| == ContentLength(r.headers) <==> k == h + ContentLength(r.headers)))
  {
    hide Parse, HeadLength, BehindHead, IsChunked, ContentLength;
    CutAnywhere(t, k);
    CutAnywhere(t, |t|);
    assert t[..|t|] == t;
  }

  /** Any chunked request, cut anywhere: it is read as it was meant from the end of its zero
      line on; before that it is refused, or makes the decoder leave the buffer when the cut
      is in the two bytes behind a chunk. */
  lemma ChunkedCut(t: string, ps: seq<Chunked.Piece>, last: string, more: string, k: nat)
    requires Parse(t).Done? && IsChunked(Parse(t).value.headers) && k <= |t| <= USIZE_MAX
    requires Chunked.Framed(BehindHead(t), ps, last, more)
    ensures var h, n := HeadLength(t), |Chunked.SentAll(ps)| + |last| + 2;
            Parse(t[..k]) ==
            if k < h then Refused
            else if k < h + n then if Chunked.CutsCloser(ps, k - h) then Crash else Refused
            else Parse(t)
  {
    hide Parse, HeadLength, BehindHead, IsChunked, Chunked.Decode, Chunked.CutsCloser, Chunked.SentAll, Chunked.Body, Chunked.Spells;
    var h, all := HeadLength(t), Chunked.SentAll(ps) + last + CRLF;
    CutAnywhere(t, k);
    CutAnywhere(t, |t|);
    assert t[..|t|] == t && BehindHead(t) == t[h..] == all + more;
    Chunked.FramedDecodes(BehindHead(t), ps, last, more);
    if h <= k < h + |all| {
      var data := t[h..k];
      assert data == BehindHead(t)[..k - h] == all[..k - h] && data[0..] == data;
      Chunked.CutPieces(data, 0, ps, last);
    } else if k >= h + |all| {
      assert t[h..k] == all + more[..k - h - |all|];
      Chunked.FramedDecodes(t[h..k], ps, last, more[..k - h - |all|]);
    }
  }

  // ---- Requests as printed -------------------------------------------------

  /** A request with one space between the parts of its lines, without its body. */
  datatype Opening = Opening(verb: string, path: string, version: string, hs: seq<(string, string)>)

  predicate OpeningOk(o: Opening) {
    TokenOk(o.verb) && TokenOk(o.path) && TokenOk(o.version) && forall i :: 0 <= i < |o.hs| ==> HeaderOk(o.hs[i])
  }

  function OpeningText(o: Opening): string { PrintRequest(o.verb, o.path, o.version, o.hs, "") }

  function HeadersOf(o: Opening): Headers { HeaderMap(map[], o.hs) }

  function Carrying(o: Opening, body: string): Request { Request(VerbOf(o.verb), o.path, o.version, HeadersOf(o), body) }

  lemma OpeningThenBody(o: Opening, body: string)
    ensures PrintRequest(o.verb, o.path, o.version, o.hs, body) == OpeningText(o) + body
  {
    hide HeadText;
  }

  /** The head has no end before its last byte. */
  lemma CutOpening(o: Opening, k: nat)
    requires OpeningOk(o) && k < |OpeningText(o)|
    ensures Parse(OpeningText(o)[..k]).Refused?
  {
    hide Find, JoinLines, TokenOk, HeaderOk, Lines, ParseHead;
    var ls, text := [Join(o.verb, o.path, o.version)] + HeaderLines(o.hs), OpeningText(o);
    PrintedLinesOk(o.verb, o.path, o.version, o.hs);
    HeadEnds(ls, "");
    assert text == text[..k] + text[k..];
    if Find(text[..k], SEPARATOR).Some? { FindExtend(text[..k], SEPARATOR, text[k..]); }
  }

  lemma ReadOpening(o: Opening, rest: string)
    requires OpeningOk(o)
    ensures Parse(OpeningText(o) + rest) == WithBody(Carrying(o, ""), rest)
  {
    hide Parse, PrintRequest, WithBody, TokenOk, HeaderOk;
    OpeningThenBody(o, rest);
    PrintParse(o.verb, o.path, o.version, o.hs, rest);
  }

  /** The first k bytes of what is sent behind a head, or of the head. */
  lemma Segment(o: Opening, rest: string, k: nat)
    requires OpeningOk(o) && k <= |OpeningText(o) + rest|
    ensures Parse((OpeningText(o) + rest)[..k]) ==
            if k < |OpeningText(o)| then Refused else WithBody(Carrying(o, ""), rest[..k - |OpeningText(o)|])
  {
    hide Parse, OpeningText, WithBody, OpeningOk, Carrying;
    var text := OpeningText(o);
    if k < |text| {
      assert (text + rest)[..k] == text[..k];
      CutOpening(o, k);
    } else {
      assert (text + rest)[..k] == text + rest[..k - |text|];
      ReadOpening(o, rest[..k - |text|]);
    }
  }

  /** A printed plain request, cut anywhere or with more behind it, parses as soon as its head is
      complete, with whatever is there as its body. The body has the announced length, and
      the request is read as it was meant, if and only if the cut is at its end. */
  lemma PlainSegment(o: Opening, body: string, more: string, k: nat)
    requires OpeningOk(o) && !IsChunked(HeadersOf(o)) && ContentLength(HeadersOf(o)) == |body|
    requires k <= |OpeningText(o) + (body + more)|
    ensures var r := Parse((OpeningText(o) + (body + more))[..k]);
            && r == (if k < |OpeningText(o)| then Refused
                     else Done(Carrying(o, (body + more)[..k - |OpeningText(o)|])))
            && (r == Done(Carrying(o, body)) <==> k == |OpeningText(o) + body|)
            && (r.Done? ==> (|r.value.body| == ContentLength(r.value.headers) <==> k == |OpeningText(o) + body|))
  {
    hide Parse, OpeningText, OpeningOk, IsChunked, HeadersOf, ContentLength;
    Segment(o, body + more, k);
    if k == |OpeningText(o) + body| { assert (body + more)[..|body|] == body; }
  }

  /** A printed chunked request, cut anywhere or with more behind it: it is read as it was meant as
      soon as it is there up to its zero line, and before that it is refused, or makes the
      decoder leave the buffer when the cut is in the two bytes behind a chunk. */
  lemma ChunkedSegment(o: Opening, chunks: seq<string>, more: string, k: nat)
    requires OpeningOk(o) && IsChunked(HeadersOf(o)) && Chunked.NonEmptyChunks(chunks)
    requires k <= |OpeningText(o) + (Chunked.Encode(chunks) + more)| && |Chunked.Encode(chunks) + more| <= USIZE_MAX
    ensures var n, coded := |OpeningText(o)|, Chunked.Encode(chunks);
            Parse((OpeningText(o) + (coded + more))[..k]) ==
            if k < n then Refused
            else if k < n + |coded| then if Chunked.CutsCloser(Chunked.PiecesOf(chunks), k - n) then Crash else Refused
            else Done(Carrying(o, Concat(chunks)))
  {
    hide Parse, OpeningText, OpeningOk, IsChunked, HeadersOf, Chunked.Encode, Chunked.Decode, Chunked.CutsCloser;
    var coded := Chunked.Encode(chunks);
    Segment(o, coded + more, k);
    var m := k - |OpeningText(o)|;
    if 0 <= m < |coded| {
      assert (coded + more)[..m] == coded[..m];
      Chunked.TruncationDetected(chunks, m);
    } else if m >= 0 {
      assert (coded + more)[..m] == coded + more[..m - |coded|];
      Chunked.ChunkedRoundTrip(chunks, more[..m - |coded|]);
    }
  }
}
