/** The chunked body decoder (src/request.rs) and the format it accepts.

    The code reads "size CRLF data xx" groups up to a size of zero; the two bytes xx
    after the data are skipped unread. An index past the end of the buffer panics,
    which the model reports as Crash. */
module Chunked {
  import opened Text

  /** The number on a size line: trimmed, hexadecimal, within usize. */
  function SizeOf(line: string): (r: Option<nat>)
    ensures r.Some? ==> line != ""
  {
    ParseUnsigned(Trim(line, IsBlank), 16, USIZE_MAX)
  }

  datatype Turn = Last | Chunk(bytes: string, next: nat)

  /** One turn of the decoder's loop with the cursor at pos. */
  function TurnAt(data: string, pos: nat): (t: Outcome<Turn>)
    ensures t.Done? && t.value.Chunk? ==> pos < t.value.next <= |data| + 2
  {
    if pos > |data| then Crash
    else
      var eol := Find(data[pos..], CRLF);
      if eol.None? then Refused
      else
        var size := SizeOf(data[pos..pos + eol.value]);
        var start := pos + eol.value + 2;
        if size.None? then Refused
        else if size.value == 0 then Done(Last)
        else if start + size.value > USIZE_MAX then Crash
        else if start + size.value > |data| then Refused
        else Done(Chunk(data[start..start + size.value], start + size.value + 2))
  }

  function Decode(data: string, pos: nat): Outcome<string>
    requires pos <= |data| + 2
    decreases |data| + 2 - pos
  {
    match TurnAt(data, pos)
    case Refused => Refused
    case Crash => Crash
    case Done(Last) => Done("")
    case Done(Chunk(bytes, next)) => Prepend(bytes, Decode(data, next))
  }

  function Prepend(bytes: string, rest: Outcome<string>): Outcome<string> {
    if rest.Done? then Done(bytes + rest.value) else rest
  }

  lemma PrependTwice(a: string, b: string, rest: Outcome<string>)
    ensures Prepend(a, Prepend(b, rest)) == Prepend(a + b, rest)
  {
    if rest.Done? { assert a + (b + rest.value) == a + b + rest.value; }
  }

  method DecodeChunked(data: string) returns (r: Outcome<string>)
    ensures r == Decode(data, 0)
  {
    hide SizeOf, Find;
    var body := "";
    var pos := 0;
    assert forall s: string :: "" + s == s;
    while true
      invariant pos <= |data| + 2
      invariant Decode(data, 0) == Prepend(body, Decode(data, pos))
      decreases |data| + 2 - pos
    {
      if pos > |data| { return Crash; }
      var eol := Find(data[pos..], CRLF);
      if eol.None? { return Refused; }
      var size := SizeOf(data[pos..pos + eol.value]);
      if size.None? { return Refused; }
      pos := pos + eol.value + 2;
      if size.value == 0 { break; }
      if pos + size.value > USIZE_MAX { return Crash; }
      if pos + size.value > |data| { return Refused; }
      ghost var chunk, rest := data[pos..pos + size.value], Decode(data, pos + size.value + 2);
      assert Prepend(body, Prepend(chunk, rest)) == Prepend(body + chunk, rest) by { PrependTwice(body, chunk, rest); }
      body := body + data[pos..pos + size.value];
      pos := pos + size.value + 2;
    }
    assert body + "" == body;
    return Done(body);
  }

  // ---- The accepted format -------------------------------------------------

  /** A chunk as sent: any spelling of its size, its bytes, the two bytes after them. */
  datatype Piece = Piece(line: string, bytes: string, closer: string)

  function Sent(p: Piece): string { p.line + CRLF + p.bytes + p.closer }

  function SentAll(ps: seq<Piece>): string {
    if ps == [] then "" else Sent(ps[0]) + SentAll(ps[1..])
  }

  function Body(ps: seq<Piece>): string {
    if ps == [] then "" else ps[0].bytes + Body(ps[1..])
  }

  /** The line spells size, and its own CRLF is the first one. */
  predicate Spells(line: string, size: nat) {
    Find(line + CRLF, CRLF) == Some(|line|) && SizeOf(line) == Some(size)
  }

  predicate ValidPiece(p: Piece) {
    Spells(p.line, |p.bytes|) && p.bytes != "" && |p.closer| == 2
  }

  predicate ValidPieces(ps: seq<Piece>) {
    forall i :: 0 <= i < |ps| ==> ValidPiece(ps[i])
  }

  /** What the loop does when a size line stands at the cursor. */
  lemma TurnOnLine(data: string, pos: nat, line: string, size: nat, rest: string)
    requires pos <= |data| && data[pos..] == line + CRLF + rest && Spells(line, size)
    ensures var start := pos + |line| + 2;
            TurnAt(data, pos) ==
            if size == 0 then Done(Last)
            else if start + size > USIZE_MAX then Crash
            else if |rest| < size then Refused
            else Done(Chunk(rest[..size], start + size + 2))
  {
    hide SizeOf, Find;
    FindExtend(line + CRLF, CRLF, rest);
    assert data[pos..pos + |line|] == data[pos..][..|line|] == line;
    var start := pos + |line| + 2;
    assert |rest| >= size ==> data[start..start + size] == data[pos..][|line| + 2..|line| + 2 + size] == rest[..size];
  }

  lemma TurnOnPiece(data: string, pos: nat, p: Piece, rest: string)
    requires pos <= |data| <= USIZE_MAX && data[pos..] == Sent(p) + rest && ValidPiece(p)
    ensures TurnAt(data, pos) == Done(Chunk(p.bytes, pos + |Sent(p)|))
    ensures data[pos + |Sent(p)|..] == rest
  {
    hide SizeOf, Find;
    assert data[pos..] == p.line + CRLF + (p.bytes + p.closer + rest);
    TurnOnLine(data, pos, p.line, |p.bytes|, p.bytes + p.closer + rest);
    assert (p.bytes + p.closer + rest)[..|p.bytes|] == p.bytes;
    assert data[pos + |Sent(p)|..] == data[pos..][|Sent(p)|..];
  }

  /** Reading a run of whole pieces leaves the decoder right behind them. */
  lemma {:induction false} DecodePieces(data: string, pos: nat, ps: seq<Piece>, rest: string)
    requires pos <= |data| <= USIZE_MAX && data[pos..] == SentAll(ps) + rest && ValidPieces(ps)
    ensures pos + |SentAll(ps)| <= |data| && data[pos + |SentAll(ps)|..] == rest
    ensures Decode(data, pos) == Prepend(Body(ps), Decode(data, pos + |SentAll(ps)|))
    decreases |ps|
  {
    hide SizeOf, Find, Sent, ValidPiece, TurnAt;
    if ps == [] {
      assert SentAll(ps) + rest == rest;
      assert forall s: string :: "" + s == s;
    } else {
      var p := ps[0];
      assert data[pos..] == Sent(p) + (SentAll(ps[1..]) + rest);
      TurnOnPiece(data, pos, p, SentAll(ps[1..]) + rest);
      DecodePieces(data, pos + |Sent(p)|, ps[1..], rest);
      PrependTwice(p.bytes, Body(ps[1..]), Decode(data, pos + |SentAll(ps)|));
    }
  }

  /** A buffer that decodes, taken apart. */
  ghost predicate Framed(data: string, ps: seq<Piece>, last: string, rest: string) {
    ValidPieces(ps) && Spells(last, 0) && data == SentAll(ps) + last + CRLF + rest
  }

  lemma FramedDecodes(data: string, ps: seq<Piece>, last: string, rest: string)
    requires |data| <= USIZE_MAX && Framed(data, ps, last, rest)
    ensures Decode(data, 0) == Done(Body(ps))
  {
    hide SizeOf, Find, TurnAt, SentAll, Body, ValidPieces;
    assert data[0..] == SentAll(ps) + (last + CRLF + rest);
    DecodePieces(data, 0, ps, last + CRLF + rest);
    TurnOnLine(data, |SentAll(ps)|, last, 0, rest);
    assert Body(ps) + "" == Body(ps);
  }

  /** The line that the decoder found at the cursor, and what stands behind it. */
  lemma LineAt(data: string, pos: nat) returns (line: string, rest: string)
    requires pos <= |data| && Find(data[pos..], CRLF).Some?
    requires SizeOf(data[pos..pos + Find(data[pos..], CRLF).value]).Some?
    ensures data[pos..] == line + CRLF + rest && Spells(line, SizeOf(data[pos..pos + Find(data[pos..], CRLF).value]).value)
  {
    hide SizeOf, Find;
    var here := data[pos..];
    var eol := Find(here, CRLF).value;
    line, rest := here[..eol], here[eol + 2..];
    assert line == data[pos..pos + eol];
    assert here == line + here[eol..eol + 2] + rest;
    forall j: nat | j < eol ensures !At(line + CRLF, CRLF, j) {
      FindFirst(here, CRLF, j);
      assert (line + CRLF)[j..j + 2] == here[j..j + 2];
    }
    FindIs(line + CRLF, CRLF, eol);
  }

  /** The piece that a turn consumed. */
  lemma PieceAt(data: string, pos: nat) returns (p: Piece)
    requires TurnAt(data, pos).Done? && TurnAt(data, pos).value.Chunk? && TurnAt(data, pos).value.next <= |data|
    ensures ValidPiece(p) && data[pos..TurnAt(data, pos).value.next] == Sent(p)
  {
    hide SizeOf, Find;
    var next := TurnAt(data, pos).value.next;
    var line, rest := LineAt(data, pos);
    var size := SizeOf(line).value;
    TurnOnLine(data, pos, line, size, rest);
    p := Piece(line, rest[..size], rest[size..size + 2]);
    assert rest == rest[..size] + rest[size..size + 2] + rest[size + 2..];
    assert data[pos..] == Sent(p) + rest[size + 2..];
    assert data[pos..next] == data[pos..][..next - pos];
  }

  /** How the loop can end: every whole piece it consumed, then the state it stopped in. */
  lemma {:induction false} Trace(data: string, pos: nat) returns (ps: seq<Piece>, stop: nat)
    requires pos <= |data| <= USIZE_MAX
    ensures ValidPieces(ps) && pos <= stop <= |data|
    ensures data[pos..stop] == SentAll(ps)
    ensures !TurnAt(data, stop).Done? || TurnAt(data, stop).value.Last? || TurnAt(data, stop).value.next > |data|
    decreases |data| - pos
  {
    hide SizeOf, Find, TurnAt, Sent, ValidPiece;
    var t := TurnAt(data, pos);
    if t.Done? && t.value.Chunk? && t.value.next <= |data| {
      var p := PieceAt(data, pos);
      var more;
      more, stop := Trace(data, t.value.next);
      ps := [p] + more;
      assert data[pos..stop] == data[pos..t.value.next] + data[t.value.next..stop];
      assert ps[1..] == more;
    } else {
      ps, stop := [], pos;
    }
  }

  /** The whole run: the pieces consumed and the cursor the loop stopped with. */
  lemma Run(data: string) returns (ps: seq<Piece>, stop: nat)
    requires |data| <= USIZE_MAX
    ensures ValidPieces(ps) && stop <= |data| && data == SentAll(ps) + data[stop..] && stop == |SentAll(ps)|
    ensures Decode(data, 0) == Prepend(Body(ps), Decode(data, stop))
    ensures !TurnAt(data, stop).Done? || TurnAt(data, stop).value.Last? || TurnAt(data, stop).value.next > |data|
  {
    hide SizeOf, Find, TurnAt, Decode, ValidPieces;
    ps, stop := Trace(data, 0);
    assert data[0..stop] == data[..stop];
    assert data == data[..stop] + data[stop..];
    assert data[0..] == data;
    DecodePieces(data, 0, ps, data[stop..]);
  }

  /** A run that stops on a size line, whatever it then does about it. */
  lemma RunToLine(data: string) returns (ps: seq<Piece>, line: string, size: nat, tail: string)
    requires |data| <= USIZE_MAX && Decode(data, 0) != Refused
    ensures ValidPieces(ps) && Spells(line, size) && data == SentAll(ps) + line + CRLF + tail
    ensures size == 0 ==> Decode(data, 0) == Done(Body(ps))
    ensures size > 0 ==> Decode(data, 0) == Crash
    ensures size > 0 ==> |tail| == size || |tail| == size + 1 || |data| - |tail| + size > USIZE_MAX
  {
    hide SizeOf, Find, ValidPieces;
    var stop;
    ps, stop := Run(data);
    line, tail := LineAt(data, stop);
    size := SizeOf(line).value;
    TurnOnLine(data, stop, line, size, tail);
    assert data == SentAll(ps) + line + CRLF + tail by { assert data[stop..] == line + CRLF + tail; }
    assert Body(ps) + "" == Body(ps);
  }

  /** The decoder answers exactly the buffers that begin with whole pieces and a zero
      line, and with the bytes of those pieces. */
  lemma {:induction false} DecodesExactly(data: string, body: string)
    requires |data| <= USIZE_MAX
    ensures Decode(data, 0) == Done(body) <==>
            exists ps, last, rest :: Framed(data, ps, last, rest) && Body(ps) == body
  {
    hide SizeOf, Find, Decode, Spells, ValidPieces, Body, SentAll;
    if Decode(data, 0) == Done(body) {
      var ps, last, size, rest := RunToLine(data);
      assert Framed(data, ps, last, rest) && Body(ps) == body;
    } else if ps, last, rest :| Framed(data, ps, last, rest) && Body(ps) == body {
      FramedDecodes(data, ps, last, rest);
    }
  }

  /** After whole pieces stands a chunk that the buffer ends right behind, or one byte
      into its two closing bytes, or whose size carries the cursor past usize. */
  ghost predicate Overruns(data: string, ps: seq<Piece>, line: string, size: nat, tail: string) {
    && ValidPieces(ps) && Spells(line, size) && size > 0 && data == SentAll(ps) + line + CRLF + tail
    && (|tail| == size || |tail| == size + 1 || |data| - |tail| + size > USIZE_MAX)
  }

  lemma TurnBeyond(data: string, pos: nat)
    requires pos > |data|
    ensures TurnAt(data, pos) == Crash
  {
  }

  lemma OverrunCrashes(data: string, ps: seq<Piece>, line: string, size: nat, tail: string)
    requires |data| <= USIZE_MAX && Overruns(data, ps, line, size, tail)
    ensures Decode(data, 0) == Crash
  {
    hide SizeOf, Find, Spells, ValidPieces, Body, SentAll, TurnAt;
    assert data[0..] == SentAll(ps) + (line + CRLF + tail);
    DecodePieces(data, 0, ps, line + CRLF + tail);
    TurnOnLine(data, |SentAll(ps)|, line, size, tail);
    if |tail| < size + 2 && |SentAll(ps)| + |line| + 2 + size <= USIZE_MAX {
      assert TurnAt(data, |SentAll(ps)| + |line| + 2 + size + 2) == Crash by { TurnBeyond(data, |SentAll(ps)| + |line| + 2 + size + 2); }
    }
  }

  /** The decoder leaves the buffer exactly on the buffers that overrun; on every other
      buffer all its slices are in range. */
  lemma {:induction false} CrashesExactly(data: string)
    requires |data| <= USIZE_MAX
    ensures Decode(data, 0) == Crash <==> exists ps, line, size, tail :: Overruns(data, ps, line, size, tail)
  {
    hide SizeOf, Find, Decode, Spells, ValidPieces, Body, SentAll;
    if Decode(data, 0) == Crash {
      var ps, line, size, tail := RunToLine(data);
      assert Overruns(data, ps, line, size, tail);
    } else if ps, line, size, tail :| Overruns(data, ps, line, size, tail) {
      OverrunCrashes(data, ps, line, size, tail);
    }
  }

  /** Such a buffer is easily sent: a chunk without the two bytes behind it. */
  lemma UnclosedChunkCrashes()
    ensures Decode("3\r\nabc", 0) == Crash
  {
    hide SizeOf, Find, Decode;
    assert Digits(3, 16) == "3";
    SizeLineSpells(3);
    assert SentAll([]) + "3" + CRLF + "abc" == "3\r\nabc";
    assert Overruns("3\r\nabc", [], "3", 3, "abc");
    OverrunCrashes("3\r\nabc", [], "3", 3, "abc");
  }

  /** A body read from k pieces took at least five more bytes a piece and three at the end. */
  lemma {:induction false} PiecesBound(ps: seq<Piece>)
    requires ValidPieces(ps)
    ensures |Body(ps)| + 5 * |ps| <= |SentAll(ps)|
  {
    hide Find;
    if ps != [] { PiecesBound(ps[1..]); }
  }

  lemma BodyBound(data: string, ps: seq<Piece>, last: string, rest: string)
    requires Framed(data, ps, last, rest)
    ensures |Body(ps)| + 5 * |ps| + 3 <= |data|
  {
    hide Find;
    PiecesBound(ps);
  }

  /** What decodes goes on decoding, to the same body, as bytes arrive behind it. */
  lemma {:induction false} DecodeExtends(data: string, pos: nat, more: string)
    requires pos <= |data| + 2 && Decode(data, pos).Done?
    ensures pos <= |data| && Decode(data + more, pos) == Decode(data, pos)
    decreases |data| + 2 - pos
  {
    hide SizeOf, Find;
    assert (data + more)[pos..] == data[pos..] + more;
    FindExtend(data[pos..], CRLF, more);
    var eol := Find(data[pos..], CRLF).value;
    assert (data + more)[pos..pos + eol] == data[pos..pos + eol];
    var t := TurnAt(data, pos).value;
    if t.Chunk? {
      var start := pos + eol + 2;
      assert (data + more)[start..t.next - 2] == data[start..t.next - 2];
      DecodeExtends(data, t.next, more);
    }
  }

  // ---- The canonical encoder -----------------------------------------------

  function SizeLine(n: nat): string { Digits(n, 16) }

  function PieceOf(chunk: string): Piece { Piece(SizeLine(|chunk|), chunk, CRLF) }

  function PiecesOf(chunks: seq<string>): (ps: seq<Piece>)
    ensures |ps| == |chunks| && forall i :: 0 <= i < |ps| ==> ps[i] == PieceOf(chunks[i])
  {
    seq(|chunks|, i requires 0 <= i < |chunks| => PieceOf(chunks[i]))
  }

  /** The chunked coding of section 7.1 of RFC 9112, without the blank line at the end. */
  function Encode(chunks: seq<string>): string {
    SentAll(PiecesOf(chunks)) + SizeLine(0) + CRLF
  }

  /** A line without carriage returns ends at its own CRLF. */
  lemma EndsAtCrlf(line: string)
    requires '\r' !in line
    ensures Find(line + CRLF, CRLF) == Some(|line|)
  {
    hide Find;
    forall j: nat | j < |line| ensures !At(line + CRLF, CRLF, j) {
      assert (line + CRLF)[j] == line[j];
      assert j + 2 <= |line + CRLF| ==> (line + CRLF)[j..j + 2][0] == line[j];
    }
    FindIs(line + CRLF, CRLF, |line|);
  }

  lemma SizeLineSpells(n: nat)
    requires n <= USIZE_MAX
    ensures Spells(SizeLine(n), n)
  {
    hide Trim, ParseUnsigned, Find, Digits;
    var line := SizeLine(n);
    assert "" + line + "" == line;
    TrimIs("", line, "", IsBlank);
    UnsignedRoundTrip(n, 16, USIZE_MAX);
    EndsAtCrlf(line);
  }

  predicate NonEmptyChunks(chunks: seq<string>) {
    forall i :: 0 <= i < |chunks| ==> 0 < |chunks[i]| <= USIZE_MAX
  }

  lemma PiecesOfValid(chunks: seq<string>)
    requires NonEmptyChunks(chunks)
    ensures ValidPieces(PiecesOf(chunks))
  {
    forall i | 0 <= i < |chunks| ensures ValidPiece(PiecesOf(chunks)[i]) { SizeLineSpells(|chunks[i]|); }
  }

  lemma {:induction false} BodyOfPieces(chunks: seq<string>)
    ensures Body(PiecesOf(chunks)) == Concat(chunks)
  {
    if chunks != [] {
      assert PiecesOf(chunks)[1..] == PiecesOf(chunks[1..]);
      BodyOfPieces(chunks[1..]);
    }
  }

  /** Any split of any body into non-empty chunks, followed by anything, decodes to the body. */
  lemma ChunkedRoundTrip(chunks: seq<string>, trailing: string)
    requires NonEmptyChunks(chunks) && |Encode(chunks) + trailing| <= USIZE_MAX
    ensures Decode(Encode(chunks) + trailing, 0) == Done(Concat(chunks))
  {
    hide SizeOf, Find;
    PiecesOfValid(chunks);
    SizeLineSpells(0);
    BodyOfPieces(chunks);
    FramedDecodes(Encode(chunks) + trailing, PiecesOf(chunks), SizeLine(0), trailing);
  }

  /** A size line in any case: hexadecimal digits that lower to the canonical ones. */
  lemma AnyCaseSpells(line: string, n: nat)
    requires n <= USIZE_MAX && |line| == |SizeLine(n)| && Lower(line) == SizeLine(n)
    ensures Spells(line, n)
  {
    hide Trim, ParseUnsigned, Find, Digits, Lower;
    var digits := SizeLine(n);
    AnyCaseDigits(line, digits);
    assert "" + line + "" == line;
    TrimIs("", line, "", IsBlank);
    UnsignedRoundTrip(n, 16, USIZE_MAX);
    AnyCaseNumber(line, digits);
    EndsAtCrlf(line);
  }

  lemma AnyCaseDigits(line: string, digits: string)
    requires |line| == |digits| && Lower(line) == digits && digits != "" && All(digits, IsDigit)
    ensures '\r' !in line && Trimmed(line, IsBlank) && line[0] != '+' && digits[0] != '+'
    ensures forall i :: 0 <= i < |line| ==> DigitOf(line[i], 16) == DigitOf(digits[i], 16)
  {
    forall i | 0 <= i < |line|
      ensures DigitOf(line[i], 16) == DigitOf(digits[i], 16) && !IsBlank(line[i]) && line[i] != '+'
    {
      assert Lower(line)[i] == LowerChar(line[i]) && IsDigit(digits[i]);
    }
  }

  lemma AnyCaseNumber(line: string, digits: string)
    requires |line| == |digits| > 0 && line[0] != '+' && digits[0] != '+'
    requires forall i :: 0 <= i < |line| ==> DigitOf(line[i], 16) == DigitOf(digits[i], 16)
    ensures ParseUnsigned(line, 16, USIZE_MAX) == ParseUnsigned(digits, 16, USIZE_MAX)
  {
    SameDigits(line, digits);
  }

  lemma {:induction false} SameDigits(s: string, t: string)
    requires |s| == |t| && forall i :: 0 <= i < |s| ==> DigitOf(s[i], 16) == DigitOf(t[i], 16)
    ensures ParseDigits(s, 16) == ParseDigits(t, 16)
    decreases |s|
  {
    hide DigitOf;
    if s != "" { SameDigits(s[..|s| - 1], t[..|t| - 1]); }
  }

  function LinePieces(lines: seq<string>, chunks: seq<string>): (ps: seq<Piece>)
    requires |lines| == |chunks|
    ensures |ps| == |chunks| && forall i :: 0 <= i < |ps| ==> ps[i] == Piece(lines[i], chunks[i], CRLF)
  {
    seq(|chunks|, i requires 0 <= i < |chunks| => Piece(lines[i], chunks[i], CRLF))
  }

  /** Chunk sizes may be written in either case: the body is the same. */
  lemma AnyCaseRoundTrip(lines: seq<string>, chunks: seq<string>, trailing: string)
    requires NonEmptyChunks(chunks) && |lines| == |chunks|
    requires forall i :: 0 <= i < |chunks| ==> Lower(lines[i]) == SizeLine(|chunks[i]|)
    requires |SentAll(LinePieces(lines, chunks)) + "0" + CRLF + trailing| <= USIZE_MAX
    ensures Decode(SentAll(LinePieces(lines, chunks)) + "0" + CRLF + trailing, 0) == Done(Concat(chunks))
  {
    hide SizeOf, Find, Lower;
    var ps := LinePieces(lines, chunks);
    forall i | 0 <= i < |ps| ensures ValidPiece(ps[i]) { AnyCaseSpells(lines[i], |chunks[i]|); }
    SizeLineSpells(0);
    assert SizeLine(0) == "0";
    LinePiecesBody(lines, chunks);
    FramedDecodes(SentAll(ps) + "0" + CRLF + trailing, ps, "0", trailing);
  }

  lemma {:induction false} LinePiecesBody(lines: seq<string>, chunks: seq<string>)
    requires |lines| == |chunks|
    ensures Body(LinePieces(lines, chunks)) == Concat(chunks)
    decreases |chunks|
  {
    if chunks != [] {
      assert LinePieces(lines, chunks)[1..] == LinePieces(lines[1..], chunks[1..]);
      LinePiecesBody(lines[1..], chunks[1..]);
    }
  }

  /** Twenty-six and ten, as sizes are written. */
  lemma SizesRead()
    ensures SizeOf("1A") == Some(26) && SizeOf("1a") == Some(26) && SizeOf("A") == Some(10)
  {
    assert Digits(26, 16) == "1a" && Digits(10, 16) == "a";
    assert Lower("1A") == "1a" && Lower("1a") == "1a" && Lower("A") == "a";
    hide SizeOf, Digits, Lower;
    AnyCaseSpells("1A", 26);
    AnyCaseSpells("1a", 26);
    AnyCaseSpells("A", 10);
  }

  // ---- Truncated transmissions ---------------------------------------------

  /** The cut leaves out the last byte, or both bytes, behind some chunk's data. */
  predicate CutsCloser(ps: seq<Piece>, cut: nat) {
    ps != [] && if cut < |Sent(ps[0])| then cut >= |Sent(ps[0])| - 2 else CutsCloser(ps[1..], cut - |Sent(ps[0])|)
  }

  lemma CutLine(data: string, pos: nat, line: string, size: nat)
    requires pos <= |data| && Spells(line, size)
    requires |data| - pos < |line| + 2 && data[pos..] == (line + CRLF)[..|data| - pos]
    ensures TurnAt(data, pos) == Refused
  {
    hide SizeOf, Find;
    var here := data[pos..];
    var gone := (line + CRLF)[|here|..];
    assert here + gone == line + CRLF;
    if Find(here, CRLF).Some? { FindExtend(here, CRLF, gone); }
  }

  lemma CutPiece(data: string, pos: nat, p: Piece)
    requires pos <= |data| && ValidPiece(p) && pos + |Sent(p)| <= USIZE_MAX
    requires |data| - pos < |Sent(p)| && data[pos..] == Sent(p)[..|data| - pos]
    ensures Decode(data, pos) == if |data| - pos >= |Sent(p)| - 2 then Crash else Refused
  {
    hide SizeOf, Find, Spells;
    var cut := |data| - pos;
    if cut < |p.line| + 2 {
      assert data[pos..] == (p.line + CRLF)[..cut];
      CutLine(data, pos, p.line, |p.bytes|);
    } else {
      var rest := (p.bytes + p.closer)[..cut - |p.line| - 2];
      assert data[pos..] == p.line + CRLF + rest;
      TurnOnLine(data, pos, p.line, |p.bytes|, rest);
    }
  }

  lemma {:induction false} CutPieces(data: string, pos: nat, ps: seq<Piece>, last: string)
    requires pos <= |data| && ValidPieces(ps) && Spells(last, 0)
    requires pos + |SentAll(ps)| + |last| + 2 <= USIZE_MAX
    requires |data| - pos < |SentAll(ps)| + |last| + 2
    requires data[pos..] == (SentAll(ps) + last + CRLF)[..|data| - pos]
    ensures Decode(data, pos) == if CutsCloser(ps, |data| - pos) then Crash else Refused
    decreases |ps|
  {
    hide SizeOf, Find, Spells, Sent;
    var cut := |data| - pos;
    if ps == [] {
      assert SentAll(ps) + last + CRLF == last + CRLF;
      CutLine(data, pos, last, 0);
    } else {
      var p := ps[0];
      var behind := SentAll(ps[1..]) + last + CRLF;
      assert SentAll(ps) + last + CRLF == Sent(p) + behind;
      if cut < |Sent(p)| {
        assert data[pos..] == Sent(p)[..cut];
        CutPiece(data, pos, p);
      } else {
        assert data[pos..] == Sent(p) + behind[..cut - |Sent(p)|];
        TurnOnPiece(data, pos, p, behind[..cut - |Sent(p)|]);
        CutPieces(data, pos + |Sent(p)|, ps[1..], last);
      }
    }
  }

  /** A transmission cut before the end of its zero line never passes for a whole one;
      it makes the decoder leave the buffer exactly when the cut falls in a closer. */
  lemma TruncationDetected(chunks: seq<string>, cut: nat)
    requires NonEmptyChunks(chunks) && |Encode(chunks)| <= USIZE_MAX && cut < |Encode(chunks)|
    ensures Decode(Encode(chunks)[..cut], 0) == if CutsCloser(PiecesOf(chunks), cut) then Crash else Refused
  {
    hide SizeOf, Find, Decode, CutsCloser;
    PiecesOfValid(chunks);
    SizeLineSpells(0);
    var data := Encode(chunks)[..cut];
    assert data[0..] == data;
    CutPieces(data, 0, PiecesOf(chunks), SizeLine(0));
  }
}
