/** The chunked coding of section 3.6.1 of RFC 2616 against the chunk states of httprequest.cpp. */
module HttpChunks {
  import opened Lists
  import opened HttpSyntax
  import opened HttpRequest

  /** A chunk: its size line as the client spelled it, extension included, and its data. */
  datatype Chunk = Chunk(sizeLine: string, data: string)

  predicate ValidChunk(c: Chunk) {
    c.data != "" && IsLine(c.sizeLine) && ChunkSize(c.sizeLine) == Some(|c.data|)
  }

  predicate ValidLast(line: string) { IsLine(line) && ChunkSize(line) == Some(0) }

  /** A header line of the trailer: any line but the empty one. */
  predicate ValidTrailer(line: string) { IsLine(line) && line != CRLF }

  function EncodeChunks(chunks: seq<Chunk>): string {
    if chunks == [] then "" else chunks[0].sizeLine + chunks[0].data + CRLF + EncodeChunks(chunks[1..])
  }

  function Data(chunks: seq<Chunk>): string {
    if chunks == [] then "" else chunks[0].data + Data(chunks[1..])
  }

  /** A whole chunked body: the chunks, the last-chunk line, the trailer and the closing CRLF. */
  function EncodeBody(chunks: seq<Chunk>, last: string, trailer: seq<string>): string {
    EncodeChunks(chunks) + last + Concat(trailer) + CRLF
  }

  lemma CrlfLine(rest: string)
    ensures NextLine(CRLF + rest) == (CRLF, rest)
  {
    NextLineOf(CRLF, rest);
  }

  /** A turn that goes on, as the loop sees it. */
  lemma ParseStep(g: Grammar, r: Req, buf: string, r1: Req, buf1: string)
    requires !Terminal(r.state) && Turn(g, r, buf) == (r1, buf1, Go)
    ensures Parse(g, r, buf) == Parse(g, r1, buf1)
  {
    TurnProgress(g, r, buf);
  }

  // The three turns that one chunk takes.

  lemma SizeLine(g: Grammar, r: Req, c: Chunk, rest: string)
    requires r.state.Body? && r.chunked && ValidChunk(c)
    ensures Parse(g, r, c.sizeLine + rest) == Parse(g, r.(chunkLen := |c.data|, state := BodyChunk), rest)
  {
    NextLineOf(c.sizeLine, rest);
    hide NextLine, ChunkSize, IsLine;
    ParseStep(g, r, c.sizeLine + rest, r.(chunkLen := |c.data|, state := BodyChunk), rest);
  }

  lemma ChunkData(g: Grammar, r: Req, data: string, rest: string)
    requires r.state.BodyChunk? && r.chunkLen == |data| > 0 && rest != ""
    ensures Parse(g, r, data + rest) == Parse(g, r.(body := r.body + data, chunkLen := 0), rest)
  {
    var buf := data + rest;
    assert buf[..|data|] == data && buf[|data|..] == rest;
    hide NextLine;
    ParseStep(g, r, buf, r.(body := r.body + data, chunkLen := 0), rest);
  }

  lemma ChunkEnd(g: Grammar, r: Req, rest: string)
    requires r.state.BodyChunk? && r.chunkLen == 0
    ensures Parse(g, r, CRLF + rest) == Parse(g, r.(state := Body), rest)
  {
    CrlfLine(rest);
    hide NextLine;
    ParseStep(g, r, CRLF + rest, r.(state := Body), rest);
  }

  lemma OneChunk(g: Grammar, r: Req, c: Chunk, rest: string)
    requires r.state.Body? && r.chunked && ValidChunk(c)
    ensures Parse(g, r, c.sizeLine + c.data + CRLF + rest)
            == Parse(g, r.(body := r.body + c.data, chunkLen := 0), rest)
  {
    var tail := CRLF + rest;
    assert c.sizeLine + c.data + CRLF + rest == c.sizeLine + (c.data + tail);
    assert |c.data| > 0;
    hide Parse, ValidChunk;
    SizeLine(g, r, c, c.data + tail);
    var r1 := r.(chunkLen := |c.data|, state := BodyChunk);
    ChunkData(g, r1, c.data, tail);
    ChunkEnd(g, r1.(body := r.body + c.data, chunkLen := 0), rest);
  }

  lemma FirstChunk(chunks: seq<Chunk>, rest: string)
    requires chunks != []
    ensures EncodeChunks(chunks) + rest
            == chunks[0].sizeLine + chunks[0].data + CRLF + (EncodeChunks(chunks[1..]) + rest)
    ensures Data(chunks) == chunks[0].data + Data(chunks[1..])
  {}

  lemma {:induction false} AllChunks(g: Grammar, r: Req, chunks: seq<Chunk>, rest: string)
    requires r.state.Body? && r.chunked && forall c | c in chunks :: ValidChunk(c)
    ensures Parse(g, r, EncodeChunks(chunks) + rest)
            == Parse(g, r.(body := r.body + Data(chunks), chunkLen := if chunks == [] then r.chunkLen else 0), rest)
    decreases |chunks|
  {
    if chunks == [] {
      NoChunk(r.body, rest);
    } else {
      FirstChunk(chunks, rest);
      Regroup(r.body, chunks[0].data, Data(chunks[1..]));
      hide *;
      OneChunk(g, r, chunks[0], EncodeChunks(chunks[1..]) + rest);
      AllChunks(g, r.(body := r.body + chunks[0].data, chunkLen := 0), chunks[1..], rest);
    }
  }

  lemma NoChunk(body: string, rest: string)
    ensures EncodeChunks([]) + rest == rest && body + Data([]) == body
  {}

  lemma Regroup(a: string, b: string, c: string)
    ensures a + b + c == a + (b + c)
  {}

  lemma LastLine(g: Grammar, r: Req, last: string, rest: string)
    requires r.state.Body? && r.chunked && ValidLast(last)
    ensures Parse(g, r, last + rest) == Parse(g, r.(state := BodyTrailer), rest)
  {
    NextLineOf(last, rest);
    ParseStep(g, r, last + rest, r.(state := BodyTrailer), rest);
  }

  lemma ClosingLine(g: Grammar, r: Req, rest: string)
    requires r.state.BodyTrailer2?
    ensures Parse(g, r, CRLF + rest) == (OnBody(g, r), rest, Finished)
  {
    CrlfLine(rest);
    ParseStep(g, r, CRLF + rest, OnBody(g, r), rest);
  }

  /** One line of the trailer, or the second one. */
  lemma TrailerLine(g: Grammar, r: Req, line: string, rest: string)
    requires ValidTrailer(line)
    ensures r.state.BodyTrailer? ==>
              Parse(g, r, line + rest) == Parse(g, r.(state := BodyTrailer2), rest)
    ensures r.state.BodyTrailer2? ==>
              Parse(g, r, line + rest) == (r.(state := Invalid), rest, Finished)
  {
    NextLineOf(line, rest);
    if r.state.BodyTrailer? {
      ParseStep(g, r, line + rest, r.(state := BodyTrailer2), rest);
    } else if r.state.BodyTrailer2? {
      ParseStep(g, r, line + rest, r.(state := Invalid), rest);
    }
  }

  /** The end of the trailer: no line or one line is accepted, a second one is not. */
  lemma Trailer(g: Grammar, r: Req, trailer: seq<string>, rest: string)
    requires r.state.BodyTrailer? && forall l | l in trailer :: ValidTrailer(l)
    ensures var r2 := r.(state := BodyTrailer2);
            var (r1, buf1, stop) := Parse(g, r, Concat(trailer) + CRLF + rest);
            if |trailer| <= 1 then (r1, buf1, stop) == (OnBody(g, r2), rest, Finished)
            else r1 == r.(state := Invalid) && stop.Finished?
  {
    hide Parse, ValidTrailer, OnBody;
    var buf := Concat(trailer) + CRLF + rest;
    var r2 := r.(state := BodyTrailer2);
    if trailer == [] {
      assert buf == CRLF + rest;
      CrlfLine(rest);
      ParseStep(g, r, buf, r2, buf);
      ClosingLine(g, r2, rest);
    } else {
      var more := Concat(trailer[1..]) + CRLF + rest;
      assert buf == trailer[0] + more && trailer[0] in trailer;
      TrailerLine(g, r, trailer[0], more);
      if |trailer| == 1 {
        assert more == CRLF + rest;
        ClosingLine(g, r2, rest);
      } else {
        var last := Concat(trailer[2..]) + CRLF + rest;
        assert more == trailer[1] + last && trailer[1] in trailer;
        TrailerLine(g, r2, trailer[1], last);
      }
    }
  }

  /**
   * Chunked round trip: a request waiting for a chunked body takes exactly the coded body out of the
   * buffer and ends with the concatenation of the chunks, if the trailer has at most one line; with more
   * trailer lines it is rejected. A multipart body must also pass the multipart check.
   */
  lemma ChunkedRoundTrip(g: Grammar, r: Req, chunks: seq<Chunk>, last: string, trailer: seq<string>, rest: string)
    requires r.state.Body? && r.chunked
    requires (forall c | c in chunks :: ValidChunk(c)) && ValidLast(last)
    requires forall l | l in trailer :: ValidTrailer(l)
    ensures var (r1, buf1, stop) := Parse(g, r, EncodeBody(chunks, last, trailer) + rest);
            var ct := Get(r.headers, "content-type");
            && r1.body == r.body + Data(chunks) && stop.Finished?
            && (r1.state.Complete? <==> |trailer| <= 1 && (IsMultipart(ct) ==> g.multipart(ct, r1.body)))
            && (|trailer| <= 1 ==> buf1 == rest)
  {
    hide Parse;
    var tail := Concat(trailer) + CRLF + rest;
    assert EncodeBody(chunks, last, trailer) + rest == EncodeChunks(chunks) + (last + tail);
    AllChunks(g, r, chunks, last + tail);
    var r1 := r.(body := r.body + Data(chunks), chunkLen := if chunks == [] then r.chunkLen else 0);
    LastLine(g, r1, last, tail);
    Trailer(g, r1.(state := BodyTrailer), trailer, rest);
  }

  lemma HexLine(h: string)
    requires forall i | 0 <= i < |h| :: IsHex(h[i])
    ensures IsLine(h + CRLF)
  {
    hide FindCRLF;
    var s := h + CRLF;
    assert forall i | 0 <= i < |h| :: s[i] == h[i];
    FindUnique(s, |h|);
  }

  /** The size line every client may write for any length that fits `size_t`. */
  lemma PlainLine(n: nat)
    requires n <= SIZE_MAX
    ensures IsLine(Hex(n) + CRLF) && ChunkSize(Hex(n) + CRLF) == Some(n)
  {
    hide ChunkSize, Hex, FindCRLF;
    ChunkSizeRoundTrip(n, "");
    assert Hex(n) + "" + CRLF == Hex(n) + CRLF;
    HexLine(Hex(n));
  }

  /** Plainly coded data makes valid chunks, so the round trip holds for any data a client may send. */
  lemma PlainChunkIsValid(data: string)
    requires |data| <= SIZE_MAX
    ensures data != "" ==> ValidChunk(Chunk(Hex(|data|) + CRLF, data))
    ensures data == "" ==> ValidLast(Hex(|data|) + CRLF)
  {
    PlainLine(|data|);
  }

  // ----- where a read may end

  function CodedChunk(c: Chunk): string { c.sizeLine + c.data + CRLF }

  /** A proper part of a line holds no line. */
  lemma PartOfLine(line: string, n: nat)
    requires IsLine(line) && n < |line|
    ensures NextLine(line[..n]).0 == ""
  {
    var part := line[..n];
    var k := FindCRLF(part);
    assert k < |part| ==> CrlfAt(part, k) && !CrlfAt(line, k);
  }

  /** The first `n` characters of a chunk, read on their own. */
  lemma PartOfChunk(g: Grammar, r: Req, c: Chunk, n: nat)
    requires r.state.Body? && r.chunked && ValidChunk(c) && n <= |CodedChunk(c)|
    ensures var stop := Parse(g, r, CodedChunk(c)[..n]).2;
            if |c.sizeLine| < n <= |c.sizeLine| + |c.data| then stop == Stalled else stop == Starved
  {
    if n < |c.sizeLine| {
      PartOfSizeLine(g, r, c, n);
    } else {
      var data := CodedChunk(c)[..n][|c.sizeLine|..];
      assert CodedChunk(c)[..n] == c.sizeLine + data && data == (c.data + CRLF)[..n - |c.sizeLine|];
      assert c.data != "";
      hide ValidChunk, CodedChunk, Parse;
      SizeLine(g, r, c, data);
      PartOfData(g, r.(chunkLen := |c.data|, state := BodyChunk), c.data, n - |c.sizeLine|, data);
    }
  }

  lemma PartOfSizeLine(g: Grammar, r: Req, c: Chunk, n: nat)
    requires r.state.Body? && r.chunked && ValidChunk(c) && n < |c.sizeLine|
    ensures n <= |CodedChunk(c)| && Parse(g, r, CodedChunk(c)[..n]).2 == Starved
  {
    assert CodedChunk(c)[..n] == c.sizeLine[..n];
    PartOfLine(c.sizeLine, n);
    hide NextLine, IsLine, ChunkSize, CodedChunk;
  }

  lemma PartOfData(g: Grammar, r: Req, data: string, n: nat, part: string)
    requires r.state.BodyChunk? && r.chunked && r.chunkLen == |data| > 0
    requires n <= |data| + 2 && part == (data + CRLF)[..n]
    ensures Parse(g, r, part).2 == if 0 < n <= |data| then Stalled else Starved
  {
    if n > |data| {
      var rest := CRLF[..n - |data|];
      assert part == data + rest;
      ChunkData(g, r, data, rest);
      var r1 := r.(body := r.body + data, chunkLen := 0);
      if n == |data| + 2 {
        assert rest == CRLF + "";
        ChunkEnd(g, r1, "");
      } else {
        assert NextLine(rest).0 == "";
      }
    }
  }

  /** The first `n` characters of the chunks end after at least one byte of a chunk's data, at or before its last. */
  predicate InChunkData(chunks: seq<Chunk>, n: nat) {
    chunks != [] &&
    var c := chunks[0];
    if n <= |CodedChunk(c)| then |c.sizeLine| < n <= |c.sizeLine| + |c.data|
    else InChunkData(chunks[1..], n - |CodedChunk(c)|)
  }

  /** In the trailer the parser waits or is done. */
  lemma PartOfTrailer(g: Grammar, r: Req, trailer: seq<string>, n: nat)
    requires r.state.BodyTrailer? && n <= |Concat(trailer) + CRLF| && forall l | l in trailer :: ValidTrailer(l)
    ensures var stop := Parse(g, r, (Concat(trailer) + CRLF)[..n]).2;
            && (stop == Starved || stop == Finished)
            && (|trailer| <= 1 && n < |Concat(trailer) + CRLF| ==> stop == Starved)
  {
    var part := (Concat(trailer) + CRLF)[..n];
    if trailer != [] && n >= |trailer[0]| {
      var rest := part[|trailer[0]|..];
      assert trailer[0] in trailer && part == trailer[0] + rest;
      TrailerLine(g, r, trailer[0], rest);
      PartOfTrailerEnd(g, r.(state := BodyTrailer2), rest);
      if |trailer| == 1 {
        assert trailer[1..] == [];
        assert Concat(trailer) == trailer[0] + Concat([]) == trailer[0];
      }
    } else if trailer != [] {
      assert trailer[0] in trailer && part == trailer[0][..n];
      PartOfLine(trailer[0], n);
    } else {
      assert part == CRLF[..n];
      if n == 2 {
        ClosingAlone(g, r);
      }
    }
  }

  lemma PartOfTrailerEnd(g: Grammar, r: Req, rest: string)
    requires r.state.BodyTrailer2?
    ensures var stop := Parse(g, r, rest).2;
            && (stop == Starved || stop == Finished) && (|rest| < 2 ==> stop == Starved)
  {
    hide NextLine, OnBody;
    TurnProgress(g, r, rest);
    OnBodyEnds(g, r);
    var (line, more) := NextLine(rest);
    assert line + more == rest;
  }

  lemma OnBodyEnds(g: Grammar, r: Req)
    ensures Terminal(OnBody(g, r).state)
  {}

  lemma ClosingAlone(g: Grammar, r: Req)
    requires r.state.BodyTrailer?
    ensures Parse(g, r, CRLF).2 == Finished
  {
    assert CRLF + "" == CRLF;
    CrlfLine("");
    ParseStep(g, r, CRLF, r.(state := BodyTrailer2), CRLF);
    ClosingLine(g, r.(state := BodyTrailer2), "");
  }

  lemma PartOfEnd(g: Grammar, r: Req, last: string, trailer: seq<string>, n: nat)
    requires r.state.Body? && r.chunked && ValidLast(last) && forall l | l in trailer :: ValidTrailer(l)
    requires n <= |EncodeBody([], last, trailer)|
    ensures var stop := Parse(g, r, EncodeBody([], last, trailer)[..n]).2;
            && (stop == Starved || stop == Finished)
            && (|trailer| <= 1 && n < |EncodeBody([], last, trailer)| ==> stop == Starved)
  {
    hide Parse, ValidLast, ValidTrailer, EncodeBody, Concat;
    var end := Concat(trailer) + CRLF;
    EndOfBody(last, trailer);
    if n < |last| {
      assert (last + end)[..n] == last[..n];
      PartOfLast(g, r, last, n);
    } else {
      assert (last + end)[..n] == last + end[..n - |last|];
      LastLine(g, r, last, end[..n - |last|]);
      PartOfTrailer(g, r.(state := BodyTrailer), trailer, n - |last|);
    }
  }

  lemma EndOfBody(last: string, trailer: seq<string>)
    ensures EncodeBody([], last, trailer) == last + (Concat(trailer) + CRLF)
  {}

  lemma PartOfLast(g: Grammar, r: Req, last: string, n: nat)
    requires r.state.Body? && r.chunked && ValidLast(last) && n < |last|
    ensures Parse(g, r, last[..n]).2 == Starved
  {
    PartOfLine(last, n);
    hide NextLine, ChunkSize;
  }

  lemma FirstOfBody(chunks: seq<Chunk>, last: string, trailer: seq<string>)
    requires chunks != []
    ensures EncodeBody(chunks, last, trailer) == CodedChunk(chunks[0]) + EncodeBody(chunks[1..], last, trailer)
  {}

  lemma OneCoded(g: Grammar, r: Req, c: Chunk, rest: string)
    requires r.state.Body? && r.chunked && ValidChunk(c)
    ensures Parse(g, r, CodedChunk(c) + rest) == Parse(g, r.(body := r.body + c.data, chunkLen := 0), rest)
  {
    hide Parse, ValidChunk;
    OneChunk(g, r, c, rest);
  }

  /**
   * The positions of a whole chunked body at which a read must not end, exactly: after at least one byte of a
   * chunk's data and at or before its last byte. At every other position the parser waits for the next read,
   * or is done with the body or, in a trailer of several lines, with the request.
   */
  lemma {:induction false} CutOfBody(g: Grammar, r: Req, chunks: seq<Chunk>, last: string, trailer: seq<string>, n: nat)
    requires r.state.Body? && r.chunked && (forall c | c in chunks :: ValidChunk(c)) && ValidLast(last)
    requires (forall l | l in trailer :: ValidTrailer(l)) && n <= |EncodeBody(chunks, last, trailer)|
    ensures var stop := Parse(g, r, EncodeBody(chunks, last, trailer)[..n]).2;
            && (stop == Stalled <==> InChunkData(chunks, n))
            && (stop == Stalled || stop == Starved || stop == Finished)
            && (|trailer| <= 1 && n < |EncodeBody(chunks, last, trailer)| ==> stop != Finished)
    decreases |chunks|
  {
    hide Parse, ValidChunk, ValidLast, ValidTrailer, EncodeBody, CodedChunk;
    if chunks == [] {
      PartOfEnd(g, r, last, trailer, n);
    } else {
      var c, more := chunks[0], EncodeBody(chunks[1..], last, trailer);
      assert c in chunks && forall d | d in chunks[1..] :: d in chunks;
      FirstOfBody(chunks, last, trailer);
      if n <= |CodedChunk(c)| {
        assert (CodedChunk(c) + more)[..n] == CodedChunk(c)[..n];
        PartOfChunk(g, r, c, n);
      } else {
        var k := n - |CodedChunk(c)|;
        assert (CodedChunk(c) + more)[..n] == CodedChunk(c) + more[..k];
        OneCoded(g, r, c, more[..k]);
        CutOfBody(g, r.(body := r.body + c.data, chunkLen := 0), chunks[1..], last, trailer, k);
      }
    }
  }

  lemma {:induction false} BodyEndsClean(chunks: seq<Chunk>, last: string, trailer: seq<string>)
    ensures !InChunkData(chunks, |EncodeBody(chunks, last, trailer)|)
    decreases |chunks|
  {
    if chunks != [] {
      BodyEndsClean(chunks[1..], last, trailer);
      assert |EncodeBody(chunks, last, trailer)| == |CodedChunk(chunks[0])| + |EncodeBody(chunks[1..], last, trailer)|;
    }
  }
}
