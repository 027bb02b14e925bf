/** Literal streams that are read differently when they are cut, each from a new connection on. */
module HttpExamples {
  import opened Lists
  import opened HttpSyntax
  import opened HttpRequest
  import opened HttpConnection
  import opened HttpSplit
  import opened HttpChunks
  import opened HttpStream
  import opened HttpFields
  import opened HttpMessages

  const REQUEST_LINE := "POST / HTTP/1.0" + CRLF
  const HEADER_LINE := "Transfer-Encoding: chunked" + CRLF

  /** What the regular expressions and conversions answer for the two lines of the example. */
  const ANSWERS: Grammar := Grammar(
    line => if line == REQUEST_LINE then Some(RequestLine("POST", "/", "1.0")) else None,
    line => if line == HEADER_LINE then Some(("Transfer-Encoding", "chunked")) else None,
    line => None,
    (value, token) => value == "chunked" && token == "chunked",
    value => None,
    (value, body) => false)

  const UPLOAD: Message :=
    Message(REQUEST_LINE, [HEADER_LINE], Coded([Chunk("2" + CRLF, "ab")], "0" + CRLF, []))

  lemma LiteralLine(s: string)
    requires '\r' !in s
    ensures IsLine(s + CRLF)
  {
    var line := s + CRLF;
    assert forall i | 0 <= i < |s| :: line[i] == s[i] && line[i] != '\r';
    FindUnique(line, |s|);
    hide FindCRLF;
  }

  lemma LiteralLines()
    ensures IsLine(REQUEST_LINE) && IsLine(HEADER_LINE) && IsLine("2" + CRLF) && IsLine("0" + CRLF)
  {
    hide IsLine;
    LiteralLine("POST / HTTP/1.0");
    LiteralLine("Transfer-Encoding: chunked");
    LiteralLine("2");
    LiteralLine("0");
  }

  lemma LiteralSizes()
    ensures ChunkSize("2" + CRLF) == Some(2) && ChunkSize("0" + CRLF) == Some(0)
  {
    hide ChunkSize;
    ChunkSizeRoundTrip(2, "");
    ChunkSizeRoundTrip(0, "");
    assert Hex(2) == "2" && Hex(0) == "0";
    assert "2" + "" == "2" && "0" + "" == "0";
  }

  /** What the two lines make of a new request, given what is answered for them. */
  lemma ChunkedHead(g: Grammar, line: string, header: string) returns (r: Req)
    requires g.requestLine(line) == Some(RequestLine("POST", "/", "1.0"))
    requires g.header(header) == Some(("Transfer-Encoding", "chunked")) && IsLine(header) && header != CRLF
    requires !g.listContains("", "upgrade") && g.listContains("chunked", "chunked")
    ensures HeadersFine(g, OnRequestLine(g, NewReq(1), line), [header])
    ensures OnHeaders(g, OnRequestLine(g, NewReq(1), line), [header]) == r
    ensures var r1 := OnEndOfHeaders(g, r); r1.state.Body? && r1.chunked && "content-type" !in r1.headers
  {
    hide IsLine, Lower;
    LowerName();
    var r0 := OnRequestLine(g, NewReq(1), line);
    r := OnHeaderLine(g, r0, header);
    assert r == r0.(lastHeader := "Transfer-Encoding", headers := map["transfer-encoding" := "chunked"]);
    assert [header][1..] == [];
  }

  lemma LowerName()
    ensures Lower("Transfer-Encoding") == "transfer-encoding"
  {}

  lemma UploadIsValid()
    ensures ValidMessage(ANSWERS, 1, UPLOAD)
  {
    hide IsLine, ChunkSize, HeadersFine, OnHeaders, OnEndOfHeaders, OnRequestLine;
    LiteralLines();
    LiteralSizes();
    NotBlank("POST / HTTP/1.0");
    NotBlank("Transfer-Encoding: chunked");
    var r := ChunkedHead(ANSWERS, REQUEST_LINE, HEADER_LINE);
  }

  lemma NotBlank(s: string)
    requires s != ""
    ensures s + CRLF != CRLF
  {
    assert |s + CRLF| > |CRLF|;
  }

  // ----- a chunk cut after its first byte

  /** The byte of the first read is counted twice, and then the chunk does not end with a CRLF. */
  lemma CutChunk(g: Grammar, r: Req)
    requires r.state.BodyChunk? && r.chunked && r.chunkLen == 2 && r.body == ""
    ensures var r1 := r.(body := "a", chunkLen := 1);
            && Parse(g, r, "a") == (r1, "a", Stalled)
            && Parse(g, r1, "ab\r\n") == (r1.(body := "aa", chunkLen := 0, state := Invalid), "", Finished)
  {
    assert "" + "a" == "a";
    var data, r1 := "ab\r\n", r.(body := "a", chunkLen := 1);
    var r2 := r1.(body := "aa", chunkLen := 0);
    assert data[..1] == "a" && data[1..] == "b\r\n" && "a" + "a" == "aa";
    assert Turn(g, r1, data) == (r2, "b\r\n", Go);
    NextLineOf("b\r\n", "");
    assert Turn(g, r2, "b\r\n") == (r2.(state := Invalid), "", Go);
    assert Parse(g, r2, "b\r\n") == (r2.(state := Invalid), "", Finished);
  }

  const FIRST_READ := Head(UPLOAD) + ("2" + CRLF + "a")
  const SECOND_READ := "b" + CRLF + ("0" + CRLF + CRLF)

  lemma ReadsMakeUpload()
    ensures FIRST_READ + SECOND_READ == Encode(UPLOAD)
  {
    var c := Chunk("2" + CRLF, "ab");
    assert [c][1..] == [] && EncodeChunks([c]) == c.sizeLine + c.data + CRLF + "";
    assert EncodeEntity(UPLOAD.entity) == "2" + CRLF + "ab" + CRLF + "0" + CRLF + CRLF;
    hide Head;
  }

  /** In one read the request is accepted with the body "ab". */
  lemma UploadInOneRead()
    ensures var c := Absorb(ANSWERS, EMPTY, Encode(UPLOAD));
            |c.queue| == 1 && c.queue[0].state.Complete? && c.queue[0].body == "ab" && c.buffer == ""
  {
    hide Absorb, Encode, ValidMessage, WellFormed, EncodeAll;
    UploadIsValid();
    OneMessage();
    assert Concat([Encode(UPLOAD)]) == Encode(UPLOAD) by { assert [Encode(UPLOAD)][1..] == []; }
    FirstMessages(ANSWERS, [UPLOAD], [Encode(UPLOAD)]);
    AbsorbOne(ANSWERS, EMPTY, Encode(UPLOAD));
    var c := Absorb(ANSWERS, EMPTY, Encode(UPLOAD));
    assert Tells(ANSWERS, [UPLOAD][0], 1 + 0, c.queue[0]);
    UploadBody();
  }

  lemma OneMessage()
    requires ValidMessage(ANSWERS, 1, UPLOAD)
    ensures AllWellFormed(ANSWERS, [UPLOAD]) && EncodeAll([UPLOAD]) == Encode(UPLOAD)
  {
    hide ValidMessage, Encode, WellFormed;
    assert [UPLOAD][1..] == [];
    ValidExactly(ANSWERS, 1, UPLOAD);
  }

  lemma UploadBody()
    ensures BodyOf(UPLOAD.entity) == "ab"
  {
    var c := Chunk("2" + CRLF, "ab");
    assert [c][1..] == [] && Data([c]) == "ab" + "" == "ab";
  }

  lemma AbsorbOne(g: Grammar, c: Conn, a: string)
    ensures AbsorbAll(g, c, [a]) == Absorb(g, c, a)
  {
    hide Absorb;
    assert [a][1..] == [];
    assert AbsorbAll(g, Absorb(g, c, a), []) == Absorb(g, c, a);
  }

  /** The same bytes in two reads, cut after the first byte of the chunk: the request is rejected. */
  lemma CutChunkIsRejected()
    ensures FIRST_READ + SECOND_READ == Encode(UPLOAD)
    ensures Absorb(ANSWERS, Absorb(ANSWERS, EMPTY, FIRST_READ), SECOND_READ).current.value.state.Invalid?
  {
    ReadsMakeUpload();
    var r := FirstRead();
    SecondRead(r);
  }

  lemma FirstRead() returns (r: Req)
    ensures r.state.BodyChunk? && r.chunked && r.chunkLen == 2 && r.body == ""
    ensures Absorb(ANSWERS, EMPTY, FIRST_READ)
            == Conn("a", Some(r.(body := "a", chunkLen := 1)), 1, [])
  {
    UploadIsValid();
    LiteralLines();
    LiteralSizes();
    var r0 := AfterHead(ANSWERS, 1, UPLOAD);
    HeadKeeps(ANSWERS, 1, UPLOAD);
    r := r0.(chunkLen := 2, state := BodyChunk);
    hide Parse, AfterHead, Head, IsLine, ChunkSize, Pass, Pump;
    ParseHead(ANSWERS, 1, UPLOAD, "2" + CRLF + "a");
    SizeLine(ANSWERS, r0, Chunk("2" + CRLF, "ab"), "a");
    CutChunk(ANSWERS, r);
    var d := With(EMPTY, FIRST_READ);
    assert "" + FIRST_READ == FIRST_READ;
    PassSays(ANSWERS, d);
    PumpUnfold(ANSWERS, d);
  }

  lemma SecondRead(r: Req)
    requires r.state.BodyChunk? && r.chunked && r.chunkLen == 2 && r.body == ""
    ensures Absorb(ANSWERS, Conn("a", Some(r.(body := "a", chunkLen := 1)), 1, []), SECOND_READ)
            .current.value.state.Invalid?
  {
    hide Parse, Pass, Pump;
    var r1 := r.(body := "a", chunkLen := 1);
    CutChunk(ANSWERS, r);
    CutParse(ANSWERS, r1, "ab" + CRLF, "0" + CRLF + CRLF);
    assert "ab\r\n" == "ab" + CRLF;
    assert "a" + SECOND_READ == "ab" + CRLF + ("0" + CRLF + CRLF);
    var d := With(Conn("a", Some(r1), 1, []), SECOND_READ);
    RenewedBusy(d);
    PassSays(ANSWERS, d);
    PumpUnfold(ANSWERS, d);
  }

  // ----- a blank line before the request line

  /** Two blank lines: in two reads both are skipped, in one read the second one stays. */
  lemma BlankLines(g: Grammar)
    ensures Absorb(g, EMPTY, CRLF + CRLF) == Conn(CRLF, Some(NewReq(1)), 1, [])
    ensures Absorb(g, Absorb(g, EMPTY, CRLF), CRLF) == Conn("", Some(NewReq(1)), 1, [])
  {
    var c := Conn("", Some(NewReq(1)), 1, []);
    hide Pump;
    assert CRLF + "" == CRLF && "" + CRLF == CRLF && "" + (CRLF + CRLF) == CRLF + CRLF;
    BlankAtOnce(g, c, "");
    BlankAtOnce(g, c, CRLF);
    SameRenewal(g, With(EMPTY, CRLF), With(c, CRLF));
    SameRenewal(g, With(EMPTY, CRLF + CRLF), With(c, CRLF + CRLF));
  }

  // ----- a trailer of two lines

  const TRAILER := ["A: 1" + CRLF, "B: 2" + CRLF]

  /** The same request with an empty body and two trailer lines is rejected. */
  lemma TwoTrailerLines()
    ensures Absorb(ANSWERS, EMPTY, Head(UPLOAD) + EncodeBody([], "0" + CRLF, TRAILER)).current.value.state.Invalid?
  {
    UploadIsValid();
    UploadHead();
    LiteralLines();
    LiteralSizes();
    LiteralLine("A: 1");
    LiteralLine("B: 2");
    NotBlank("A: 1");
    NotBlank("B: 2");
    hide Parse, AfterHead, Head, IsLine, ChunkSize, Pass, Pump, EncodeBody, ValidMessage;
    var body := EncodeBody([], "0" + CRLF, TRAILER);
    assert body + "" == body;
    ParseHead(ANSWERS, 1, UPLOAD, body);
    ChunkedRoundTrip(ANSWERS, AfterHead(ANSWERS, 1, UPLOAD), [], "0" + CRLF, TRAILER, "");
    var d := With(EMPTY, Head(UPLOAD) + body);
    assert "" + (Head(UPLOAD) + body) == Head(UPLOAD) + body;
    PassSays(ANSWERS, d);
    PumpUnfold(ANSWERS, d);
  }

  lemma UploadHead()
    ensures ValidMessage(ANSWERS, 1, UPLOAD) ==>
              AfterHead(ANSWERS, 1, UPLOAD).state.Body? && AfterHead(ANSWERS, 1, UPLOAD).chunked
  {
    hide AfterHead;
  }
}
