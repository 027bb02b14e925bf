/**
 * Pipelined streams made of whole requests: what the connection makes of them, and at which positions such a
 * stream may be cut.
 */
module HttpMessages {
  import opened Lists
  import opened HttpSyntax
  import opened HttpRequest
  import opened HttpConnection
  import opened HttpFields
  import opened HttpSplit
  import opened HttpChunks
  import opened HttpStream

  /** What follows the headers: nothing, as many bytes as they declare, or chunks. */
  datatype Entity = Nothing | Sized(data: string) | Coded(chunks: seq<Chunk>, last: string, trailer: seq<string>)

  datatype Message = Message(line: string, headers: seq<string>, entity: Entity)

  function Head(m: Message): string { m.line + (Concat(m.headers) + CRLF) }

  function EncodeEntity(b: Entity): string {
    match b
    case Nothing => ""
    case Sized(data) => data
    case Coded(chunks, last, trailer) => EncodeBody(chunks, last, trailer)
  }

  function Encode(m: Message): string { Head(m) + EncodeEntity(m.entity) }

  // ----- what the parser makes of a message

  function AfterHead(g: Grammar, id: nat, m: Message): Req {
    OnEndOfHeaders(g, OnHeaders(g, OnRequestLine(g, NewReq(id), m.line), m.headers))
  }

  predicate BodyFine(g: Grammar, r: Req, body: string) {
    var ct := Get(r.headers, "content-type"); IsMultipart(ct) ==> g.multipart(ct, body)
  }

  /** A request the server accepts, whose entity is the one its headers announce. */
  predicate ValidMessage(g: Grammar, id: nat, m: Message) {
    && IsLine(m.line) && m.line != CRLF
    && HeadersFine(g, OnRequestLine(g, NewReq(id), m.line), m.headers)
    && var r := AfterHead(g, id, m);
       match m.entity
       case Nothing => r.state.Complete?
       case Sized(data) =>
         && r.state.Body? && !r.chunked && BodyFine(g, r, data)
         && "content-length" in r.headers && g.contentLength(r.headers["content-length"]) == Some(|data|)
       case Coded(chunks, last, trailer) =>
         && r.state.Body? && r.chunked && BodyFine(g, r, Data(chunks))
         && (forall c | c in chunks :: ValidChunk(c)) && ValidLast(last)
         && |trailer| <= 1 && forall l | l in trailer :: ValidTrailer(l)
  }

  /** The completed request. */
  function RequestOf(g: Grammar, id: nat, m: Message): Req {
    var r := AfterHead(g, id, m);
    match m.entity
    case Nothing => r
    case Sized(data) => OnBody(g, r.(body := data))
    case Coded(chunks, _, _) => OnBody(g, r.(body := Data(chunks), chunkLen := 0, state := BodyTrailer2))
  }

  // ----- the same without the parser

  /**
   * A request the server accepts, by its lines alone: a request line with one of eight methods, fine header lines,
   * and the entity that they announce.
   */
  predicate WellFormed(g: Grammar, m: Message) {
    && IsLine(m.line) && m.line != CRLF
    && g.requestLine(m.line).Some? && g.requestLine(m.line).value.verb in METHODS
    && FineLines(g, m.headers)
    && match Announced(g, g.requestLine(m.line).value.version, m.headers)
       case Rejected => false
       case Empty => m.entity.Nothing?
       case Declared(value) =>
         && m.entity.Sized? && g.contentLength(value) == Some(|m.entity.data|)
         && FineBody(g, m.headers, m.entity.data)
       case ByChunks =>
         && m.entity.Coded? && FineBody(g, m.headers, Data(m.entity.chunks))
         && (forall c | c in m.entity.chunks :: ValidChunk(c)) && ValidLast(m.entity.last)
         && |m.entity.trailer| <= 1 && forall l | l in m.entity.trailer :: ValidTrailer(l)
  }

  function BodyOf(b: Entity): string {
    match b
    case Nothing => ""
    case Sized(data) => data
    case Coded(chunks, _, _) => Data(chunks)
  }

  /**
   * The request is what the message says: method, URI and version are those on its line, the value of each field
   * is that of its lines (with an empty content type added when there is a body), and the body is what follows.
   */
  ghost predicate Tells(g: Grammar, m: Message, id: nat, r: Req) {
    && r.state.Complete? && r.id == id
    && g.requestLine(m.line) == Some(RequestLine(r.verb, r.uri, r.version))
    && (forall key ::
          key in r.headers <==>
            FieldValue(g, m.headers, key).Some? || (key == "content-type" && !m.entity.Nothing?))
    && (forall key | key in r.headers :: r.headers[key] == Field(g, m.headers, key))
    && r.body == BodyOf(m.entity)
  }

  /** The request line opens a request without fields. */
  lemma LineOpens(g: Grammar, id: nat, line: string)
    ensures var r := OnRequestLine(g, NewReq(id), line);
            && (r.state.Headers? <==> g.requestLine(line).Some? && g.requestLine(line).value.verb in METHODS)
            && (!r.state.Headers? ==> r.state.Invalid?)
            && (r.state.Headers? ==>
                  && HasFields(g, r, r, []) && r.id == id && r.body == "" && !r.chunked && r.chunkLen == 0
                  && g.requestLine(line) == Some(RequestLine(r.verb, r.uri, r.version)))
  {
    if g.requestLine(line).Some? {
      TablesAgree(g.requestLine(line).value.verb);
    }
  }

  /** The header lines are accepted if and only if they are fine, and then leave their fields. */
  lemma LinesFill(g: Grammar, id: nat, m: Message)
    requires OnRequestLine(g, NewReq(id), m.line).state.Headers?
    ensures var r := OnRequestLine(g, NewReq(id), m.line);
            && (HeadersFine(g, r, m.headers) <==> FineLines(g, m.headers))
            && (HeadersFine(g, r, m.headers) ==> HasFields(g, r, OnHeaders(g, r, m.headers), m.headers))
  {
    hide OnRequestLine, FineLine, HasFields;
    var r := OnRequestLine(g, NewReq(id), m.line);
    LineOpens(g, id, m.line);
    HeadersAre(g, r, r, [], m.headers);
    assert [] + m.headers == m.headers;
  }

  /** What the parser accepts is just that. */
  lemma ValidExactly(g: Grammar, id: nat, m: Message)
    ensures ValidMessage(g, id, m) <==> WellFormed(g, m)
  {
    hide OnRequestLine, FineLines, HeadersFine, OnHeaders, HasFields, OnEndOfHeaders, Announced, FineBody, IsLine,
      ValidChunk, ValidLast, ValidTrailer;
    var r := OnRequestLine(g, NewReq(id), m.line);
    LineOpens(g, id, m.line);
    if r.state.Headers? {
      LinesFill(g, id, m);
      if HeadersFine(g, r, m.headers) {
        var r1 := OnHeaders(g, r, m.headers);
        EndIsAnnounced(g, r, r1, m.headers);
        BodyIsFine(g, r, r1, m.headers, BodyOf(m.entity));
      }
    } else {
      NoHeaderState(g, r, m.headers);
    }
  }

  lemma NoHeaderState(g: Grammar, r: Req, headers: seq<string>)
    requires !r.state.Headers?
    ensures !HeadersFine(g, r, headers)
  {}

  /** And the request it completes is the one the message tells. */
  lemma RequestTells(g: Grammar, id: nat, m: Message)
    requires WellFormed(g, m)
    ensures Tells(g, m, id, RequestOf(g, id, m))
  {
    hide OnRequestLine, FineLines, HeadersFine, OnHeaders, OnEndOfHeaders, Announced, FineBody, IsLine, OnHeaderLine,
      ValidChunk, ValidLast, ValidTrailer, FieldValue, Owner;
    ValidExactly(g, id, m);
    var r := OnRequestLine(g, NewReq(id), m.line);
    LineOpens(g, id, m.line);
    LinesFill(g, id, m);
    var r1 := OnHeaders(g, r, m.headers);
    EndIsAnnounced(g, r, r1, m.headers);
    BodyIsFine(g, r, r1, m.headers, BodyOf(m.entity));
  }

  /** An acceptable head: one of eight methods, fine header lines, and a host for HTTP/1.1. */
  predicate FineHead(g: Grammar, m: Message) {
    && g.requestLine(m.line).Some? && g.requestLine(m.line).value.verb in METHODS
    && FineLines(g, m.headers)
    && !Announced(g, g.requestLine(m.line).value.version, m.headers).Rejected?
  }

  /**
   * A head made of whole lines is accepted, and the parser goes on behind it, if and only if it is acceptable; if not,
   * the request is invalid, whatever follows.
   */
  lemma HeadVerdict(g: Grammar, id: nat, m: Message, rest: string)
    requires IsLine(m.line) && m.line != CRLF && forall l | l in m.headers :: IsLine(l) && l != CRLF
    ensures FineHead(g, m) ==>
              && !AfterHead(g, id, m).state.Invalid?
              && Parse(g, NewReq(id), Head(m) + rest) == Parse(g, AfterHead(g, id, m), rest)
    ensures !FineHead(g, m) ==> Parse(g, NewReq(id), Head(m) + rest).0.state.Invalid?
  {
    hide Parse, OnRequestLine, FineLines, HeadersFine, OnHeaders, Announced, IsLine, HasFields, OnEndOfHeaders, Concat;
    var more := Concat(m.headers) + CRLF + rest;
    assert Head(m) + rest == m.line + more;
    LineStep(g, id, m.line, more);
    LineOpens(g, id, m.line);
    var r := OnRequestLine(g, NewReq(id), m.line);
    if r.state.Headers? {
      LinesFill(g, id, m);
      if HeadersFine(g, r, m.headers) {
        EndIsAnnounced(g, r, OnHeaders(g, r, m.headers), m.headers);
        ParseHeaders(g, r, m.headers, rest);
        InvalidStays(g, AfterHead(g, id, m), rest);
      } else {
        StopsAtBadLine(g, r, r, [], m.headers, rest);
      }
    } else {
      InvalidStays(g, r, more);
    }
  }

  lemma InvalidStays(g: Grammar, r: Req, rest: string)
    ensures r.state.Invalid? ==> Parse(g, r, rest).0 == r
  {}

  lemma {:induction false} StopsAtBadLine(g: Grammar, start: Req, r: Req, front: seq<string>, lines: seq<string>,
                                          rest: string)
    requires start.state.Headers? && HasFields(g, start, r, front) && !HeadersFine(g, r, lines)
    requires forall l | l in lines :: IsLine(l) && l != CRLF
    ensures Parse(g, r, Concat(lines) + CRLF + rest).0.state.Invalid?
    decreases |lines|
  {
    hide Parse, OnHeaderLine, IsLine, HasFields, FineLine, Concat;
    FieldsSay(g, start, r, front);
    assert lines != [];
    var more := Concat(lines[1..]) + CRLF + rest;
    FirstHeader(lines);
    assert Concat(lines) + CRLF + rest == lines[0] + more;
    assert lines[0] in lines && forall l | l in lines[1..] :: l in lines;
    HeaderStep(g, r, lines[0], more);
    OneLine(g, start, r, front, lines[0]);
    var r1 := OnHeaderLine(g, r, lines[0]);
    if FineLine(g, front, lines[0]) {
      StopsAtBadLine(g, start, r1, front + [lines[0]], lines[1..], rest);
    } else {
      InvalidStays(g, r1, more);
    }
  }

  lemma {:induction false} ParseHeaders(g: Grammar, r: Req, headers: seq<string>, rest: string)
    requires HeadersFine(g, r, headers)
    ensures Parse(g, r, Concat(headers) + CRLF + rest) == Parse(g, OnEndOfHeaders(g, OnHeaders(g, r, headers)), rest)
    decreases |headers|
  {
    if headers == [] {
      assert Concat(headers) + CRLF + rest == CRLF + rest;
      CrlfLine(rest);
      hide NextLine;
      ParseStep(g, r, CRLF + rest, OnEndOfHeaders(g, r), rest);
    } else {
      var more := Concat(headers[1..]) + CRLF + rest;
      assert Concat(headers) + CRLF + rest == headers[0] + more;
      HeaderStep(g, r, headers[0], more);
      hide Parse, IsLine, OnHeaderLine, OnEndOfHeaders;
      ParseHeaders(g, OnHeaderLine(g, r, headers[0]), headers[1..], rest);
    }
  }

  lemma HeaderStep(g: Grammar, r: Req, line: string, rest: string)
    requires r.state.Headers? && IsLine(line) && line != CRLF
    ensures Parse(g, r, line + rest) == Parse(g, OnHeaderLine(g, r, line), rest)
  {
    NextLineOf(line, rest);
    hide NextLine, IsLine;
    ParseStep(g, r, line + rest, OnHeaderLine(g, r, line), rest);
  }

  lemma ParseHead(g: Grammar, id: nat, m: Message, rest: string)
    requires ValidMessage(g, id, m)
    ensures Parse(g, NewReq(id), Head(m) + rest) == Parse(g, AfterHead(g, id, m), rest)
  {
    var more := Concat(m.headers) + CRLF + rest;
    assert Head(m) + rest == m.line + more;
    NextLineOf(m.line, more);
    hide NextLine, IsLine;
    ParseStep(g, NewReq(id), m.line + more, OnRequestLine(g, NewReq(id), m.line), more);
    ParseHeaders(g, OnRequestLine(g, NewReq(id), m.line), m.headers, rest);
  }

  lemma {:induction false} HeadersKeep(g: Grammar, r: Req, headers: seq<string>)
    requires HeadersFine(g, r, headers)
    ensures var r1 := OnHeaders(g, r, headers);
            && r1.state.Headers? && r1.body == r.body && r1.chunkLen == r.chunkLen
            && r1.id == r.id && r1.chunked == r.chunked
    decreases |headers|
  {
    if headers != [] {
      HeadersKeep(g, OnHeaderLine(g, r, headers[0]), headers[1..]);
    }
  }

  lemma HeadKeeps(g: Grammar, id: nat, m: Message)
    requires ValidMessage(g, id, m)
    ensures var r := AfterHead(g, id, m); r.body == "" && r.chunkLen == 0 && r.id == id
  {
    HeadersKeep(g, OnRequestLine(g, NewReq(id), m.line), m.headers);
  }

  /** One message, completely in the buffer. */
  lemma ParseMessage(g: Grammar, id: nat, m: Message, rest: string)
    requires ValidMessage(g, id, m)
    ensures Parse(g, NewReq(id), Encode(m) + rest) == (RequestOf(g, id, m), rest, Finished)
    ensures RequestOf(g, id, m).state.Complete? && RequestOf(g, id, m).id == id
  {
    var r := AfterHead(g, id, m);
    assert Encode(m) + rest == Head(m) + (EncodeEntity(m.entity) + rest);
    ParseHead(g, id, m, EncodeEntity(m.entity) + rest);
    HeadKeeps(g, id, m);
    hide Parse, AfterHead, ValidChunk, ValidLast, ValidTrailer;
    match m.entity
    case Nothing => CompleteParses(g, r, rest);
    case Sized(data) => SizedParses(g, r, data, rest);
    case Coded(chunks, last, trailer) => CodedParses(g, r, chunks, last, trailer, rest);
  }

  lemma CompleteParses(g: Grammar, r: Req, rest: string)
    requires r.state.Complete?
    ensures "" + rest == rest && Parse(g, r, rest) == (r, rest, Finished)
  {}

  lemma SizedParses(g: Grammar, r: Req, data: string, rest: string)
    requires r.state.Body? && !r.chunked && BodyFine(g, r, data)
    requires "content-length" in r.headers && g.contentLength(r.headers["content-length"]) == Some(|data|)
    ensures var r1 := OnBody(g, r.(body := data));
            r1.state.Complete? && Parse(g, r, data + rest) == (r1, rest, Finished)
  {
    var buf := data + rest;
    assert buf[..|data|] == data && buf[|data|..] == rest;
    ParseStep(g, r, buf, OnBody(g, r.(body := data)), rest);
  }

  lemma CodedParses(g: Grammar, r: Req, chunks: seq<Chunk>, last: string, trailer: seq<string>, rest: string)
    requires r.state.Body? && r.chunked && r.body == "" && r.chunkLen == 0 && BodyFine(g, r, Data(chunks))
    requires (forall c | c in chunks :: ValidChunk(c)) && ValidLast(last)
    requires |trailer| <= 1 && forall l | l in trailer :: ValidTrailer(l)
    ensures var r1 := OnBody(g, r.(body := Data(chunks), chunkLen := 0, state := BodyTrailer2));
            r1.state.Complete? && Parse(g, r, EncodeBody(chunks, last, trailer) + rest) == (r1, rest, Finished)
  {
    hide Parse, ValidChunk, ValidLast, ValidTrailer;
    var tail := Concat(trailer) + CRLF + rest;
    assert EncodeBody(chunks, last, trailer) + rest == EncodeChunks(chunks) + (last + tail);
    AllChunks(g, r, chunks, last + tail);
    assert "" + Data(chunks) == Data(chunks);
    var r1 := r.(body := Data(chunks), chunkLen := 0);
    LastLine(g, r1, last, tail);
    Trailer(g, r1.(state := BodyTrailer), trailer, rest);
  }

  // ----- pipelined messages

  function EncodeAll(ms: seq<Message>): string {
    if ms == [] then "" else Encode(ms[0]) + EncodeAll(ms[1..])
  }

  predicate AllWellFormed(g: Grammar, ms: seq<Message>) { forall m | m in ms :: WellFormed(g, m) }

  lemma FirstIsValid(g: Grammar, id: nat, ms: seq<Message>)
    requires ms != [] && AllWellFormed(g, ms)
    ensures ValidMessage(g, id, ms[0]) && AllWellFormed(g, ms[1..])
  {
    hide WellFormed, ValidMessage;
    assert ms[0] in ms;
    ValidExactly(g, id, ms[0]);
  }

  /** The completed requests, numbered from `id`. */
  function Requests(g: Grammar, id: nat, ms: seq<Message>): (rs: seq<Req>)
    ensures |rs| == |ms|
    decreases |ms|
  {
    if ms == [] then [] else [RequestOf(g, id, ms[0])] + Requests(g, id + 1, ms[1..])
  }

  /** One request for each message, in order, that tells what the message says, numbered from `id`. */
  ghost predicate AllTold(g: Grammar, ms: seq<Message>, id: nat, rs: seq<Req>) {
    |rs| == |ms| && forall i | 0 <= i < |ms| :: Tells(g, ms[i], id + i, rs[i])
  }

  lemma {:induction false} RequestsTell(g: Grammar, id: nat, ms: seq<Message>)
    requires AllWellFormed(g, ms)
    ensures AllTold(g, ms, id, Requests(g, id, ms))
    decreases |ms|
  {
    hide WellFormed, Tells, RequestOf;
    if ms != [] {
      assert ms[0] in ms;
      RequestTells(g, id, ms[0]);
      RequestsTell(g, id + 1, ms[1..]);
      var rest := Requests(g, id + 1, ms[1..]);
      assert forall i | 0 <= i < |ms| - 1 :: Tells(g, ms[1..][i], id + 1 + i, rest[i]);
      assert forall i | 1 <= i < |ms| :: ms[i] == ms[1..][i - 1];
    }
  }

  /** The connection `d` has taken in the messages: it has queued them behind the others, and waits for the next. */
  ghost predicate TakenIn(g: Grammar, c: Conn, ms: seq<Message>, d: Conn) {
    && d.buffer == "" && d.requests == c.requests + |ms| && d.current == Some(NewReq(d.requests))
    && |c.queue| <= |d.queue| && d.queue[..|c.queue|] == c.queue
    && AllTold(g, ms, c.requests, d.queue[|c.queue|..])
  }

  lemma ServedIsTaken(g: Grammar, c: Conn, ms: seq<Message>)
    requires Ready(c) && AllWellFormed(g, ms)
    ensures TakenIn(g, c, ms, Served(g, c, ms))
  {
    hide WellFormed, AllTold, Requests;
    RequestsTell(g, c.requests, ms);
    var rs := Requests(g, c.requests, ms);
    assert (c.queue + rs)[|c.queue|..] == rs && (c.queue + rs)[..|c.queue|] == c.queue;
  }

  /** A connection that has nothing buffered and is about to read a request line. */
  predicate Ready(c: Conn) { c.buffer == "" && c.current == Some(NewReq(c.requests)) && c.requests > 0 }

  /** That connection after the messages. */
  function Served(g: Grammar, c: Conn, ms: seq<Message>): Conn
    requires Ready(c)
  {
    Conn("", Some(NewReq(c.requests + |ms|)), c.requests + |ms|, c.queue + Requests(g, c.requests, ms))
  }

  /** That connection after one message. */
  function ServedOne(g: Grammar, c: Conn, m: Message): (d: Conn)
    requires Ready(c)
    ensures Ready(d) && d.requests == c.requests + 1
  {
    c.(requests := c.requests + 1, current := Some(NewReq(c.requests + 1)),
       queue := c.queue + [RequestOf(g, c.requests, m)])
  }

  lemma ServedFirst(g: Grammar, c: Conn, ms: seq<Message>)
    requires Ready(c) && ms != []
    ensures Served(g, c, ms) == Served(g, ServedOne(g, c, ms[0]), ms[1..])
  {
    hide RequestOf;
    var r := RequestOf(g, c.requests, ms[0]);
    assert c.queue + [r] + Requests(g, c.requests + 1, ms[1..])
        == c.queue + ([r] + Requests(g, c.requests + 1, ms[1..]));
  }

  lemma ServedNone(g: Grammar, c: Conn)
    requires Ready(c)
    ensures Served(g, c, []) == c
  {
    assert c.queue + [] == c.queue;
  }

  lemma PumpMessage(g: Grammar, c: Conn, m: Message, rest: string)
    requires Ready(c) && ValidMessage(g, c.requests, m)
    ensures Pump(g, c.(buffer := Encode(m) + rest)) == Pump(g, ServedOne(g, c, m).(buffer := rest))
  {
    hide Pass, Pump, Parse, Encode, RequestOf, ValidMessage;
    var d := c.(buffer := Encode(m) + rest);
    assert Renewed(d) == d;
    ParseMessage(g, c.requests, m, rest);
    PassSays(g, d);
    PumpUnfold(g, d);
    var d1 := d.(current := Some(RequestOf(g, c.requests, m)), buffer := rest);
    assert Pump(g, d) == Pump(g, d1);
    SameRenewal(g, d1, ServedOne(g, c, m).(buffer := rest));
  }

  /** A completed request is queued by the next pass. */
  lemma SameRenewal(g: Grammar, c: Conn, d: Conn)
    requires !Busy(c) && Busy(d) && Renewed(c) == d
    ensures Pump(g, c) == Pump(g, d)
  {
    hide Pass, Pump, Parse, Renewed;
    assert Renewed(d) == d by { RenewedBusy(d); }
    PassSays(g, c);
    PassSays(g, d);
    RenewedBuffer(c);
    PumpUnfold(g, c);
    PumpUnfold(g, d);
  }

  lemma RenewedBusy(c: Conn)
    requires Busy(c)
    ensures Renewed(c) == c
  {}

  lemma RenewedBuffer(c: Conn)
    ensures Renewed(c).buffer == c.buffer
  {}

  /** A stream of well-formed messages in one read: exactly these requests are queued, in order. */
  lemma PumpMessages(g: Grammar, c: Conn, ms: seq<Message>)
    requires Ready(c) && AllWellFormed(g, ms)
    ensures var (d, stop) := Pump(g, c.(buffer := EncodeAll(ms))); TakenIn(g, c, ms, d) && stop.Starved?
  {
    hide Pump, TakenIn, Served;
    ServesAll(g, c, ms);
    ServedIsTaken(g, c, ms);
  }

  lemma {:induction false} ServesAll(g: Grammar, c: Conn, ms: seq<Message>)
    requires Ready(c) && AllWellFormed(g, ms)
    ensures Pump(g, c.(buffer := EncodeAll(ms))) == (Served(g, c, ms), Starved)
    decreases |ms|
  {
    hide Pump, Encode, ValidMessage, Served, ServedOne, Ready, AllWellFormed;
    if ms == [] {
      PumpNothing(g, c);
      ServedNone(g, c);
      BufferNothing(c);
    } else {
      FirstIsValid(g, c.requests, ms);
      PumpMessage(g, c, ms[0], EncodeAll(ms[1..]));
      ServedFirst(g, c, ms);
      ServesAll(g, ServedOne(g, c, ms[0]), ms[1..]);
    }
  }

  lemma BufferNothing(c: Conn)
    requires Ready(c)
    ensures c.(buffer := "") == c
  {}

  lemma PumpNothing(g: Grammar, c: Conn)
    requires Ready(c)
    ensures Pump(g, c) == (c, Starved)
  {
    assert Renewed(c) == c;
    LandmarkWaits(g, c.current.value);
    PassSays(g, c);
    PumpUnfold(g, c);
    hide Pump, Parse, Pass;
  }

  // ----- cuts

  /** The first `n` bytes of a message end inside the data of a chunk. */
  predicate InMessageData(m: Message, n: nat) {
    m.entity.Coded? && n > |Head(m)| && InChunkData(m.entity.chunks, n - |Head(m)|)
  }

  /** The first `n` bytes of the stream do. */
  predicate InData(ms: seq<Message>, n: nat) {
    ms != [] &&
    if n <= |Encode(ms[0])| then InMessageData(ms[0], n) else InData(ms[1..], n - |Encode(ms[0])|)
  }

  /** A part of a line, or of the header lines, just waits. */
  lemma {:induction false} PartOfHeaders(g: Grammar, r: Req, headers: seq<string>, n: nat)
    requires HeadersFine(g, r, headers) && n < |Concat(headers) + CRLF|
    ensures Parse(g, r, (Concat(headers) + CRLF)[..n]).2 == Starved
    decreases |headers|
  {
    hide Parse, IsLine, OnHeaderLine, Concat;
    if headers == [] {
      NoHeaders();
      PartWaits(g, r, CRLF, n);
    } else {
      var line, more := headers[0], Concat(headers[1..]) + CRLF;
      FirstHeader(headers);
      PrefixOfConcat(line, more, n);
      if n < |line| {
        PartWaits(g, r, line, n);
      } else {
        HeaderStep(g, r, line, more[..n - |line|]);
        PartOfHeaders(g, OnHeaderLine(g, r, line), headers[1..], n - |line|);
      }
    }
  }

  lemma NoHeaders()
    ensures Concat<char>([]) + CRLF == CRLF && IsLine(CRLF)
  {}

  lemma FirstHeader(headers: seq<string>)
    requires headers != []
    ensures Concat(headers) + CRLF == headers[0] + (Concat(headers[1..]) + CRLF)
  {}

  lemma PartWaits(g: Grammar, r: Req, line: string, n: nat)
    requires (r.state.Headers? || r.state.Request?) && IsLine(line) && n < |line|
    ensures Parse(g, r, line[..n]).2 == Starved
  {
    PartOfLine(line, n);
    hide NextLine, IsLine;
  }

  lemma PartOfHead(g: Grammar, id: nat, m: Message, n: nat)
    requires ValidMessage(g, id, m) && n < |Head(m)|
    ensures Parse(g, NewReq(id), Head(m)[..n]).2 == Starved
  {
    hide Parse, OnRequestLine, Concat, IsLine, AfterHead;
    var more := Concat(m.headers) + CRLF;
    PrefixOfConcat(m.line, more, n);
    if n < |m.line| {
      PartWaits(g, NewReq(id), m.line, n);
    } else {
      LineStep(g, id, m.line, more[..n - |m.line|]);
      PartOfHeaders(g, OnRequestLine(g, NewReq(id), m.line), m.headers, n - |m.line|);
    }
  }

  lemma LineStep(g: Grammar, id: nat, line: string, rest: string)
    requires IsLine(line) && line != CRLF
    ensures Parse(g, NewReq(id), line + rest) == Parse(g, OnRequestLine(g, NewReq(id), line), rest)
  {
    NextLineOf(line, rest);
    hide NextLine, IsLine;
    ParseStep(g, NewReq(id), line + rest, OnRequestLine(g, NewReq(id), line), rest);
  }

  /** The first bytes of a message, read on their own: only inside chunk data does the parser not just wait. */
  lemma PartOfMessage(g: Grammar, id: nat, m: Message, n: nat)
    requires ValidMessage(g, id, m) && n < |Encode(m)|
    ensures Parse(g, NewReq(id), Encode(m)[..n]).2 == if InMessageData(m, n) then Stalled else Starved
  {
    hide Parse, AfterHead, ValidChunk, ValidLast, ValidTrailer, Head, InChunkData, EncodeBody, Data;
    if n < |Head(m)| {
      assert Encode(m)[..n] == Head(m)[..n];
      PartOfHead(g, id, m, n);
    } else {
      var k := n - |Head(m)|;
      var part := EncodeEntity(m.entity)[..k];
      assert Encode(m)[..n] == Head(m) + part;
      ParseHead(g, id, m, part);
      match m.entity
      case Sized(data) => PartOfSized(g, AfterHead(g, id, m), data, k);
      case Coded(chunks, last, trailer) =>
        CutOfBody(g, AfterHead(g, id, m), chunks, last, trailer, k);
        NotAtStart(chunks);
    }
  }

  lemma NotAtStart(chunks: seq<Chunk>)
    ensures !InChunkData(chunks, 0)
  {}

  lemma PartOfSized(g: Grammar, r: Req, data: string, k: nat)
    requires r.state.Body? && !r.chunked && k < |data|
    requires "content-length" in r.headers && g.contentLength(r.headers["content-length"]) == Some(|data|)
    ensures Parse(g, r, data[..k]).2 == Starved
  {}

  /** The positions of a stream of messages at which a read must not end, exactly. */
  lemma {:induction false} PartOfStream(g: Grammar, c: Conn, ms: seq<Message>, n: nat)
    requires Ready(c) && AllWellFormed(g, ms) && n <= |EncodeAll(ms)|
    ensures Pump(g, c.(buffer := EncodeAll(ms)[..n])).1 == if InData(ms, n) then Stalled else Starved
    decreases |ms|
  {
    hide Pump, Encode, ValidMessage, InMessageData, ServedOne, Ready, InData, AllWellFormed;
    if ms != [] {
      FirstIsValid(g, c.requests, ms);
    }
    if ms == [] {
      PumpNothing(g, c);
      BufferNothing(c);
      StartIsClean(ms);
    } else if n < |Encode(ms[0])| {
      assert EncodeAll(ms)[..n] == Encode(ms[0])[..n];
      PartOfFirst(g, c, ms[0], n);
      FirstData(ms, n);
    } else {
      var k := n - |Encode(ms[0])|;
      assert EncodeAll(ms)[..n] == Encode(ms[0]) + EncodeAll(ms[1..])[..k];
      PumpMessage(g, c, ms[0], EncodeAll(ms[1..])[..k]);
      WholeIsClean(ms, n);
      PartOfStream(g, ServedOne(g, c, ms[0]), ms[1..], k);
    }
  }

  lemma FirstData(ms: seq<Message>, n: nat)
    requires ms != [] && n < |Encode(ms[0])|
    ensures InData(ms, n) <==> InMessageData(ms[0], n)
  {}

  lemma PartOfFirst(g: Grammar, c: Conn, m: Message, n: nat)
    requires Ready(c) && ValidMessage(g, c.requests, m) && n < |Encode(m)|
    ensures Pump(g, c.(buffer := Encode(m)[..n])).1 == if InMessageData(m, n) then Stalled else Starved
  {
    hide Pass, Pump, Parse, Encode, ValidMessage, InMessageData;
    var d := c.(buffer := Encode(m)[..n]);
    assert Renewed(d) == d;
    PartOfMessage(g, c.requests, m, n);
    PassSays(g, d);
    PumpUnfold(g, d);
  }

  /** A position from the end of the first message on, seen from there. */
  lemma WholeIsClean(ms: seq<Message>, n: nat)
    requires ms != [] && n >= |Encode(ms[0])|
    ensures InData(ms, n) <==> InData(ms[1..], n - |Encode(ms[0])|)
  {
    if n == |Encode(ms[0])| {
      EndIsClean(ms[0]);
      StartIsClean(ms[1..]);
    }
  }

  lemma StartIsClean(ms: seq<Message>)
    ensures !InData(ms, 0)
  {}

  lemma EndIsClean(m: Message)
    ensures !InMessageData(m, |Encode(m)|)
  {
    if m.entity.Coded? {
      BodyEndsClean(m.entity.chunks, m.entity.last, m.entity.trailer);
    }
  }

  /**
   * A stream of pipelined messages, cut into reads anywhere but inside the data of a chunk: exactly these
   * requests are queued, in order, with the method, the URI, the fields and the body of their message, and the
   * connection waits for the next one.
   */
  lemma MessagesSurviveCuts(g: Grammar, c: Conn, ms: seq<Message>, chunks: seq<string>)
    requires Ready(c) && AllWellFormed(g, ms)
    requires chunks != [] && Concat(chunks) == EncodeAll(ms)
    requires forall k | 0 < k < |chunks| :: !InData(ms, |Concat(chunks[..k])|)
    ensures TakenIn(g, c, ms, AbsorbAll(g, c, chunks))
  {
    hide AbsorbAll, Served, TakenIn, InData, EncodeAll, AllWellFormed;
    CutsServe(g, c, ms, chunks);
    ServedIsTaken(g, c, ms);
  }

  lemma CutsServe(g: Grammar, c: Conn, ms: seq<Message>, chunks: seq<string>)
    requires Ready(c) && AllWellFormed(g, ms)
    requires chunks != [] && Concat(chunks) == EncodeAll(ms)
    requires forall k | 0 < k < |chunks| :: !InData(ms, |Concat(chunks[..k])|)
    ensures AbsorbAll(g, c, chunks) == Served(g, c, ms)
  {
    hide Pump, InData, AllWellFormed;
    ServesAll(g, c, ms);
    assert With(c, Concat(chunks)) == c.(buffer := EncodeAll(ms));
    StopsExactly(g, With(c, Concat(chunks)));
    forall k | 0 < k < |chunks| ensures !EndsInChunk(g, With(c, Concat(chunks[..k]))) {
      ConcatSplit(chunks, k);
      var n := |Concat(chunks[..k])|;
      assert Concat(chunks[..k]) == EncodeAll(ms)[..n];
      assert With(c, Concat(chunks[..k])) == c.(buffer := EncodeAll(ms)[..n]);
      PartOfStream(g, c, ms, n);
      StopsExactly(g, With(c, Concat(chunks[..k])));
    }
    AnySplit(g, c, chunks);
  }

  /** The same from a new connection on. */
  lemma FirstMessages(g: Grammar, ms: seq<Message>, chunks: seq<string>)
    requires AllWellFormed(g, ms) && chunks != [] && Concat(chunks) == EncodeAll(ms)
    requires forall k | 0 < k < |chunks| :: !InData(ms, |Concat(chunks[..k])|)
    ensures var d := AbsorbAll(g, EMPTY, chunks);
            d.buffer == "" && d.current == Some(NewReq(|ms| + 1)) && AllTold(g, ms, 1, d.queue)
  {
    hide AbsorbAll, AllWellFormed, EncodeAll, InData, AllTold;
    var c := Conn("", Some(NewReq(1)), 1, []);
    MessagesSurviveCuts(g, c, ms, chunks);
    EmptyAsReady(g, chunks);
    var d := AbsorbAll(g, c, chunks);
    assert d.queue[0..] == d.queue;
  }

  lemma EmptyAsReady(g: Grammar, chunks: seq<string>)
    requires chunks != []
    ensures AbsorbAll(g, EMPTY, chunks) == AbsorbAll(g, Conn("", Some(NewReq(1)), 1, []), chunks)
  {
    hide Pump;
    SameRenewal(g, With(EMPTY, chunks[0]), With(Conn("", Some(NewReq(1)), 1, []), chunks[0]));
  }

  /**
   * A CRLF between two pipelined requests ends the read: what follows is not looked at until more bytes
   * arrive.
   */
  lemma BlankEndsRead(g: Grammar, c: Conn, ms: seq<Message>, rest: string)
    requires Ready(c) && AllWellFormed(g, ms)
    ensures var (d, stop) := Pump(g, c.(buffer := EncodeAll(ms) + (CRLF + rest)));
            stop.Blank? && d.buffer == rest && TakenIn(g, c, ms, d.(buffer := ""))
    ensures HasBlank(g, c.(buffer := EncodeAll(ms) + (CRLF + rest)))
  {
    hide Pump, Served, AllWellFormed, TakenIn;
    var d := c.(buffer := EncodeAll(ms));
    ServesAll(g, c, ms);
    ServedIsTaken(g, c, ms);
    ServedBuffer(g, c, ms, rest);
    CutPump(g, d, CRLF + rest);
    ServedReady(g, c, ms);
    BlankAtOnce(g, Served(g, c, ms), rest);
    StopsExactly(g, c.(buffer := EncodeAll(ms) + (CRLF + rest)));
  }

  lemma ServedBuffer(g: Grammar, c: Conn, ms: seq<Message>, rest: string)
    requires Ready(c)
    ensures Served(g, c, ms).(buffer := rest).(buffer := "") == Served(g, c, ms)
  {}

  lemma ServedReady(g: Grammar, c: Conn, ms: seq<Message>)
    requires Ready(c)
    ensures Ready(Served(g, c, ms))
  {}

  lemma BlankAtOnce(g: Grammar, c: Conn, rest: string)
    requires c.current.Some? && c.current.value.state.Request? && c.buffer == ""
    ensures With(c, CRLF + rest) == c.(buffer := CRLF + rest)
    ensures Pump(g, c.(buffer := CRLF + rest)) == (c.(buffer := rest), Blank)
  {
    hide NextLine, Pump, Pass, Parse, Turn;
    assert "" + (CRLF + rest) == CRLF + rest;
    var d := c.(buffer := CRLF + rest);
    RenewedBusy(d);
    BlankParse(g, c.current.value, rest);
    PassSays(g, d);
    PumpUnfold(g, d);
  }

  lemma BlankParse(g: Grammar, r: Req, rest: string)
    requires r.state.Request?
    ensures Parse(g, r, CRLF + rest) == (r, rest, Blank)
  {
    hide NextLine;
    CrlfLine(rest);
    TurnProgress(g, r, CRLF + rest);
  }
}
