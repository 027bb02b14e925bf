/**
 * The resumable request parser of httprequest.cpp: one turn of the loop in `ParseData`, the loop, and the
 * class that runs it on its own fields.
 */
module HttpRequest {
  import opened Lists
  import opened HttpSyntax

  datatype RequestLine = RequestLine(verb: string, uri: string, version: string)

  /**
   * The regular expressions and library conversions the parser applies to complete lines and complete
   * header values. Everything below holds whatever they answer.
   */
  datatype Grammar = Grammar(
    requestLine: string -> Option<RequestLine>,
    header: string -> Option<(string, string)>,
    continuation: string -> Option<string>,
    listContains: (string, string) -> bool,
    contentLength: string -> Option<nat>,
    multipart: (string, string) -> bool)

  datatype ParseState =
    | Request | Headers | Body | BodyChunk | BodyTrailer | BodyTrailer2 | Complete | Invalid

  /** The fields of `HttpRequest` the parser works on. Header names are kept in lower case. */
  datatype Req = Req(state: ParseState, id: nat, verb: string, uri: string, version: string,
                     headers: map<string, string>, lastHeader: string,
                     body: string, chunked: bool, chunkLen: nat)

  function NewReq(id: nat): Req { Req(Request, id, "", "", "", map[], "", "", false, 0) }

  predicate Terminal(s: ParseState) { s.Complete? || s.Invalid? }

  /** Why the loop stops: no more to read, a blank line before a request, a chunk in part, or a final state. */
  datatype Stop = Go | Starved | Blank | Stalled | Finished

  // ----- what a line does

  function Get(headers: map<string, string>, name: string): string {
    if name in headers then headers[name] else ""
  }

  function OnRequestLine(g: Grammar, r: Req, line: string): Req {
    match g.requestLine(line)
    case None => r.(state := Invalid)
    case Some(l) =>
      if !KnownMethod(l.verb) then r.(state := Invalid)
      else r.(verb := l.verb, uri := l.uri, version := l.version, state := Headers, chunked := false)
  }

  function OnEndOfHeaders(g: Grammar, r: Req): Req {
    var r1 :=
      if && g.listContains(Get(r.headers, "connection"), "upgrade")
         && g.listContains(Get(r.headers, "upgrade"), "websocket")
      then r.(state := Complete)
      else
        var chunked := g.listContains(Get(r.headers, "transfer-encoding"), "chunked");
        r.(chunked := chunked, state := if "content-length" in r.headers || chunked then Body else Complete);
    if r.version == "1.1" && "host" !in r.headers then r1.(state := Invalid) else r1
  }

  function OnHeader(r: Req, name: string, value: string): Req {
    var key := Lower(name);
    var r1 := r.(lastHeader := name);
    if key !in r.headers then r1.(headers := r.headers[key := value])
    else if !IsMultivalHeader(name) then r1.(state := Invalid)
    else r1.(headers := r.headers[key := r.headers[key] + ", " + value])
  }

  function OnHeaderLine(g: Grammar, r: Req, line: string): Req {
    if line == CRLF then OnEndOfHeaders(g, r)
    else
      match g.header(line)
      case Some((name, value)) => OnHeader(r, name, value)
      case None =>
        match g.continuation(line)
        case Some(value) =>
          if r.lastHeader == "" then r.(state := Invalid)
          else
            var key := Lower(r.lastHeader);
            r.(headers := r.headers[key := Get(r.headers, key) + " " + value])
        case None => r.(state := Invalid)
  }

  /** The body is whole. Looking up the content type adds an empty one when there is none. */
  function OnBody(g: Grammar, r: Req): Req {
    var ct := Get(r.headers, "content-type");
    var ok := !IsMultipart(ct) || g.multipart(ct, r.body);
    r.(headers := r.headers["content-type" := ct], state := if ok then Complete else Invalid)
  }

  predicate IsMultipart(contentType: string) { "multipart" <= contentType }

  function OnChunkLine(r: Req, line: string): Req {
    match ChunkSize(line)
    case None => r.(state := Invalid)
    case Some(n) => if n == 0 then r.(state := BodyTrailer) else r.(chunkLen := n, state := BodyChunk)
  }

  // ----- one turn of the loop

  /** The states that wait for a line; `line` is not empty, `rest` is what follows it in the buffer. */
  function OnLine(g: Grammar, r: Req, line: string, rest: string): (Req, string, Stop) {
    match r.state
    case Request => if line == CRLF then (r, rest, Blank) else (OnRequestLine(g, r, line), rest, Go)
    case Headers => (OnHeaderLine(g, r, line), rest, Go)
    case BodyTrailer => (r.(state := BodyTrailer2), if line == CRLF then CRLF + rest else rest, Go)
    case BodyTrailer2 => (if line == CRLF then OnBody(g, r) else r.(state := Invalid), rest, Go)
    case BodyChunk => (r.(state := if line == CRLF then Body else Invalid), rest, Go)
    case _ => (OnChunkLine(r, line), rest, Go)
  }

  /** Inside a chunk. When the buffer does not reach beyond the chunk, its bytes are used and kept as well. */
  function InChunk(r: Req, buf: string): (Req, string, Stop) {
    if |buf| > r.chunkLen then
      (r.(body := r.body + buf[..r.chunkLen], chunkLen := 0), buf[r.chunkLen..], Go)
    else
      (r.(body := r.body + buf, chunkLen := r.chunkLen - |buf|), buf, if buf == "" then Starved else Stalled)
  }

  /** A body with a declared length. */
  function InBody(g: Grammar, r: Req, buf: string): (Req, string, Stop) {
    if "content-length" !in r.headers then (r.(state := Invalid), buf, Go)
    else
      match g.contentLength(r.headers["content-length"])
      case None => (r.(state := Invalid), buf, Go)
      case Some(n) =>
        if |buf| < n then (r, buf, Starved) else (OnBody(g, r.(body := buf[..n])), buf[n..], Go)
  }

  predicate WantsLine(r: Req) {
    !(r.state.BodyChunk? && r.chunkLen > 0) && !(r.state.Body? && !r.chunked)
  }

  function Turn(g: Grammar, r: Req, buf: string): (Req, string, Stop)
    requires !Terminal(r.state)
  {
    if WantsLine(r) then
      var (line, rest) := NextLine(buf);
      if line == "" then (r, buf, Starved) else OnLine(g, r, line, rest)
    else if r.state.BodyChunk? then InChunk(r, buf)
    else InBody(g, r, buf)
  }

  function Rank(s: ParseState): nat {
    match s
    case BodyTrailer => 3
    case Body => 3
    case BodyTrailer2 => 2
    case Complete => 1
    case Invalid => 0
    case _ => 2
  }

  predicate IsSuffix(s: string, buf: string) { |s| <= |buf| && s == buf[|buf| - |s|..] }

  lemma SuffixTrans(a: string, b: string, c: string)
    requires IsSuffix(a, b) && IsSuffix(b, c)
    ensures IsSuffix(a, c)
  {}

  /**
   * Termination of the loop: every turn shortens the buffer, or leaves it alone (even when the empty
   * trailer is pushed back) and moves on to a state of lower rank.
   */
  lemma TurnProgress(g: Grammar, r: Req, buf: string)
    requires !Terminal(r.state)
    ensures var (r1, buf1, stop) := Turn(g, r, buf);
            && |buf1| <= |buf| && stop != Finished
            && (stop.Go? ==> |buf1| < |buf| || (buf1 == buf && Rank(r1.state) < Rank(r.state)))
            && (stop.Starved? ==> buf1 == buf && r1 == r)
            && (r.state.Request? ==> stop.Starved? || |buf1| < |buf|)
  {
    if WantsLine(r) {
      var (line, rest) := NextLine(buf);
      assert line == CRLF ==> CRLF + rest == buf;
    } else if r.state.BodyChunk? && buf == "" {
      assert r.body + buf == r.body;
    }
  }

  /** The loop of `ParseData`: the request, what is left in the buffer, and why it stopped. */
  function Parse(g: Grammar, r: Req, buf: string): (result: (Req, string, Stop))
    ensures |result.1| <= |buf|
    ensures Terminal(result.0.state) <==> result.2.Finished?
    ensures !result.2.Go?
    decreases |buf|, Rank(r.state)
  {
    if Terminal(r.state) then (r, buf, Finished)
    else
      TurnProgress(g, r, buf);
      var (r1, buf1, stop) := Turn(g, r, buf);
      if stop.Go? then Parse(g, r1, buf1) else (r1, buf1, stop)
  }

  lemma TurnSuffix(g: Grammar, r: Req, buf: string)
    requires !Terminal(r.state)
    ensures IsSuffix(Turn(g, r, buf).1, buf)
  {
    hide NextLine, OnRequestLine, OnHeaderLine, OnBody, OnChunkLine;
    if WantsLine(r) {
      var (line, rest) := NextLine(buf);
      RestIsSuffix(line, rest);
      RestIsSuffix("", buf);
    }
  }

  lemma RestIsSuffix(line: string, rest: string)
    ensures IsSuffix(rest, line + rest) && "" + rest == rest
  {}

  /** Parsing only ever takes bytes off the front of the buffer. */
  lemma {:induction false} ParseSuffix(g: Grammar, r: Req, buf: string)
    ensures IsSuffix(Parse(g, r, buf).1, buf)
    decreases |buf|, Rank(r.state)
  {
    if !Terminal(r.state) {
      TurnProgress(g, r, buf);
      TurnSuffix(g, r, buf);
      var (r1, buf1, stop) := Turn(g, r, buf);
      if stop.Go? {
        ParseSuffix(g, r1, buf1);
        SuffixTrans(Parse(g, r1, buf1).1, buf1, buf);
      }
    }
  }

  // ----- the class

  class HttpRequest {
    const grammar: Grammar
    const id: nat
    var state: ParseState
    var verb: string
    var uri: string
    var version: string
    var headers: map<string, string>
    var lastHeader: string
    var body: string
    var chunked: bool
    var chunkLen: nat

    function View(): Req reads this {
      Req(state, id, verb, uri, version, headers, lastHeader, body, chunked, chunkLen)
    }

    constructor (grammar: Grammar, id: nat)
      ensures View() == NewReq(id) && this.grammar == grammar
    {
      this.grammar, this.id, state := grammar, id, Request;
      verb, uri, version, headers, lastHeader, body := "", "", "", map[], "", "";
      chunked, chunkLen := false, 0;
    }

    method ReadRequestLine(line: string)
      modifies this
      ensures View() == OnRequestLine(grammar, old(View()), line)
    {
      match grammar.requestLine(line) {
        case None => state := Invalid;
        case Some(l) =>
          if !KnownMethod(l.verb) {
            state := Invalid;
          } else {
            verb, uri, version := l.verb, l.uri, l.version;
            state := Headers;
            chunked := false;
          }
      }
    }

    method EndHeaders()
      modifies this
      ensures View() == OnEndOfHeaders(grammar, old(View()))
    {
      if grammar.listContains(Get(headers, "connection"), "upgrade") &&
         grammar.listContains(Get(headers, "upgrade"), "websocket") {
        state := Complete;
      } else {
        chunked := grammar.listContains(Get(headers, "transfer-encoding"), "chunked");
        state := if "content-length" in headers || chunked then Body else Complete;
      }
      if version == "1.1" && "host" !in headers {
        state := Invalid;
      }
    }

    method ReadHeaderLine(line: string)
      modifies this
      ensures View() == OnHeaderLine(grammar, old(View()), line)
    {
      if line == CRLF {
        EndHeaders();
        return;
      }
      match grammar.header(line) {
        case Some((name, value)) =>
          var key := Lower(name);
          if key !in headers {
            headers := headers[key := value];
          } else if !IsMultivalHeader(name) {
            state := Invalid;
          } else {
            headers := headers[key := headers[key] + ", " + value];
          }
          lastHeader := name;
        case None =>
          match grammar.continuation(line) {
            case Some(value) =>
              if lastHeader == "" {
                state := Invalid;
              } else {
                headers := headers[Lower(lastHeader) := Get(headers, Lower(lastHeader)) + " " + value];
              }
            case None => state := Invalid;
          }
      }
    }

    method FinishBody()
      modifies this
      ensures View() == OnBody(grammar, old(View()))
    {
      var ct := Get(headers, "content-type");
      headers := headers["content-type" := ct];
      if !IsMultipart(ct) || grammar.multipart(ct, body) {
        state := Complete;
      } else {
        state := Invalid;
      }
    }

    method ReadChunkLine(line: string)
      modifies this
      ensures View() == OnChunkLine(old(View()), line)
    {
      match ChunkSize(line) {
        case None => state := Invalid;
        case Some(n) =>
          if n == 0 {
            state := BodyTrailer;
          } else {
            chunkLen := n;
            state := BodyChunk;
          }
      }
    }

    /** One turn in a state that waits for a line; `done` ends the loop. */
    method TurnOnLine(buffer: string) returns (rest: string, done: bool)
      requires !Terminal(state) && WantsLine(View())
      modifies this
      ensures var (r, buf, stop) := Turn(grammar, old(View()), buffer);
              View() == r && rest == buf && (done <==> !stop.Go?)
    {
      var (line, tail) := NextLine(buffer);
      rest := tail;
      done := line == "";
      if done {
        rest := buffer;
        return;
      }
      match state {
        case Request =>
          if line == CRLF {
            done := true;
          } else {
            ReadRequestLine(line);
          }
        case Headers => ReadHeaderLine(line);
        case BodyTrailer =>
          if line == CRLF {
            rest := CRLF + rest;
          }
          state := BodyTrailer2;
        case BodyTrailer2 =>
          if line == CRLF {
            FinishBody();
          } else {
            state := Invalid;
          }
        case BodyChunk => state := if line == CRLF then Body else Invalid;
        case Body => ReadChunkLine(line);
      }
    }

    method TurnInChunk(buffer: string) returns (rest: string, done: bool)
      modifies this
      ensures var (r, buf, stop) := InChunk(old(View()), buffer);
              View() == r && rest == buf && (done <==> !stop.Go?)
    {
      var l := |buffer|;
      rest := buffer;
      if l > chunkLen {
        body := body + buffer[..chunkLen];
        rest := buffer[chunkLen..];
        chunkLen := 0;
        done := false;
      } else {
        body := body + buffer;
        chunkLen := chunkLen - l;
        done := true;
      }
    }

    method TurnInBody(buffer: string) returns (rest: string, done: bool)
      modifies this
      ensures var (r, buf, stop) := InBody(grammar, old(View()), buffer);
              View() == r && rest == buf && (done <==> !stop.Go?)
    {
      rest, done := buffer, false;
      if "content-length" !in headers {
        state := Invalid;
        return;
      }
      match grammar.contentLength(headers["content-length"]) {
        case None => state := Invalid;
        case Some(n) =>
          if |buffer| < n {
            done := true;
          } else {
            body := buffer[..n];
            rest := buffer[n..];
            FinishBody();
          }
      }
    }

    /** Parses as much of the buffer as it can and returns what stays in it. */
    method ParseData(buffer: string) returns (rest: string)
      modifies this
      ensures (View(), rest) == (Parse(grammar, old(View()), buffer).0, Parse(grammar, old(View()), buffer).1)
    {
      rest := buffer;
      var done := false;
      while !done && !Terminal(state)
        invariant var (r, buf, stop) := Parse(grammar, old(View()), buffer);
                  if done then r == View() && buf == rest
                  else (r, buf, stop) == Parse(grammar, View(), rest)
        decreases !done, |rest|, Rank(state)
      {
        TurnProgress(grammar, View(), rest);
        if WantsLine(View()) {
          rest, done := TurnOnLine(rest);
        } else if state.BodyChunk? {
          rest, done := TurnInChunk(rest);
        } else {
          rest, done := TurnInBody(rest);
        }
      }
    }
  }
}
