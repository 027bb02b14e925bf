/**
 * Header fields (section 4.2 of RFC 2616), said about the lines of a head alone: to which field a line belongs,
 * what value the lines give a field, which lines are acceptable, and what the fields announce; and the proof that
 * the parser of httprequest.cpp finds just that.
 */
module HttpFields {
  import opened Lists
  import opened HttpSyntax
  import opened HttpRequest

  // ----- names

  predicate SameLetter(a: char, b: char) {
    a == b || ('A' <= a <= 'Z' && b as int == a as int + 32) || ('A' <= b <= 'Z' && a as int == b as int + 32)
  }

  predicate SameName(a: string, b: string) { |a| == |b| && forall i | 0 <= i < |a| :: SameLetter(a[i], b[i]) }

  /** Names are the same if and only if they differ in case at most. */
  lemma NamesAgree(a: string, b: string)
    ensures Lower(a) == Lower(b) <==> SameName(a, b)
  {
    if Lower(a) == Lower(b) {
      assert |Lower(a)| == |Lower(b)|;
      forall i | 0 <= i < |a| ensures SameLetter(a[i], b[i]) {
        assert Lower(a)[i] == Lower(b)[i];
        LettersAgree(a[i], b[i]);
      }
    }
    if SameName(a, b) {
      forall i | 0 <= i < |a| ensures Lower(a)[i] == Lower(b)[i] {
        LettersAgree(a[i], b[i]);
      }
    }
  }

  lemma LettersAgree(a: char, b: char)
    ensures LowerChar(a) == LowerChar(b) <==> SameLetter(a, b)
  {}

  /** Fields that may come on several lines. */
  const LISTS: set<string> :=
    {"accept-charset", "accept-encoding", "accept-language", "cache-control", "connection", "expect",
     "if-match", "if-none-match", "pragma", "sec-websocket-extensions", "sec-websocket-protocol",
     "sec-websocket-version", "trailer", "transfer-encoding", "upgrade", "via"}

  const METHODS: set<string> := {"OPTIONS", "GET", "HEAD", "POST", "PUT", "DELETE", "TRACE", "CONNECT"}

  lemma TablesAgree(name: string)
    ensures IsMultivalHeader(name) <==> Lower(name) in LISTS
    ensures KnownMethod(name) <==> name in METHODS
  {}

  // ----- the fields of a list of lines

  /** The name on the last header line, to which a continuation line belongs. */
  function Owner(g: Grammar, lines: seq<string>): Option<string>
    decreases |lines|
  {
    if lines == [] then None
    else
      match g.header(lines[|lines| - 1])
      case Some((name, _)) => Some(name)
      case None => Owner(g, lines[..|lines| - 1])
  }

  /** The value of a field: those on its lines, joined by a comma and a space, and continuations by a space. */
  function FieldValue(g: Grammar, lines: seq<string>, key: string): Option<string>
    decreases |lines|
  {
    if lines == [] then None
    else
      var front, last := lines[..|lines| - 1], lines[|lines| - 1];
      var before := FieldValue(g, front, key);
      match g.header(last)
      case Some((name, value)) =>
        if Lower(name) != key then before
        else if before.Some? then Some(before.value + ", " + value) else Some(value)
      case None =>
        if before.Some? && Owner(g, front).Some? && Lower(Owner(g, front).value) == key && g.continuation(last).Some?
        then Some(before.value + " " + g.continuation(last).value) else before
  }

  function Field(g: Grammar, lines: seq<string>, key: string): string {
    if FieldValue(g, lines, key).Some? then FieldValue(g, lines, key).value else ""
  }

  /**
   * A line that may follow the lines `front`: a header line of a field that did not come before or may come
   * several times, or the continuation of a header line with a name.
   */
  predicate FineLine(g: Grammar, front: seq<string>, line: string) {
    && IsLine(line) && line != CRLF
    && match g.header(line)
       case Some((name, _)) => FieldValue(g, front, Lower(name)).None? || Lower(name) in LISTS
       case None => g.continuation(line).Some? && Owner(g, front).Some? && Owner(g, front).value != ""
  }

  predicate FineLines(g: Grammar, lines: seq<string>) {
    forall i | 0 <= i < |lines| :: FineLine(g, lines[..i], lines[i])
  }

  // ----- what the parser makes of header lines

  function OnHeaders(g: Grammar, r: Req, headers: seq<string>): Req
    decreases |headers|
  {
    if headers == [] then r else OnHeaders(g, OnHeaderLine(g, r, headers[0]), headers[1..])
  }

  /** The header lines are accepted one by one. */
  predicate HeadersFine(g: Grammar, r: Req, headers: seq<string>)
    decreases |headers|
  {
    && r.state.Headers?
    && (headers != [] ==>
          && IsLine(headers[0]) && headers[0] != CRLF
          && HeadersFine(g, OnHeaderLine(g, r, headers[0]), headers[1..]))
  }

  /** The request has the fields of the lines, and otherwise is the one the lines came to. */
  ghost predicate HasFields(g: Grammar, start: Req, r: Req, lines: seq<string>) {
    && r == start.(headers := r.headers, lastHeader := r.lastHeader)
    && r.lastHeader == (if Owner(g, lines).Some? then Owner(g, lines).value else "")
    && forall key ::
         && (key in r.headers <==> FieldValue(g, lines, key).Some?)
         && (key in r.headers ==> r.headers[key] == FieldValue(g, lines, key).value)
  }

  lemma OneLine(g: Grammar, start: Req, r: Req, front: seq<string>, line: string)
    requires start.state.Headers? && HasFields(g, start, r, front) && IsLine(line) && line != CRLF
    ensures OnHeaderLine(g, r, line).state.Headers? <==> FineLine(g, front, line)
    ensures !FineLine(g, front, line) ==> OnHeaderLine(g, r, line).state.Invalid?
    ensures FineLine(g, front, line) ==> HasFields(g, start, OnHeaderLine(g, r, line), front + [line])
  {
    assert (front + [line])[..|front|] == front;
    match g.header(line)
    case Some((name, value)) => TablesAgree(name);
    case None =>
      if Owner(g, front).Some? {
        OwnerHasField(g, front);
      }
  }

  lemma {:induction false} OwnerHasField(g: Grammar, lines: seq<string>)
    requires Owner(g, lines).Some?
    ensures FieldValue(g, lines, Lower(Owner(g, lines).value)).Some?
    decreases |lines|
  {
    if g.header(lines[|lines| - 1]).None? {
      OwnerHasField(g, lines[..|lines| - 1]);
    }
  }

  /** Line by line: accepted if and only if each line is fine behind the ones before, and then with their fields. */
  lemma {:induction false} HeadersAre(g: Grammar, start: Req, r: Req, front: seq<string>, lines: seq<string>)
    requires start.state.Headers? && HasFields(g, start, r, front)
    ensures HeadersFine(g, r, lines) <==>
              forall i | |front| <= i < |front + lines| :: FineLine(g, (front + lines)[..i], (front + lines)[i])
    ensures HeadersFine(g, r, lines) ==> HasFields(g, start, OnHeaders(g, r, lines), front + lines)
    decreases |lines|
  {
    hide FineLine, OnHeaderLine, HasFields, IsLine;
    FieldsSay(g, start, r, front);
    if lines == [] {
      assert front + lines == front;
    } else {
      var all, next := front + lines, front + [lines[0]];
      assert next + lines[1..] == all && all[..|front|] == front && all[|front|] == lines[0];
      FineIsLine(g, front, lines[0]);
      if IsLine(lines[0]) && lines[0] != CRLF {
        OneLine(g, start, r, front, lines[0]);
        if FineLine(g, front, lines[0]) {
          HeadersAre(g, start, OnHeaderLine(g, r, lines[0]), next, lines[1..]);
        } else {
          NotInHeaders(g, OnHeaderLine(g, r, lines[0]), lines[1..]);
        }
      }
    }
  }

  lemma FieldsSay(g: Grammar, start: Req, r: Req, lines: seq<string>)
    requires HasFields(g, start, r, lines)
    ensures r.state == start.state
  {}

  lemma FineIsLine(g: Grammar, front: seq<string>, line: string)
    ensures FineLine(g, front, line) ==> IsLine(line) && line != CRLF
  {}

  lemma NotInHeaders(g: Grammar, r: Req, lines: seq<string>)
    requires !r.state.Headers?
    ensures !HeadersFine(g, r, lines)
  {}

  // ----- what the fields announce

  /** What is to follow the head: nothing, so many bytes, chunks; or the head is not acceptable. */
  datatype Expected = Rejected | Empty | Declared(value: string) | ByChunks

  function Announced(g: Grammar, version: string, lines: seq<string>): Expected {
    if version == "1.1" && FieldValue(g, lines, "host").None? then Rejected
    else if && g.listContains(Field(g, lines, "connection"), "upgrade")
            && g.listContains(Field(g, lines, "upgrade"), "websocket") then Empty
    else if g.listContains(Field(g, lines, "transfer-encoding"), "chunked") then ByChunks
    else if FieldValue(g, lines, "content-length").Some? then Declared(FieldValue(g, lines, "content-length").value)
    else Empty
  }

  /** The multipart check of a body, if its type asks for it. */
  predicate FineBody(g: Grammar, lines: seq<string>, body: string) {
    var ct := Field(g, lines, "content-type");
    |ct| >= 9 && ct[..9] == "multipart" ==> g.multipart(ct, body)
  }

  /** The state after the empty line, and the chunked flag, are as announced. */
  lemma EndIsAnnounced(g: Grammar, start: Req, r: Req, lines: seq<string>)
    requires start.state.Headers? && !start.chunked && HasFields(g, start, r, lines)
    ensures var r1 := OnEndOfHeaders(g, r);
            && r1 == r.(state := r1.state, chunked := r1.chunked)
            && match Announced(g, start.version, lines)
               case Rejected => r1.state.Invalid?
               case Empty => r1.state.Complete? && !r1.chunked
               case ByChunks => r1.state.Body? && r1.chunked
               case Declared(value) =>
                 r1.state.Body? && !r1.chunked && "content-length" in r.headers && r.headers["content-length"] == value
  {
    FieldIs(g, start, r, lines, "connection");
    FieldIs(g, start, r, lines, "upgrade");
    FieldIs(g, start, r, lines, "transfer-encoding");
  }

  lemma FieldIs(g: Grammar, start: Req, r: Req, lines: seq<string>, key: string)
    requires HasFields(g, start, r, lines)
    ensures Get(r.headers, key) == Field(g, lines, key)
  {}

  lemma BodyIsFine(g: Grammar, start: Req, r: Req, lines: seq<string>, body: string)
    requires HasFields(g, start, r, lines)
    ensures var ct := Get(r.headers, "content-type");
            (IsMultipart(ct) ==> g.multipart(ct, body)) <==> FineBody(g, lines, body)
  {
    FieldIs(g, start, r, lines, "content-type");
  }
}
