/**
 * The pipelining buffer of `EHSConnection::AddBuffer` on top of the request parser, and how a read relates to
 * a longer one for one request.
 */
module HttpConnection {
  import opened Lists
  import opened HttpSyntax
  import opened HttpRequest

  /** The fields of `EHSConnection` that take part in reading; `queue` holds the completed requests. */
  datatype Conn = Conn(buffer: string, current: Option<Req>, requests: nat, queue: seq<Req>)

  const EMPTY: Conn := Conn("", None, 0, [])

  /** The request to parse into: a completed one is queued first, and a new one takes its place. */
  function Renewed(c: Conn): (r: Conn)
    ensures r.current.Some? && !r.current.value.state.Complete?
    ensures r.buffer == c.buffer
  {
    match c.current
    case None => c.(current := Some(NewReq(c.requests + 1)), requests := c.requests + 1)
    case Some(r) =>
      if r.state.Complete? then
        c.(current := Some(NewReq(c.requests + 1)), requests := c.requests + 1, queue := c.queue + [r])
      else c
  }

  /** A request parsed from its first line on takes at least that line out of the buffer. */
  lemma NewRequestConsumes(g: Grammar, r: Req, buf: string)
    requires r.state.Request? && !Parse(g, r, buf).2.Starved?
    ensures |Parse(g, r, buf).1| < |buf|
  {
    TurnProgress(g, r, buf);
  }

  /** One pass of the do-while loop. */
  function Pass(g: Grammar, c: Conn): (result: (Conn, Stop)) {
    var c0 := Renewed(c);
    var (r, buf, stop) := Parse(g, c0.current.value, c0.buffer);
    (c0.(current := Some(r), buffer := buf), stop)
  }

  predicate Busy(c: Conn) { c.current.Some? && !c.current.value.state.Complete? }

  lemma PassProgress(g: Grammar, c: Conn)
    ensures var (c1, stop) := Pass(g, c);
            && |c1.buffer| <= |c.buffer| && c1.current.Some? && !stop.Go?
            && (stop.Finished? <==> Terminal(c1.current.value.state))
            && (c1.current.value.state.Complete? ==> |c1.buffer| < |c.buffer| || Busy(c))
  {
    if !Busy(c) {
      var c0 := Renewed(c);
      var (r, buf, stop) := Parse(g, c0.current.value, c0.buffer);
      if !stop.Starved? {
        NewRequestConsumes(g, c0.current.value, c0.buffer);
      }
    }
  }

  /** The do-while loop of `AddBuffer`; it goes on for as long as requests are completed. */
  function Pump(g: Grammar, c: Conn): (result: (Conn, Stop))
    ensures |result.0.buffer| <= |c.buffer|
    ensures Busy(result.0) && !result.1.Go?
    ensures result.1.Finished? <==> result.0.current.value.state.Invalid?
    decreases |c.buffer|, Busy(c)
  {
    PassProgress(g, c);
    var (c1, stop) := Pass(g, c);
    if c1.current.value.state.Complete? then Pump(g, c1) else (c1, stop)
  }

  /** The stored buffer is always a tail of what came in. */
  lemma {:induction false} PumpSuffix(g: Grammar, c: Conn)
    ensures IsSuffix(Pump(g, c).0.buffer, c.buffer)
    decreases |c.buffer|, Busy(c)
  {
    PassProgress(g, c);
    var (c1, stop) := Pass(g, c);
    ParseSuffix(g, Renewed(c).current.value, c.buffer);
    if c1.current.value.state.Complete? {
      PumpSuffix(g, c1);
      SuffixTrans(Pump(g, c1).0.buffer, c1.buffer, c.buffer);
    }
  }

  function With(c: Conn, more: string): Conn { c.(buffer := c.buffer + more) }

  /** `AddBuffer` without its size check: what one read does to the connection. */
  function Absorb(g: Grammar, c: Conn, data: string): Conn { Pump(g, With(c, data)).0 }

  /** Why the reading of `data` stopped. */
  function StopOf(g: Grammar, c: Conn, data: string): Stop { Pump(g, With(c, data)).1 }

  // ----- one read or two, for one request

  lemma TurnStable(g: Grammar, r: Req, buf: string, more: string)
    requires !Terminal(r.state) && (Turn(g, r, buf).2.Go? || Turn(g, r, buf).2.Blank?)
    ensures var (r1, buf1, stop) := Turn(g, r, buf);
            Turn(g, r, buf + more) == (r1, buf1 + more, stop)
  {
    if WantsLine(r) {
      NextLineStable(buf, more);
      assert CRLF + NextLine(buf).1 + more == CRLF + (NextLine(buf).1 + more);
    } else if r.state.BodyChunk? {
      assert (buf + more)[..r.chunkLen] == buf[..r.chunkLen];
      assert (buf + more)[r.chunkLen..] == buf[r.chunkLen..] + more;
    } else {
      InBodyStable(g, r, buf, more);
    }
  }

  lemma InBodyStable(g: Grammar, r: Req, buf: string, more: string)
    requires InBody(g, r, buf).2.Go?
    ensures var (r1, buf1, stop) := InBody(g, r, buf);
            InBody(g, r, buf + more) == (r1, buf1 + more, stop)
  {
    if "content-length" in r.headers {
      match g.contentLength(r.headers["content-length"])
      case None =>
      case Some(n) =>
        assert (buf + more)[..n] == buf[..n];
        assert (buf + more)[n..] == buf[n..] + more;
    }
  }

  /** The request just before a chunk stalled it: nothing of the chunk used, all of it in the buffer. */
  function Unstalled(g: Grammar, r: Req, buf: string): (result: (Req, string))
    requires Parse(g, r, buf).2.Stalled?
    ensures var (r0, buf0) := result;
            && r0.state.BodyChunk? && 0 < |buf0| <= r0.chunkLen
            && Parse(g, r, buf) == (r0.(body := r0.body + buf0, chunkLen := r0.chunkLen - |buf0|), buf0, Stalled)
    decreases |buf|, Rank(r.state)
  {
    StallsInChunk(g, r, buf);
    hide Turn, Parse, Terminal;
    TurnProgress(g, r, buf);
    FirstTurn(g, r, buf);
    var (r1, buf1, stop) := Turn(g, r, buf);
    if stop.Go? then Unstalled(g, r1, buf1) else (r, buf)
  }

  lemma FirstTurn(g: Grammar, r: Req, buf: string)
    requires !Terminal(r.state)
    ensures var (r1, buf1, stop) := Turn(g, r, buf);
            Parse(g, r, buf) == if stop.Go? then Parse(g, r1, buf1) else (r1, buf1, stop)
  {
    hide Turn;
  }

  /** Only a chunk that ends beyond a non-empty buffer stalls. */
  lemma StallsInChunk(g: Grammar, r: Req, buf: string)
    requires Parse(g, r, buf).2.Stalled?
    ensures !Terminal(r.state)
    ensures Turn(g, r, buf).2.Stalled? ==>
              && r.state.BodyChunk? && 0 < |buf| <= r.chunkLen
              && Turn(g, r, buf) == (r.(body := r.body + buf, chunkLen := r.chunkLen - |buf|), buf, Stalled)
  {
    hide Parse, NextLine, OnRequestLine, OnHeaderLine, OnEndOfHeaders, OnBody, OnChunkLine;
    TerminalIsFinished(g, r, buf);
  }

  lemma TerminalIsFinished(g: Grammar, r: Req, buf: string)
    ensures Terminal(r.state) ==> Parse(g, r, buf).2.Finished?
  {}

  /** How parsing `buf + more` relates to parsing `buf`, by the reason for which the latter stopped. */
  lemma {:induction false} CutParse(g: Grammar, r: Req, buf: string, more: string)
    ensures var (r1, buf1, stop) := Parse(g, r, buf);
            match stop
            case Starved => Parse(g, r, buf + more) == Parse(g, r1, buf1 + more)
            case Stalled =>
              var (r0, buf0) := Unstalled(g, r, buf);
              buf0 == buf1 && Parse(g, r, buf + more) == Parse(g, r0, buf1 + more)
            case _ => Parse(g, r, buf + more) == (r1, buf1 + more, stop)
    decreases |buf|, Rank(r.state)
  {
    if !Terminal(r.state) {
      TurnProgress(g, r, buf);
      var (r1, buf1, stop) := Turn(g, r, buf);
      if stop.Go? || stop.Blank? {
        TurnStable(g, r, buf, more);
        TurnProgress(g, r, buf + more);
      }
      if stop.Go? {
        CutParse(g, r1, buf1, more);
      }
    }
  }

  // ----- the class

  datatype AddBufferResult = NoData | Accepted | InvalidRequest | TooBig

  /** `AddBuffer`: the connection after one read, and the verdict on it. */
  function AfterRead(g: Grammar, c: Conn, max: nat, data: string): (Conn, AddBufferResult) {
    if data == "" then (c, NoData)
    else if |c.buffer| + |data| > max then (c, TooBig)
    else
      var (c1, stop) := Pump(g, With(c, data));
      (c1, if stop.Finished? then InvalidRequest else Accepted)
  }

  /** The stored bytes never exceed the maximum request size, and are the last ones received. */
  lemma BufferBounded(g: Grammar, c: Conn, max: nat, data: string)
    requires |c.buffer| <= max
    ensures var (c1, verdict) := AfterRead(g, c, max, data);
            && |c1.buffer| <= max
            && (if verdict in {NoData, TooBig} then c1 == c else IsSuffix(c1.buffer, c.buffer + data))
            && (verdict.NoData? <==> data == "")
            && (verdict.TooBig? <==> data != "" && |c.buffer| + |data| > max)
            && (verdict in {Accepted, InvalidRequest} ==>
                  c1.current.Some? && (verdict.InvalidRequest? <==> c1.current.value.state.Invalid?))
  {
    PumpSuffix(g, With(c, data));
    assert c.buffer + "" == c.buffer;
  }

  function Views(queue: seq<HttpRequest>): seq<Req>
    reads queue
  {
    if queue == [] then [] else Views(queue[..|queue| - 1]) + [queue[|queue| - 1].View()]
  }

  class EHSConnection {
    const grammar: Grammar
    const maxRequestSize: nat
    var buffer: string
    var current: HttpRequest?
    var requests: nat
    var queue: seq<HttpRequest>

    ghost predicate Valid() reads this, current {
      current != null ==> current !in queue && current.grammar == grammar
    }

    ghost function View(): Conn reads this, current, queue {
      Conn(buffer, if current == null then None else Some(current.View()), requests, Views(queue))
    }

    constructor (grammar: Grammar, maxRequestSize: nat)
      ensures Valid() && View() == EMPTY
    {
      this.grammar, this.maxRequestSize := grammar, maxRequestSize;
      buffer, current, requests, queue := "", null, 0, [];
    }

    /** Queues a completed request and starts a new one if there is none to go on with. */
    method Renew()
      requires Valid()
      modifies this
      ensures Valid() && current != null && (fresh(current) || current == old(current))
      ensures View() == Renewed(old(View()))
    {
      if current == null || current.state.Complete? {
        if current != null {
          queue := queue + [current];
          assert queue[..|queue| - 1] == old(queue);
        }
        requests := requests + 1;
        current := new HttpRequest(grammar, requests);
      }
    }

    /** One pass of the loop in `AddBuffer`. */
    method ParseOnce()
      requires Valid()
      modifies this, current
      ensures Valid() && current != null && (fresh(current) || current == old(current))
      ensures View() == Pass(grammar, old(View())).0
    {
      Renew();
      buffer := current.ParseData(buffer);
    }

    method AddBuffer(data: string) returns (verdict: AddBufferResult)
      requires Valid()
      modifies this, current
      ensures Valid()
      ensures (View(), verdict) == AfterRead(grammar, old(View()), maxRequestSize, data)
    {
      if data == "" {
        return NoData;
      }
      if |buffer| + |data| > maxRequestSize {
        return TooBig;
      }
      buffer := buffer + data;
      ghost var start := View();
      var more := true;
      while more
        invariant Valid() && (current == null || current == old(current) || fresh(current))
        invariant more ==> Pump(grammar, start) == Pump(grammar, View())
        invariant !more ==> current != null && Pump(grammar, start).0 == View()
        decreases more, |buffer|, Busy(View())
      {
        PassProgress(grammar, View());
        ParseOnce();
        more := current.state.Complete?;
      }
      verdict := if current.state.Invalid? then InvalidRequest else Accepted;
    }
  }
}
