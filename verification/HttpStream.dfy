/**
 * How a whole HTTP stream may be cut into reads: the condition on the stream and on the positions of the
 * cuts, in terms of what has been received up to a position.
 */
module HttpStream {
  import opened Lists
  import opened HttpSyntax
  import opened HttpRequest
  import opened HttpConnection
  import opened HttpSplit

  // ----- the turns that lead from one request state to another

  ghost predicate Leads(g: Grammar, r: Req, buf: string, r1: Req, buf1: string)
    decreases |buf|, Rank(r.state)
  {
    || (r == r1 && buf == buf1)
    || (!Terminal(r.state) && GoesOn(g, r, buf) && Leads(g, Turn(g, r, buf).0, Turn(g, r, buf).1, r1, buf1))
  }

  predicate GoesOn(g: Grammar, r: Req, buf: string)
    requires !Terminal(r.state)
    ensures GoesOn(g, r, buf) ==>
              var (r1, buf1, stop) := Turn(g, r, buf);
              |buf1| < |buf| || (|buf1| == |buf| && Rank(r1.state) < Rank(r.state))
  {
    TurnProgress(g, r, buf);
    Turn(g, r, buf).2.Go?
  }

  /** Where a request line is due, chunk data is due, or the request is complete. */
  predicate Landmark(r: Req) { r.state.Request? || (r.state.BodyChunk? && r.chunkLen > 0) || r.state.Complete? }

  lemma {:induction false} LeadsParse(g: Grammar, r: Req, buf: string, r1: Req, buf1: string)
    requires Leads(g, r, buf, r1, buf1)
    ensures Parse(g, r, buf) == Parse(g, r1, buf1) && IsSuffix(buf1, buf)
    decreases |buf|, Rank(r.state)
  {
    if !(r == r1 && buf == buf1) {
      TurnProgress(g, r, buf);
      TurnSuffix(g, r, buf);
      LeadsParse(g, Turn(g, r, buf).0, Turn(g, r, buf).1, r1, buf1);
      SuffixTrans(buf1, Turn(g, r, buf).1, buf);
    }
  }

  /** A turn on the way to a landmark takes no byte from behind the landmark, and does not need one. */
  lemma TurnBefore(g: Grammar, r: Req, buf: string, r1: Req, buf1: string)
    requires !Terminal(r.state) && GoesOn(g, r, buf) && Landmark(r1)
    requires Leads(g, Turn(g, r, buf).0, Turn(g, r, buf).1, r1, buf1)
    ensures IsSuffix(buf1, buf)
    ensures var n := |buf| - |buf1|; Turn(g, r, buf[..n]).2.Go?
  {
    hide Turn, IsSuffix, Leads, GoesOn, Landmark;
    var (r2, buf2, stop) := Turn(g, r, buf);
    LeadsParse(g, r2, buf2, r1, buf1);
    TurnSuffix(g, r, buf);
    SuffixTrans(buf1, buf2, buf);
    SuffixIsShorter(buf1, buf2);
    SuffixIsShorter(buf1, buf);
    if WantsLine(r) {
      LineBefore(g, r, buf, r1, buf1);
    } else if r.state.BodyChunk? {
      ChunkBefore(g, r, buf, r1, buf1);
    } else {
      SizedBefore(g, r, buf, buf1);
    }
  }

  lemma ChunkBefore(g: Grammar, r: Req, buf: string, r1: Req, buf1: string)
    requires r.state.BodyChunk? && !WantsLine(r) && GoesOn(g, r, buf) && Landmark(r1) && |buf1| <= |buf|
    requires Leads(g, Turn(g, r, buf).0, Turn(g, r, buf).1, r1, buf1)
    ensures Turn(g, r, buf[..|buf| - |buf1|]).2.Go?
  {
    hide Leads, Landmark;
    var (r2, buf2, stop) := Turn(g, r, buf);
    LeadsOn(g, r2, buf2, r1, buf1);
  }

  lemma SizedBefore(g: Grammar, r: Req, buf: string, buf1: string)
    requires !Terminal(r.state) && !r.state.BodyChunk? && !WantsLine(r) && GoesOn(g, r, buf)
    requires |buf1| <= |buf| && |buf1| <= |Turn(g, r, buf).1|
    ensures Turn(g, r, buf[..|buf| - |buf1|]).2.Go?
  {
    hide OnBody;
  }

  /** From the end of chunk data or from the pushed-back trailer on, at least a line is taken. */
  lemma LeadsOn(g: Grammar, r: Req, buf: string, r1: Req, buf1: string)
    requires Leads(g, r, buf, r1, buf1) && Landmark(r1)
    requires (r.state.BodyChunk? && r.chunkLen == 0) || r.state.BodyTrailer2?
    ensures |buf1| + 2 <= |buf|
  {
    hide Turn, IsSuffix, GoesOn;
    assert r != r1 && !Terminal(r.state);
    TakesLine(g, r, buf);
    var (r2, buf2, stop) := Turn(g, r, buf);
    LeadsParse(g, r2, buf2, r1, buf1);
    SuffixIsShorter(buf1, buf2);
  }

  lemma TakesLine(g: Grammar, r: Req, buf: string)
    requires (r.state.BodyChunk? && r.chunkLen == 0) || r.state.BodyTrailer2?
    ensures GoesOn(g, r, buf) ==> |Turn(g, r, buf).1| + 2 <= |buf|
  {
    hide NextLine, OnRequestLine, OnHeaderLine, OnBody, OnChunkLine, InBody;
    var (line, rest) := NextLine(buf);
    assert line + rest == buf;
  }

  lemma SuffixIsShorter(s: string, buf: string)
    requires IsSuffix(s, buf)
    ensures |s| <= |buf|
  {}

  lemma LineBefore(g: Grammar, r: Req, buf: string, r1: Req, buf1: string)
    requires !Terminal(r.state) && GoesOn(g, r, buf) && Landmark(r1) && WantsLine(r)
    requires Leads(g, Turn(g, r, buf).0, Turn(g, r, buf).1, r1, buf1)
    requires IsSuffix(buf1, buf) && |buf1| <= |Turn(g, r, buf).1|
    ensures Turn(g, r, buf[..|buf| - |buf1|]).2.Go?
  {
    hide NextLine, OnRequestLine, OnHeaderLine, OnBody, OnChunkLine;
    var (line, rest) := NextLine(buf);
    var (r2, buf2, stop) := Turn(g, r, buf);
    if r.state.BodyTrailer? && line == CRLF {
      LeadsOn(g, r2, buf2, r1, buf1);
    }
    var part := buf[..|buf| - |buf1|];
    assert |line| <= |part|;
    LineInPart(buf, part);
  }

  /** A part of the buffer that includes the first line has the same first line. */
  lemma LineInPart(buf: string, part: string)
    requires part <= buf && NextLine(buf).0 != "" && |NextLine(buf).0| <= |part|
    ensures NextLine(part).0 == NextLine(buf).0
  {
    var n := FindCRLF(buf);
    assert CrlfAt(part, n);
    assert forall i | 0 <= i < n :: CrlfAt(part, i) ==> CrlfAt(buf, i);
    FindUnique(part, n);
  }

  /** What leads to a landmark also leads there when nothing comes behind it. */
  lemma {:induction false} LeadsBefore(g: Grammar, r: Req, buf: string, r1: Req, buf1: string)
    requires Leads(g, r, buf, r1, buf1) && Landmark(r1)
    ensures IsSuffix(buf1, buf) && Leads(g, r, buf[..|buf| - |buf1|], r1, "")
    decreases |buf|, Rank(r.state)
  {
    LeadsParse(g, r, buf, r1, buf1);
    if !(r == r1 && buf == buf1) {
      TurnBefore(g, r, buf, r1, buf1);
      var part := buf[..|buf| - |buf1|];
      assert buf == part + buf1;
      TurnStable(g, r, part, buf1);
      var (r2, buf2, stop) := Turn(g, r, buf);
      LeadsBefore(g, r2, buf2, r1, buf1);
      var part2 := Turn(g, r, part).1;
      assert buf2 == part2 + buf1 && buf2[..|buf2| - |buf1|] == part2;
      hide Turn;
    }
  }

  // ----- where one request stops

  /** A blank line stops the parser where a request line is due. */
  lemma {:induction false} BlankLeads(g: Grammar, r: Req, buf: string) returns (r1: Req, buf1: string)
    requires Parse(g, r, buf).2.Blank?
    ensures Leads(g, r, buf, r1, buf1) && r1.state.Request? && CRLF <= buf1
    decreases |buf|, Rank(r.state)
  {
    TurnProgress(g, r, buf);
    if GoesOn(g, r, buf) {
      r1, buf1 := BlankLeads(g, Turn(g, r, buf).0, Turn(g, r, buf).1);
    } else {
      r1, buf1 := r, buf;
    }
  }

  lemma {:induction false} StallLeads(g: Grammar, r: Req, buf: string) returns (r1: Req, buf1: string)
    requires Parse(g, r, buf).2.Stalled?
    ensures Leads(g, r, buf, r1, buf1) && r1.state.BodyChunk? && 0 < |buf1| <= r1.chunkLen
    decreases |buf|, Rank(r.state)
  {
    TurnProgress(g, r, buf);
    if GoesOn(g, r, buf) {
      r1, buf1 := StallLeads(g, Turn(g, r, buf).0, Turn(g, r, buf).1);
    } else {
      r1, buf1 := r, buf;
    }
  }

  lemma {:induction false} FinishLeads(g: Grammar, r: Req, buf: string)
    requires Parse(g, r, buf).2.Finished?
    ensures Leads(g, r, buf, Parse(g, r, buf).0, Parse(g, r, buf).1)
    decreases |buf|, Rank(r.state)
  {
    if !Terminal(r.state) {
      TurnProgress(g, r, buf);
      FinishLeads(g, Turn(g, r, buf).0, Turn(g, r, buf).1);
    }
  }

  /** A request that is complete needed no byte from behind its end. */
  lemma CompleteAlone(g: Grammar, r: Req, buf: string, x: string)
    requires var (r1, buf1, stop) := Parse(g, r, buf); r1.state.Complete?
    ensures var (r1, buf1, stop) := Parse(g, r, buf);
            && IsSuffix(buf1, buf)
            && Parse(g, r, buf[..|buf| - |buf1|] + x) == (r1, x, Finished)
  {
    hide Turn, Leads, NextLine, ChunkSize;
    var (r1, buf1, stop) := Parse(g, r, buf);
    FinishLeads(g, r, buf);
    LeadsBefore(g, r, buf, r1, buf1);
    var part := buf[..|buf| - |buf1|];
    LeadsParse(g, r, part, r1, "");
    CutParse(g, r, part, x);
    assert "" + x == x;
  }

  lemma LandmarkWaits(g: Grammar, r: Req)
    requires Landmark(r) && !r.state.Complete?
    ensures Parse(g, r, "") == (r, "", Starved)
  {
    if r.state.BodyChunk? {
      assert r.body + "" == r.body;
    }
  }

  // ----- positions of a stream

  function Cut(c: Conn, n: nat): Conn
    requires n <= |c.buffer|
  {
    c.(buffer := c.buffer[..n])
  }

  /** After the first `n` bytes the parser has used them all and waits. */
  predicate WaitsAt(g: Grammar, c: Conn, n: nat)
    requires n <= |c.buffer|
  {
    Pump(g, Cut(c, n)).1.Starved? && Pump(g, Cut(c, n)).0.buffer == ""
  }

  /** The request in progress after the first `n` bytes. */
  function CurrentAt(g: Grammar, c: Conn, n: nat): Req
    requires n <= |c.buffer|
  {
    Pump(g, Cut(c, n)).0.current.value
  }

  /** A CRLF where a request line is due. */
  predicate BlankAt(g: Grammar, c: Conn, n: nat) {
    && n <= |c.buffer| && WaitsAt(g, c, n) && CurrentAt(g, c, n).state.Request?
    && CRLF <= c.buffer[n..]
  }

  /** Chunk data is due, at least one byte of it is there, and nothing behind its last. */
  predicate ChunkAt(g: Grammar, c: Conn, n: nat) {
    && n <= |c.buffer| && WaitsAt(g, c, n) && CurrentAt(g, c, n).state.BodyChunk?
    && 0 < |c.buffer| - n <= CurrentAt(g, c, n).chunkLen
  }

  lemma CutAndRest(g: Grammar, c: Conn, n: nat)
    requires n <= |c.buffer| && WaitsAt(g, c, n)
    ensures Pump(g, c) == Pump(g, Pump(g, Cut(c, n)).0.(buffer := c.buffer[n..]))
  {
    hide Pump;
    CutPump(g, Cut(c, n), c.buffer[n..]);
    CutTogether(c, n);
    FromNothing(Pump(g, Cut(c, n)).0, c.buffer[n..]);
  }

  lemma CutTogether(c: Conn, n: nat)
    requires n <= |c.buffer|
    ensures With(Cut(c, n), c.buffer[n..]) == c
  {
    assert c.buffer[..n] + c.buffer[n..] == c.buffer;
  }

  lemma FromNothing(c: Conn, more: string)
    requires c.buffer == ""
    ensures With(c, more) == c.(buffer := more)
  {
    assert "" + more == more;
  }

  lemma BlankAtStops(g: Grammar, c: Conn, n: nat)
    requires BlankAt(g, c, n)
    ensures Pump(g, c).1.Blank?
  {
    var rest := c.buffer[n..];
    CutAndRest(g, c, n);
    NextLineOf(CRLF, rest[2..]);
    assert rest == CRLF + rest[2..];
    var d := Pump(g, Cut(c, n)).0.(buffer := rest);
    assert Renewed(d) == d;
    hide NextLine, FindCRLF;
  }

  lemma ChunkAtStops(g: Grammar, c: Conn, n: nat)
    requires ChunkAt(g, c, n)
    ensures Pump(g, c).1.Stalled?
  {
    CutAndRest(g, c, n);
    var d := Pump(g, Cut(c, n)).0.(buffer := c.buffer[n..]);
    assert Renewed(d) == d;
  }

  // Unfoldings of one pass.

  lemma PumpUnfold(g: Grammar, c: Conn)
    ensures var (c1, stop) := Pass(g, c);
            && c1.current.Some? && |c1.buffer| <= |c.buffer|
            && (c1.current.value.state.Complete? ==>
                  Pump(g, c) == Pump(g, c1) && (|c1.buffer| < |c.buffer| || (|c1.buffer| == |c.buffer| && Busy(c))))
            && (!c1.current.value.state.Complete? ==> Pump(g, c) == (c1, stop))
            && !(c1.current.value.state.Complete? && Busy(c1))
  {
    PassProgress(g, c);
    hide Pass;
  }

  lemma PassSays(g: Grammar, c: Conn)
    ensures var d := Renewed(c); var (r, buf, stop) := Parse(g, d.current.value, c.buffer);
            Pass(g, c) == (d.(current := Some(r), buffer := buf), stop)
  {}

  lemma RenewedCut(c: Conn, n: nat)
    requires n <= |c.buffer|
    ensures Renewed(Cut(c, n)) == Renewed(c).(buffer := c.buffer[..n])
  {}

  /** A first pass that completes a request, on a longer and on a shorter buffer. */
  lemma PassAlone(g: Grammar, c: Conn, n: nat)
    requires Pass(g, c).0.current.value.state.Complete? && n <= |Pass(g, c).0.buffer|
    ensures var c1 := Pass(g, c).0; var m := |c.buffer| - |c1.buffer| + n;
            && |c1.buffer| <= |c.buffer| && c.buffer[m..] == c1.buffer[n..]
            && Pump(g, Cut(c, m)) == Pump(g, Cut(c1, n)) && Pump(g, c) == Pump(g, c1)
  {
    hide Pass, Pump, Parse, Renewed;
    PumpUnfold(g, c);
    PassSays(g, c);
    var c1 := Pass(g, c).0;
    var m := |c.buffer| - |c1.buffer| + n;
    CompleteAlone(g, Renewed(c).current.value, c.buffer, c1.buffer[..n]);
    assert c.buffer[..m] == c.buffer[..|c.buffer| - |c1.buffer|] + c1.buffer[..n];
    RenewedCut(c, m);
    PassSays(g, Cut(c, m));
    PumpUnfold(g, Cut(c, m));
  }

  /** A pass that stops at a landmark of the request, and the connection there. */
  lemma StopsAt(g: Grammar, c: Conn, r1: Req, buf1: string)
    requires Leads(g, Renewed(c).current.value, c.buffer, r1, buf1) && Landmark(r1) && !r1.state.Complete?
    ensures |buf1| <= |c.buffer|
    ensures var n := |c.buffer| - |buf1|;
            c.buffer[n..] == buf1 && WaitsAt(g, c, n) && CurrentAt(g, c, n) == r1
  {
    hide Pass, Pump, Parse, Renewed, Leads;
    var r := Renewed(c).current.value;
    LeadsBefore(g, r, c.buffer, r1, buf1);
    var n := |c.buffer| - |buf1|;
    LeadsParse(g, r, c.buffer[..n], r1, "");
    LandmarkWaits(g, r1);
    RenewedCut(c, n);
    PassSays(g, Cut(c, n));
    PumpUnfold(g, Cut(c, n));
  }

  lemma {:induction false} BlankStopsAt(g: Grammar, c: Conn) returns (n: nat)
    requires Pump(g, c).1.Blank?
    ensures BlankAt(g, c, n)
    decreases |c.buffer|, Busy(c)
  {
    hide Pass, Pump, Parse, Renewed, Leads;
    PumpUnfold(g, c);
    PassSays(g, c);
    var c1 := Pass(g, c).0;
    if c1.current.value.state.Complete? {
      n := BlankStopsAt(g, c1);
      PassAlone(g, c, n);
      n := |c.buffer| - |c1.buffer| + n;
    } else {
      var r1, buf1 := BlankLeads(g, Renewed(c).current.value, c.buffer);
      StopsAt(g, c, r1, buf1);
      n := |c.buffer| - |buf1|;
    }
  }

  lemma {:induction false} ChunkStopsAt(g: Grammar, c: Conn) returns (n: nat)
    requires Pump(g, c).1.Stalled?
    ensures ChunkAt(g, c, n)
    decreases |c.buffer|, Busy(c)
  {
    hide Pass, Pump, Parse, Renewed, Leads;
    PumpUnfold(g, c);
    PassSays(g, c);
    var c1 := Pass(g, c).0;
    if c1.current.value.state.Complete? {
      n := ChunkStopsAt(g, c1);
      PassAlone(g, c, n);
      n := |c.buffer| - |c1.buffer| + n;
    } else {
      var r1, buf1 := StallLeads(g, Renewed(c).current.value, c.buffer);
      StopsAt(g, c, r1, buf1);
      n := |c.buffer| - |buf1|;
    }
  }

  /** The stream that `c` has buffered contains a CRLF where a request line is due. */
  ghost predicate HasBlank(g: Grammar, c: Conn) { exists n :: BlankAt(g, c, n) }

  /** It ends after at least one byte of a chunk's data and at or before the last. */
  ghost predicate EndsInChunk(g: Grammar, c: Conn) { exists n :: ChunkAt(g, c, n) }

  /** The two ways to stop early, exactly, by what is in the stream. */
  lemma StopsExactly(g: Grammar, c: Conn)
    ensures Pump(g, c).1.Blank? <==> HasBlank(g, c)
    ensures Pump(g, c).1.Stalled? <==> EndsInChunk(g, c)
  {
    hide Pump, BlankAt, ChunkAt;
    if Pump(g, c).1.Blank? {
      var n := BlankStopsAt(g, c);
    }
    if Pump(g, c).1.Stalled? {
      var n := ChunkStopsAt(g, c);
    }
    if HasBlank(g, c) {
      var n :| BlankAt(g, c, n);
      BlankAtStops(g, c, n);
    }
    if EndsInChunk(g, c) {
      var n :| ChunkAt(g, c, n);
      ChunkAtStops(g, c, n);
    }
  }

  // ----- cuts

  /**
   * Split independence, exactly: whatever follows the read `a`, it makes no difference whether it arrives
   * with that read or in the next one, if and only if what has been received has no CRLF where a request line
   * is due and does not end inside the data of a chunk.
   */
  lemma SplitIndependence(g: Grammar, c: Conn, a: string)
    ensures (forall b :: b != "" ==> Absorb(g, Absorb(g, c, a), b) == Absorb(g, c, a + b))
            <==> !HasBlank(g, With(c, a)) && !EndsInChunk(g, With(c, a))
  {
    CutExactly(g, c, a);
    StopsExactly(g, With(c, a));
  }

  /** No cut of the stream falls inside the data of a chunk. */
  ghost predicate CleanCuts(g: Grammar, c: Conn, chunks: seq<string>) {
    forall k | 0 < k < |chunks| :: !EndsInChunk(g, With(c, Concat(chunks[..k])))
  }

  /**
   * Any cut of a stream without a CRLF where a request line is due, none of whose positions is inside the
   * data of a chunk, gives the same completed requests, the same request in progress with the same verdict
   * and the same rest as the stream in one read.
   */
  lemma AnySplit(g: Grammar, c: Conn, chunks: seq<string>)
    requires chunks != [] && !HasBlank(g, With(c, Concat(chunks))) && CleanCuts(g, c, chunks)
    ensures AbsorbAll(g, c, chunks) == Absorb(g, c, Concat(chunks))
  {
    StopsExactly(g, With(c, Concat(chunks)));
    forall k | 0 < k < |chunks| ensures !StopOf(g, c, Concat(chunks[..k])).Stalled? {
      StopsExactly(g, With(c, Concat(chunks[..k])));
    }
    hide HasBlank, EndsInChunk;
    CutsAreClean(g, c, chunks);
    CleanReadsAgree(g, c, chunks);
  }

  lemma {:induction false} CutsAreClean(g: Grammar, c: Conn, chunks: seq<string>)
    requires chunks != [] && !StopOf(g, c, Concat(chunks)).Blank?
    requires forall k | 0 < k < |chunks| :: !StopOf(g, c, Concat(chunks[..k])).Stalled?
    ensures CleanReads(g, c, chunks)
    decreases |chunks|
  {
    hide Pump, Concat, AbsorbAll;
    if |chunks| > 1 {
      var a, rest := chunks[0], chunks[1..];
      ConcatFirst(chunks);
      ConcatFirst(chunks[..1]);
      assert chunks[..1][1..] == [];
      assert !StopOf(g, c, Concat(chunks[..1])).Stalled?;
      NotBlankBefore(g, c, a, Concat(rest));
      CleanCut(g, c, a, Concat(rest));
      forall k | 0 < k < |rest| ensures !StopOf(g, Absorb(g, c, a), Concat(rest[..k])).Stalled? {
        assert chunks[..k + 1][1..] == rest[..k];
        ConcatFirst(chunks[..k + 1]);
        CleanCut(g, c, a, Concat(rest[..k]));
      }
      CutsAreClean(g, Absorb(g, c, a), rest);
    }
  }

  lemma ConcatFirst(chunks: seq<string>)
    requires chunks != []
    ensures Concat(chunks) == chunks[0] + Concat(chunks[1..])
    ensures chunks[1..] == [] ==> Concat(chunks) == chunks[0]
  {}

  lemma NotBlankBefore(g: Grammar, c: Conn, a: string, b: string)
    requires !StopOf(g, c, a + b).Blank?
    ensures !StopOf(g, c, a).Blank?
  {
    CutPump(g, With(c, a), b);
    TwoReads(g, c, a, b);
  }

  // ----- streams without a chunked body

  /** What a request parsed from its first line on satisfies. */
  predicate Sound(r: Req) {
    && (r.state.Request? || r.state.Headers? ==> !r.chunked)
    && (r.state.BodyChunk? || r.state.BodyTrailer? || r.state.BodyTrailer2? ==> r.chunked)
  }

  predicate SoundConn(c: Conn) { c.current.Some? ==> Sound(c.current.value) }

  /** A request in progress, or one queued at position `n` or behind it, is chunked. */
  predicate HasChunked(c: Conn, n: nat) {
    (c.current.Some? && c.current.value.chunked) || exists i | n <= i < |c.queue| :: c.queue[i].chunked
  }

  lemma TurnSound(g: Grammar, r: Req, buf: string)
    requires Sound(r) && !Terminal(r.state)
    ensures Sound(Turn(g, r, buf).0) && (r.chunked ==> Turn(g, r, buf).0.chunked)
  {
    hide NextLine, ChunkSize;
  }

  lemma {:induction false} ParseSound(g: Grammar, r: Req, buf: string)
    requires Sound(r)
    ensures Sound(Parse(g, r, buf).0) && (r.chunked ==> Parse(g, r, buf).0.chunked)
    decreases |buf|, Rank(r.state)
  {
    if !Terminal(r.state) {
      hide Turn, Sound;
      TurnProgress(g, r, buf);
      TurnSound(g, r, buf);
      var (r1, buf1, stop) := Turn(g, r, buf);
      if stop.Go? {
        ParseSound(g, r1, buf1);
      }
    }
  }

  lemma PassSound(g: Grammar, c: Conn, n: nat)
    requires SoundConn(c) && n <= |c.queue|
    ensures n <= |Pass(g, c).0.queue|
    ensures SoundConn(Pass(g, c).0) && (HasChunked(c, n) ==> HasChunked(Pass(g, c).0, n))
  {
    PassSays(g, c);
    ParseSound(g, Renewed(c).current.value, c.buffer);
    QueueStays(c, n);
    hide Pass, Parse, Renewed, Sound;
  }

  lemma QueueStays(c: Conn, n: nat)
    requires n <= |c.queue|
    ensures var d := Renewed(c);
            n <= |d.queue| && (HasChunked(c, n) ==> HasChunked(d, n)) && (SoundConn(c) ==> SoundConn(d))
  {
    var d := Renewed(c);
    assert forall i | n <= i < |c.queue| :: d.queue[i] == c.queue[i];
    if c.current.Some? && c.current.value.state.Complete? {
      assert d.queue[|c.queue|] == c.current.value;
    }
  }

  /** A request that was chunked is still there after further reads. */
  lemma {:induction false} PumpSound(g: Grammar, c: Conn, n: nat)
    requires SoundConn(c) && n <= |c.queue|
    ensures n <= |Pump(g, c).0.queue|
    ensures SoundConn(Pump(g, c).0) && (HasChunked(c, n) ==> HasChunked(Pump(g, c).0, n))
    decreases |c.buffer|, Busy(c)
  {
    hide Pass, Pump, SoundConn, HasChunked;
    PumpUnfold(g, c);
    PassSound(g, c, n);
    if Pass(g, c).0.current.value.state.Complete? {
      PumpSound(g, Pass(g, c).0, n);
    }
  }

  /** A read that stops inside chunk data shows in whatever follows. */
  lemma StallShowsChunked(g: Grammar, c: Conn, a: string, b: string)
    requires SoundConn(c) && StopOf(g, c, a).Stalled?
    ensures HasChunked(Absorb(g, c, a + b), |c.queue|)
  {
    var d := With(c, a);
    var c0 := BeforeStall(g, d);
    BeforeStallStalls(g, d);
    PumpSound(g, d, |c.queue|);
    CutPump(g, d, b);
    TwoReads(g, c, a, b);
    assert c0.current.Some? && c0.current.value.chunked;
    assert c0.queue == Pump(g, d).0.queue;
    PumpSound(g, With(c0, b), |c.queue|);
    hide Pump, BeforeStall, HasChunked;
  }

  /**
   * A stream without a CRLF where a request line is due, and of which no request is chunked, has the same effect
   * in any number of reads, wherever it is cut. Requests that were queued before do not matter.
   */
  lemma PlainSplit(g: Grammar, c: Conn, chunks: seq<string>)
    requires SoundConn(c) && chunks != [] && !HasBlank(g, With(c, Concat(chunks)))
    requires !HasChunked(Absorb(g, c, Concat(chunks)), |c.queue|)
    ensures AbsorbAll(g, c, chunks) == Absorb(g, c, Concat(chunks))
  {
    forall k | 0 < k < |chunks| ensures !EndsInChunk(g, With(c, Concat(chunks[..k]))) {
      StopsExactly(g, With(c, Concat(chunks[..k])));
      ConcatSplit(chunks, k);
      if StopOf(g, c, Concat(chunks[..k])).Stalled? {
        StallShowsChunked(g, c, Concat(chunks[..k]), Concat(chunks[k..]));
      }
    }
    AnySplit(g, c, chunks);
    hide *;
  }

  lemma {:induction false} ConcatSplit(chunks: seq<string>, k: nat)
    requires k <= |chunks|
    ensures Concat(chunks) == Concat(chunks[..k]) + Concat(chunks[k..])
  {
    if k == 0 {
      assert chunks[..0] == [] && chunks[0..] == chunks && "" + Concat(chunks) == Concat(chunks);
    } else {
      ConcatSplit(chunks[1..], k - 1);
      assert chunks[..k][1..] == chunks[1..][..k - 1] && chunks[1..][k - 1..] == chunks[k..];
    }
  }

  // ----- with the size limit

  /**
   * Two such cuts of one stream agree, with the size check in force, however long the stream is, if no single
   * read of either is refused.
   */
  lemma SplitsAgree(g: Grammar, c: Conn, max: nat, one: seq<string>, other: seq<string>)
    requires one != [] && other != [] && Concat(one) == Concat(other)
    requires NoneRefused(g, c, max, one) && NoneRefused(g, c, max, other)
    requires !HasBlank(g, With(c, Concat(one))) && CleanCuts(g, c, one) && CleanCuts(g, c, other)
    ensures ReadAll(g, c, max, one) == ReadAll(g, c, max, other)
  {
    hide HasBlank, CleanCuts, NoneRefused;
    ReadsWithinLimit(g, c, max, one);
    ReadsWithinLimit(g, c, max, other);
    AnySplit(g, c, one);
    AnySplit(g, c, other);
  }
}
