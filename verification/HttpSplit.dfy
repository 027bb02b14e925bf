/**
 * Independence of how an HTTP stream is cut into reads (httprequest.cpp, `EHSConnection::AddBuffer`), read by
 * read: the reasons to stop that the next read can tell.
 */
module HttpSplit {
  import opened Lists
  import opened HttpSyntax
  import opened HttpRequest
  import opened HttpConnection

  // ----- one read or two, for the connection

  /** The connection as it was when its last pass reached the chunk that stalled it. */
  function Reached(g: Grammar, c: Conn): Conn
    requires Pass(g, c).1.Stalled?
  {
    Pass(g, c).0.(current := Some(Unstalled(g, Renewed(c).current.value, c.buffer).0))
  }

  /** The connection just before a chunk stalled it. */
  function BeforeStall(g: Grammar, c: Conn): (c0: Conn)
    requires Pump(g, c).1.Stalled?
    decreases |c.buffer|, Busy(c)
  {
    PassProgress(g, c);
    var (c1, stop) := Pass(g, c);
    if c1.current.value.state.Complete? then BeforeStall(g, c1) else Reached(g, c)
  }

  lemma {:induction false} BeforeStallStalls(g: Grammar, c: Conn)
    requires Pump(g, c).1.Stalled?
    ensures StallOf(BeforeStall(g, c)) == Some(Pump(g, c).0)
    decreases |c.buffer|, Busy(c)
  {
    hide Pass, Reached, StallOf;
    PassProgress(g, c);
    var (c1, stop) := Pass(g, c);
    if c1.current.value.state.Complete? {
      BeforeStallStalls(g, c1);
    } else {
      ReachedStalls(g, c);
    }
  }

  lemma ReachedStalls(g: Grammar, c: Conn)
    requires Pass(g, c).1.Stalled?
    ensures StallOf(Reached(g, c)) == Some(Pass(g, c).0)
  {
    hide Parse, Unstalled;
  }

  /** What a chunk that ends beyond a non-empty buffer does to the connection: bytes used, and kept. */
  function StallOf(c: Conn): Option<Conn> {
    match c.current
    case None => None
    case Some(r) =>
      if r.state.BodyChunk? && 0 < |c.buffer| <= r.chunkLen then
        Some(c.(current := Some(r.(body := r.body + c.buffer, chunkLen := r.chunkLen - |c.buffer|))))
      else None
  }

  /** One pass over a longer buffer. */
  lemma CutPass(g: Grammar, c: Conn, more: string)
    ensures var (c1, stop) := Pass(g, c);
            match stop
            case Starved => Pass(g, With(c, more)) == Pass(g, With(c1, more))
            case Stalled => Pass(g, With(c, more)) == Pass(g, With(Reached(g, c), more)) && Busy(Reached(g, c))
            case _ => Pass(g, With(c, more)) == (With(c1, more), stop)
  {
    hide Parse, Unstalled, Rank;
    PassProgress(g, c);
    CutParse(g, Renewed(c).current.value, c.buffer, more);
  }

  /** How pumping with `more` appended relates to pumping without, by the reason for stopping. */
  lemma {:induction false} CutPump(g: Grammar, c: Conn, more: string)
    ensures var (c1, stop) := Pump(g, c);
            match stop
            case Starved => Pump(g, With(c, more)) == Pump(g, With(c1, more))
            case Stalled => Pump(g, With(c, more)) == Pump(g, With(BeforeStall(g, c), more))
            case _ => Pump(g, With(c, more)) == (With(c1, more), stop)
    decreases |c.buffer|, Busy(c)
  {
    hide Pass, Reached;
    CutPass(g, c, more);
    PassProgress(g, c);
    PassProgress(g, With(c, more));
    var c1 := Pass(g, c).0;
    if c1.current.value.state.Complete? {
      CutPump(g, c1, more);
    }
  }

  lemma TwoReads(g: Grammar, c: Conn, a: string, b: string)
    ensures With(With(c, a), b) == With(c, a + b)
  {
    assert c.buffer + a + b == c.buffer + (a + b);
  }

  // ----- the two ways to stop that the next read can tell

  /** After a blank line the rest of the read is left alone; another read would go on with it. */
  lemma BlankShows(g: Grammar, c: Conn, a: string)
    requires StopOf(g, c, a).Blank?
    ensures Absorb(g, Absorb(g, c, a), CRLF) != Absorb(g, c, a + CRLF)
  {
    var c1 := Absorb(g, c, a);
    CutPump(g, With(c, a), CRLF);
    TwoReads(g, c, a, CRLF);
    assert Absorb(g, c, a + CRLF) == With(c1, CRLF);
    BlankIsNew(g, With(c, a));
    var d := With(c1, CRLF);
    assert CrlfAt(d.buffer, |c1.buffer|);
    NextLineFinds(d.buffer, |c1.buffer|);
    TurnProgress(g, d.current.value, d.buffer);
    PassProgress(g, d);
    assert |Pass(g, d).0.buffer| < |d.buffer|;
  }

  lemma {:induction false} BlankIsNew(g: Grammar, c: Conn)
    requires Pump(g, c).1.Blank?
    ensures Pump(g, c).0.current.value.state.Request?
    decreases |c.buffer|, Busy(c)
  {
    PassProgress(g, c);
    var (c1, stop) := Pass(g, c);
    if c1.current.value.state.Complete? {
      BlankIsNew(g, c1);
    } else {
      ParseBlank(g, Renewed(c).current.value, c.buffer);
    }
  }

  lemma {:induction false} ParseBlank(g: Grammar, r: Req, buf: string)
    requires Parse(g, r, buf).2.Blank?
    ensures Parse(g, r, buf).0.state.Request?
    decreases |buf|, Rank(r.state)
  {
    TurnProgress(g, r, buf);
    var (r1, buf1, stop) := Turn(g, r, buf);
    if stop.Go? {
      ParseBlank(g, r1, buf1);
    }
  }

  /**
   * From the end of a chunk on, the parser is inside a chunk with nothing left to read of it only when it
   * has added to the body, or has gone on to a further request.
   */
  ghost predicate Grown(r: Req, n: nat) {
    match r.state
    case BodyChunk => |r.body| > n || (r.chunkLen > 0 && |r.body| >= n)
    case Body => |r.body| >= n
    case Request => false
    case Headers => false
    case _ => true
  }

  lemma {:induction false} ParseGrows(g: Grammar, r: Req, buf: string, n: nat)
    requires Grown(r, n)
    ensures Grown(Parse(g, r, buf).0, n)
    decreases |buf|, Rank(r.state)
  {
    if !Terminal(r.state) {
      TurnProgress(g, r, buf);
      var (r1, buf1, stop) := Turn(g, r, buf);
      assert Grown(r1, n);
      if stop.Go? {
        ParseGrows(g, r1, buf1, n);
      }
    }
  }

  lemma {:induction false} PumpCounts(g: Grammar, c: Conn)
    ensures Pump(g, c).0.requests >= c.requests
    ensures !Busy(c) ==> Pump(g, c).0.requests > c.requests
    decreases |c.buffer|, Busy(c)
  {
    PassProgress(g, c);
    var (c1, stop) := Pass(g, c);
    if c1.current.value.state.Complete? {
      PumpCounts(g, c1);
    }
  }

  /** A read that ends inside a chunk, and what one more byte shows. */
  lemma StallShows(g: Grammar, c0: Conn, c1: Conn)
    requires StallOf(c0) == Some(c1)
    ensures Pump(g, With(c1, "X")).0 != Pump(g, With(c0, "X")).0
  {
    var r0, r1, d := c0.current.value, c1.current.value, c0.buffer;
    var one, two := With(c0, "X"), With(c1, "X");
    PassProgress(g, one);
    PassProgress(g, two);
    if |d| < r0.chunkLen {
      StallInside(g, c0, c1);
    } else {
      StallAtEnd(g, c0, c1);
    }
  }

  lemma StallInside(g: Grammar, c0: Conn, c1: Conn)
    requires StallOf(c0) == Some(c1) && |c0.buffer| < c0.current.value.chunkLen
    ensures Pump(g, With(c1, "X")).0 != Pump(g, With(c0, "X")).0
  {
    var r0, r1 := c0.current.value, c1.current.value;
    var d := c0.buffer + "X";
    var r := r0.(body := r0.body + d, chunkLen := r0.chunkLen - |d|);
    assert Parse(g, r0, d) == (r, d, Stalled);
    assert Pump(g, With(c0, "X")).0 == With(c0, "X").(current := Some(r));
    if |d| > r1.chunkLen {
      var r2, rest := r1.(body := r1.body + d[..r1.chunkLen], chunkLen := 0), d[r1.chunkLen..];
      assert Turn(g, r1, d) == (r2, rest, Go);
      assert Parse(g, r1, d) == Parse(g, r2, rest);
      assert |Pass(g, With(c1, "X")).0.buffer| < |d|;
    } else {
      assert Parse(g, r1, d).0.body == r1.body + d;
    }
  }

  lemma StallAtEnd(g: Grammar, c0: Conn, c1: Conn)
    requires StallOf(c0) == Some(c1) && |c0.buffer| == c0.current.value.chunkLen
    ensures Pump(g, With(c1, "X")).0 != Pump(g, With(c0, "X")).0
  {
    var r0, r1 := c0.current.value, c1.current.value;
    var d := c0.buffer + "X";
    assert d[..r0.chunkLen] == c0.buffer && d[r0.chunkLen..] == "X";
    assert r1 == r0.(body := r0.body + c0.buffer, chunkLen := 0);
    assert NextLine("X").0 == "";
    assert Turn(g, r0, d) == (r1, "X", Go);
    assert Parse(g, r1, "X") == (r1, "X", Starved);
    assert Parse(g, r0, d) == (r1, "X", Starved);
    var one := c0.(current := Some(r1), buffer := "X");
    assert Pump(g, With(c0, "X")).0 == one;
    var two := With(c1, "X");
    var (line, rest) := NextLine(d);
    if line == "" {
      assert Parse(g, r1, d) == (r1, d, Starved);
    } else if line == CRLF {
      var r2 := r1.(state := Body);
      assert Turn(g, r1, d) == (r2, rest, Go);
      ParseGrows(g, r2, rest, |r1.body|);
      assert Grown(Pass(g, two).0.current.value, |r1.body|);
      if Pass(g, two).0.current.value.state.Complete? {
        PumpCounts(g, Pass(g, two).0);
      }
    } else {
      var bad := r1.(state := Invalid);
      assert Turn(g, r1, d) == (bad, rest, Go);
      assert Parse(g, bad, rest) == (bad, rest, Finished);
      assert Parse(g, r1, d) == (bad, rest, Finished);
    }
  }

  // ----- the theorems

  /** The next read cannot tell: the parser waits for bytes, or has rejected the stream for good. */
  predicate CleanStop(s: Stop) { s.Starved? || s.Finished? }

  /**
   * Whatever follows the read `a`, it makes no difference whether it arrives with that read or in the next
   * one, if and only if the read stops because the parser waits for bytes or has rejected the stream.
   */
  lemma CutExactly(g: Grammar, c: Conn, a: string)
    ensures (forall b :: b != "" ==> Absorb(g, Absorb(g, c, a), b) == Absorb(g, c, a + b))
            <==> CleanStop(StopOf(g, c, a))
  {
    if StopOf(g, c, a).Blank? {
      BlankShows(g, c, a);
    } else if StopOf(g, c, a).Stalled? {
      var c0 := BeforeStall(g, With(c, a));
      BeforeStallStalls(g, With(c, a));
      StallShows(g, c0, Absorb(g, c, a));
      CutPump(g, With(c, a), "X");
      TwoReads(g, c, a, "X");
      assert Absorb(g, Absorb(g, c, a), "X") != Absorb(g, c, a + "X");
    } else {
      forall b | b != "" ensures Absorb(g, Absorb(g, c, a), b) == Absorb(g, c, a + b) {
        CleanCut(g, c, a, b);
      }
    }
  }

  lemma CleanCut(g: Grammar, c: Conn, a: string, b: string)
    requires CleanStop(StopOf(g, c, a))
    ensures Pump(g, With(Absorb(g, c, a), b)) == Pump(g, With(c, a + b))
  {
    CutPump(g, With(c, a), b);
    TwoReads(g, c, a, b);
    if StopOf(g, c, a).Finished? {
      PassProgress(g, With(Absorb(g, c, a), b));
    }
  }

  function AbsorbAll(g: Grammar, c: Conn, chunks: seq<string>): Conn
    decreases |chunks|
  {
    if chunks == [] then c else AbsorbAll(g, Absorb(g, c, chunks[0]), chunks[1..])
  }

  /** Every read but the last stops cleanly. */
  predicate CleanReads(g: Grammar, c: Conn, chunks: seq<string>)
    decreases |chunks|
  {
    |chunks| > 1 ==>
      CleanStop(StopOf(g, c, chunks[0])) && CleanReads(g, Absorb(g, c, chunks[0]), chunks[1..])
  }

  /** Any number of clean reads has the same effect as one read of everything. */
  lemma {:induction false} CleanReadsAgree(g: Grammar, c: Conn, chunks: seq<string>)
    requires chunks != [] && CleanReads(g, c, chunks)
    ensures AbsorbAll(g, c, chunks) == Absorb(g, c, Concat(chunks))
    decreases |chunks|
  {
    var a := chunks[0];
    if |chunks| == 1 {
      assert Concat(chunks) == a + "" == a;
      assert AbsorbAll(g, c, chunks) == AbsorbAll(g, Absorb(g, c, a), []);
    } else {
      CleanReadsAgree(g, Absorb(g, c, a), chunks[1..]);
      CleanCut(g, c, a, Concat(chunks[1..]));
    }
  }

  function ReadAll(g: Grammar, c: Conn, max: nat, chunks: seq<string>): Conn
    decreases |chunks|
  {
    if chunks == [] then c else ReadAll(g, AfterRead(g, c, max, chunks[0]).0, max, chunks[1..])
  }

  /** Every read has data and, with what is stored when it arrives, fits the maximum request size. */
  predicate NoneRefused(g: Grammar, c: Conn, max: nat, chunks: seq<string>)
    decreases |chunks|
  {
    chunks != [] ==>
      && chunks[0] != "" && |c.buffer| + |chunks[0]| <= max
      && NoneRefused(g, AfterRead(g, c, max, chunks[0]).0, max, chunks[1..])
  }

  /** Then the size check never interferes. */
  lemma {:induction false} ReadsWithinLimit(g: Grammar, c: Conn, max: nat, chunks: seq<string>)
    requires NoneRefused(g, c, max, chunks)
    ensures ReadAll(g, c, max, chunks) == AbsorbAll(g, c, chunks)
    decreases |chunks|
  {
    if chunks != [] {
      ReadsWithinLimit(g, Absorb(g, c, chunks[0]), max, chunks[1..]);
    }
  }
}
