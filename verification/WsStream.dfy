/**
 * Which bytes a peer must not send, and which messages an application must not: the conditions under which the
 * endpoint of samples/wsendpoint.h drops the rest of a read, and with them the exact limit of the independence
 * of how a stream is cut into reads.
 */
module WsStream {
  import opened Bytes
  import opened Lists
  import opened WsFrame
  import opened WsFrameInvariant
  import opened WsCodec
  import opened WsEndpoint
  import opened WsSession

  /** A header that breaks the rules of section 5.2: seen after two octets, or once its length is in. */
  predicate BadHeader(bad: seq<byte>) {
    && |bad| >= 2
    && (!ValidBasic(bad) || (HeaderLen(bad) <= |bad| && !Minimal(HeaderBuffer(bad, HeaderLen(bad)))))
  }

  /** What an endpoint with this session, application and log does with a stream so far: messages it goes on after. */
  predicate GoesThrough(session: Session, app: App, log: seq<Event>, ms: seq<Message>)
    requires !session.Closed?
  {
    (forall m | m in ms :: ValidMessage(m)) && Seen(session, app, log, ms).further.GoesOn?
  }

  /** Of such a stream, with `rest` behind the messages: `rest` is a bad header with whatever follows. */
  predicate Breaks(session: Session, app: App, log: seq<Event>, data: seq<byte>, ms: seq<Message>, rest: seq<byte>)
    requires !session.Closed?
  {
    GoesThrough(session, app, log, ms) && data == EncodeAll(ms) + rest && BadHeader(rest)
  }

  /** Or: `rest` begins with a message, in whose callback the application sends one over the limit. */
  predicate Overtaxes(session: Session, app: App, log: seq<Event>, data: seq<byte>, ms: seq<Message>, m: Message,
                      rest: seq<byte>)
    requires !session.Closed?
  {
    && GoesThrough(session, app, log, ms) && ValidMessage(m) && data == EncodeAll(ms) + (Encode(m) + rest)
    && m.opcode != CLOSE && Overruns(app, log + Seen(session, app, log, ms).events, CallOf(m))
  }

  ghost predicate BreaksSomewhere(session: Session, app: App, log: seq<Event>, data: seq<byte>)
    requires !session.Closed?
  {
    exists ms, rest :: Breaks(session, app, log, data, ms, rest)
  }

  ghost predicate OvertaxesSomewhere(session: Session, app: App, log: seq<Event>, data: seq<byte>)
    requires !session.Closed?
  {
    exists ms, m, rest :: Overtaxes(session, app, log, data, ms, m, rest)
  }

  ghost predicate Offends(session: Session, app: App, log: seq<Event>, data: seq<byte>)
    requires !session.Closed?
  {
    BreaksSomewhere(session, app, log, data) || OvertaxesSomewhere(session, app, log, data)
  }

  // ----- one frame

  /** Without a whole header there is no verdict yet. */
  lemma UnfinishedIsFine(data: seq<byte>)
    requires |data| < 2 || (ValidBasic(data) && |data| < HeaderLen(data))
    ensures ParseFrame(FRESH, data).1 == Fine
  {
    FreshInv();
    if |data| == 1 {
      assert Consumed(FRESH, data).0.needed == 1;
      ConsumeKeeps(FRESH, data);
    } else if |data| >= 2 {
      UnfinishedLength(data);
    }
  }

  lemma UnfinishedLength(data: seq<byte>)
    requires |data| >= 2 && ValidBasic(data) && |data| < HeaderLen(data)
    ensures ParseFrame(FRESH, data).1 == Fine
  {
    hide ParseFrame, Inv, ValidBasic, Consumed, HeaderBuffer;
    FreshInv();
    BasicVerdict(data);
    BasicDemands(data);
    var (g, o, k) := Consumed(FRESH, data);
    ParseOn(FRESH, data, g, k);
    WaitsForLength(g, data[2..]);
  }

  lemma WaitsForLength(f: Frame, data: seq<byte>)
    requires Inv(f) && f.state == ExtendedHeader && |data| < f.needed
    ensures ParseFrame(f, data).1 == Fine
  {
    hide ExtendedDone, Write, HeaderLen;
    if data != [] {
      ConsumeKeeps(f, data);
      assert Consumed(f, data).1 == Fine && Consumed(f, data).2 == |data|;
      assert data[|data|..] == [];
    }
  }

  /** A fresh parser ends with a sliced error exactly on a bad header, and with no error but that and the literal. */
  lemma BadHeaderExactly(data: seq<byte>)
    ensures ParseFrame(FRESH, data).1 == Sliced <==> BadHeader(data)
    ensures ParseFrame(FRESH, data).1 in {Fine, Sliced, Text}
  {
    hide ParseFrame, ValidBasic, Minimal, HeaderBuffer, HeaderLen;
    if |data| >= 2 && !ValidBasic(data) {
      hide *;
      BadHeaderSlices(data);
    } else if |data| >= 2 && HeaderLen(data) <= |data| {
      HeaderVerdict(data);
    } else {
      UnfinishedIsFine(data);
    }
  }

  lemma BadHeaderSlices(data: seq<byte>)
    requires |data| >= 2 && !ValidBasic(data)
    ensures ParseFrame(FRESH, data).1 == Sliced
  {
    BadBasicHeader(data);
  }

  // ----- one call

  /** Unless a frame gets ready, a call ends the way the parser does. */
  lemma RxFails(e: Endpoint, data: seq<byte>)
    requires Sane(e) && !e.session.Closed? && !e.parser.state.Ready?
    requires var (p, o, k) := ParseFrame(e.parser, data); o in {Fine, Sliced, Text} && !(o.Fine? && p.state.Ready?)
    ensures var o := ParseFrame(e.parser, data).1; Rx(e, data).1 == if o.Fine? then Ran else Thrown(o)
    decreases |data|
  {
    if data != [] {
      hide Consumed, OnReady, Inv;
      RxUnfold(e, data);
      ParseStep(e.parser, data);
      var (g, o, k) := Consumed(e.parser, data);
      if o.Fine? && !g.state.Ready? {
        var e0 := e.(parser := g);
        assert RxTurn(e, data) == (e0, Next, k);
        RxFails(e0, data[k..]);
      }
    }
  }

  lemma ParseStep(f: Frame, data: seq<byte>)
    requires Inv(f) && f.state != Ready && data != []
    ensures var (g, o, k) := Consumed(f, data);
            && (o == Fine ==> Inv(g))
            && (if o != Fine || g.state == Ready then ParseFrame(f, data) == (g, o, k)
                else ParseFrame(f, data).0 == ParseFrame(g, data[k..]).0
                     && ParseFrame(f, data).1 == ParseFrame(g, data[k..]).1)
  {
    hide Consumed;
    ConsumeKeeps(f, data);
  }

  /**
   * The bytes on which a call slices a frame error, exactly: messages after which the endpoint goes on, and
   * then a bad header.
   */
  lemma SlicedExactly(e: Endpoint, data: seq<byte>)
    requires e.parser == FRESH && !e.session.Closed?
    ensures Rx(e, data).1 == Thrown(Sliced) <==> BreaksSomewhere(e.session, e.app, e.log, data)
  {
    hide Rx, Breaks, Overtaxes;
    if Rx(e, data).1 == Thrown(Sliced) {
      FreshSane(e);
      RxKeeps(e, data);
      var ms, m, rest := DroppedOffends(e, data);
      assert Breaks(e.session, e.app, e.log, data, ms, rest);
    }
    if BreaksSomewhere(e.session, e.app, e.log, data) {
      var ms, rest :| Breaks(e.session, e.app, e.log, data, ms, rest);
      BreakIsSliced(e, data, ms, rest);
    }
  }

  /**
   * The bytes on which a call is left with the session going on, exactly: messages after which the endpoint
   * goes on, and then one in whose callback the application sends a message over the limit. The session is
   * CLOSING then.
   */
  lemma LeftExactly(e: Endpoint, data: seq<byte>)
    requires e.parser == FRESH && !e.session.Closed?
    ensures Rx(e, data).1 == Left && !Rx(e, data).0.session.Closed?
            <==> OvertaxesSomewhere(e.session, e.app, e.log, data)
    ensures Rx(e, data).1 == Left ==> !Rx(e, data).0.session.Open?
  {
    hide Rx, Breaks, Overtaxes;
    FreshSane(e);
    RxKeeps(e, data);
    if Rx(e, data).1 == Left && !Rx(e, data).0.session.Closed? {
      var ms, m, rest := DroppedOffends(e, data);
      assert Overtaxes(e.session, e.app, e.log, data, ms, m, rest);
    }
    if OvertaxesSomewhere(e.session, e.app, e.log, data) {
      var ms, m, rest :| Overtaxes(e.session, e.app, e.log, data, ms, m, rest);
      OvertaxIsLeft(e, data, ms, m, rest);
    }
  }

  /** Both together: what drops the rest of a read. */
  lemma DroppedExactly(e: Endpoint, data: seq<byte>)
    requires e.parser == FRESH && !e.session.Closed?
    ensures Dropped(Rx(e, data).0, Rx(e, data).1) <==> Offends(e.session, e.app, e.log, data)
  {
    hide Rx, BreaksSomewhere, OvertaxesSomewhere;
    FreshSane(e);
    RxKeeps(e, data);
    SlicedExactly(e, data);
    LeftExactly(e, data);
  }

  lemma DroppedOffends(e: Endpoint, data: seq<byte>) returns (ms: seq<Message>, m: Message, rest: seq<byte>)
    requires e.parser == FRESH && !e.session.Closed? && Dropped(Rx(e, data).0, Rx(e, data).1)
    ensures if Rx(e, data).1 == Left then Overtaxes(e.session, e.app, e.log, data, ms, m, rest)
            else Breaks(e.session, e.app, e.log, data, ms, rest)
    decreases |data|
  {
    hide Rx, ParseFrame, React, Encode, BadHeader, ValidMessage, Breaks, Overtaxes, GoesThrough;
    var (p, o, k) := ParseFrame(FRESH, data);
    BadHeaderExactly(data);
    if o.Fine? && p.state.Ready? {
      AcceptsExactlyEncodings(data);
      m :| ValidMessage(m) && Encode(m) <= data;
      rest := data[|Encode(m)|..];
      assert data == Encode(m) + rest;
      var e1 := RxFirst(e, m, rest);
      EncodeNotEmpty(m);
      var r := React(e.session, e.app, e.log, m);
      if r.further.GoesOn? {
        var n;
        ms, n, rest := DroppedOffends(e1, data[|Encode(m)|..]);
        OffendsLater(e, m, ms, n, data[|Encode(m)|..], rest);
        ms, m := [m] + ms, n;
      } else {
        OffendsNow(e, m, rest);
        ms := [];
      }
    } else {
      RxFails(e, data);
      ms, rest, m := [], data, Message(true, PING, Unmasked, []);
      BreaksNow(e, data);
    }
  }

  lemma BreaksNow(e: Endpoint, data: seq<byte>)
    requires !e.session.Closed? && BadHeader(data)
    ensures Breaks(e.session, e.app, e.log, data, [], data)
  {
    hide BadHeader;
    assert EncodeAll([]) + data == data;
  }

  /** Only a callback that overruns drops the rest of a read. */
  lemma OffendsNow(e: Endpoint, m: Message, rest: seq<byte>)
    requires !e.session.Closed? && ValidMessage(m) && !React(e.session, e.app, e.log, m).further.GoesOn?
    ensures React(e.session, e.app, e.log, m).further.Drops? ==>
              Overtaxes(e.session, e.app, e.log, Encode(m) + rest, [], m, rest)
  {
    hide Encode, Overruns, ValidMessage;
    assert EncodeAll([]) + (Encode(m) + rest) == Encode(m) + rest && e.log + [] == e.log;
  }

  /** What offends behind a message after which the endpoint goes on offends behind more. */
  lemma OffendsLater(e: Endpoint, m: Message, ms: seq<Message>, n: Message, data: seq<byte>, rest: seq<byte>)
    requires !e.session.Closed? && ValidMessage(m) && React(e.session, e.app, e.log, m).further.GoesOn?
    ensures var log := e.log + React(e.session, e.app, e.log, m).events;
            && (Breaks(e.session, e.app, log, data, ms, rest) ==>
                  Breaks(e.session, e.app, e.log, Encode(m) + data, [m] + ms, rest))
            && (Overtaxes(e.session, e.app, log, data, ms, n, rest) ==>
                  Overtaxes(e.session, e.app, e.log, Encode(m) + data, [m] + ms, n, rest))
  {
    hide React, Encode, BadHeader, Overruns, ValidMessage;
    var log := e.log + React(e.session, e.app, e.log, m).events;
    assert ([m] + ms)[1..] == ms;
    if GoesThrough(e.session, e.app, log, ms) {
      SeenFirst(e.session, e.app, e.log, m, ms);
      assert Encode(m) + (EncodeAll(ms) + rest) == Encode(m) + EncodeAll(ms) + rest;
      if ValidMessage(n) {
        var tail := Encode(n) + rest;
        assert Encode(m) + (EncodeAll(ms) + tail) == Encode(m) + EncodeAll(ms) + tail;
      }
    }
  }

  lemma SeenFirst(session: Session, app: App, log: seq<Event>, m: Message, ms: seq<Message>)
    requires !session.Closed? && ValidMessage(m) && React(session, app, log, m).further.GoesOn?
    requires forall x | x in ms :: ValidMessage(x)
    ensures var r := React(session, app, log, m); var rest := Seen(session, app, log + r.events, ms);
            && (forall x | x in [m] + ms :: ValidMessage(x))
            && Seen(session, app, log, [m] + ms) == rest.(events := r.events + rest.events)
            && log + (r.events + rest.events) == (log + r.events) + rest.events
            && EncodeAll([m] + ms) == Encode(m) + EncodeAll(ms)
  {
    hide Encode, ValidMessage, Called, Overruns;
    assert ([m] + ms)[1..] == ms;
  }

  /** The messages in front do not matter, but for what they left in the log. */
  lemma GoneThrough(e: Endpoint, ms: seq<Message>, rest: seq<byte>) returns (e1: Endpoint)
    requires e.parser == FRESH && !e.session.Closed? && GoesThrough(e.session, e.app, e.log, ms)
    ensures e1 == e.(log := e.log + Seen(e.session, e.app, e.log, ms).events)
    ensures Rx(e, EncodeAll(ms) + rest) == Rx(e1, rest)
    decreases |ms|
  {
    hide Rx, React, Encode, ValidMessage;
    if ms == [] {
      e1 := e;
      assert EncodeAll([]) + rest == rest && e.log + [] == e.log;
    } else {
      var m := ms[0];
      assert m in ms && ms == [m] + ms[1..] && forall x | x in ms[1..] :: x in ms;
      assert EncodeAll(ms) + rest == Encode(m) + (EncodeAll(ms[1..]) + rest);
      var r := React(e.session, e.app, e.log, m);
      assert r.further.GoesOn?;
      e1 := RxFirst(e, m, EncodeAll(ms[1..]) + rest);
      SeenFirst(e.session, e.app, e.log, m, ms[1..]);
      e1 := GoneThrough(e1, ms[1..], rest);
    }
  }

  lemma BreakIsSliced(e: Endpoint, data: seq<byte>, ms: seq<Message>, rest: seq<byte>)
    requires e.parser == FRESH && !e.session.Closed? && Breaks(e.session, e.app, e.log, data, ms, rest)
    ensures Rx(e, data).1 == Thrown(Sliced)
  {
    hide Rx, ParseFrame, BadHeader, GoesThrough, Sane;
    var e1 := GoneThrough(e, ms, rest);
    FreshSane(e1);
    BadHeaderExactly(rest);
    RxFails(e1, rest);
  }

  lemma OvertaxIsLeft(e: Endpoint, data: seq<byte>, ms: seq<Message>, m: Message, rest: seq<byte>)
    requires e.parser == FRESH && !e.session.Closed? && Overtaxes(e.session, e.app, e.log, data, ms, m, rest)
    ensures Rx(e, data).1 == Left && Rx(e, data).0.session.Closing?
  {
    hide Rx, Encode, GoesThrough, ValidMessage, Called, Overruns;
    var e1 := GoneThrough(e, ms, Encode(m) + rest);
    assert React(e1.session, e1.app, e1.log, m).further.Drops?;
    var e2 := RxFirst(e1, m, rest);
  }

  lemma EncodeNotEmpty(m: Message)
    requires ValidMessage(m)
    ensures |Encode(m)| >= 2
  {}

  // ----- cuts

  /**
   * Independence of fragmentation, exactly: let `before` have been read by an endpoint that started with a
   * fresh parser. Whatever follows `a`, it makes no difference whether it arrives with `a` or in the next
   * read, if and only if the bytes received so far do not offend: no bad header of the peer's, and no message
   * over the limit that the application sends in a callback.
   */
  lemma FragmentationIndependence(e: Endpoint, before: seq<byte>, a: seq<byte>)
    requires e.parser == FRESH && !e.session.Closed?
    requires Rx(e, before).1.Ran? && !Rx(e, before).0.session.Closed?
    ensures Sane(Rx(e, before).0)
    ensures (forall b :: b != [] ==> SameAfterCut(Rx(e, before).0, a, b))
            <==> !Offends(e.session, e.app, e.log, before + a)
  {
    hide Rx, Sane, SameAfterCut, Offends;
    FreshIsSane(e);
    if a == [] {
      CutRxNothing(e, before);
    }
    RanIsWhole(Rx(e, before).0);
    CutRx(e, before, a);
    CutExactly(Rx(e, before).0, a);
    DroppedExactly(e, before + a);
  }

  lemma FreshIsSane(e: Endpoint)
    requires e.parser == FRESH
    ensures Sane(e)
  {
    FreshInv();
  }

  lemma CutRxNothing(e: Endpoint, before: seq<byte>)
    requires Sane(e) && Rx(e, before).1.Ran? && !Rx(e, before).0.session.Closed?
    ensures Sane(Rx(e, before).0) && Rx(Rx(e, before).0, []) == (Rx(e, before).0, Ran)
  {
    RxKeeps(e, before);
  }

  /**
   * Once an error was sliced the parser is degraded, and nothing is dropped any more: from then on reads may be
   * cut anywhere.
   */
  lemma DegradedIsIndependent(e: Endpoint, a: seq<byte>)
    requires Sane(e) && e.parser.degraded
    ensures forall b :: b != [] ==> SameAfterCut(e, a, b)
  {
    DegradedDropsNothing(e, a);
    CutExactly(e, a);
  }

  lemma DegradedDropsNothing(e: Endpoint, data: seq<byte>)
    requires Sane(e) && (e.parser.degraded || e.session.Closed?)
    ensures !Dropped(Rx(e, data).0, Rx(e, data).1)
    decreases |data|
  {
    if e.session.Closed? || data == [] {
      RxStops(e, data);
    } else {
      hide Rx, RxTurn, Sane;
      RxUnfold(e, data);
      DegradedTurn(e, data);
      SaneInv(e);
      var (e1, t, k) := RxTurn(e, data);
      if t.Next? {
        DegradedDropsNothing(e1, data[k..]);
      }
    }
  }

  lemma RxStops(e: Endpoint, data: seq<byte>)
    requires Sane(e) && (e.session.Closed? || data == [])
    ensures Rx(e, data) == (e, Ran)
  {}

  lemma DegradedConsume(f: Frame, data: seq<byte>)
    requires Inv(f) && f.degraded && f.state != Ready && data != []
    ensures var (g, o, k) := Consumed(f, data); g.degraded && o != Sliced
  {
    hide ValidBasic, Minimal, Declared, Write, Discard, Xored;
  }

  /** The only frame that a degraded parser completes is a close frame, which ends the session or gets stuck. */
  lemma DegradedReady(e: Endpoint)
    requires |e.parser.header| == MAX_HEADER_LENGTH && Complete(e.parser) && e.parser.state.Ready?
    requires e.parser.header[0] == 0x88 && !e.session.Closed?
    ensures OnReady(e).1 != Throw(Sliced) && (OnReady(e).1 != Throw(Text) ==> OnReady(e).0.session.Closed?)
  {
    hide Inv, AckWire, CloseCode, CloseReason, AfterSendCloseAck, Called, Overruns;
    assert Opcode(e.parser.header) == CLOSE;
    FreshInv();
    OnReadyKeeps(e);
    ControlFits(e.parser);
    if |e.parser.payload| != 1 && e.session.Open? {
      AckTurn(e, e.parser.payload);
    }
  }

  lemma DegradedTurn(e: Endpoint, data: seq<byte>)
    requires Sane(e) && e.parser.degraded && !e.session.Closed? && data != []
    ensures var (e1, t, k) := RxTurn(e, data);
            && t != Throw(Sliced) && (t.Next? ==> e1.parser.degraded || e1.session.Closed?)
            && (t.Return? ==> e1.session.Closed?)
  {
    hide Consumed, OnReady, Complete;
    if e.parser.state.Ready? {
      ReadyStays(e.parser, data);
      DegradedReady(e);
    } else {
      DegradedConsume(e.parser, data);
      ConsumeKeeps(e.parser, data);
      var (p, o, k) := Consumed(e.parser, data);
      if o.Fine? && p.state.Ready? {
        DegradedReady(e.(parser := p));
      }
    }
  }

  /** After a string literal was thrown nothing is dropped either. */
  lemma JammedIsIndependent(e: Endpoint, a: seq<byte>)
    requires Sane(e) && !e.session.Closed? && Jammed(e.parser)
    ensures forall b :: b != [] ==> SameAfterCut(e, a, b)
  {
    if a == [] {
      RxStops(e, a);
    } else {
      JammedStays(e, a);
    }
    CutExactly(e, a);
  }

  /** A stream that does not offend has the same effect in any number of reads. */
  lemma AnyFragmentation(e: Endpoint, chunks: seq<seq<byte>>)
    requires e.parser == FRESH && !e.session.Closed? && !Offends(e.session, e.app, e.log, Concat(chunks))
    ensures Reads(e, chunks) == Rx(e, Concat(chunks)).0
  {
    FreshIsSane(e);
    DroppedExactly(e, Concat(chunks));
    CutsAgree(e, chunks);
  }

  // ----- inputs

  const RESERVED_BIT: seq<byte> := [0xC1, 0x00]
  const CLOSE_EMPTY: seq<byte> := [0x88, 0x00]
  const OVERSIZED: seq<byte> := [0x82, 0x7F, 0x00, 0x00, 0x00, 0x00, 0x05, 0xF5, 0xE1, 0x01]
  const CLOSE_1006: seq<byte> := [0x88, 0x02, 0x03, 0xEE]

  /** A text header with a reserved bit is sliced; the close frame behind it is lost, unless it comes later. */
  lemma ReservedBitIsSliced(e: Endpoint)
    requires e.parser == FRESH && e.session.Open?
    ensures Rx(e, RESERVED_BIT + CLOSE_EMPTY) == (e.(parser := RECOVERING), Thrown(Sliced))
    ensures Sane(e.(parser := RECOVERING)) && Rx(e.(parser := RECOVERING), CLOSE_EMPTY).0.session.Closed?
  {
    SlicedAtOnce(e);
    ThrowEndsCall(e, RESERVED_BIT, CLOSE_EMPTY);
    RecoversWithClose(e.(parser := RECOVERING));
  }

  lemma SlicedAtOnce(e: Endpoint)
    requires e.parser == FRESH && e.session.Open?
    ensures Sane(e) && Rx(e, RESERVED_BIT) == (e.(parser := RECOVERING), Thrown(Sliced))
  {
    FreshIsSane(e);
    BasicVerdict(RESERVED_BIT);
    ConsumeKeeps(FRESH, RESERVED_BIT);
    RxUnfold(e, RESERVED_BIT);
    hide Rx, Consumed, Inv;
  }

  lemma RecoversWithClose(e: Endpoint)
    requires e.parser == RECOVERING && e.session.Open?
    ensures Sane(e) && Rx(e, CLOSE_EMPTY).0.session.Closed?
  {
    var f := CloseStarted();
    RxUnfold(e, CLOSE_EMPTY);
    assert CLOSE_EMPTY[1..] == [0x00];
    RxUnfold(e.(parser := f), [0x00]);
    CloseFinished(e.(parser := f));
    hide Rx, RxTurn;
  }

  lemma CloseStarted() returns (f: Frame)
    ensures Inv(RECOVERING) && Inv(f) && Consumed(RECOVERING, CLOSE_EMPTY) == (f, Fine, 1)
    ensures f == RECOVERING.(header := RECOVERING.header[0 := 0x88], needed := 1, state := BasicHeader)
  {
    f := RECOVERING.(header := RECOVERING.header[0 := 0x88], needed := 1, state := BasicHeader);
    assert Discard(CLOSE_EMPTY) == 1;
  }

  lemma CloseFinished(e: Endpoint)
    requires e.parser == RECOVERING.(header := RECOVERING.header[0 := 0x88], needed := 1, state := BasicHeader)
    requires e.session.Open? && Sane(e)
    ensures RxTurn(e, [0x00]).0.session.Closed?
  {
  }

  /** A binary frame that declares 100000001 bytes: the parser asks for nothing more, and throws on every read. */
  lemma OversizedJams(e: Endpoint, more: seq<byte>)
    requires e.parser == FRESH && !e.session.Closed? && more != []
    ensures ParseFrame(FRESH, OVERSIZED).1 == Text && !Documented(ParseFrame(FRESH, OVERSIZED).0)
    ensures Rx(e, OVERSIZED).1 == Thrown(Text) && Sane(Rx(e, OVERSIZED).0)
    ensures Rx(Rx(e, OVERSIZED).0, more) == (Rx(e, OVERSIZED).0, Thrown(Text))
  {
    FreshIsSane(e);
    OversizedHeader();
    HeaderVerdict(OVERSIZED);
    hide Rx, ParseFrame, Sane, Inv, ValidBasic, HeaderBuffer, HeaderLen, Minimal, Declared;
    RxFails(e, OVERSIZED);
    RxKeeps(e, OVERSIZED);
    JammedStays(Rx(e, OVERSIZED).0, more);
  }

  lemma OversizedHeader()
    ensures HeaderLen(OVERSIZED) == 10 && ValidBasic(OVERSIZED)
    ensures var h := HeaderBuffer(OVERSIZED, 10); Minimal(h) && Declared(h) == 100000001
  {
    var h := HeaderBuffer(OVERSIZED, 10);
    assert h[0] == 0x82 && h[1] == 0x7F;
    assert h[2..10] == h[..10][2..10] == OVERSIZED[2..10];
    OversizedLength();
  }

  lemma OversizedLength()
    ensures FromBE(OVERSIZED[2..10]) == 100000001
  {
    var z: seq<byte> := [0x00, 0x00, 0x00, 0x00];
    assert OVERSIZED[2..10] == z + [0x05] + [0xF5] + [0xE1] + [0x01];
    assert FromBE(z) == 0 by {
      FromOctet([0x00, 0x00, 0x00], 0x00);
      FromOctet([0x00, 0x00], 0x00);
      FromOctet([0x00], 0x00);
      FromOctet([], 0x00);
      assert [] + [0x00 as byte] == [0x00] && [0x00 as byte] + [0x00] == [0x00, 0x00];
      assert [0x00 as byte, 0x00] + [0x00] == [0x00, 0x00, 0x00] && [0x00 as byte, 0x00, 0x00] + [0x00] == z;
    }
    hide FromBE;
    FromOctet(z, 0x05);
    FromOctet(z + [0x05], 0xF5);
    FromOctet(z + [0x05] + [0xF5], 0xE1);
    FromOctet(z + [0x05] + [0xF5] + [0xE1], 0x01);
  }

  /** A close frame with code 1006: the session stays open, and every further read throws. */
  lemma Close1006Jams(e: Endpoint, more: seq<byte>)
    requires e.parser == FRESH && e.session.Open? && more != []
    ensures var e1 := Rx(e, CLOSE_1006).0;
            && Rx(e, CLOSE_1006).1 == Thrown(Text) && e1.session.Open? && Sane(e1)
            && Rx(e1, more) == (e1, Thrown(Text))
  {
    FreshIsSane(e);
    var m := Message(true, CLOSE, Unmasked, [0x03, 0xEE]);
    Encoded1006(m);
    hide Rx, OnReady, Sane, Encode;
    RxMessage(e, m, []);
    var ready := e.(parser := ReadyFrame(m));
    HeaderFields(m);
    ReadyFrameSays(m);
    OnReadyKeeps(ready);
    RxKeeps(e, CLOSE_1006);
    JammedStays(Rx(e, CLOSE_1006).0, more);
  }

  lemma Encoded1006(m: Message)
    requires m == Message(true, CLOSE, Unmasked, [0x03, 0xEE])
    ensures ValidMessage(m) && Encode(m) == CLOSE_1006 && Encode(m) + [] == CLOSE_1006
    ensures CloseCode(m.payload) == ABNORMAL_CLOSE
  {
    assert m.payload[..2] == m.payload == [0x03 as byte] + [0xEE] && [] + [0x03 as byte] == [0x03];
    FromOctet([0x03], 0xEE);
    FromOctet([], 0x03);
    assert ToBE(2, 0) == [];
  }

  /** An application that answers everything with a message of one byte over the limit. */
  const TALKER: App := App(log => [Data(seq(MAX_PAYLOAD_SIZE + 1, i => 0), false)], log => true)
  const PING_EMPTY: seq<byte> := [0x89, 0x00]

  /** One ping is enough for it to find itself CLOSING, with what follows in the same read lost. */
  lemma TalkerIsLeft(rest: seq<byte>)
    ensures var (e1, end) := Rx(Endpoint(FRESH, Open, [], TALKER), PING_EMPTY + rest);
            && Sane(Endpoint(FRESH, Open, [], TALKER)) && end == Left
            && e1 == Endpoint(FRESH, Closing, [OnPing([]), Sent(NoticeWire())], TALKER)
  {
    var e, m := Endpoint(FRESH, Open, [], TALKER), Message(true, PING, Unmasked, []);
    FreshIsSane(e);
    EmptyPing(m);
    TalkerOverruns();
    hide Rx, Encode, Called, Overruns, NoticeWire, ValidMessage, Sane;
    var e1 := RxFirst(e, m, rest);
    RxKeeps(e, PING_EMPTY + rest);
    assert [] + ([OnPing([])] + [Sent(NoticeWire())]) == [OnPing([]), Sent(NoticeWire())];
  }

  lemma TalkerOverruns()
    ensures Overruns(TALKER, [], OnPing([])) && Called(TALKER, [], OnPing([])) == [OnPing([])]
  {
    var ds := TALKER.reply([] + [OnPing([])]);
    assert |ds| == 1 && |ds[0].payload| > MAX_PAYLOAD_SIZE;
  }

  lemma EmptyPing(m: Message)
    requires m == Message(true, PING, Unmasked, [])
    ensures ValidMessage(m) && Encode(m) == PING_EMPTY
  {
    assert ToBE(0, 0) == [];
  }
}
