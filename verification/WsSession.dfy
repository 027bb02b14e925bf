/**
 * Whole sessions of the endpoint of samples/wsendpoint.h: independence of how the bytes are cut into
 * reads, and what the application sees of a sequence of frames.
 */
module WsSession {
  import opened Bytes
  import opened Lists
  import opened WsFrame
  import opened WsFrameInvariant
  import opened WsCodec
  import opened WsEndpoint

  const RECOVERING: Frame := FRESH.(state := Recovery, degraded := true)

  /** The parser will throw the same string literal on every further call. */
  predicate Jammed(f: Frame) { f.state.Ready? || Wedged(f) }

  // ----- one read or two

  lemma RxKeeps(e: Endpoint, data: seq<byte>)
    requires Sane(e)
    ensures var (e1, end) := Rx(e, data);
            && end in {Ran, Left, Thrown(Sliced), Thrown(Text), Thrown(TOO_LARGE)} && e1.app == e.app
            && (!e1.session.Closed? ==> Sane(e1))
            && (end == Left ==> e1.session.Closed? || (e1.session.Closing? && e1.parser == FRESH))
            && (end == Thrown(Sliced) ==> !e1.session.Closed? && e1.parser == RECOVERING)
            && (end == Thrown(Text) ==> !e1.session.Closed? && Jammed(e1.parser))
            && (end == Thrown(TOO_LARGE) ==> e1.session.Closed?)
    decreases |data|
  {
    hide RxTurn;
    FreshSane(e);
    if !e.session.Closed? && data != [] {
      RxTurnKeeps(e, data);
      var (e1, t, k) := RxTurn(e, data);
      if t.Next? {
        RxKeeps(e1, data[k..]);
      }
    }
  }

  lemma FreshSane(e: Endpoint)
    ensures Sane(e.(parser := FRESH))
  {
    FreshInv();
  }

  /**
   * The call dropped the rest of the read although the session goes on: a frame error was sliced to a
   * `std::exception`, or a callback was ended by the exception for a message over the limit.
   */
  predicate Dropped(e1: Endpoint, end: Ending) {
    !e1.session.Closed? && (end == Left || end == Thrown(Sliced))
  }

  lemma RanIsWhole(e: Endpoint)
    ensures !Dropped(e, Ran)
  {}

  /** A jammed endpoint throws again, consumes nothing and does not change. */
  lemma JammedStays(e: Endpoint, data: seq<byte>)
    requires Sane(e) && !e.session.Closed? && Jammed(e.parser) && data != []
    ensures Rx(e, data) == (e, Thrown(Text))
  {
    RxTurnKeeps(e, data);
    if Wedged(e.parser) {
      WedgedStays(e.parser, data);
    } else {
      OnReadyKeeps(e);
    }
  }

  /** How a turn on `a + b` relates to a turn on `a`. */
  lemma CutTurn(e: Endpoint, a: seq<byte>, b: seq<byte>)
    requires Sane(e) && !e.session.Closed? && !e.parser.state.Ready? && a != [] && b != []
    ensures var whole, first := RxTurn(e, a + b), RxTurn(e, a);
            if whole.2 <= |a| then first == whole
            else
              && first.1 == Next && first.2 == |a| && Sane(first.0) && first.0.session == e.session
              && RxTurn(first.0, b) == (whole.0, whole.1, whole.2 - |a|)
  {
    hide Consumed, OnReady, Caught;
    CutConsume(e.parser, a, b);
    RxTurnKeeps(e, a);
  }

  lemma RxUnfold(e: Endpoint, data: seq<byte>)
    requires Sane(e) && !e.session.Closed? && data != []
    ensures var (e1, t, k) := RxTurn(e, data);
            match t
            case Next => k > 0 && Sane(e1) && Rx(e, data) == Rx(e1, data[k..])
            case Return => Rx(e, data) == (e1, Left)
            case Throw(o) => Rx(e, data) == (e1, Thrown(o))
  {
    RxTurnKeeps(e, data);
  }

  lemma ThrowHasInput(e: Endpoint, a: seq<byte>)
    requires Sane(e) && !Rx(e, a).1.Ran?
    ensures !e.session.Closed? && a != [] && Inv(e.parser)
  {}

  lemma RxEmpty(e: Endpoint)
    requires Sane(e)
    ensures Rx(e, []) == (e, Ran)
  {}

  /** What ends a call on `a` early also ends a call on `a + b`, and `b` is lost. */
  lemma ThrowEndsCall(e: Endpoint, a: seq<byte>, b: seq<byte>)
    requires Sane(e) && !Rx(e, a).1.Ran?
    ensures Rx(e, a + b) == Rx(e, a)
    decreases |a|, 1
  {
    if b == [] {
      assert a + b == a;
    } else if e.parser.state.Ready? {
      JammedStays(e, a);
      JammedStays(e, a + b);
    } else {
      ThrowEndsTurn(e, a, b);
    }
  }

  lemma ThrowEndsTurn(e: Endpoint, a: seq<byte>, b: seq<byte>)
    requires Sane(e) && !Rx(e, a).1.Ran? && !e.parser.state.Ready? && b != []
    ensures Rx(e, a + b) == Rx(e, a)
    decreases |a|, 0
  {
    hide *;
    ThrowHasInput(e, a);
    CutTurn(e, a, b);
    var (e1, t, k) := RxTurn(e, a);
    RxUnfold(e, a);
    RxUnfold(e, a + b);
    if t.Next? {
      ThrowHasInput(e1, a[k..]);
      assert (a + b)[k..] == a[k..] + b;
      ThrowEndsCall(e1, a[k..], b);
    }
  }

  /** If nothing is dropped while `a` is read, reading `b` next continues as if both had come at once. */
  lemma CutRx(e: Endpoint, a: seq<byte>, b: seq<byte>)
    requires Sane(e) && !Dropped(Rx(e, a).0, Rx(e, a).1)
    ensures var e1 := Rx(e, a).0;
            if e1.session.Closed? || b == [] then Rx(e, a + b).0 == e1
            else Sane(e1) && Rx(e, a + b).0 == Rx(e1, b).0
    ensures Rx(e, a).1.Ran? && !Rx(e, a).0.session.Closed? ==>
              Sane(Rx(e, a).0) && Rx(e, a + b) == Rx(Rx(e, a).0, b)
    decreases |a|
  {
    RxKeeps(e, a);
    var (e1, end) := Rx(e, a);
    if b == [] {
      assert a + b == a;
      if !e1.session.Closed? { RxEmpty(e1); }
    } else if !end.Ran? {
      ThrowEndsCall(e, a, b);
      if end == Thrown(Text) { JammedStays(e1, b); }
    } else if a == [] {
      assert a + b == b;
    } else if !e.session.Closed? {
      if e.parser.state.Ready? {
        JammedStays(e, a);
      } else {
        CutRxTurn(e, a, b);
      }
    }
  }

  lemma CutRxTurn(e: Endpoint, a: seq<byte>, b: seq<byte>)
    requires Sane(e) && !e.session.Closed? && !e.parser.state.Ready? && a != [] && b != []
    requires Rx(e, a).1.Ran?
    ensures var e1 := Rx(e, a).0;
            if e1.session.Closed? then Rx(e, a + b).0 == e1 else Sane(e1) && Rx(e, a + b) == Rx(e1, b)
    decreases |a|, 1
  {
    if RxTurn(e, a + b).2 <= |a| {
      CutAfterTurn(e, a, b);
    } else {
      CutInTurn(e, a, b);
    }
  }

  /** The cut falls into a later turn than the first. */
  lemma CutAfterTurn(e: Endpoint, a: seq<byte>, b: seq<byte>)
    requires Sane(e) && !e.session.Closed? && !e.parser.state.Ready? && a != [] && b != []
    requires Rx(e, a).1.Ran? && RxTurn(e, a + b).2 <= |a|
    ensures var e1 := Rx(e, a).0;
            if e1.session.Closed? then Rx(e, a + b).0 == e1 else Sane(e1) && Rx(e, a + b) == Rx(e1, b)
    decreases |a|, 0
  {
    hide *;
    SaneInv(e);
    CutTurn(e, a, b);
    RxTurnKeeps(e, a);
    RxUnfold(e, a);
    RxUnfold(e, a + b);
    var (e1, t, k) := RxTurn(e, a);
    if t.Next? {
      assert (a + b)[k..] == a[k..] + b;
      RanIsWhole(Rx(e1, a[k..]).0);
      CutRx(e1, a[k..], b);
    }
  }

  /** The cut falls into the first turn. */
  lemma CutInTurn(e: Endpoint, a: seq<byte>, b: seq<byte>)
    requires Sane(e) && !e.session.Closed? && !e.parser.state.Ready? && a != [] && b != []
    requires RxTurn(e, a + b).2 > |a|
    ensures Sane(Rx(e, a).0) && Rx(e, a + b) == Rx(Rx(e, a).0, b)
  {
    hide *;
    SaneInv(e);
    CutTurn(e, a, b);
    var (e1, t, k) := RxTurn(e, a);
    var (e2, u, n) := RxTurn(e, a + b);
    assert a[k..] == [] && (a + b)[n..] == b[n - |a|..];
    RxUnfold(e, a);
    RxUnfold(e, a + b);
    RxEmpty(e1);
    RxUnfold(e1, b);
  }

  /** What a read of a single 0x88 does after something was dropped. */
  lemma ReadAfterDrop(e: Endpoint)
    requires Sane(e) && !e.session.Closed? && (e.parser == RECOVERING || e.parser == FRESH)
    ensures Rx(e, [0x88]).0.parser != e.parser
  {
    RxTurnKeeps(e, [0x88]);
    assert [0x88 as byte][1..] == [];
  }

  /**
   * Whatever follows a read, it makes no difference whether it arrives with that read or in the next one, if
   * and only if the read was not cut short, with the rest of it lost, in a session that goes on.
   */
  lemma CutExactly(e: Endpoint, a: seq<byte>)
    requires Sane(e)
    ensures (forall b :: b != [] ==> SameAfterCut(e, a, b)) <==> !Dropped(Rx(e, a).0, Rx(e, a).1)
  {
    RxKeeps(e, a);
    if Dropped(Rx(e, a).0, Rx(e, a).1) {
      ThrowEndsCall(e, a, [0x88]);
      ReadAfterDrop(Rx(e, a).0);
      assert !SameAfterCut(e, a, [0x88]);
    } else {
      forall b | b != [] ensures SameAfterCut(e, a, b) {
        CutRx(e, a, b);
      }
    }
  }

  ghost predicate SameAfterCut(e: Endpoint, a: seq<byte>, b: seq<byte>)
    requires Sane(e)
  {
    RxKeeps(e, a);
    var e1 := Rx(e, a).0;
    Rx(e, a + b).0 == if e1.session.Closed? then e1 else Rx(e1, b).0
  }

  /** The endpoint after a sequence of reads; exceptions are left to the caller, who goes on. */
  function Reads(e: Endpoint, chunks: seq<seq<byte>>): Endpoint
    requires !e.session.Closed? ==> Sane(e)
    decreases |chunks|
  {
    if e.session.Closed? || chunks == [] then e
    else
      RxKeeps(e, chunks[0]);
      Reads(Rx(e, chunks[0]).0, chunks[1..])
  }

  /** If nothing of the whole stream is dropped, every cut of it has the same effect. */
  lemma CutsAgree(e: Endpoint, chunks: seq<seq<byte>>)
    requires Sane(e) && !Dropped(Rx(e, Concat(chunks)).0, Rx(e, Concat(chunks)).1)
    ensures Reads(e, chunks) == Rx(e, Concat(chunks)).0
    decreases |chunks|
  {
    if chunks != [] && !e.session.Closed? {
      var a, b := chunks[0], Concat(chunks[1..]);
      RxKeeps(e, a);
      var (e1, end) := Rx(e, a);
      if !end.Ran? {
        ThrowEndsCall(e, a, b);
      }
      CutRx(e, a, b);
      if !e1.session.Closed? {
        if end == Thrown(Text) && b != [] {
          JammedStays(e1, b);
        }
        CutsAgree(e1, chunks[1..]);
      }
    }
  }

  // ----- what the application sees

  /** Whether reading goes on after a message: it does, or ends for good, or the rest of the read is dropped. */
  datatype Further = GoesOn | Ends | Drops

  /** What one message makes the endpoint do: its events, the session after it and how reading goes on. */
  datatype Reaction = Reaction(events: seq<Event>, session: Session, further: Further)

  /** The event with which a message reaches the application. */
  function CallOf(m: Message): Event
    requires ValidMessage(m) && m.opcode != CLOSE
  {
    if m.opcode == PING then OnPing(m.payload)
    else if m.opcode == PONG then OnPong(m.payload)
    else OnMessage(EncodeHeader(m), m.payload)
  }

  /** The reaction of an endpoint whose log so far is `log`. */
  function React(session: Session, app: App, log: seq<Event>, m: Message): Reaction
    requires ValidMessage(m) && !session.Closed?
  {
    if m.opcode != CLOSE then
      var called := Called(app, log, CallOf(m));
      if Overruns(app, log, CallOf(m)) then
        if session.Open? then Reaction(called + [Sent(NoticeWire())], Closing, Drops)
        else Reaction(called, session, Drops)
      else if m.opcode == PING && session.Open? && app.answer(log + [OnPing(m.payload)]) then
        Reaction(called + [Sent(Wire(PONG, m.payload))], session, GoesOn)
      else Reaction(called, session, GoesOn)
    else if session.Closing? || |m.payload| == 1 then Reaction(Called(app, log, OnClose), Closed, Ends)
    else if CloseCode(m.payload) == ABNORMAL_CLOSE then Reaction([], session, Ends)
    else
      var ack := [Sent(AckWire(m.payload))];
      Reaction(ack + Called(app, log + ack, OnClose), Closed, Ends)
  }

  /** The events of a sequence of messages up to the one after which reading does not go on. */
  function Seen(session: Session, app: App, log: seq<Event>, ms: seq<Message>): (r: Reaction)
    requires !session.Closed? && forall m | m in ms :: ValidMessage(m)
    ensures r.further.GoesOn? ==> r.session == session
    decreases |ms|
  {
    if ms == [] then Reaction([], session, GoesOn)
    else
      var r := React(session, app, log, ms[0]);
      if !r.further.GoesOn? then r
      else
        var rest := Seen(session, app, log + r.events, ms[1..]);
        rest.(events := r.events + rest.events)
  }

  function EncodeAll(ms: seq<Message>): seq<byte>
    requires forall m | m in ms :: ValidMessage(m)
  {
    if ms == [] then [] else Encode(ms[0]) + EncodeAll(ms[1..])
  }

  /** A ready message other than a close frame, and how its handling ends. */
  lemma CallReacts(e: Endpoint, m: Message)
    requires ValidMessage(m) && e.parser == ReadyFrame(m) && !e.session.Closed? && m.opcode != CLOSE
    ensures var r := React(e.session, e.app, e.log, m);
            var (e1, t) := OnReady(e);
            && e1.log == e.log + r.events && e1.session == r.session
            && t == if r.further.GoesOn? then Next else Return
  {
    hide Called, Overruns, Inv, Complete, ReadyFrame, EncodeHeader;
    ReadyFrameSays(m);
    HeaderFields(m);
    var (e1, o) := AfterCallback(e, CallOf(m));
    assert e1.log == e.log + Called(e.app, e.log, CallOf(m));
    OverrunIsCaught(e1);
  }

  lemma CloseReacts(e: Endpoint, m: Message)
    requires ValidMessage(m) && e.parser == ReadyFrame(m) && !e.session.Closed? && m.opcode == CLOSE
    ensures var r := React(e.session, e.app, e.log, m);
            var (e1, t) := OnReady(e);
            && e1.log == e.log + r.events && e1.session == r.session
            && (r.session.Closed? || (t == Throw(Text) && r.further.Ends?))
  {
    hide Called, Overruns, Inv, Complete, ReadyFrame, EncodeHeader, CloseCode, CloseReason, AfterSendCloseAck, AckWire;
    ReadyFrameSays(m);
    HeaderFields(m);
    if |m.payload| != 1 && e.session.Open? {
      AckTurn(e, m.payload);
    }
  }

  lemma ReadyReacts(e: Endpoint, m: Message)
    requires ValidMessage(m) && e.parser == ReadyFrame(m) && !e.session.Closed?
    ensures var r := React(e.session, e.app, e.log, m);
            var (e1, t) := OnReady(e);
            && e1.log == e.log + r.events && e1.session == r.session && e1.app == e.app && t != Throw(Sliced)
            && (r.further.GoesOn? ==> t == Next && e1.parser == FRESH && r.session == e.session)
            && (r.further.Drops? ==> t == Return && r.session.Closing?)
            && (r.further.Ends? ==> t == Throw(Text) || r.session.Closed?)
  {
    hide OnReady, Called, Overruns, AckWire;
    ReadyFrameSays(m);
    HeaderFields(m);
    FreshInv();
    OnReadyKeeps(e);
    if m.opcode == CLOSE {
      CloseReacts(e, m);
    } else {
      CallReacts(e, m);
    }
  }

  /** A call on `data` comes down to the turn that ended in `e1` with `rest` unread. */
  ghost predicate Resolves(e: Endpoint, data: seq<byte>, e1: Endpoint, t: Turn, rest: seq<byte>)
    requires Sane(e)
  {
    match t
    case Next => Sane(e1) && Rx(e, data) == Rx(e1, rest)
    case Return => Rx(e, data) == (e1, Left)
    case Throw(o) => Rx(e, data) == (e1, Thrown(o))
  }

  lemma ParseUnfold(f: Frame, data: seq<byte>)
    requires Inv(f) && !f.state.Ready? && ParseFrame(f, data).1.Fine? && ParseFrame(f, data).0.state.Ready?
    ensures data != [] && Consumed(f, data).1.Fine?
    ensures var (g, o, k) := Consumed(f, data);
            && Inv(g)
            && if g.state.Ready? then ParseFrame(f, data) == (g, Fine, k)
               else ParseFrame(f, data) == (ParseFrame(g, data[k..]).0, Fine, k + ParseFrame(g, data[k..]).2)
  {
    hide Consumed;
    ConsumeKeeps(f, data);
  }

  /** The receive loop runs until the parser has a whole frame, and then handles it. */
  lemma RxParses(e: Endpoint, data: seq<byte>)
    requires Sane(e) && !e.session.Closed? && !e.parser.state.Ready?
    requires ParseFrame(e.parser, data).1.Fine? && ParseFrame(e.parser, data).0.state.Ready?
    ensures var (p, o, k) := ParseFrame(e.parser, data);
            && Inv(p)
            && var (e1, t) := OnReady(e.(parser := p));
            Resolves(e, data, e1, t, data[k..])
    decreases |data|
  {
    hide Consumed, OnReady;
    ParseUnfold(e.parser, data);
    RxUnfold(e, data);
    var (g, o, k) := Consumed(e.parser, data);
    if !g.state.Ready? {
      var e0 := e.(parser := g);
      assert RxTurn(e, data) == (e0, Next, k);
      RxParses(e0, data[k..]);
      assert data[k..][ParseFrame(g, data[k..]).2..] == data[k + ParseFrame(g, data[k..]).2..];
    }
  }

  lemma RxMessage(e: Endpoint, m: Message, rest: seq<byte>)
    requires ValidMessage(m) && e.parser == FRESH && !e.session.Closed?
    ensures var (e1, t) := OnReady(e.(parser := ReadyFrame(m)));
            Resolves(e, Encode(m) + rest, e1, t, rest)
  {
    var data := Encode(m) + rest;
    DecodeEncode(m, rest);
    RxParses(e, data);
    assert data[|Encode(m)|..] == rest;
  }

  /** The first message of a stream: its reaction, and the endpoint that reads on. */
  lemma RxFirst(e: Endpoint, m: Message, rest: seq<byte>) returns (e1: Endpoint)
    requires ValidMessage(m) && e.parser == FRESH && !e.session.Closed?
    ensures var r := React(e.session, e.app, e.log, m); var data := Encode(m) + rest;
            && e1.log == e.log + r.events && e1.session == r.session && e1.app == e.app
            && (r.further.GoesOn? ==> e1.parser == FRESH && r.session == e.session && Rx(e, data) == Rx(e1, rest))
            && (!r.further.GoesOn? ==> Rx(e, data).0 == e1 && Rx(e, data).1 != Thrown(Sliced))
            && (r.further.Drops? ==> r.session.Closing? && Rx(e, data).1 == Left)
            && (r.further.Ends? ==> r.session.Closed? || Rx(e, data).1 != Left)
  {
    hide Rx, OnReady, React, Encode, Sane, Inv;
    FreshSane(e);
    RxMessage(e, m, rest);
    var ready := e.(parser := ReadyFrame(m));
    ReadyReacts(ready, m);
    e1 := OnReady(ready).0;
    RxAtEnd(e1, rest);
  }

  lemma RxAtEnd(e: Endpoint, rest: seq<byte>)
    ensures Sane(e) && e.session.Closed? ==> Rx(e, rest) == (e, Ran)
  {}

  lemma RxMessages(e: Endpoint, ms: seq<Message>)
    requires (forall m | m in ms :: ValidMessage(m)) && e.parser == FRESH && !e.session.Closed?
    ensures var (e1, end) := Rx(e, EncodeAll(ms));
            var seen := Seen(e.session, e.app, e.log, ms);
            && e1.log == e.log + seen.events && e1.session == seen.session
            && (Dropped(e1, end) <==> seen.further.Drops?)
    decreases |ms|
  {
    hide React, Encode, RxTurn;
    if ms != [] {
      var e1 := RxFirst(e, ms[0], EncodeAll(ms[1..]));
      var r := React(e.session, e.app, e.log, ms[0]);
      if r.further.GoesOn? {
        RxMessages(e1, ms[1..]);
        var seen := Seen(e.session, e.app, e.log + r.events, ms[1..]).events;
        assert e.log + r.events + seen == e.log + (r.events + seen);
      }
    }
  }

  /**
   * However a sequence of valid messages is cut into reads, the application sees exactly these messages
   * with their payloads unmasked, in order and once each, up to the one that ends the session, whatever it
   * sends in its callbacks, short of a message over the limit.
   */
  lemma MessagesSurviveFragmentation(e: Endpoint, ms: seq<Message>, chunks: seq<seq<byte>>)
    requires (forall m | m in ms :: ValidMessage(m)) && e.parser == FRESH && !e.session.Closed?
    requires Concat(chunks) == EncodeAll(ms) && !Seen(e.session, e.app, e.log, ms).further.Drops?
    ensures var e1 := Reads(e, chunks);
            && e1.log == e.log + Seen(e.session, e.app, e.log, ms).events
            && e1.session == Seen(e.session, e.app, e.log, ms).session
  {
    RxMessages(e, ms);
    CutsAgree(e, chunks);
  }
}
