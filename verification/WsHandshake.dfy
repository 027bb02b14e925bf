/**
 * The closing handshake of samples/wsendpoint.h over every sequential run of reads and application sends, inside
 * callbacks and between reads.
 */
module WsHandshake {
  import opened Bytes
  import opened WsFrame
  import opened WsFrameInvariant
  import opened WsCodec
  import opened WsEndpoint
  import opened WsSession

  /** What can happen to an endpoint: bytes arrive, or the application sends a message of its own accord. */
  datatype Step = Read(data: seq<byte>) | AppSend(message: Data)

  function Perform(e: Endpoint, s: Step): Endpoint
    requires !e.session.Closed? ==> Sane(e)
  {
    match s
    case Read(data) => if e.session.Closed? then e else Rx(e, data).0
    case AppSend(d) => AfterSend(e, Op(d.text), d.payload).0
  }

  lemma PerformKeeps(e: Endpoint, s: Step)
    requires !e.session.Closed? ==> Sane(e)
    ensures var e1 := Perform(e, s); !e1.session.Closed? ==> Sane(e1)
  {
    if s.Read? && !e.session.Closed? {
      RxKeeps(e, s.data);
    }
  }

  function Run(e: Endpoint, steps: seq<Step>): Endpoint
    requires !e.session.Closed? ==> Sane(e)
    decreases |steps|
  {
    if steps == [] then e
    else
      PerformKeeps(e, steps[0]);
      Run(Perform(e, steps[0]), steps[1..])
  }

  // ----- the shape of every log

  predicate SentWith(ev: Event, op: byte) { ev.Sent? && |ev.wire| > 0 && ev.wire[0] & 0x0F == op }

  /** Neither the callback nor a frame that ends a session. */
  predicate Quiet(ev: Event) { !ev.OnClose? && !SentWith(ev, CLOSE) }

  /** Nor a pong: what is left once the endpoint has sent a close frame. */
  predicate Calm(ev: Event) { Quiet(ev) && !SentWith(ev, PONG) }

  predicate IsData(ev: Event) { SentWith(ev, TEXT) || SentWith(ev, BINARY) }

  predicate ValidAck(ev: Event, payload: seq<byte>) {
    && 2 <= |payload| <= PAYLOAD_SIZE_BASIC
    && ev == Sent(Wire(CLOSE, payload))
    && !InvalidStatus(CloseCode(payload)) && !ReservedStatus(CloseCode(payload))
  }

  ghost predicate IsAck(ev: Event) { exists payload :: ValidAck(ev, payload) }

  /** The close frame that answers a message over the limit. */
  predicate IsNotice(ev: Event) { ev == Sent(NoticeWire()) }

  ghost predicate AllQuiet(log: seq<Event>) { forall i | 0 <= i < |log| :: Quiet(log[i]) }
  ghost predicate AllCalm(log: seq<Event>) { forall i | 0 <= i < |log| :: Calm(log[i]) }
  ghost predicate AllData(log: seq<Event>) { forall i | 0 <= i < |log| :: IsData(log[i]) }

  /** Quiet events, the notice at position `n`, and calm events. */
  ghost predicate NoticeAt(log: seq<Event>, n: nat) {
    n < |log| && AllQuiet(log[..n]) && IsNotice(log[n]) && AllCalm(log[n + 1..])
  }

  /** The log of a session that has not ended. */
  ghost predicate Before(session: Session, log: seq<Event>) {
    match session
    case Open => AllQuiet(log)
    case Closing => exists n: nat :: NoticeAt(log, n)
    case Closed => false
  }

  /** The end of a session: perhaps, of an open one, the acknowledgement, then `on_close`. */
  ghost predicate IsEnd(session: Session, end: seq<Event>) {
    end == [OnClose] || (session.Open? && |end| == 2 && IsAck(end[0]) && end[1] == OnClose)
  }

  /** The end at position `n`, and after it only what the application sends. */
  ghost predicate EndsAt(session: Session, log: seq<Event>, n: nat, k: nat) {
    && n + k <= |log| && Before(session, log[..n]) && IsEnd(session, log[n..n + k])
    && AllData(log[n + k..])
  }

  ghost predicate Shape(e: Endpoint) {
    if e.session.Closed? then exists session, n: nat, k: nat :: EndsAt(session, e.log, n, k)
    else Before(e.session, e.log)
  }

  lemma WireOpcode(op: byte, payload: seq<byte>)
    requires Sendable(op) && PayloadVerdict(op, |payload|).Fine?
    ensures SentWith(Sent(Wire(op, payload)), op)
    ensures op != CLOSE ==> Quiet(Sent(Wire(op, payload)))
    ensures op != CLOSE && op != PONG ==> Calm(Sent(Wire(op, payload)))
  {
    var m := Message(true, op, Unmasked, payload);
    assert Wire(op, payload)[0] == Byte0(m);
    assert (0x80 | op) & 0x0F == op;
  }

  // ----- what one turn adds

  lemma DataIsCalm(ev: Event)
    requires IsData(ev)
    ensures Calm(ev)
  {}

  lemma {:induction false} FramesAreData(ds: seq<Data>)
    ensures AllData(Frames(ds).0)
    decreases |ds|
  {
    if ds != [] && |ds[0].payload| <= MAX_PAYLOAD_SIZE {
      hide Wire, IsData;
      SendsData(ds[0]);
      FramesAreData(ds[1..]);
    }
  }

  lemma SendsData(d: Data)
    requires |d.payload| <= MAX_PAYLOAD_SIZE
    ensures IsData(Framed(d))
  {
    WireOpcode(Op(d.text), d.payload);
  }

  /** A callback adds itself and then data. */
  lemma CalledAdds(app: App, log: seq<Event>, ev: Event) returns (data: seq<Event>)
    ensures Called(app, log, ev) == [ev] + data && AllData(data)
    ensures Calm(ev) ==> AllCalm(Called(app, log, ev))
  {
    data := Frames(app.reply(log + [ev])).0;
    FramesAreData(app.reply(log + [ev]));
    forall i | 0 <= i < |data| ensures Calm(data[i]) {
      DataIsCalm(data[i]);
    }
    hide Frames, Calm, IsData;
  }

  /** What a step adds to the log of a session that has not ended, by the session before and after. */
  ghost predicate Adds(session: Session, after: Session, added: seq<Event>) {
    if after.Closed? then exists end, data :: added == end + data && IsEnd(session, end) && AllData(data)
    else if session.Open? && after.Open? then AllQuiet(added)
    else if session.Open? && after.Closing? then
      |added| > 0 && AllQuiet(added[..|added| - 1]) && IsNotice(added[|added| - 1])
    else session.Closing? && after.Closing? && AllCalm(added)
  }

  lemma CalmIsQuiet(added: seq<Event>)
    requires AllCalm(added)
    ensures AllQuiet(added)
  {}

  /** A frame that reaches the application as `ev`. */
  lemma CallAdds(e: Endpoint, ev: Event, o: Outcome)
    requires !e.session.Closed? && e.parser.state.Ready? && Calm(ev) && o == AfterCallback(e, ev).1
    ensures var added := Called(e.app, e.log, ev);
            && AllCalm(added) && AllQuiet(added)
            && Adds(e.session, e.session, added)
            && (e.session.Open? ==> Adds(Open, Closing, added + [Sent(NoticeWire())]))
  {
    var data := CalledAdds(e.app, e.log, ev);
    var added := Called(e.app, e.log, ev);
    CalmIsQuiet(added);
    hide AllCalm, AllQuiet, Calm, Called, NoticeWire, IsData;
    assert (added + [Sent(NoticeWire())])[..|added|] == added;
  }

  lemma ShutdownAdds(e: Endpoint)
    requires !e.session.Closed?
    ensures var e1 := AfterShutdown(e).0;
            e1.log == e.log + Called(e.app, e.log, OnClose) && e1.session.Closed?
    ensures Adds(e.session, Closed, Called(e.app, e.log, OnClose))
  {
    var data := CalledAdds(e.app, e.log, OnClose);
    assert Called(e.app, e.log, OnClose) == [OnClose] + data && IsEnd(e.session, [OnClose]);
    hide Called, AllData;
  }

  /** Other frames than close frames. */
  lemma CallTurnAdds(e: Endpoint) returns (added: seq<Event>)
    requires |e.parser.header| == MAX_HEADER_LENGTH
    requires Complete(e.parser) && e.parser.state.Ready? && !e.session.Closed? && Opcode(e.parser.header) != CLOSE
    ensures OnReady(e).0.log == e.log + added && Adds(e.session, OnReady(e).0.session, added)
  {
    hide Complete, Adds, Called, Overruns, NoticeWire, Wire;
    var h, p := e.parser.header, e.parser.payload;
    var op := Opcode(h);
    if IsControl(op) { ControlFits(e.parser); }
    var ev := if op == PING then OnPing(p) else if op == PONG then OnPong(p) else OnMessage(h[..HeaderLen(h)], p);
    assert Calm(ev);
    added := Called(e.app, e.log, ev);
    var (e1, o) := AfterCallback(e, ev);
    CallAdds(e, ev, o);
    if o == TOO_LARGE {
      OverrunIsCaught(e1);
      if e.session.Open? {
        added := added + [Sent(NoticeWire())];
      }
    } else if op == PING && e.session.Open? && e.app.answer(e.log + [ev]) {
      PongAdds(added, p);
      added := added + [Sent(Wire(PONG, p))];
    }
  }

  lemma PongAdds(added: seq<Event>, p: seq<byte>)
    requires AllQuiet(added) && |p| <= PAYLOAD_SIZE_BASIC
    ensures Adds(Open, Open, added + [Sent(Wire(PONG, p))])
  {
    WireOpcode(PONG, p);
  }

  lemma CloseTurnAdds(e: Endpoint) returns (added: seq<Event>)
    requires |e.parser.header| == MAX_HEADER_LENGTH
    requires Complete(e.parser) && e.parser.state.Ready? && !e.session.Closed? && Opcode(e.parser.header) == CLOSE
    ensures OnReady(e).0.log == e.log + added && Adds(e.session, OnReady(e).0.session, added)
  {
    hide Adds, Called, Overruns, AckWire, CloseCode, CloseReason, AfterSendCloseAck;
    var p := e.parser.payload;
    ControlFits(e.parser);
    ShutdownAdds(e);
    added := Called(e.app, e.log, OnClose);
    if e.session.Open? && |p| != 1 {
      AckTurn(e, p);
      if CloseCode(p) == ABNORMAL_CLOSE {
        NothingAdds(e.session);
        added := [];
      } else {
        added := AckAdds(e, p);
      }
    }
  }

  lemma NothingAdds(session: Session)
    requires !session.Closed?
    ensures Adds(session, session, [])
  {}

  lemma AckIsAck(p: seq<byte>)
    requires |p| <= PAYLOAD_SIZE_BASIC && |p| != 1 && CloseCode(p) != ABNORMAL_CLOSE
    ensures IsAck(Sent(AckWire(p)))
  {
    hide InvalidStatus, ReservedStatus, Wire;
    AckIsValid(p);
    assert ValidAck(Sent(AckWire(p)), AckPayload(CloseCode(p), CloseReason(p)));
  }

  lemma AckAdds(e: Endpoint, p: seq<byte>) returns (added: seq<Event>)
    requires |p| <= PAYLOAD_SIZE_BASIC && |p| != 1 && CloseCode(p) != ABNORMAL_CLOSE && e.session.Open?
    ensures var ack := Logged(e, Sent(AckWire(p)));
            added == [Sent(AckWire(p))] + Called(e.app, ack.log, OnClose) && Adds(e.session, Closed, added)
            && ack.log + Called(e.app, ack.log, OnClose) == e.log + added
  {
    hide Called, AckWire, IsAck, AllData, CloseCode;
    var ack := Sent(AckWire(p));
    AckIsAck(p);
    var data := CalledAdds(e.app, e.log + [ack], OnClose);
    added := [ack] + Called(e.app, e.log + [ack], OnClose);
    assert added == [ack, OnClose] + data && IsEnd(Open, [ack, OnClose]);
  }

  lemma OnReadyAdds(e: Endpoint) returns (added: seq<Event>)
    requires |e.parser.header| == MAX_HEADER_LENGTH
    requires Complete(e.parser) && e.parser.state.Ready? && !e.session.Closed?
    ensures OnReady(e).0.log == e.log + added && Adds(e.session, OnReady(e).0.session, added)
  {
    if Opcode(e.parser.header) == CLOSE {
      added := CloseTurnAdds(e);
    } else {
      added := CallTurnAdds(e);
    }
  }

  lemma TurnAdds(e: Endpoint, data: seq<byte>) returns (added: seq<Event>)
    requires Sane(e) && !e.session.Closed? && data != []
    ensures RxTurn(e, data).0.log == e.log + added && Adds(e.session, RxTurn(e, data).0.session, added)
  {
    hide OnReady, Adds, Called, Overruns;
    if e.parser.state.Ready? {
      ReadyStays(e.parser, data);
      added := OnReadyAdds(e);
    } else {
      ConsumeKeeps(e.parser, data);
      var (p, o, k) := Consumed(e.parser, data);
      if o.Fine? && p.state.Ready? {
        added := OnReadyAdds(e.(parser := p));
      } else if o.Fatal? {
        ShutdownAdds(e.(parser := p));
        added := Called(e.app, e.log, OnClose);
      } else {
        NothingAdds(e.session);
        added := [];
      }
    }
  }

  // ----- every run

  /** What a turn adds keeps the shape. */
  lemma AddsShape(e: Endpoint, e1: Endpoint, added: seq<Event>)
    requires !e.session.Closed? && Shape(e) && e1.log == e.log + added && Adds(e.session, e1.session, added)
    ensures Shape(e1)
  {
    hide Quiet, Calm, IsData, IsNotice, IsEnd;
    if e1.session.Closed? {
      var end, data :| added == end + data && IsEnd(e.session, end) && AllData(data);
      var n, k := |e.log|, |end|;
      assert e1.log[..n] == e.log && e1.log[n..n + k] == end && e1.log[n + k..] == data;
      assert EndsAt(e.session, e1.log, n, k);
    } else if e.session.Open? && e1.session.Closing? {
      var n := |e.log| + |added| - 1;
      assert e1.log[..n] == e.log + added[..|added| - 1];
      assert NoticeAt(e1.log, n);
    } else if e.session.Closing? {
      var n: nat :| NoticeAt(e.log, n);
      assert e1.log[..n] == e.log[..n] && e1.log[n + 1..] == e.log[n + 1..] + added;
      assert NoticeAt(e1.log, n);
    }
  }

  lemma RxShape(e: Endpoint, data: seq<byte>)
    requires Sane(e) && !e.session.Closed? && Shape(e)
    ensures Shape(Rx(e, data).0) && e.log <= Rx(e, data).0.log
    ensures e.session.Closing? ==> !Rx(e, data).0.session.Open?
    decreases |data|
  {
    if data == [] {
      RxEmpty(e);
    } else {
      hide Rx, RxTurn, Sane, Shape;
      RxUnfold(e, data);
      var (e1, t, k) := RxTurn(e, data);
      var added := TurnAdds(e, data);
      AddsShape(e, e1, added);
      if t.Next? {
        if e1.session.Closed? {
          RxAtEnd(e1, data[k..]);
        } else {
          RxShape(e1, data[k..]);
        }
      }
    }
  }

  /** The application may send at any time, also after the end. */
  lemma SendShape(e: Endpoint, ev: Event)
    requires Shape(e) && IsData(ev)
    ensures Shape(Logged(e, ev))
  {
    hide Calm, Quiet, IsData, IsEnd, Before;
    DataIsCalm(ev);
    if e.session.Closed? {
      SendAfterEnd(e, ev);
    } else {
      OneAdds(e.session, ev);
      AddsShape(e, Logged(e, ev), [ev]);
    }
  }

  lemma OneAdds(session: Session, ev: Event)
    requires !session.Closed? && Calm(ev)
    ensures Adds(session, session, [ev])
  {}

  lemma SendAfterEnd(e: Endpoint, ev: Event)
    requires e.session.Closed? && Shape(e) && IsData(ev)
    ensures Shape(Logged(e, ev))
  {
    hide IsData, IsEnd, Before;
    var session, n: nat, k: nat :| EndsAt(session, e.log, n, k);
    var log := e.log + [ev];
    assert log[..n] == e.log[..n] && log[n..n + k] == e.log[n..n + k] && log[n + k..] == e.log[n + k..] + [ev];
    assert EndsAt(session, log, n, k);
  }

  lemma PerformShape(e: Endpoint, s: Step)
    requires (!e.session.Closed? ==> Sane(e)) && Shape(e)
    ensures Shape(Perform(e, s))
    ensures e.log <= Perform(e, s).log
    ensures e.session.Closing? ==> !Perform(e, s).session.Open?
    ensures e.session.Closed? ==> Perform(e, s).session.Closed? && AllData(Perform(e, s).log[|e.log|..])
  {
    hide Shape, Wire;
    match s
    case Read(data) =>
      if !e.session.Closed? {
        RxShape(e, data);
      }
    case AppSend(d) =>
      if |d.payload| <= MAX_PAYLOAD_SIZE {
        SendsData(d);
        SendShape(e, Framed(d));
      }
  }

  lemma {:induction false} RunShape(e: Endpoint, steps: seq<Step>)
    requires (!e.session.Closed? ==> Sane(e)) && Shape(e)
    ensures Shape(Run(e, steps))
    ensures e.log <= Run(e, steps).log
    ensures e.session.Closing? ==> !Run(e, steps).session.Open?
    ensures e.session.Closed? ==> Run(e, steps).session.Closed? && AllData(Run(e, steps).log[|e.log|..])
    decreases |steps|
  {
    if steps != [] {
      var e1 := Perform(e, steps[0]);
      PerformKeeps(e, steps[0]);
      PerformShape(e, steps[0]);
      RunShape(e1, steps[1..]);
      if e.session.Closed? {
        var log := Run(e, steps).log;
        assert forall i | |e.log| <= i < |e1.log| :: log[i] == e1.log[|e.log|..][i - |e.log|];
        assert forall i | |e1.log| <= i < |log| :: log[i] == log[|e1.log|..][i - |e1.log|];
      }
      hide Perform, Shape, IsData;
    }
  }

  /**
   * Closing handshake over every run of reads and sends, whatever the application sends in its callbacks. The
   * log of an open session has no close frame and no `on_close`. A session is CLOSING once the endpoint has
   * sent the one close frame it sends of its own accord, the answer to a message over the limit; from then on
   * there are callbacks and data, but no pong and no second close frame. A session ends once, with `on_close`,
   * directly after a valid acknowledgement if it was open and a close frame came; after it nothing but
   * application data is sent.
   */
  lemma HandshakeSafety(app: App, before: seq<Step>, after: seq<Step>)
    ensures var e1 := Run(Endpoint(FRESH, Open, [], app), before);
            && (!e1.session.Closed? ==> Sane(e1))
            && var e2 := Run(e1, after);
            && Shape(e1) && Shape(e2) && e1.log <= e2.log
            && (e1.session.Closing? ==> !e2.session.Open?)
            && (e1.session.Closed? ==> e2.session.Closed? && AllData(e2.log[|e1.log|..]))
  {
    var e := Endpoint(FRESH, Open, [], app);
    RunShape(e, before);
    RunSane(e, before);
    RunShape(Run(e, before), after);
  }

  lemma {:induction false} RunSane(e: Endpoint, steps: seq<Step>)
    requires !e.session.Closed? ==> Sane(e)
    ensures !Run(e, steps).session.Closed? ==> Sane(Run(e, steps))
    decreases |steps|
  {
    if steps != [] {
      PerformKeeps(e, steps[0]);
      RunSane(Perform(e, steps[0]), steps[1..]);
    }
  }

  // ----- when the endpoint begins to close

  /** The callback of a ready frame other than a close frame. */
  function CallFor(e: Endpoint): Event
    requires |e.parser.header| == MAX_HEADER_LENGTH
  {
    var h, p := e.parser.header, e.parser.payload;
    if Opcode(h) == PING then OnPing(p) else if Opcode(h) == PONG then OnPong(p) else OnMessage(h[..HeaderLen(h)], p)
  }

  /**
   * The state CLOSING is entered by a turn of the receive loop exactly when a message other than a close frame
   * gets ready and the application, in the callback for it, sends a message over the limit.
   */
  lemma ClosingExactly(e: Endpoint, data: seq<byte>)
    requires Sane(e) && e.session.Open? && data != []
    ensures var (p, o, k) := Consumed(e.parser, data); var ready := e.(parser := p);
            && (o.Fine? ==> |p.header| == MAX_HEADER_LENGTH)
            && (RxTurn(e, data).0.session.Closing? <==>
                  && o.Fine? && p.state.Ready? && Opcode(p.header) != CLOSE
                  && Overruns(e.app, e.log, CallFor(ready)))
  {
    hide Consumed, Overruns, Called, NoticeWire, Wire, AckWire, AfterSendCloseAck;
    if e.parser.state.Ready? {
      ReadyStays(e.parser, data);
      ReadyCloses(e);
    } else {
      ConsumeKeeps(e.parser, data);
      var (p, o, k) := Consumed(e.parser, data);
      if o.Fine? && p.state.Ready? {
        ReadyCloses(e.(parser := p));
      }
    }
  }

  lemma ReadyCloses(e: Endpoint)
    requires |e.parser.header| == MAX_HEADER_LENGTH
    requires Complete(e.parser) && e.parser.state.Ready? && e.session.Open?
    ensures OnReady(e).0.session.Closing? <==>
              Opcode(e.parser.header) != CLOSE && Overruns(e.app, e.log, CallFor(e))
  {
    hide Overruns, Called, NoticeWire, Wire, AckWire, AfterSendCloseAck;
    var p := e.parser.payload;
    if IsControl(Opcode(e.parser.header)) { ControlFits(e.parser); }
    if Opcode(e.parser.header) == CLOSE {
      if |p| != 1 { AckTurn(e, p); }
    } else {
      OverrunIsCaught(AfterCallback(e, CallFor(e)).0);
    }
  }

  // ----- event by event

  /** What may come before what, in any log. */
  ghost predicate MayFollow(log: seq<Event>, i: nat, j: nat)
    requires i < j < |log|
  {
    && (log[i].OnClose? ==> IsData(log[j]))
    && (SentWith(log[i], CLOSE) ==> !SentWith(log[j], CLOSE) && !SentWith(log[j], PONG))
    && (SentWith(log[i], CLOSE) ==> IsNotice(log[i]) || (IsAck(log[i]) && log[i + 1].OnClose?))
  }

  lemma NoticeIsClose(ev: Event)
    requires IsNotice(ev) || IsAck(ev)
    ensures SentWith(ev, CLOSE) && !SentWith(ev, PONG) && !ev.OnClose?
  {
    NoticeIsValid();
    if IsNotice(ev) {
      WireOpcode(CLOSE, ToBE(TOO_BIG, 2) + Ascii(TOO_LARGE.what));
    } else {
      var payload :| ValidAck(ev, payload);
      WireOpcode(CLOSE, payload);
    }
    hide Wire;
  }

  lemma BeforeOrders(session: Session, log: seq<Event>, i: nat, j: nat)
    requires Before(session, log) && i < j < |log|
    ensures MayFollow(log, i, j)
  {
    hide NoticeWire, IsAck;
    if session.Closing? {
      var n: nat :| NoticeAt(log, n);
      NoticeIsClose(log[n]);
      assert i < n ==> Quiet(log[..n][i]);
      assert i > n ==> Calm(log[n + 1..][i - n - 1]);
      assert j > n ==> Calm(log[n + 1..][j - n - 1]);
    }
  }

  lemma BeforeHasNoEnd(session: Session, log: seq<Event>, i: nat)
    requires Before(session, log) && i < |log|
    ensures !log[i].OnClose?
    ensures SentWith(log[i], CLOSE) ==> session.Closing? && IsNotice(log[i])
  {
    hide NoticeWire, IsAck;
    if session.Closing? {
      var n: nat :| NoticeAt(log, n);
      NoticeIsClose(log[n]);
      assert i < n ==> Quiet(log[..n][i]);
      assert i > n ==> Calm(log[n + 1..][i - n - 1]);
    }
  }

  lemma EndOrders(session: Session, log: seq<Event>, n: nat, k: nat, i: nat, j: nat)
    requires EndsAt(session, log, n, k) && i < j < |log|
    ensures MayFollow(log, i, j)
  {
    hide NoticeWire, IsAck, Before, IsNotice;
    var end := log[n..n + k];
    assert end[k - 1] == log[n + k - 1] && end[0] == log[n];
    if k == 2 { NoticeIsClose(end[0]); }
    if j < n {
      BeforeOrders(session, log[..n], i, j);
      assert log[..n][i] == log[i] && log[..n][j] == log[j] && log[..n][i + 1] == log[i + 1];
    } else {
      if j >= n + k { assert IsData(log[n + k..][j - n - k]); }
      if i < n {
        assert log[..n][i] == log[i];
        BeforeHasNoEnd(session, log[..n], i);
      } else if i >= n + k {
        assert IsData(log[n + k..][i - n - k]);
      }
    }
  }

  /**
   * What the shape of a log says event by event: a session is closed exactly when `on_close` was called, and
   * then once; at most one close frame is sent, and no pong after it; after `on_close` only data is sent.
   */
  lemma ShapeSays(e: Endpoint)
    requires Shape(e)
    ensures e.session.Closed? <==> OnClose in e.log
    ensures e.session.Open? ==> forall ev | ev in e.log :: !SentWith(ev, CLOSE)
    ensures e.session.Closing? ==> exists ev :: ev in e.log && IsNotice(ev)
    ensures forall i, j | 0 <= i < j < |e.log| :: MayFollow(e.log, i, j)
  {
    hide NoticeWire, IsAck, MayFollow;
    if e.session.Closed? {
      var session, n: nat, k: nat :| EndsAt(session, e.log, n, k);
      assert e.log[n..n + k][k - 1] == e.log[n + k - 1];
      forall i, j | 0 <= i < j < |e.log| ensures MayFollow(e.log, i, j) {
        EndOrders(session, e.log, n, k, i, j);
      }
    } else {
      forall i, j | 0 <= i < j < |e.log| ensures MayFollow(e.log, i, j) {
        BeforeOrders(e.session, e.log, i, j);
      }
      forall i: nat | i < |e.log| ensures !e.log[i].OnClose? {
        BeforeHasNoEnd(e.session, e.log, i);
      }
      if e.session.Closing? {
        var n: nat :| NoticeAt(e.log, n);
        assert e.log[n] in e.log;
      }
    }
  }
}
