/**
 * The server endpoint of samples/wsendpoint.h: what its methods do to the endpoint's value, and the class
 * that performs them. Callbacks and `do_response` are recorded in a log, and the application is what it does
 * in a callback: a function of everything recorded so far.
 */
module WsEndpoint {
  import opened Bytes
  import opened WsFrame
  import opened WsFrameInvariant
  import opened WsCodec

  datatype Session = Open | Closing | Closed

  datatype Event =
    | OnMessage(header: seq<byte>, payload: seq<byte>)
    | OnPing(payload: seq<byte>)
    | OnPong(payload: seq<byte>)
    | OnClose
    | Sent(wire: seq<byte>)

  /** A message that the application sends with `send_text` or `send_binary`. */
  datatype Data = Data(payload: seq<byte>, text: bool)

  /**
   * The application's callbacks, given the log that ends with the call: what each sends before it returns, and
   * what `on_ping` returns, that is, whether the ping is to be answered.
   */
  datatype App = App(reply: seq<Event> -> seq<Data>, answer: seq<Event> -> bool)

  datatype Endpoint = Endpoint(parser: Frame, session: Session, log: seq<Event>, app: App)

  const NORMAL: nat := 1000
  const PROTOCOL_ERROR: nat := 1002
  const NO_STATUS: nat := 1005
  const ABNORMAL_CLOSE: nat := 1006
  const TOO_BIG: nat := 1009
  const TLS_HANDSHAKE: nat := 1015

  predicate ReservedStatus(s: nat) { 1016 <= s <= 2999 || s == 1004 || s == 1012 || s == 1013 || s == 1014 }
  predicate InvalidStatus(s: nat) {
    s <= 999 || s >= 5000 || s == NO_STATUS || s == ABNORMAL_CLOSE || s == TLS_HANDSHAKE
  }

  /** The codes that may be sent in a close frame. */
  predicate Usable(code: nat) { 1000 <= code <= 1003 || 1007 <= code <= 1011 || 3000 <= code <= 4999 }

  function Ascii(s: string): (r: seq<byte>)
    ensures |r| == |s| && forall i | 0 <= i < |s| :: r[i] == ToByte(s[i] as nat)
  {
    seq(|s|, i requires 0 <= i < |s| => ToByte(s[i] as nat))
  }

  // ----- building outgoing frames

  predicate Sendable(op: byte) { op <= 0xF && !ReservedOpcode(op) }

  function Wire(op: byte, payload: seq<byte>): seq<byte>
    requires Sendable(op) && PayloadVerdict(op, |payload|).Fine?
  {
    Encode(Message(true, op, Unmasked, payload))
  }

  /** Header octets as the setters leave them, with the payload behind them. */
  lemma HeaderIsWire(op: byte, payload: seq<byte>, h: seq<byte>)
    requires Sendable(op) && PayloadVerdict(op, |payload|).Fine? && |h| == MAX_HEADER_LENGTH
    requires h[0] == 0x80 | op && h[1] == LengthCode(|payload|)
    requires h[2..2 + |LengthField(|payload|)|] == LengthField(|payload|)
    ensures h[..HeaderLen(h)] + payload == Wire(op, payload)
  {
    var m := Message(true, op, Unmasked, payload);
    BasicOctets(m, h);
    assert h[..HeaderLen(h)] == EncodeHeader(m);
  }

  /** The setters in the order in which every sender calls them on a new parser. */
  method Build(op: byte, payload: seq<byte>) returns (wire: seq<byte>, out: Outcome)
    requires Sendable(op)
    ensures out == PayloadVerdict(op, |payload|)
    ensures out.Fine? ==> wire == Wire(op, payload)
  {
    hide Wire, HeaderLen;
    wire := [];
    var control := new Parser();
    out := control.SetOpcode(op);
    assert control.header[0] == op && control.header[1] == 0;
    control.SetFin(true);
    control.ClearMasked();
    assert control.header[0] == 0x80 | op && control.header[1] == 0;
    assert Opcode(control.header[..]) == op;
    out := control.SetPayload(payload);
    if out.Refused? {
      return;
    }
    HeaderIsWire(op, payload, control.header[..]);
    wire := control.header[..HeaderLen(control.header[..])] + control.payload;
  }

  // ----- what each method does

  function Logged(e: Endpoint, ev: Event): Endpoint { e.(log := e.log + [ev]) }

  function Op(text: bool): byte { if text then TEXT else BINARY }

  /** What the setters throw for a message over the implementation limit. */
  const TOO_LARGE: Outcome := Refused(MessageTooBig, "requested payload is over implementation defined limit")

  /** The frames of a list of messages up to the first one that is too large, and whether there is none. */
  function Frames(ds: seq<Data>): (r: (seq<Event>, bool))
    ensures r.1 <==> forall d | d in ds :: |d.payload| <= MAX_PAYLOAD_SIZE
  {
    if ds == [] then ([], true)
    else if |ds[0].payload| > MAX_PAYLOAD_SIZE then ([], false)
    else
      var (rest, all) := Frames(ds[1..]);
      ([Framed(ds[0])] + rest, all)
  }

  function Framed(d: Data): Event
    requires |d.payload| <= MAX_PAYLOAD_SIZE
  {
    Sent(Wire(Op(d.text), d.payload))
  }

  /** The messages go out in order, all of them or those in front of the first one that is too large. */
  lemma {:induction false} FramesSay(ds: seq<Data>)
    ensures var (frames, all) := Frames(ds);
            && (all <==> |frames| == |ds|) && |frames| <= |ds|
            && (forall i | 0 <= i < |frames| :: |ds[i].payload| <= MAX_PAYLOAD_SIZE && frames[i] == Framed(ds[i]))
            && (!all ==> |frames| < |ds| && |ds[|frames|].payload| > MAX_PAYLOAD_SIZE)
  {
    hide Framed;
    if ds != [] {
      FramesSay(ds[1..]);
    }
  }

  lemma FramesOn(ds: seq<Data>, i: nat)
    requires i < |ds|
    ensures Frames(ds[i..])
            == if |ds[i].payload| > MAX_PAYLOAD_SIZE then ([], false)
               else ([Framed(ds[i])] + Frames(ds[i + 1..]).0, Frames(ds[i + 1..]).1)
  {
    assert ds[i..][1..] == ds[i + 1..];
  }

  lemma NoFrames(ds: seq<Data>)
    ensures Frames(ds[|ds|..]) == ([], true)
  {}

  lemma SendsOne(e: Endpoint, d: Data)
    ensures Sendable(Op(d.text))
    ensures AfterSend(e, Op(d.text), d.payload)
            == if |d.payload| > MAX_PAYLOAD_SIZE then (e, TOO_LARGE) else (Logged(e, Framed(d)), Fine)
  {}

  /** The callback `ev`, with what the application sends in it. */
  function Called(app: App, log: seq<Event>, ev: Event): seq<Event> { [ev] + Frames(app.reply(log + [ev])).0 }

  /** The application sends a message over the limit in the callback; the exception ends it. */
  predicate Overruns(app: App, log: seq<Event>, ev: Event) { !Frames(app.reply(log + [ev])).1 }

  function AfterCallback(e: Endpoint, ev: Event): (Endpoint, Outcome) {
    (e.(log := e.log + Called(e.app, e.log, ev)), if Overruns(e.app, e.log, ev) then TOO_LARGE else Fine)
  }

  function AfterShutdown(e: Endpoint): (Endpoint, Outcome) {
    if e.session.Closed? then (e, Fine) else AfterCallback(e.(session := Closed), OnClose)
  }

  function AfterSend(e: Endpoint, op: byte, payload: seq<byte>): (Endpoint, Outcome)
    requires Sendable(op)
  {
    var o := PayloadVerdict(op, |payload|);
    if o.Fine? then (Logged(e, Sent(Wire(op, payload))), Fine) else (e, o)
  }

  function AfterPong(e: Endpoint, payload: seq<byte>): (Endpoint, Outcome) {
    if !e.session.Open? then (e, Fine) else AfterSend(e, PONG, payload)
  }

  function AfterSendClose(e: Endpoint, code: nat, reason: seq<byte>): (Endpoint, Outcome) {
    if !e.session.Open? || InvalidStatus(code) || ReservedStatus(code) then (e, Fine)
    else AfterSend(e.(session := Closing), CLOSE, ToBE(code, 2) + reason)
  }

  function AckCode(remote: nat): nat {
    if remote == NO_STATUS then NORMAL
    else if InvalidStatus(remote) || ReservedStatus(remote) then PROTOCOL_ERROR
    else remote
  }

  function AckReason(remote: nat, reason: seq<byte>): seq<byte> {
    if remote == NO_STATUS then []
    else if InvalidStatus(remote) then Ascii("Status code is invalid")
    else if ReservedStatus(remote) then Ascii("Status code is reserved")
    else reason
  }

  function AckPayload(remote: nat, reason: seq<byte>): seq<byte> {
    ToBE(AckCode(remote), 2) + AckReason(remote, reason)
  }

  function AfterSendCloseAck(e: Endpoint, remote: nat, reason: seq<byte>): (Endpoint, Outcome) {
    if remote == ABNORMAL_CLOSE then (e, Text)
    else
      var (e1, o) := AfterSend(e, CLOSE, AckPayload(remote, reason));
      if o.Fine? then AfterShutdown(e1) else (e1, o)
  }

  function CloseCode(payload: seq<byte>): nat {
    if |payload| < 2 then NO_STATUS else FromBE(payload[..2])
  }

  function CloseReason(payload: seq<byte>): seq<byte> {
    if |payload| > 2 then payload[2..] else []
  }

  /** `process_control` on the payload of a ready frame. */
  function AfterControl(e: Endpoint, op: byte, payload: seq<byte>): (Endpoint, Outcome) {
    if op == PING then
      var (e1, o) := AfterCallback(e, OnPing(payload));
      if o.Fine? && e.app.answer(e.log + [OnPing(payload)]) then AfterPong(e1, payload) else (e1, o)
    else if op == PONG then AfterCallback(e, OnPong(payload))
    else if op == CLOSE then
      if e.session.Open? then
        if |payload| == 1 then (e, Fatal) else AfterSendCloseAck(e, CloseCode(payload), CloseReason(payload))
      else if e.session.Closing? then AfterShutdown(e)
      else (e, Fine)
    else (e, Refused(ProtocolViolation, "Invalid Opcode"))
  }

  function AfterFrame(e: Endpoint): (Endpoint, Outcome)
    requires |e.parser.header| == MAX_HEADER_LENGTH
  {
    var h := e.parser.header;
    if IsControl(Opcode(h)) then AfterControl(e, Opcode(h), e.parser.payload)
    else AfterCallback(e, OnMessage(h[..HeaderLen(h)], e.parser.payload))
  }

  /** How one turn of the receive loop ends. */
  datatype Turn = Next | Return | Throw(outcome: Outcome)

  /** The catch clause of the receive loop. */
  function Caught(e: Endpoint, o: Outcome): (Endpoint, Turn)
    requires o.Fatal? || o.Refused?
  {
    var e1 := if e.parser.state.Ready? then e.(parser := FRESH) else e;
    match o
    case Refused(code, what) =>
      var status := if code.ProtocolViolation? then PROTOCOL_ERROR else TOO_BIG;
      var (e2, o2) := AfterSendClose(e1, status, Ascii(what));
      (e2, if o2.Fine? then Return else Throw(o2))
    case _ =>
      var (e2, o2) := AfterShutdown(e1);
      (e2, if o2.Fine? then Return else Throw(o2))
  }

  /** Handling of the frame in a ready parser. */
  function OnReady(e: Endpoint): (Endpoint, Turn)
    requires |e.parser.header| == MAX_HEADER_LENGTH
  {
    var (e1, o) := AfterFrame(e);
    match o
    case Fine => (e1.(parser := FRESH), Next)
    case Fatal => Caught(e1, o)
    case Refused(_, _) => Caught(e1, o)
    case _ => (e1, Throw(o))
  }

  /** What holds between two turns: the parser is sane, and ready only when stuck on a 1006 close. */
  predicate Sane(e: Endpoint) {
    && Inv(e.parser)
    && (e.parser.state.Ready? ==> Stuck(e))
  }

  lemma SaneInv(e: Endpoint)
    requires Sane(e)
    ensures Inv(e.parser)
  {}

  predicate Stuck(e: Endpoint)
    requires |e.parser.header| == MAX_HEADER_LENGTH
  {
    && e.session.Open? && Opcode(e.parser.header) == CLOSE
    && |e.parser.payload| >= 2 && CloseCode(e.parser.payload) == ABNORMAL_CLOSE
  }

  /** One turn of the loop in `AddRxData`. */
  function RxTurn(e: Endpoint, data: seq<byte>): (r: (Endpoint, Turn, nat))
    requires Inv(e.parser)
    ensures r.2 <= |data|
  {
    var (p, o, k) := Consumed(e.parser, data);
    var e1 := e.(parser := p);
    match o
    case Fine =>
      if p.state.Ready? then var (e2, t) := OnReady(e1); (e2, t, k) else (e1, Next, k)
    case Fatal => var (e2, t) := Caught(e1, o); (e2, t, k)
    case Refused(_, _) => var (e2, t) := Caught(e1, o); (e2, t, k)
    case _ => (e1, Throw(o), k)
  }

  // ----- the loop keeps the endpoint sane

  /** Control payloads fit the basic length form. */
  lemma ControlFits(f: Frame)
    requires |f.header| == MAX_HEADER_LENGTH && Complete(f) && IsControl(Opcode(f.header))
    ensures |f.payload| <= PAYLOAD_SIZE_BASIC && Opcode(f.header) in {CLOSE, PING, PONG}
  {}

  /**
   * Every acknowledgement of a close frame can be built, and carries a code that is neither invalid nor
   * reserved, with the remote reason echoed only together with the remote code.
   */
  lemma AckIsValid(payload: seq<byte>)
    requires |payload| <= PAYLOAD_SIZE_BASIC && |payload| != 1 && CloseCode(payload) != ABNORMAL_CLOSE
    ensures var p := AckPayload(CloseCode(payload), CloseReason(payload));
            && 2 <= |p| <= PAYLOAD_SIZE_BASIC && PayloadVerdict(CLOSE, |p|).Fine?
            && CloseCode(p) == AckCode(CloseCode(payload))
            && !InvalidStatus(CloseCode(p)) && !ReservedStatus(CloseCode(p))
            && (|payload| >= 2 && !InvalidStatus(CloseCode(payload)) && !ReservedStatus(CloseCode(payload)) ==>
                  p == payload)
  {
    var remote := CloseCode(payload);
    var p := AckPayload(remote, CloseReason(payload));
    Powers();
    assert AckCode(remote) < 5000;
    FromToBE(AckCode(remote), 2);
    assert p[..2] == ToBE(AckCode(remote), 2);
    if |payload| >= 2 && !InvalidStatus(remote) && !ReservedStatus(remote) {
      ToFromBE(payload[..2]);
      assert payload == payload[..2] + payload[2..];
    }
  }

  /** The acknowledgement sent for a close frame with this payload. */
  function AckWire(payload: seq<byte>): seq<byte>
    requires |payload| <= PAYLOAD_SIZE_BASIC && |payload| != 1 && CloseCode(payload) != ABNORMAL_CLOSE
  {
    AckIsValid(payload);
    Wire(CLOSE, AckPayload(CloseCode(payload), CloseReason(payload)))
  }

  // ----- octet by octet

  lemma UnmaskedTail(m: Message)
    requires ValidMessage(m) && m.mask.Unmasked?
    ensures Key(m) + EncodePayload(m) == m.payload
  {}

  /** An unmasked frame with the payload behind a header of two, four or ten octets. */
  lemma WireSays(op: byte, payload: seq<byte>)
    requires Sendable(op) && PayloadVerdict(op, |payload|).Fine?
    ensures var w, n := Wire(op, payload), |payload|;
            && w[0] == 0x80 | op
            && (n <= 125 ==> w[1] as nat == n && w == [w[0], w[1]] + payload)
            && (126 <= n <= 65535 ==>
                  w[1] == 126 && 256 * w[2] as nat + w[3] as nat == n && w[4..] == payload)
            && (65536 <= n ==>
                  && w[1] == 127 && w[2] == w[3] == w[4] == w[5] == 0
                  && 0x1000000 * w[6] as nat + 0x10000 * w[7] as nat + 0x100 * w[8] as nat + w[9] as nat == n
                  && w[10..] == payload)
  {
    hide Encode, EncodePayload, Key;
    var m := Message(true, op, Unmasked, payload);
    EncodingSays(m);
    UnmaskedTail(m);
    var w := Wire(op, payload);
    assert w == [w[0], w[1]] + w[2..];
    assert 0 as byte | 126 == 126 && 0 as byte | 127 == 127;
  }

  /** A text message goes out with opcode 1 and a binary one with opcode 2, whole and unmasked. */
  lemma MessageWire(d: Data)
    requires |d.payload| <= MAX_PAYLOAD_SIZE
    ensures Framed(d).Sent?
    ensures var w, n := Framed(d).wire, |d.payload|;
            && w[0] == (if d.text then 0x81 else 0x82)
            && (n <= 125 ==> w[1] as nat == n && w == [w[0], w[1]] + d.payload)
            && (126 <= n <= 65535 ==>
                  w[1] == 126 && 256 * w[2] as nat + w[3] as nat == n && w[4..] == d.payload)
            && (65536 <= n ==>
                  && w[1] == 127 && w[2] == w[3] == w[4] == w[5] == 0
                  && 0x1000000 * w[6] as nat + 0x10000 * w[7] as nat + 0x100 * w[8] as nat + w[9] as nat == n
                  && w[10..] == d.payload)
  {
    hide Wire;
    WireSays(Op(d.text), d.payload);
  }

  /** Control frames have two header octets. */
  lemma ControlWire(op: byte, payload: seq<byte>)
    requires op in {0x8, 0x9, 0xA} && |payload| <= 125
    ensures Sendable(op) && PayloadVerdict(op, |payload|).Fine?
    ensures Wire(op, payload) == [0x80 | op, |payload| as byte] + payload
  {
    hide Wire;
    WireSays(op, payload);
    SmallRoundTrip(|payload|);
    BackToByte(Wire(op, payload)[1]);
  }

  /** A close frame: the code in network byte order, and the reason. */
  function CloseFrame(code: nat, reason: seq<byte>): seq<byte>
    requires |reason| <= 123
  {
    [0x88, (2 + |reason|) as byte, ToByte(code / 256), ToByte(code)] + reason
  }

  lemma CloseWire(code: nat, reason: seq<byte>)
    requires |reason| <= 123
    ensures PayloadVerdict(CLOSE, |ToBE(code, 2) + reason|).Fine?
    ensures Wire(CLOSE, ToBE(code, 2) + reason) == CloseFrame(code, reason)
  {
    hide Wire;
    var p := ToBE(code, 2) + reason;
    CodeOctets(code);
    ControlWire(CLOSE, p);
    assert [0x88 as byte, |p| as byte] + p == CloseFrame(code, reason);
  }

  lemma CodeOctets(code: nat)
    ensures ToBE(code, 2) == [ToByte(code / 256), ToByte(code)]
  {
    assert ToBE(code / 256 / 256, 0) == [];
    assert ToBE(code / 256, 1) == [] + [ToByte(code / 256)];
  }

  /** The code on the wire, and the reason behind it. */
  lemma CloseSays(payload: seq<byte>)
    ensures |payload| < 2 ==> CloseCode(payload) == 1005 && CloseReason(payload) == []
    ensures |payload| >= 2 ==>
              CloseCode(payload) == 256 * payload[0] as nat + payload[1] as nat && CloseReason(payload) == payload[2..]
  {
    if |payload| >= 2 {
      TwoOctets(payload[..2]);
    }
  }

  /**
   * The acknowledgement on the wire, for every close frame the peer may send but 1006: an empty one, or one
   * with 1005, is answered with 1000; a code that may be used is echoed with its reason; the codes reserved
   * for the protocol and those outside 1000 to 4999 are answered with 1002.
   */
  lemma AckSays(payload: seq<byte>)
    requires |payload| <= 125 && |payload| != 1 && CloseCode(payload) != ABNORMAL_CLOSE
    ensures payload == [] ==> AckWire(payload) == CloseFrame(1000, [])
    ensures |payload| >= 2 ==>
              var code := 256 * payload[0] as nat + payload[1] as nat;
              AckWire(payload) ==
                if code == 1005 then CloseFrame(1000, [])
                else if Usable(code) then [0x88, |payload| as byte] + payload
                else if 1004 <= code <= 2999 && code != 1015 then CloseFrame(1002, Ascii("Status code is reserved"))
                else CloseFrame(1002, Ascii("Status code is invalid"))
  {
    hide Wire, CloseCode, CloseReason, CloseFrame, AckWire, AckPayload, InvalidStatus, ReservedStatus, Ascii;
    CloseSays(payload);
    StatusSays(CloseCode(payload));
    if |payload| >= 2 && Usable(CloseCode(payload)) {
      AckEchoes(payload);
    } else {
      AckReplaces(payload);
    }
  }

  lemma StatusSays(code: nat)
    ensures Usable(code) <==> !InvalidStatus(code) && !ReservedStatus(code)
    ensures InvalidStatus(code) <==> code <= 999 || code >= 5000 || code == 1005 || code == 1006 || code == 1015
  {}

  lemma AckEchoes(payload: seq<byte>)
    requires 2 <= |payload| <= 125 && CloseCode(payload) != ABNORMAL_CLOSE
    requires !InvalidStatus(CloseCode(payload)) && !ReservedStatus(CloseCode(payload))
    ensures AckWire(payload) == [0x88, |payload| as byte] + payload
  {
    hide Wire, CloseCode, CloseReason, InvalidStatus, ReservedStatus;
    AckIsValid(payload);
    ControlWire(CLOSE, payload);
  }

  lemma AckReplaces(payload: seq<byte>)
    requires |payload| <= 125 && |payload| != 1 && CloseCode(payload) != ABNORMAL_CLOSE
    requires InvalidStatus(CloseCode(payload)) || ReservedStatus(CloseCode(payload))
    ensures AckWire(payload) ==
              if CloseCode(payload) == 1005 then CloseFrame(1000, [])
              else if InvalidStatus(CloseCode(payload)) then CloseFrame(1002, Ascii("Status code is invalid"))
              else CloseFrame(1002, Ascii("Status code is reserved"))
  {
    hide Wire, CloseCode, CloseReason, CloseFrame, Ascii, InvalidStatus, ReservedStatus;
    var remote := CloseCode(payload);
    CloseWire(AckCode(remote), AckReason(remote, CloseReason(payload)));
  }

  /** The close frame that answers a message over the limit. */
  lemma NoticeSays()
    ensures NoticeWire() == CloseFrame(1009, Ascii("requested payload is over implementation defined limit"))
  {
    hide Wire, CloseFrame;
    CloseWire(1009, Ascii("requested payload is over implementation defined limit"));
  }

  lemma AckTurn(e: Endpoint, payload: seq<byte>)
    requires |payload| <= PAYLOAD_SIZE_BASIC && |payload| != 1 && e.session.Open?
    ensures AfterSendCloseAck(e, CloseCode(payload), CloseReason(payload))
            == if CloseCode(payload) == ABNORMAL_CLOSE then (e, Text)
               else AfterShutdown(Logged(e, Sent(AckWire(payload))))
  {
    if CloseCode(payload) != ABNORMAL_CLOSE {
      AckIsValid(payload);
    }
  }

  /** The close frame with which a message over the limit is answered: it can be built, too. */
  lemma NoticeIsValid()
    ensures var p := ToBE(TOO_BIG, 2) + Ascii(TOO_LARGE.what);
            && 2 <= |p| <= PAYLOAD_SIZE_BASIC && PayloadVerdict(CLOSE, |p|).Fine? && CloseCode(p) == TOO_BIG
            && !InvalidStatus(CloseCode(p)) && !ReservedStatus(CloseCode(p))
  {
    var p := ToBE(TOO_BIG, 2) + Ascii(TOO_LARGE.what);
    Powers();
    FromToBE(TOO_BIG, 2);
    assert p[..2] == ToBE(TOO_BIG, 2);
  }

  function NoticeWire(): seq<byte> {
    NoticeIsValid();
    Wire(CLOSE, ToBE(TOO_BIG, 2) + Ascii(TOO_LARGE.what))
  }

  /** The exception of a message over the limit ends the receive loop and begins to close an open session. */
  lemma OverrunIsCaught(e: Endpoint)
    ensures var e1 := if e.parser.state.Ready? then e.(parser := FRESH) else e;
            Caught(e, TOO_LARGE)
            == (if e.session.Open? then Logged(e1.(session := Closing), Sent(NoticeWire())) else e1, Return)
  {
    NoticeIsValid();
  }

  /** A control frame: what the endpoint makes of it, and when an exception leaves the handling of it. */
  lemma ControlKeeps(e: Endpoint, op: byte, payload: seq<byte>)
    requires op in {CLOSE, PING, PONG} && |payload| <= PAYLOAD_SIZE_BASIC && !e.session.Closed?
    ensures var (e1, o) := AfterControl(e, op, payload);
            && (o in {Fine, TOO_LARGE, Fatal, Text}) && e1.parser == e.parser && e1.app == e.app
            && (e1.session == e.session || (op == CLOSE && e1.session.Closed?))
            && (o == Text <==> op == CLOSE && e.session.Open? && |payload| >= 2 && CloseCode(payload) == ABNORMAL_CLOSE)
            && (o == Text || o == Fatal ==> e1 == e)
  {
    if op == CLOSE && |payload| != 1 && e.session.Open? {
      AckTurn(e, payload);
    }
  }

  /** A ready frame is handled, or ends the reading, or is the 1006 close nothing catches. */
  lemma OnReadyKeeps(e: Endpoint)
    requires Inv(FRESH) && |e.parser.header| == MAX_HEADER_LENGTH
    requires Complete(e.parser) && e.parser.state.Ready? && !e.session.Closed?
    ensures var (e2, t) := OnReady(e);
            && t in {Next, Return, Throw(Text), Throw(TOO_LARGE)}
            && (t == Throw(Text) <==> Stuck(e)) && (t == Throw(Text) ==> e2 == e)
            && (t != Throw(Text) ==> e2.parser == FRESH)
            && (t == Next ==> e2.session.Closed? || e2.session == e.session)
            && (t == Return ==> !e2.session.Open?)
            && (t == Throw(TOO_LARGE) ==> e2.session.Closed?)
            && e2.app == e.app
  {
    var op := Opcode(e.parser.header);
    var (e1, o) := AfterFrame(e);
    if IsControl(op) {
      ControlFits(e.parser);
      ControlKeeps(e, op, e.parser.payload);
    }
    if o == TOO_LARGE {
      OverrunIsCaught(e1);
    }
    hide AfterControl, Complete, Inv, Called, Overruns, Frames;
  }

  lemma ReadyStays(f: Frame, data: seq<byte>)
    requires Inv(f) && f.state == Ready
    ensures Consumed(f, data) == (f, Fine, 0)
  {}

  lemma RxTurnKeeps(e: Endpoint, data: seq<byte>)
    requires Sane(e) && !e.session.Closed? && data != []
    ensures var (e2, t, k) := RxTurn(e, data);
            && t in {Next, Return, Throw(Sliced), Throw(Text), Throw(TOO_LARGE)}
            && (t == Next ==> k > 0 && Sane(e2) && (e2.session.Closed? || e2.session == e.session))
            && (t == Return ==> e2.session.Closed? || (e2.session.Closing? && e2.parser == FRESH))
            && (t == Throw(TOO_LARGE) ==> e2.session.Closed?)
            && (t == Throw(Text) ==> Sane(e2) && e2.session == e.session && e2.log == e.log)
            && (t == Throw(Text) ==> e2.parser.state.Ready? || Wedged(e2.parser))
            && (t == Throw(Sliced) ==> e2 == e.(parser := FRESH.(state := Recovery, degraded := true)) && Sane(e2))
            && e2.app == e.app
  {
    hide OnReady, Consumed, Called, Overruns, Frames, AfterSendClose;
    FreshInv();
    if e.parser.state.Ready? {
      ReadyStays(e.parser, data);
      OnReadyKeeps(e);
    } else {
      ConsumeKeeps(e.parser, data);
      var (p, o, k) := Consumed(e.parser, data);
      if o.Fine? && p.state.Ready? {
        OnReadyKeeps(e.(parser := p));
      }
    }
  }

  /** How a call ends: nothing left to do, an error handled with the rest of the read dropped, or an exception. */
  datatype Ending = Ran | Left | Thrown(outcome: Outcome)

  /**
   * `AddRxData`: the endpoint after the call and how the call ends. Every turn that lets the loop go on
   * has taken at least one byte.
   */
  function Rx(e: Endpoint, data: seq<byte>): (Endpoint, Ending)
    requires Sane(e)
    decreases |data|
  {
    if e.session.Closed? || data == [] then (e, Ran)
    else
      RxTurnKeeps(e, data);
      var (e1, t, k) := RxTurn(e, data);
      match t
      case Next => Rx(e1, data[k..])
      case Return => (e1, Left)
      case Throw(o) => (e1, Thrown(o))
  }

  // ----- the class

  class WsEndpoint {
    const parser: Parser
    var session: Session
    var log: seq<Event>
    const app: App

    ghost predicate Valid() reads this, parser { parser.Valid() }

    ghost function View(): Endpoint reads this, parser, parser.header {
      Endpoint(parser.View(), session, log, app)
    }

    constructor (app: App)
      ensures Valid() && View() == Endpoint(FRESH, Open, [], app)
      ensures fresh(parser) && fresh(parser.header)
    {
      parser := new Parser();
      session, log := Open, [];
      this.app := app;
    }

    /** `send`, and the common tail of every other sender. */
    method Send(payload: seq<byte>, op: byte) returns (out: Outcome)
      requires Sendable(op)
      modifies this
      ensures (View(), out) == AfterSend(old(View()), op, payload)
    {
      var wire;
      wire, out := Build(op, payload);
      if out.Fine? {
        log := log + [Sent(wire)];
      }
    }

    /** A callback of the application, which sends what it likes before it returns. */
    method Callback(ev: Event) returns (out: Outcome)
      modifies this
      ensures (View(), out) == AfterCallback(old(View()), ev)
    {
      hide Frames;
      log := log + [ev];
      ghost var frames := Frames(app.reply(log)).0;
      out := SendAll(app.reply(log));
      assert old(log) + [ev] + frames == old(log) + ([ev] + frames);
    }

    method SendAll(ds: seq<Data>) returns (out: Outcome)
      modifies this
      ensures View() == old(View()).(log := old(log) + Frames(ds).0)
      ensures out == if Frames(ds).1 then Fine else TOO_LARGE
    {
      hide Frames, AfterSend, Framed, Wire, Sendable, PayloadVerdict;
      ghost var sent := [];
      assert ds[0..] == ds && [] + Frames(ds).0 == Frames(ds).0;
      for i := 0 to |ds|
        invariant View() == old(View()).(log := old(log) + sent)
        invariant Frames(ds) == (sent + Frames(ds[i..]).0, Frames(ds[i..]).1)
      {
        FramesOn(ds, i);
        SendsOne(View(), ds[i]);
        out := Send(ds[i].payload, Op(ds[i].text));
        if !out.Fine? {
          return;
        }
        ghost var rest := Frames(ds[i + 1..]).0;
        assert sent + ([Framed(ds[i])] + rest) == sent + [Framed(ds[i])] + rest;
        sent := sent + [Framed(ds[i])];
      }
      NoFrames(ds);
      out := Fine;
    }

    method Shutdown() returns (out: Outcome)
      modifies this
      ensures (View(), out) == AfterShutdown(old(View()))
    {
      if session.Closed? {
        return Fine;
      }
      session := Closed;
      out := Callback(OnClose);
    }

    method SendPong(payload: seq<byte>) returns (out: Outcome)
      modifies this
      ensures (View(), out) == AfterPong(old(View()), payload)
      ensures !session.Open? ==> View() == old(View()) && out.Fine?
      ensures session.Open? && |payload| <= 125 ==>
                log == old(log) + [Sent([0x8A, |payload| as byte] + payload)] && out.Fine?
    {
      hide Wire;
      if !session.Open? {
        return Fine;
      }
      if |payload| <= 125 {
        ControlWire(PONG, payload);
      }
      out := Send(payload, PONG);
    }

    method SendClose(code: nat, reason: seq<byte>) returns (out: Outcome)
      modifies this
      ensures (View(), out) == AfterSendClose(old(View()), code, reason)
      ensures !old(session).Open? ==> View() == old(View()) && out.Fine?
      ensures old(session).Open? && !Usable(code) ==> View() == old(View()) && out.Fine?
      ensures old(session).Open? && Usable(code) && |reason| <= 123 ==>
                session.Closing? && log == old(log) + [Sent(CloseFrame(code, reason))] && out.Fine?
    {
      hide Wire, CloseFrame;
      if !session.Open? || InvalidStatus(code) || ReservedStatus(code) {
        return Fine;
      }
      if |reason| <= 123 {
        CloseWire(code, reason);
      }
      session := Closing;
      out := Send(ToBE(code, 2) + reason, CLOSE);
    }

    method SendCloseAck(remote: nat, reason: seq<byte>) returns (out: Outcome)
      modifies this
      ensures (View(), out) == AfterSendCloseAck(old(View()), remote, reason)
    {
      var localCode, localReason := remote, reason;
      if remote == NO_STATUS {
        localCode, localReason := NORMAL, [];
      } else if remote == ABNORMAL_CLOSE {
        return Text;
      } else if InvalidStatus(remote) {
        localCode, localReason := PROTOCOL_ERROR, Ascii("Status code is invalid");
      } else if ReservedStatus(remote) {
        localCode, localReason := PROTOCOL_ERROR, Ascii("Status code is reserved");
      }
      out := Send(ToBE(localCode, 2) + localReason, CLOSE);
      if out.Fine? {
        out := Shutdown();
      }
    }

    method ProcessControl() returns (out: Outcome)
      requires Valid()
      modifies this
      ensures (View(), out) == AfterControl(old(View()), Opcode(parser.header[..]), parser.payload)
    {
      out := Fine;
      var op := Opcode(parser.header[..]);
      if op == PING {
        var called := log + [OnPing(parser.payload)];
        out := Callback(OnPing(parser.payload));
        if out.Fine? && app.answer(called) {
          out := SendPong(parser.payload);
        }
      } else if op == PONG {
        out := Callback(OnPong(parser.payload));
      } else if op == CLOSE {
        if session.Open? {
          if |parser.payload| == 1 {
            return Fatal;
          }
          out := SendCloseAck(CloseCode(parser.payload), CloseReason(parser.payload));
        } else if session.Closing? {
          out := Shutdown();
        }
      } else {
        out := Refused(ProtocolViolation, "Invalid Opcode");
      }
    }

    method Catch(o: Outcome) returns (t: Turn)
      requires Valid() && (o.Fatal? || o.Refused?)
      modifies this, parser, parser.header
      ensures (View(), t) == Caught(old(View()), o)
    {
      if parser.state.Ready? {
        parser.Reset();
      }
      var o2;
      if o.Refused? {
        o2 := SendClose(if o.code.ProtocolViolation? then PROTOCOL_ERROR else TOO_BIG, Ascii(o.what));
      } else {
        o2 := Shutdown();
      }
      t := if o2.Fine? then Return else Throw(o2);
    }

    method HandleReady() returns (t: Turn)
      requires Valid()
      modifies this, parser, parser.header
      ensures (View(), t) == OnReady(old(View()))
    {
      var o := Fine;
      ghost var e := View();
      if IsControl(Opcode(parser.header[..])) {
        o := ProcessControl();
      } else {
        o := Callback(OnMessage(parser.header[..HeaderLen(parser.header[..])], parser.payload));
      }
      assert (View(), o) == AfterFrame(e);
      if o.Fine? {
        parser.Reset();
        t := Next;
      } else if o.Fatal? || o.Refused? {
        t := Catch(o);
      } else {
        t := Throw(o);
      }
    }

    method OneTurn(data: seq<byte>, pos: nat) returns (next: nat, t: Turn)
      requires Valid() && Inv(parser.View()) && pos <= |data|
      modifies this, parser, parser.header
      ensures pos <= next <= |data| && (View(), t, next - pos) == RxTurn(old(View()), data[pos..])
    {
      var o;
      next, o := parser.Consume(data, pos);
      if o.Fine? {
        t := Next;
        if parser.state.Ready? {
          t := HandleReady();
        }
      } else if o.Fatal? || o.Refused? {
        t := Catch(o);
      } else {
        t := Throw(o);
      }
    }

    /** Processes what one read brought in. */
    method AddRxData(data: seq<byte>) returns (out: Ending)
      requires Valid() && Sane(View())
      modifies this, parser, parser.header
      ensures (View(), out) == Rx(old(View()), data)
    {
      hide Sane, Inv, RxTurn;
      var pos := 0;
      assert data[0..] == data;
      while !session.Closed? && pos < |data|
        invariant pos <= |data| && Valid() && Sane(View())
        invariant Rx(old(View()), data) == Rx(View(), data[pos..])
      {
        RxTurnKeeps(View(), data[pos..]);
        SaneInv(View());
        var next, t := OneTurn(data, pos);
        assert data[pos..][next - pos..] == data[next..];
        if t.Return? {
          return Left;
        }
        if t.Throw? {
          return Thrown(t.outcome);
        }
        pos := next;
      }
      out := Ran;
    }
  }
}
