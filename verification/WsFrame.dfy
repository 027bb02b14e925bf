/**
 * The WebSocket frame parser of samples/wsframe.h: the value of its fields, what one `consume` call
 * does to that value, and the class that performs the call in place.
 */
module WsFrame {
  import opened Bytes

  const BASIC_HEADER_LENGTH: nat := 2
  const MAX_HEADER_LENGTH: nat := 14
  const PAYLOAD_SIZE_BASIC: nat := 125
  const PAYLOAD_SIZE_EXTENDED: nat := 0xFFFF
  const MAX_PAYLOAD_SIZE: nat := 100000000

  const TEXT: byte := 0x1
  const BINARY: byte := 0x2
  const CLOSE: byte := 0x8
  const PING: byte := 0x9
  const PONG: byte := 0xA

  datatype State = BasicHeader | ExtendedHeader | Payload | Ready | Recovery

  /**
   * How a call into the parser ends. `Sliced` is the first frame error, rethrown as a bare
   * `std::exception`; `Fatal` is a `wserror` with code FATAL_ERROR; `Refused` is a `wserror` with another
   * code; `Text` is a thrown string literal, which no handler in the repository catches.
   */
  datatype Outcome = Fine | Sliced | Fatal | Refused(code: ErrorCode, what: string) | Text
  datatype ErrorCode = ProtocolViolation | MessageTooBig

  /** The fields of `frame::parser`. */
  datatype Frame = Frame(state: State, needed: nat, degraded: bool, header: seq<byte>, payload: seq<byte>)

  const FRESH: Frame := Frame(BasicHeader, BASIC_HEADER_LENGTH, false, Zeros(MAX_HEADER_LENGTH), [])

  // ----- header bits

  predicate Fin(h: seq<byte>) requires |h| >= 2 { h[0] & 0x80 == 0x80 }
  predicate Reserved(h: seq<byte>) requires |h| >= 2 {
    h[0] & 0x40 == 0x40 || h[0] & 0x20 == 0x20 || h[0] & 0x10 == 0x10
  }
  function Opcode(h: seq<byte>): byte requires |h| >= 2 { h[0] & 0x0F }
  predicate Masked(h: seq<byte>) requires |h| >= 2 { h[1] & 0x80 == 0x80 }
  function BasicSize(h: seq<byte>): byte requires |h| >= 2 { h[1] & 0x7F }

  predicate IsControl(op: byte) { op >= 0x8 }
  predicate ReservedOpcode(op: byte) { (0x3 <= op <= 0x7) || (0xB <= op <= 0xF) }

  /** Octets that the 7-bit length selects for the extended length. */
  function ExtraLength(h: seq<byte>): nat requires |h| >= 2 {
    if BasicSize(h) == 126 then 2 else if BasicSize(h) == 127 then 8 else 0
  }

  function HeaderLen(h: seq<byte>): (n: nat)
    requires |h| >= 2
    ensures 2 <= n <= MAX_HEADER_LENGTH
  {
    2 + (if Masked(h) then 4 else 0) + ExtraLength(h)
  }

  predicate ValidBasic(h: seq<byte>)
    requires |h| >= 2
  {
    && !(IsControl(Opcode(h)) && BasicSize(h) > 125)
    && !Reserved(h)
    && !ReservedOpcode(Opcode(h))
    && !(IsControl(Opcode(h)) && !Fin(h))
  }

  /** The payload length a complete header declares. */
  function Declared(h: seq<byte>): nat requires |h| == MAX_HEADER_LENGTH {
    if ExtraLength(h) == 0 then BasicSize(h) as nat else FromBE(h[2..2 + ExtraLength(h)])
  }

  predicate Minimal(h: seq<byte>) requires |h| == MAX_HEADER_LENGTH {
    && (BasicSize(h) == 126 ==> Declared(h) >= 126)
    && (BasicSize(h) == 127 ==> Declared(h) > PAYLOAD_SIZE_EXTENDED)
  }

  function MaskingKey(h: seq<byte>): (key: seq<byte>)
    requires |h| == MAX_HEADER_LENGTH && Masked(h)
    ensures |key| == 4
  {
    h[HeaderLen(h) - 4..HeaderLen(h)]
  }

  lemma MaskBit(h: seq<byte>)
    requires |h| == MAX_HEADER_LENGTH
    ensures h[1] & 0x80 == 0 || h[1] & 0x80 == 0x80
    ensures Masked(h) <==> h[1] & 0x80 == 0x80
    ensures Masked(h) ==> HeaderLen(h) >= 6
  {}

  /** Section 5.3 of RFC 6455: octet i is combined with key octet i modulo 4. */
  function Xored(data: seq<byte>, key: seq<byte>): (r: seq<byte>)
    requires |key| == 4
    ensures |r| == |data|
  {
    seq(|data|, i requires 0 <= i < |data| => data[i] ^ key[i % 4])
  }

  // ----- section 5.2 of RFC 6455: the two length forms

  function LengthCode(n: nat): byte {
    if n <= PAYLOAD_SIZE_BASIC then n as byte else if n <= PAYLOAD_SIZE_EXTENDED then 126 else 127
  }

  function LengthField(n: nat): (r: seq<byte>)
    ensures |r| <= 8
  {
    ToBE(n, if n <= PAYLOAD_SIZE_BASIC then 0 else if n <= PAYLOAD_SIZE_EXTENDED then 2 else 8)
  }

  /** The limits `set_payload` enforces. */
  function PayloadVerdict(op: byte, n: nat): (o: Outcome)
    ensures o.Fine? || o.Refused?
  {
    if n > MAX_PAYLOAD_SIZE then
      Refused(MessageTooBig, "requested payload is over implementation defined limit")
    else if IsControl(op) && n > PAYLOAD_SIZE_BASIC then
      Refused(ProtocolViolation, "control frames can't have large payloads")
    else Fine
  }

  // ----- one consume call, phase by phase

  /** The catch clause of `consume`. */
  function Fail(f: Frame): (Frame, Outcome) {
    if f.degraded then (f, Fatal) else (FRESH.(state := Recovery, degraded := true), Sliced)
  }

  function PayloadDone(f: Frame): (Frame, Outcome)
    requires |f.header| == MAX_HEADER_LENGTH
  {
    (f.(state := Ready,
        payload := if Masked(f.header) then Xored(f.payload, MaskingKey(f.header)) else f.payload), Fine)
  }

  function Resized(v: seq<byte>, n: nat): (r: seq<byte>)
    ensures |r| == n
  {
    if n <= |v| then v[..n] else v + Zeros(n - |v|)
  }

  function ExtendedDone(f: Frame): (Frame, Outcome)
    requires |f.header| == MAX_HEADER_LENGTH
  {
    var size := Declared(f.header);
    if !Minimal(f.header) then Fail(f.(needed := size))
    else if size > MAX_PAYLOAD_SIZE then (f, Text)
    else
      var g := f.(payload := Resized(f.payload, size), needed := size);
      if size == 0 then PayloadDone(g) else (g.(state := Payload), Fine)
  }

  function BasicDone(f: Frame): (Frame, Outcome)
    requires |f.header| == MAX_HEADER_LENGTH
  {
    var g := f.(needed := HeaderLen(f.header) - BASIC_HEADER_LENGTH);
    if !ValidBasic(g.header) then Fail(g)
    else if g.needed > 0 then (g.(state := ExtendedHeader), Fine)
    else ExtendedDone(g)
  }

  /** The bytes of `avail` up to and including the first 0x88. */
  function Discard(avail: seq<byte>): (k: nat)
    ensures k <= |avail|
    ensures 0x88 !in avail ==> k == |avail|
    ensures 0x88 in avail ==> k > 0 && avail[k - 1] == 0x88 && 0x88 !in avail[..k - 1]
  {
    if avail == [] then 0 else if avail[0] == 0x88 then 1 else 1 + Discard(avail[1..])
  }

  /** Where the next read of each phase goes lies inside its buffer. */
  predicate InBounds(f: Frame) {
    && |f.header| == MAX_HEADER_LENGTH
    && match f.state
       case BasicHeader => f.needed <= BASIC_HEADER_LENGTH
       case ExtendedHeader => f.needed <= HeaderLen(f.header) - BASIC_HEADER_LENGTH
       case Payload => f.needed <= |f.payload|
       case Recovery => f.needed == 2 && f.header[0] != 0x88
       case Ready => true
  }

  /** What every state reached by `consume` satisfies, up to a fatal error. */
  predicate Inv(f: Frame) {
    && InBounds(f)
    && match f.state
       case BasicHeader =>
         1 <= f.needed <= 2 && f.payload == [] && (f.degraded ==> f.needed == 1 && f.header[0] == 0x88)
       case ExtendedHeader =>
         && ValidBasic(f.header) && f.payload == [] && (f.degraded ==> f.header[0] == 0x88)
         && (f.needed == 0 ==> Minimal(f.header) && Declared(f.header) > MAX_PAYLOAD_SIZE)
       case Payload =>
         Complete(f) && 0 < f.needed && (f.degraded ==> f.header[0] == 0x88)
       case Ready => Complete(f) && f.needed == 0 && (f.degraded ==> f.header[0] == 0x88)
       case Recovery =>
         f.payload == [] && f.degraded
  }

  /** The header is whole and acceptable, and the payload buffer has the size it declares. */
  predicate Complete(f: Frame) requires |f.header| == MAX_HEADER_LENGTH {
    && ValidBasic(f.header) && Minimal(f.header)
    && |f.payload| == Declared(f.header) <= MAX_PAYLOAD_SIZE
  }

  /** The state an oversized frame leaves behind: nothing is consumed any more and every call throws. */
  predicate Wedged(f: Frame) { f.state == ExtendedHeader && f.needed == 0 }

  // Each phase reads at most `needed` bytes into its buffer and moves on when none is missing.

  function FillBasic(f: Frame, avail: seq<byte>): Frame
    requires |f.header| == MAX_HEADER_LENGTH && f.needed <= BASIC_HEADER_LENGTH
  {
    var m := Min(f.needed, |avail|);
    f.(header := Write(f.header, BASIC_HEADER_LENGTH - f.needed, avail[..m]), needed := f.needed - m)
  }

  function InBasic(f: Frame, avail: seq<byte>): (Frame, Outcome, nat)
    requires |f.header| == MAX_HEADER_LENGTH && f.needed <= BASIC_HEADER_LENGTH
  {
    var g := FillBasic(f, avail);
    var (h, o) := if g.needed == 0 then BasicDone(g) else (g, Fine);
    (h, o, f.needed - g.needed)
  }

  function FillExtended(f: Frame, avail: seq<byte>): Frame
    requires |f.header| == MAX_HEADER_LENGTH && f.needed <= HeaderLen(f.header)
  {
    var m := Min(f.needed, |avail|);
    f.(header := Write(f.header, HeaderLen(f.header) - f.needed, avail[..m]), needed := f.needed - m)
  }

  function InExtended(f: Frame, avail: seq<byte>): (Frame, Outcome, nat)
    requires |f.header| == MAX_HEADER_LENGTH && f.needed <= HeaderLen(f.header)
  {
    var g := FillExtended(f, avail);
    var (h, o) := if g.needed == 0 then ExtendedDone(g) else (g, Fine);
    (h, o, f.needed - g.needed)
  }

  function FillPayload(f: Frame, avail: seq<byte>): Frame
    requires |f.header| == MAX_HEADER_LENGTH && f.needed <= |f.payload|
  {
    var m := Min(f.needed, |avail|);
    f.(payload := Write(f.payload, |f.payload| - f.needed, avail[..m]), needed := f.needed - m)
  }

  function InPayload(f: Frame, avail: seq<byte>): (Frame, Outcome, nat)
    requires |f.header| == MAX_HEADER_LENGTH && f.needed <= |f.payload|
  {
    var g := FillPayload(f, avail);
    var (h, o) := if g.needed == 0 then PayloadDone(g) else (g, Fine);
    (h, o, f.needed - g.needed)
  }

  function InRecovery(f: Frame, avail: seq<byte>): (Frame, Outcome, nat)
    requires |f.header| == MAX_HEADER_LENGTH && f.needed == 2
  {
    var k := Discard(avail);
    var g := if k == 0 then f else f.(header := f.header[0 := avail[k - 1]]);
    if g.header[0] == 0x88 then (g.(needed := 1, state := BasicHeader), Fine, k) else (g, Fine, k)
  }

  /**
   * One call of `consume` on a stream holding `avail`: the new fields, how the call ends and how many
   * bytes it took from the stream.
   */
  function Consumed(f: Frame, avail: seq<byte>): (r: (Frame, Outcome, nat))
    requires InBounds(f)
    ensures r.2 <= |avail|
  {
    match f.state
    case BasicHeader => InBasic(f, avail)
    case ExtendedHeader => InExtended(f, avail)
    case Payload => InPayload(f, avail)
    case Recovery => InRecovery(f, avail)
    case Ready => (f, Fine, 0)
  }

  // ----- the class

  class Parser {
    var state: State
    var needed: nat
    var degraded: bool
    const header: array<byte>
    var payload: seq<byte>

    ghost predicate Valid() reads this { header.Length == MAX_HEADER_LENGTH }

    ghost function View(): Frame reads this, header {
      Frame(state, needed, degraded, header[..], payload)
    }

    constructor ()
      ensures Valid() && View() == FRESH && fresh(header)
    {
      state, needed, degraded, payload := BasicHeader, BASIC_HEADER_LENGTH, false, [];
      header := new byte[MAX_HEADER_LENGTH](_ => 0);
    }

    method Reset()
      requires Valid()
      modifies this, header
      ensures View() == FRESH
    {
      state, needed, degraded, payload := BasicHeader, BASIC_HEADER_LENGTH, false, [];
      for i := 0 to MAX_HEADER_LENGTH
        modifies header
        invariant forall j | 0 <= j < i :: header[j] == 0
      {
        header[i] := 0;
      }
      assert header[..] == Zeros(MAX_HEADER_LENGTH);
    }

    /** `s.read(&m_header[off], ...)`: at most `needed` bytes of the stream into the header buffer. */
    method ReadHeader(off: nat, data: seq<byte>, pos: nat) returns (m: nat)
      requires Valid() && pos <= |data| && off + needed <= header.Length
      modifies this`needed, header
      ensures m == Min(old(needed), |data| - pos)
      ensures needed == old(needed) - m
      ensures header[..] == Write(old(header[..]), off, data[pos..][..m])
    {
      m := Min(needed, |data| - pos);
      for i := 0 to m
        modifies header
        invariant header[..] == Write(old(header[..]), off, data[pos..][..i])
      {
        header[off + i] := data[pos + i];
      }
      needed := needed - m;
    }

    /** Unmasks a completed payload in place. */
    method ProcessPayload()
      requires Valid()
      modifies this`payload
      ensures payload == if Masked(header[..]) then Xored(old(payload), MaskingKey(header[..])) else old(payload)
      ensures |payload| == |old(payload)|
      ensures header[1] & 0x80 == 0 ==> payload == old(payload)
      ensures header[1] & 0x80 == 0x80 ==> forall i | 0 <= i < |payload| ::
                payload[i] == old(payload)[i] ^ header[HeaderLen(header[..]) - 4 + i % 4]
    {
      hide HeaderLen;
      MaskBit(header[..]);
      if header[1] & 0x80 == 0x80 {
        var key := header[HeaderLen(header[..]) - 4..HeaderLen(header[..])];
        for i := 0 to |payload|
          invariant |payload| == |old(payload)|
          invariant forall j | 0 <= j < |payload| ::
            payload[j] == if j < i then old(payload)[j] ^ key[j % 4] else old(payload)[j]
        {
          payload := payload[i := payload[i] ^ key[i % 4]];
        }
      }
    }

    method ProcessExtendedHeader() returns (out: Outcome)
      requires Valid()
      modifies this, header
      ensures (View(), out) == ExtendedDone(old(View()))
    {
      var h := header[..];
      var size := Declared(h);
      if !Minimal(h) {
        needed := size;
        out := Abort();
        return;
      }
      if size > MAX_PAYLOAD_SIZE {
        return Text;
      }
      payload := Resized(payload, size);
      needed := size;
      if needed == 0 {
        state := Ready;
        ProcessPayload();
      } else {
        state := Payload;
      }
      out := Fine;
    }

    method Abort() returns (out: Outcome)
      requires Valid()
      modifies this, header
      ensures (View(), out) == Fail(old(View()))
    {
      if degraded {
        return Fatal;
      }
      Reset();
      state, degraded := Recovery, true;
      out := Sliced;
    }

    method ProcessBasicHeader() returns (out: Outcome)
      requires Valid()
      modifies this, header
      ensures (View(), out) == BasicDone(old(View()))
    {
      needed := HeaderLen(header[..]) - BASIC_HEADER_LENGTH;
      if !ValidBasic(header[..]) {
        out := Abort();
      } else if needed > 0 {
        state := ExtendedHeader;
        out := Fine;
      } else {
        out := ProcessExtendedHeader();
      }
    }

    method ReadPayload(data: seq<byte>, pos: nat) returns (m: nat)
      requires Valid() && pos <= |data| && needed <= |payload|
      modifies this`needed, this`payload
      ensures m == Min(old(needed), |data| - pos)
      ensures needed == old(needed) - m
      ensures payload == Write(old(payload), |old(payload)| - old(needed), data[pos..][..m])
    {
      m := Min(needed, |data| - pos);
      payload := Write(payload, |payload| - needed, data[pos..][..m]);
      needed := needed - m;
    }

    /** The recovery state drops bytes until the first byte of a close frame. */
    method Recover(data: seq<byte>, pos: nat) returns (next: nat)
      requires Valid() && needed == 2 && header[0] != 0x88 && pos <= |data|
      modifies this`needed, this`state, header
      ensures pos <= next && next - pos == Discard(data[pos..])
      ensures header[..] == if next == pos then old(header[..]) else old(header[..])[0 := data[next - 1]]
      ensures if header[0] == 0x88 then needed == 1 && state == BasicHeader
              else needed == 2 && state == old(state)
    {
      next := pos;
      while next < |data| && header[0] != 0x88
        modifies header
        invariant pos <= next <= |data|
        invariant header[0] != 0x88 ==> Discard(data[pos..]) == next - pos + Discard(data[next..])
        invariant header[0] == 0x88 ==> Discard(data[pos..]) == next - pos
        invariant header[..] == if next == pos then old(header[..]) else old(header[..])[0 := data[next - 1]]
      {
        assert data[next..][1..] == data[next + 1..];
        header[0] := data[next];
        next := next + 1;
      }
      if header[0] == 0x88 {
        needed := needed - 1;
        state := BasicHeader;
      }
    }

    method ConsumeBasic(data: seq<byte>, pos: nat) returns (next: nat, out: Outcome)
      requires Valid() && needed <= BASIC_HEADER_LENGTH && pos <= |data|
      modifies this, header
      ensures pos <= next && (View(), out, next - pos) == InBasic(old(View()), data[pos..])
    {
      out := Fine;
      var m := ReadHeader(BASIC_HEADER_LENGTH - needed, data, pos);
      next := pos + m;
      if needed == 0 {
        out := ProcessBasicHeader();
      }
    }

    method ConsumeExtended(data: seq<byte>, pos: nat) returns (next: nat, out: Outcome)
      requires Valid() && needed <= HeaderLen(header[..]) && pos <= |data|
      modifies this, header
      ensures pos <= next && (View(), out, next - pos) == InExtended(old(View()), data[pos..])
    {
      out := Fine;
      var m := ReadHeader(HeaderLen(header[..]) - needed, data, pos);
      next := pos + m;
      assert View() == FillExtended(old(View()), data[pos..]);
      if needed == 0 {
        out := ProcessExtendedHeader();
      }
    }

    method ConsumePayload(data: seq<byte>, pos: nat) returns (next: nat, out: Outcome)
      requires Valid() && needed <= |payload| && pos <= |data|
      modifies this, header
      ensures pos <= next && (View(), out, next - pos) == InPayload(old(View()), data[pos..])
    {
      out := Fine;
      var m := ReadPayload(data, pos);
      next := pos + m;
      if needed == 0 {
        state := Ready;
        ProcessPayload();
      }
    }

    method ConsumeRecovery(data: seq<byte>, pos: nat) returns (next: nat)
      requires Valid() && needed == 2 && header[0] != 0x88 && pos <= |data|
      modifies this, header
      ensures pos <= next && (View(), Fine, next - pos) == InRecovery(old(View()), data[pos..])
    {
      ghost var f := View();
      next := Recover(data, pos);
      assert next > pos ==> data[pos..][next - pos - 1] == data[next - 1];
    }

    /** `consume`: reads from the stream `data[pos..]` and returns the new stream position. */
    method Consume(data: seq<byte>, pos: nat) returns (next: nat, out: Outcome)
      requires Valid() && InBounds(View()) && pos <= |data|
      modifies this, header
      ensures pos <= next <= |data|
      ensures (View(), out, next - pos) == Consumed(old(View()), data[pos..])
    {
      out := Fine;
      next := pos;
      match state {
        case BasicHeader => next, out := ConsumeBasic(data, pos);
        case ExtendedHeader => next, out := ConsumeExtended(data, pos);
        case Payload => next, out := ConsumePayload(data, pos);
        case Recovery => next := ConsumeRecovery(data, pos);
        case Ready =>
      }
    }

    // ----- building a frame

    method SetOpcode(op: byte) returns (out: Outcome)
      requires Valid()
      modifies header
      ensures out.Fine? || out.Refused?
      ensures out == Fine <==>
                && !ReservedOpcode(op) && op <= 0xF
                && !(IsControl(Opcode(old(header[..]))) && BasicSize(old(header[..])) > 125)
      ensures header[..] == if out == Fine then old(header[..])[0 := (old(header[0]) & 0xF0) | op] else old(header[..])
    {
      if ReservedOpcode(op) {
        return Refused(ProtocolViolation, "reserved opcode");
      }
      if op > 0xF {
        return Refused(ProtocolViolation, "invalid opcode");
      }
      if IsControl(Opcode(header[..])) && BasicSize(header[..]) > 125 {
        return Refused(ProtocolViolation, "control frames can't have large payloads");
      }
      header[0] := header[0] & (0xFF ^ 0x0F);
      header[0] := header[0] | op;
      out := Fine;
    }

    method SetFin(fin: bool)
      requires Valid()
      modifies header
      ensures header[..] == old(header[..])[0 := if fin then old(header[0]) | 0x80 else old(header[0]) & 0x7F]
    {
      if fin {
        header[0] := header[0] | 0x80;
      } else {
        header[0] := header[0] & (0xFF ^ 0x80);
      }
    }

    /** `set_masked(false)`. */
    method ClearMasked()
      requires Valid()
      modifies header
      ensures header[..] == old(header[..])[1 := old(header[1]) & 0x7F]
    {
      header[1] := header[1] & (0xFF ^ 0x80);
    }

    method SetPayload(source: seq<byte>) returns (out: Outcome)
      requires Valid()
      modifies this`payload, header
      ensures out == PayloadVerdict(Opcode(old(header[..])), |source|)
      ensures out.Refused? ==> payload == old(payload) && header[..] == old(header[..])
      ensures out == Fine ==> payload == source && header[0] == old(header[0])
      ensures out == Fine ==> header[1] == LengthCode(|source|) | (old(header[1]) & 0x80)
      ensures out == Fine ==> header[2..2 + |LengthField(|source|)|] == LengthField(|source|)
    {
      var s := |source|;
      if s > MAX_PAYLOAD_SIZE {
        return Refused(MessageTooBig, "requested payload is over implementation defined limit");
      }
      if IsControl(Opcode(header[..])) && s > PAYLOAD_SIZE_BASIC {
        return Refused(ProtocolViolation, "control frames can't have large payloads");
      }
      var masked := header[1] & 0x80 == 0x80;
      if s <= PAYLOAD_SIZE_BASIC {
        header[1] := s as byte;
      } else if s <= PAYLOAD_SIZE_EXTENDED {
        header[1] := 126;
        StoreBE(s, 2);
      } else {
        header[1] := 127;
        StoreBE(s, 8);
      }
      if masked {
        header[1] := header[1] | 0x80;
      }
      payload := Resized(payload, s);
      payload := Write(payload, 0, source);
      assert payload == source;
      out := Fine;
    }

    /** Stores `n` behind the basic header in network byte order. */
    method StoreBE(n: nat, k: nat)
      requires Valid() && k <= 8
      modifies header
      ensures header[..2] == old(header[..2]) && header[2..2 + k] == ToBE(n, k)
    {
      var bs := ToBE(n, k);
      for i := 0 to k
        invariant header[..2] == old(header[..2]) && header[2..2 + i] == bs[..i]
      {
        header[2 + i] := bs[i];
      }
    }
  }
}
