/**
 * The base framing of section 5.2 of RFC 6455, stated as an encoder, and the proof that the parser of
 * samples/wsframe.h accepts exactly what this encoder produces.
 */
module WsCodec {
  import opened Bytes
  import opened WsFrame
  import opened WsFrameInvariant

  datatype Mask = Unmasked | Keyed(key: seq<byte>)
  datatype Message = Message(fin: bool, opcode: byte, mask: Mask, payload: seq<byte>)

  predicate ValidMessage(m: Message) {
    && m.opcode <= 0xF && !ReservedOpcode(m.opcode)
    && (IsControl(m.opcode) ==> m.fin && |m.payload| <= PAYLOAD_SIZE_BASIC)
    && |m.payload| <= MAX_PAYLOAD_SIZE
    && (m.mask.Keyed? ==> |m.mask.key| == 4)
  }

  function Byte0(m: Message): byte { (if m.fin then 0x80 else 0) | m.opcode }
  function Byte1(m: Message): byte { (if m.mask.Keyed? then 0x80 else 0) | LengthCode(|m.payload|) }
  function Key(m: Message): seq<byte> { if m.mask.Keyed? then m.mask.key else [] }

  function EncodeHeader(m: Message): seq<byte> {
    [Byte0(m), Byte1(m)] + LengthField(|m.payload|) + Key(m)
  }

  /** Section 5.3: octet i of the result is octet i of the data, exclusive-or octet i modulo 4 of the key. */
  function Transformed(data: seq<byte>, key: seq<byte>): (r: seq<byte>)
    requires |key| == 4
    ensures |r| == |data| && forall i | 0 <= i < |data| :: r[i] == data[i] ^ key[i % 4]
  {
    seq(|data|, i requires 0 <= i < |data| => data[i] ^ key[i % 4])
  }

  function EncodePayload(m: Message): (r: seq<byte>)
    requires ValidMessage(m)
    ensures |r| == |m.payload|
  {
    if m.mask.Keyed? then Transformed(m.payload, m.mask.key) else m.payload
  }

  function Encode(m: Message): seq<byte>
    requires ValidMessage(m)
  {
    EncodeHeader(m) + EncodePayload(m)
  }

  /**
   * The layout of section 5.2, octet by octet: FIN and opcode, mask bit and 7-bit length, the longer lengths in
   * network byte order, the masking key, and the payload, transformed if there is a key.
   */
  lemma EncodingSays(m: Message)
    requires ValidMessage(m)
    ensures var e, n := Encode(m), |m.payload|; var bit: byte := if m.mask.Keyed? then 0x80 else 0;
            && |e| >= 2 && e[0] == (if m.fin then 0x80 else 0x00) | m.opcode
            && (n <= 125 ==> e[1] as nat == bit as nat + n && e[2..] == Key(m) + EncodePayload(m))
            && (126 <= n <= 65535 ==>
                  && e[1] == bit | 126 && 256 * e[2] as nat + e[3] as nat == n
                  && e[4..] == Key(m) + EncodePayload(m))
            && (65536 <= n ==>
                  && e[1] == bit | 127 && e[2] == e[3] == e[4] == e[5] == 0
                  && 0x1000000 * e[6] as nat + 0x10000 * e[7] as nat + 0x100 * e[8] as nat + e[9] as nat == n
                  && e[10..] == Key(m) + EncodePayload(m))
  {
    hide Encode, LengthField, FromBE, ToBE, EncodePayload;
    var n := |m.payload|;
    EncodingPieces(m);
    LengthRoundTrip(n);
    if n <= 125 {
      ShortLength(n, m.mask.Keyed?);
    } else if n <= 65535 {
      TwoOctets(LengthField(n));
    } else {
      EightOctets(LengthField(n));
    }
  }

  lemma EncodingPieces(m: Message)
    requires ValidMessage(m)
    ensures var e, field := Encode(m), LengthField(|m.payload|);
            && |e| >= 2 + |field| && e[0] == Byte0(m) && e[1] == Byte1(m)
            && (forall i | 0 <= i < |field| :: e[2 + i] == field[i])
            && e[2 + |field|..] == Key(m) + EncodePayload(m)
            && (|m.payload| > 125 ==> |field| == if |m.payload| <= 65535 then 2 else 8)
  {
    hide EncodePayload;
    var field := LengthField(|m.payload|);
    assert Encode(m) == [Byte0(m), Byte1(m)] + field + (Key(m) + EncodePayload(m));
  }

  /** Which messages there are: six opcodes, and control frames whole and short. */
  lemma ValidSays(m: Message)
    ensures ValidMessage(m) <==>
              && m.opcode in {0x0, 0x1, 0x2, 0x8, 0x9, 0xA}
              && (m.opcode in {0x8, 0x9, 0xA} ==> m.fin && |m.payload| <= 125)
              && |m.payload| <= 100000000
              && (m.mask.Keyed? ==> |m.mask.key| == 4)
  {}

  lemma ShortLength(n: nat, keyed: bool)
    requires n <= 125
    ensures var bit: byte := if keyed then 0x80 else 0; (bit | LengthCode(n)) as nat == bit as nat + n
  {
    SmallRoundTrip(n);
    BitAbove(n as byte);
  }

  lemma BitAbove(b: byte)
    requires b <= 125
    ensures (0x80 | b) as nat == 0x80 + b as nat && 0 | b == b
  {
    assert 0x80 | b == 0x80 + b;
  }

  /** An eight-octet field below 2^32 starts with four zeros. */
  lemma EightOctets(f: seq<byte>)
    requires |f| == 8 && FromBE(f) < 0x1_0000_0000
    ensures f[0] == f[1] == f[2] == f[3] == 0
    ensures FromBE(f) == 0x1000000 * f[4] as nat + 0x10000 * f[5] as nat + 0x100 * f[6] as nat + f[7] as nat
  {
    FourMore([], f[..4]);
    FourMore(f[..4], f[4..]);
    assert [] + f[..4] == f[..4] && f[..4] + f[4..] == f;
    hide FromBE;
  }

  // ----- the header

  /** The two fixed octets say what they should. */
  lemma BasicOctets(m: Message, h: seq<byte>)
    requires ValidMessage(m) && |h| >= 2 && h[0] == Byte0(m) && h[1] == Byte1(m)
    ensures Opcode(h) == m.opcode && Fin(h) == m.fin && !Reserved(h)
    ensures Masked(h) == m.mask.Keyed? && BasicSize(h) == LengthCode(|m.payload|)
    ensures ValidBasic(h)
    ensures HeaderLen(h) == |EncodeHeader(m)| && ExtraLength(h) == |LengthField(|m.payload|)|
  {}

  lemma Powers()
    ensures Pow256(1) == 0x100 && Pow256(2) == 0x1_0000
    ensures Pow256(8) == 0x1_0000_0000_0000_0000
  {
    assert Pow256(4) == 0x1_0000_0000;
  }

  /** The header buffer once the whole header of `m` has been read into it. */
  function HeaderOf(m: Message): (h: seq<byte>)
    requires ValidMessage(m)
    ensures |h| == MAX_HEADER_LENGTH
  {
    Write(Zeros(MAX_HEADER_LENGTH), 0, EncodeHeader(m))
  }

  lemma HeaderPieces(m: Message)
    requires ValidMessage(m)
    ensures var h, x := HeaderOf(m), |LengthField(|m.payload|)|;
            && h[0] == Byte0(m) && h[1] == Byte1(m)
            && h[2..2 + x] == LengthField(|m.payload|)
            && h[2 + x..2 + x + |Key(m)|] == Key(m)
  {
    var hdr := EncodeHeader(m);
    var x := |LengthField(|m.payload|)|;
    assert HeaderOf(m)[..|hdr|] == hdr;
    assert hdr[2..2 + x] == LengthField(|m.payload|);
    assert hdr[2 + x..] == Key(m);
  }

  lemma LengthRoundTrip(n: nat)
    requires n <= MAX_PAYLOAD_SIZE
    ensures LengthField(n) != [] ==> FromBE(LengthField(n)) == n
    ensures LengthField(n) == [] <==> n <= PAYLOAD_SIZE_BASIC
    ensures LengthField(n) == [] ==> LengthCode(n) as nat == n
  {
    hide ToBE, FromBE, Pow256;
    Powers();
    if n <= PAYLOAD_SIZE_BASIC {
      SmallRoundTrip(n);
    } else {
      FromToBE(n, if n <= PAYLOAD_SIZE_EXTENDED then 2 else 8);
    }
  }

  lemma HeaderFields(m: Message)
    requires ValidMessage(m)
    ensures var h := HeaderOf(m);
            && ValidBasic(h) && Minimal(h) && Declared(h) == |m.payload|
            && Masked(h) == m.mask.Keyed? && (Masked(h) ==> MaskingKey(h) == m.mask.key)
            && HeaderLen(h) == |EncodeHeader(m)|
  {
    HeaderPieces(m);
    BasicOctets(m, HeaderOf(m));
    LengthRoundTrip(|m.payload|);
  }

  /** What the parser does to a transformed payload, and the other way round. */
  lemma XorTwice(data: seq<byte>, key: seq<byte>)
    requires |key| == 4
    ensures Xored(Transformed(data, key), key) == data && Transformed(Xored(data, key), key) == data
  {
    var r, q := Xored(Transformed(data, key), key), Transformed(Xored(data, key), key);
    forall i | 0 <= i < |data| ensures r[i] == data[i] && q[i] == data[i] {
      Involution(data[i], key[i % 4]);
    }
  }

  lemma Involution(a: byte, k: byte)
    ensures (a ^ k) ^ k == a
  {}

  // ----- decoding what was encoded

  function ReadyFrame(m: Message): Frame
    requires ValidMessage(m)
  {
    Frame(Ready, 0, false, HeaderOf(m), m.payload)
  }

  function AfterHeader(m: Message): Frame
    requires ValidMessage(m)
  {
    if m.payload == [] then ReadyFrame(m)
    else Frame(Payload, |m.payload|, false, HeaderOf(m), Zeros(|m.payload|))
  }

  lemma AfterHeaderInv(m: Message)
    requires ValidMessage(m)
    ensures Inv(AfterHeader(m))
  {
    HeaderFields(m);
  }

  lemma HeaderComplete(m: Message, f: Frame)
    requires ValidMessage(m)
    requires f.header == HeaderOf(m) && f.payload == [] && f.needed == 0 && !f.degraded
    ensures ExtendedDone(f) == (AfterHeader(m), Fine)
  {
    HeaderFields(m);
    assert Resized([], |m.payload|) == Zeros(|m.payload|);
    if m.payload == [] {
      assert Resized([], 0) == [];
      assert PayloadDone(f.(payload := [])) == (ReadyFrame(m), Fine) by {
        if m.mask.Keyed? {
          assert Xored([], m.mask.key) == [];
        }
      }
    }
  }

  /** Two octets in: the header is either finished or the rest of it is asked for. */
  lemma BasicPart(m: Message, data: seq<byte>)
    requires ValidMessage(m) && EncodeHeader(m) <= data
    ensures var n := |EncodeHeader(m)|; var f := Consumed(FRESH, data);
            && f.1 == Fine && f.2 == 2
            && f.0 == if n == 2 then AfterHeader(m)
                      else Frame(ExtendedHeader, n - 2, false, Write(FRESH.header, 0, EncodeHeader(m)[..2]), [])
  {
    var g := FillBasic(FRESH, data);
    assert data[..2] == EncodeHeader(m)[..2];
    BasicOctets(m, g.header);
    if |EncodeHeader(m)| == 2 {
      assert g.header == HeaderOf(m) by { assert EncodeHeader(m)[..2] == EncodeHeader(m); }
      HeaderComplete(m, g);
    }
  }

  lemma ExtendedPart(m: Message, data: seq<byte>)
    requires ValidMessage(m) && EncodeHeader(m) <= data && |EncodeHeader(m)| > 2
    ensures var n := |EncodeHeader(m)|;
            var f := Frame(ExtendedHeader, n - 2, false, Write(FRESH.header, 0, EncodeHeader(m)[..2]), []);
            InBounds(f) && Consumed(f, data[2..]) == (AfterHeader(m), Fine, n - 2)
  {
    hide ValidBasic, ExtendedDone, HeaderLen, ValidMessage, AfterHeader;
    var hdr := EncodeHeader(m);
    var n := |hdr|;
    var f := Frame(ExtendedHeader, n - 2, false, Write(FRESH.header, 0, hdr[..2]), []);
    BasicOctets(m, f.header);
    var g := FillExtended(f, data[2..]);
    assert data[2..][..n - 2] == hdr[2..];
    assert hdr == hdr[..2] + hdr[2..];
    WriteTwice(FRESH.header, 0, hdr[..2], hdr[2..]);
    assert g.header == HeaderOf(m);
    HeaderComplete(m, g);
  }

  lemma PayloadPart(m: Message, data: seq<byte>)
    requires ValidMessage(m) && m.payload != [] && EncodePayload(m) <= data
    ensures Inv(AfterHeader(m)) && Consumed(AfterHeader(m), data) == (ReadyFrame(m), Fine, |m.payload|)
  {
    hide HeaderOf, MaskingKey, Inv, InBounds, Xored, Transformed, Masked, Zeros;
    AfterHeaderInv(m);
    HeaderFields(m);
    var f := AfterHeader(m);
    assert data[..|m.payload|] == EncodePayload(m);
    assert Write(f.payload, 0, EncodePayload(m)) == EncodePayload(m);
    if m.mask.Keyed? {
      XorTwice(m.payload, m.mask.key);
    }
  }

  /** `ParseFrame` after one call of `consume` that ended normally. */
  lemma ParseOn(f: Frame, data: seq<byte>, g: Frame, k: nat)
    requires Inv(f) && f.state != Ready && data != [] && Consumed(f, data) == (g, Fine, k)
    ensures Inv(g) && k <= |data|
    ensures g.state == Ready ==> ParseFrame(f, data) == (g, Fine, k)
    ensures g.state != Ready ==>
              var (h, p, n) := ParseFrame(g, data[k..]); ParseFrame(f, data) == (h, p, k + n)
  {
    hide Inv, Consumed, Kept, InBounds;
    ConsumeGoesOn(f, data, g, k);
  }

  lemma ConsumeGoesOn(f: Frame, data: seq<byte>, g: Frame, k: nat)
    requires Inv(f) && f.state != Ready && data != [] && Consumed(f, data) == (g, Fine, k)
    ensures Inv(g) && 0 < k <= |data|
  {
    hide Consumed;
    ConsumeKeeps(f, data);
  }

  /** What is left to parse once the header of `m` is in. */
  ghost predicate HeaderRead(m: Message, data: seq<byte>)
    requires ValidMessage(m) && EncodeHeader(m) <= data && Inv(AfterHeader(m))
  {
    var n, f := |EncodeHeader(m)|, AfterHeader(m);
    ParseFrame(FRESH, data) ==
      if f.state == Ready then (f, Fine, n) else
        var (h, p, k) := ParseFrame(f, data[n..]); (h, p, n + k)
  }

  lemma ParseShortHeader(m: Message, data: seq<byte>)
    requires ValidMessage(m) && EncodeHeader(m) <= data && |EncodeHeader(m)| == 2
    ensures Inv(AfterHeader(m)) && HeaderRead(m, data)
  {
    BasicPart(m, data);
    ParseOn(FRESH, data, AfterHeader(m), 2);
  }

  lemma FreshInv()
    ensures Inv(FRESH) && InBounds(FRESH)
  {}

  lemma ParseLongHeader(m: Message, data: seq<byte>)
    requires ValidMessage(m) && EncodeHeader(m) <= data && |EncodeHeader(m)| > 2
    ensures Inv(AfterHeader(m)) && HeaderRead(m, data)
  {
    hide ParseFrame, Consumed, EncodeHeader, ValidMessage, Inv, InBounds, Write, HeaderOf;
    var n := |EncodeHeader(m)|;
    FreshInv();
    BasicPart(m, data);
    var g := Consumed(FRESH, data).0;
    ParseOn(FRESH, data, g, 2);
    ExtendedPart(m, data);
    ParseOn(g, data[2..], AfterHeader(m), n - 2);
    assert data[2..][n - 2..] == data[n..];
  }

  lemma ParseHeader(m: Message, data: seq<byte>)
    requires ValidMessage(m) && EncodeHeader(m) <= data
    ensures Inv(AfterHeader(m)) && HeaderRead(m, data)
  {
    if |EncodeHeader(m)| == 2 {
      ParseShortHeader(m, data);
    } else {
      ParseLongHeader(m, data);
    }
  }

  lemma ParsePayload(m: Message, data: seq<byte>)
    requires ValidMessage(m) && m.payload != [] && EncodePayload(m) <= data
    ensures Inv(AfterHeader(m)) && ParseFrame(AfterHeader(m), data) == (ReadyFrame(m), Fine, |m.payload|)
  {
    PayloadPart(m, data);
    ParseOn(AfterHeader(m), data, ReadyFrame(m), |m.payload|);
  }

  lemma EncodeSplits(m: Message, rest: seq<byte>)
    requires ValidMessage(m)
    ensures var data, n := Encode(m) + rest, |EncodeHeader(m)|;
            && EncodeHeader(m) <= data && EncodePayload(m) <= data[n..]
            && |Encode(m)| == n + |m.payload|
  {
    var data, n := Encode(m) + rest, |EncodeHeader(m)|;
    assert data[n..] == EncodePayload(m) + rest;
    assert data == EncodeHeader(m) + data[n..];
  }

  /**
   * Round trip: a fresh parser turns every encoded message, masked or not, back into its FIN bit, opcode
   * and payload, and takes exactly the octets of that message from the stream.
   */
  lemma DecodeEncode(m: Message, rest: seq<byte>)
    requires ValidMessage(m)
    ensures ParseFrame(FRESH, Encode(m) + rest) == (ReadyFrame(m), Fine, |Encode(m)|)
  {
    hide ParseFrame, Encode, EncodeHeader, EncodePayload, ValidMessage, Inv, HeaderOf;
    FreshInv();
    EncodeSplits(m, rest);
    var data, n := Encode(m) + rest, |EncodeHeader(m)|;
    ParseHeader(m, data);
    if m.payload != [] {
      ParsePayload(m, data[n..]);
    }
  }

  /** What the handler can read off the ready frame. */
  lemma ReadyFrameSays(m: Message)
    requires ValidMessage(m)
    ensures var f := ReadyFrame(m);
            && Fin(f.header) == m.fin && Opcode(f.header) == m.opcode && f.payload == m.payload
            && f.header[..HeaderLen(f.header)] == EncodeHeader(m)
  {
    HeaderPieces(m);
    BasicOctets(m, HeaderOf(m));
  }

  // ----- nothing else is accepted

  function MessageOf(h: seq<byte>, payload: seq<byte>): Message
    requires |h| == MAX_HEADER_LENGTH
  {
    Message(Fin(h), Opcode(h), if Masked(h) then Keyed(MaskingKey(h)) else Unmasked, payload)
  }

  lemma LengthFormUnique(h: seq<byte>)
    requires |h| == MAX_HEADER_LENGTH && Minimal(h) && Declared(h) <= MAX_PAYLOAD_SIZE
    ensures LengthField(Declared(h)) == h[2..2 + ExtraLength(h)]
    ensures LengthCode(Declared(h)) == BasicSize(h)
  {
    if BasicSize(h) < 126 {
      ShortForm(BasicSize(h));
    } else {
      hide BasicSize, FromBE, ToBE;
      LongForm(h[2..2 + ExtraLength(h)]);
    }
  }

  lemma ShortForm(size: byte)
    requires size < 126
    ensures LengthField(size as nat) == [] && LengthCode(size as nat) == size
  {}

  /** A length that needs the wider field has the octets of that field as its only spelling. */
  lemma LongForm(field: seq<byte>)
    requires |field| == 2 || |field| == 8
    requires FromBE(field) > if |field| == 2 then PAYLOAD_SIZE_BASIC else PAYLOAD_SIZE_EXTENDED
    ensures LengthField(FromBE(field)) == field && LengthCode(FromBE(field)) == if |field| == 2 then 126 else 127
  {
    Powers();
    FromBEBound(field);
    ToFromBE(field);
    hide FromBE, ToBE, Pow256;
  }

  lemma OctetsCompose(h: seq<byte>)
    requires |h| == MAX_HEADER_LENGTH && !Reserved(h)
    ensures h[0] == (if Fin(h) then 0x80 else 0) | Opcode(h)
    ensures h[1] == (if Masked(h) then 0x80 else 0) | BasicSize(h)
    ensures Opcode(h) <= 0xF
  {}

  /** A header the parser lets through is the header the encoder writes for what it says. */
  lemma HeaderIsEncoded(h: seq<byte>, payload: seq<byte>)
    requires |h| == MAX_HEADER_LENGTH && ValidBasic(h) && Minimal(h)
    requires Declared(h) == |payload| <= MAX_PAYLOAD_SIZE
    ensures var m := MessageOf(h, payload); ValidMessage(m) && EncodeHeader(m) == h[..HeaderLen(h)]
  {
    var m := MessageOf(h, payload);
    LengthFormUnique(h);
    OctetsCompose(h);
    var x := ExtraLength(h);
    assert h[..HeaderLen(h)] == [h[0], h[1]] + h[2..2 + x] + h[2 + x..HeaderLen(h)];
    assert Key(m) == h[2 + x..HeaderLen(h)];
  }

  /** The first `n` octets of the stream lie in the header buffer. */
  function HeaderBuffer(data: seq<byte>, n: nat): (h: seq<byte>)
    requires n <= |data| && n <= MAX_HEADER_LENGTH
    ensures |h| == MAX_HEADER_LENGTH && h[..n] == data[..n]
  {
    Write(Zeros(MAX_HEADER_LENGTH), 0, data[..n])
  }

  /** The conditions section 5.2 puts on a stream that starts with a whole frame. */
  predicate StartsWithFrame(data: seq<byte>) {
    && |data| >= 2
    && var n := HeaderLen(data);
    && ValidBasic(data)
    && n <= |data|
    && var h := HeaderBuffer(data, n);
    && Minimal(h) && Declared(h) <= MAX_PAYLOAD_SIZE && n + Declared(h) <= |data|
  }

  lemma BufferSays(data: seq<byte>, n: nat)
    requires 2 <= n <= |data| && n <= MAX_HEADER_LENGTH
    ensures var h := HeaderBuffer(data, n);
            && (ValidBasic(h) <==> ValidBasic(data)) && HeaderLen(h) == HeaderLen(data)
            && Masked(h) == Masked(data)
  {
    var h := HeaderBuffer(data, n);
    assert h[0] == data[0] && h[1] == data[1];
  }

  /** A stream that meets those conditions is an encoded message followed by a rest. */
  lemma FrameIsEncoded(data: seq<byte>) returns (m: Message)
    requires StartsWithFrame(data)
    ensures ValidMessage(m) && Encode(m) <= data
  {
    var n := HeaderLen(data);
    var h := HeaderBuffer(data, n);
    var end := n + Declared(h);
    BufferSays(data, n);
    assert h[..n] == data[..n];
    hide Declared, ValidBasic, Minimal, HeaderLen, ValidMessage;
    assert data[..n] + data[n..end] == data[..end];
    m := UnmaskedMessage(h, data[n..end]);
  }

  lemma UnmaskedMessage(h: seq<byte>, wire: seq<byte>) returns (m: Message)
    requires |h| == MAX_HEADER_LENGTH && ValidBasic(h) && Minimal(h)
    requires Declared(h) == |wire| <= MAX_PAYLOAD_SIZE
    ensures ValidMessage(m) && EncodeHeader(m) == h[..HeaderLen(h)] && EncodePayload(m) == wire
  {
    if Masked(h) {
      m := MessageOf(h, Xored(wire, MaskingKey(h)));
      HeaderIsEncoded(h, m.payload);
      XorTwice(wire, MaskingKey(h));
    } else {
      m := MessageOf(h, wire);
      HeaderIsEncoded(h, wire);
    }
  }

  /** The same conditions, read off the parser: it reaches READY on no other stream. */
  lemma BasicDemands(data: seq<byte>)
    requires |data| >= 2 && Consumed(FRESH, data).1 == Fine
    ensures ValidBasic(data)
    ensures var n := HeaderLen(data); var g := Consumed(FRESH, data).0;
            && Consumed(FRESH, data).2 == 2
            && (n > 2 ==> g == Frame(ExtendedHeader, n - 2, false, HeaderBuffer(data, 2), []))
            && (n == 2 ==> (g, Fine) == ExtendedDone(Frame(BasicHeader, 0, false, HeaderBuffer(data, 2), [])))
  {
    var h := HeaderBuffer(data, 2);
    assert h[0] == data[0] && h[1] == data[1];
    assert FillBasic(FRESH, data) == Frame(BasicHeader, 0, false, h, []);
  }

  lemma ExtendedFills(data: seq<byte>)
    requires |data| >= 2 && 2 < HeaderLen(data) <= |data|
    ensures var n := HeaderLen(data); var f := Frame(ExtendedHeader, n - 2, false, HeaderBuffer(data, 2), []);
            && InBounds(f)
            && FillExtended(f, data[2..]) == Frame(ExtendedHeader, 0, false, HeaderBuffer(data, n), [])
  {
    var n := HeaderLen(data);
    var h := HeaderBuffer(data, 2);
    assert h[0] == data[0] && h[1] == data[1];
    assert data[2..][..n - 2] == data[2..n];
    assert data[..n] == data[..2] + data[2..n];
    WriteTwice(Zeros(MAX_HEADER_LENGTH), 0, data[..2], data[2..n]);
  }

  // ----- which headers are refused, and how

  lemma BasicVerdict(data: seq<byte>)
    requires |data| >= 2
    ensures Consumed(FRESH, data).1 == if ValidBasic(data) then Fine else Sliced
  {
    var h := HeaderBuffer(data, 2);
    assert h[0] == data[0] && h[1] == data[1];
    assert FillBasic(FRESH, data) == Frame(BasicHeader, 0, false, h, []);
    if HeaderLen(h) == 2 {
      assert Minimal(h) && Declared(h) <= 125;
    }
  }

  /** While a payload comes in nothing can fail. */
  lemma {:induction false} PayloadIsFine(f: Frame, data: seq<byte>)
    requires Inv(f) && f.state == Payload
    ensures ParseFrame(f, data).1 == Fine
    decreases |data|
  {
    if data != [] {
      ConsumeKeeps(f, data);
      var (g, o, k) := Consumed(f, data);
      assert o == Fine && (g.state == Payload || g.state == Ready);
      if g.state == Payload {
        PayloadIsFine(g, data[k..]);
      }
    }
  }

  lemma ExtendedVerdict(f: Frame, data: seq<byte>)
    requires Inv(f) && f.state == ExtendedHeader && !f.degraded && f.needed > 0 && f.needed <= |data|
    ensures var h, (g, o, k) := FillExtended(f, data).header, ParseFrame(f, data);
            && (o == Sliced <==> !Minimal(h))
            && (o == Text <==> Minimal(h) && Declared(h) > MAX_PAYLOAD_SIZE)
            && (o == Text ==> Wedged(g) && k == f.needed)
            && o in {Fine, Sliced, Text}
  {
    hide Minimal, Declared, ValidBasic;
    ConsumeKeeps(f, data);
    var (g, o, k) := Consumed(f, data);
    if o == Fine && g.state == Payload {
      PayloadIsFine(g, data[k..]);
    }
  }

  /**
   * What becomes of any whole header, exactly: it is refused with an error when its first two octets break
   * the rules or its length is not minimal; if neither, it throws the string literal and leaves a parser
   * that asks for nothing when it declares more than the implementation limit; otherwise there is no error.
   */
  lemma HeaderVerdict(data: seq<byte>)
    requires |data| >= 2 && HeaderLen(data) <= |data|
    ensures var h, (g, o, k) := HeaderBuffer(data, HeaderLen(data)), ParseFrame(FRESH, data);
            && (o == Sliced <==> !ValidBasic(data) || !Minimal(h))
            && (o == Text <==> ValidBasic(data) && Minimal(h) && Declared(h) > MAX_PAYLOAD_SIZE)
            && (o == Text ==> Wedged(g) && !Documented(g) && k == HeaderLen(data))
            && (o != Sliced && o != Text ==> o == Fine)
  {
    hide *;
    if !ValidBasic(data) {
      BadBasicHeader(data);
    } else if HeaderLen(data) == 2 {
      ShortHeader(data);
    } else {
      LongHeader(data);
    }
  }

  lemma BadBasicHeader(data: seq<byte>)
    requires |data| >= 2 && !ValidBasic(data)
    ensures ParseFrame(FRESH, data).1 == Sliced
  {
    BasicVerdict(data);
    hide Consumed, ValidBasic;
  }

  lemma ShortHeader(data: seq<byte>)
    requires |data| >= 2 && HeaderLen(data) == 2 && ValidBasic(data)
    ensures var h := HeaderBuffer(data, 2);
            ParseFrame(FRESH, data).1 == Fine && Minimal(h) && Declared(h) <= MAX_PAYLOAD_SIZE
  {
    hide ParseFrame, Consumed, Inv, ValidBasic;
    FreshInv();
    BasicVerdict(data);
    BufferSays(data, 2);
    var (g, o, k) := Consumed(FRESH, data);
    ParseOn(FRESH, data, g, k);
    BasicDemands(data);
    if g.state != Ready {
      PayloadIsFine(g, data[2..]);
    }
  }

  lemma LongHeader(data: seq<byte>)
    requires |data| >= 2 && 2 < HeaderLen(data) <= |data| && ValidBasic(data)
    ensures var h, (g, o, k) := HeaderBuffer(data, HeaderLen(data)), ParseFrame(FRESH, data);
            && (o == Sliced <==> !Minimal(h))
            && (o == Text <==> Minimal(h) && Declared(h) > MAX_PAYLOAD_SIZE)
            && (o == Text ==> Wedged(g) && !Documented(g) && k == HeaderLen(data))
            && o in {Fine, Sliced, Text}
  {
    hide ParseFrame, Consumed, Inv, ValidBasic, HeaderLen, Minimal, Declared, HeaderBuffer, InBounds, FillExtended;
    FreshInv();
    BasicVerdict(data);
    BasicDemands(data);
    var (g, o, k) := Consumed(FRESH, data);
    ParseOn(FRESH, data, g, k);
    ExtendedFills(data);
    ExtendedVerdict(g, data[2..]);
  }

  /** An unfinished payload needs all the octets it still asks for. */
  lemma PayloadNeeds(g: Frame, data: seq<byte>)
    requires Inv(g) && g.state == Payload && ParseFrame(g, data).0.state == Ready
    ensures g.needed <= |data|
  {
    if data != [] {
      ConsumeKeeps(g, data);
    }
  }

  /** From a finished header on: the declared payload must be there. */
  lemma PayloadDemands(f: Frame, data: seq<byte>)
    requires |f.header| == MAX_HEADER_LENGTH && f.payload == [] && !f.degraded && f.needed == 0
    requires f.state in {BasicHeader, ExtendedHeader}
    requires ExtendedDone(f).1 == Fine && Inv(ExtendedDone(f).0)
    requires var g := ExtendedDone(f).0; g.state == Ready || ParseFrame(g, data).0.state == Ready
    ensures Minimal(f.header) && Declared(f.header) <= MAX_PAYLOAD_SIZE && Declared(f.header) <= |data|
  {
    hide ParseFrame, Minimal, Declared, PayloadDone, Xored;
    var g := ExtendedDone(f).0;
    if g.state == Payload {
      PayloadNeeds(g, data);
    }
  }

  lemma AcceptedStartsWithFrame(data: seq<byte>)
    requires var (g, o, k) := ParseFrame(FRESH, data); o == Fine && g.state == Ready
    ensures StartsWithFrame(data)
  {
    ConsumeKeeps(FRESH, data);
    var (g, o, k) := Consumed(FRESH, data);
    if |data| >= 2 {
      BasicDemands(data);
      var n := HeaderLen(data);
      BufferSays(data, 2);
      if n == 2 {
        PayloadDemands(Frame(BasicHeader, 0, false, HeaderBuffer(data, 2), []), data[2..]);
      } else {
        ExtendedDemands(data);
      }
    }
  }

  lemma ExtendedDemands(data: seq<byte>)
    requires |data| >= 2 && HeaderLen(data) > 2 && ValidBasic(data)
    requires var f := Frame(ExtendedHeader, HeaderLen(data) - 2, false, HeaderBuffer(data, 2), []);
             Inv(f) && ParseFrame(f, data[2..]).0.state == Ready && ParseFrame(f, data[2..]).1 == Fine
    ensures StartsWithFrame(data)
  {
    var n := HeaderLen(data);
    var f := Frame(ExtendedHeader, n - 2, false, HeaderBuffer(data, 2), []);
    var rest := data[2..];
    assert rest != [];
    ConsumeKeeps(f, rest);
    if n <= |data| {
      ExtendedFills(data);
      var h := Frame(ExtendedHeader, 0, false, HeaderBuffer(data, n), []);
      assert Consumed(f, rest) == (ExtendedDone(h).0, ExtendedDone(h).1, n - 2);
      assert rest[n - 2..] == data[n..];
      PayloadDemands(h, data[n..]);
    }
  }

  /**
   * The language of the parser: a fresh parser reaches READY without an error on exactly those streams
   * that start with an encoded message, so only with the minimal length form and the reserved bits clear,
   * and what it then holds is that message.
   */
  lemma AcceptsExactlyEncodings(data: seq<byte>)
    ensures (exists m :: ValidMessage(m) && Encode(m) <= data) <==>
              var (g, o, k) := ParseFrame(FRESH, data); o == Fine && g.state == Ready
    ensures forall m :: ValidMessage(m) && Encode(m) <= data ==>
              ParseFrame(FRESH, data) == (ReadyFrame(m), Fine, |Encode(m)|)
  {
    forall m | ValidMessage(m) && Encode(m) <= data
      ensures ParseFrame(FRESH, data) == (ReadyFrame(m), Fine, |Encode(m)|)
    {
      DecodeEncode(m, data[|Encode(m)|..]);
      assert data == Encode(m) + data[|Encode(m)|..];
    }
    var (g, o, k) := ParseFrame(FRESH, data);
    if o == Fine && g.state == Ready {
      AcceptedStartsWithFrame(data);
      var m := FrameIsEncoded(data);
    }
  }
}
