/** What `consume` keeps: the invariant of the parser, progress, and independence of how the input is cut. */
module WsFrameInvariant {
  import opened Bytes
  import opened WsFrame

  /** The invariant the source documents for `consume`. */
  predicate Documented(f: Frame) { f.needed > 0 || f.state == Ready }

  /** What holds of the parser after a phase that ended with outcome `o`. */
  predicate Kept(f: Frame, o: Outcome) {
    && (o != Fatal ==> Inv(f))
    && (Documented(f) <==> o != Text)
    && (o == Text ==> Wedged(f))
    && (o == Sliced ==> f == FRESH.(state := Recovery, degraded := true))
    && !o.Refused?
  }

  /** A frame whose phase ends with a whole header: what `validate_basic_header` has let through. */
  predicate Clean(f: Frame) {
    |f.header| == MAX_HEADER_LENGTH && f.payload == [] && (f.degraded ==> f.header[0] == 0x88)
  }

  lemma PayloadDoneKeeps(f: Frame)
    requires |f.header| == MAX_HEADER_LENGTH && Complete(f) && f.needed == 0
    requires f.degraded ==> f.header[0] == 0x88
    ensures Kept(PayloadDone(f).0, PayloadDone(f).1)
  {}

  /** A close frame's length fits the basic form, so a degraded parser cannot fail on the length. */
  lemma DegradedIsMinimal(h: seq<byte>)
    requires |h| == MAX_HEADER_LENGTH && ValidBasic(h) && h[0] == 0x88
    ensures Minimal(h)
  {}

  lemma ExtendedDoneKeeps(f: Frame)
    requires Clean(f) && ValidBasic(f.header) && f.needed == 0 && f.state in {BasicHeader, ExtendedHeader}
    requires f.state == BasicHeader ==> HeaderLen(f.header) == 2
    ensures Kept(ExtendedDone(f).0, ExtendedDone(f).1)
  {
    var size := Declared(f.header);
    if f.degraded {
      DegradedIsMinimal(f.header);
    }
    if Minimal(f.header) && size == 0 {
      PayloadDoneKeeps(f.(payload := [], needed := 0));
    }
  }

  lemma BasicDoneKeeps(f: Frame)
    requires Clean(f) && f.state == BasicHeader && f.needed == 0
    ensures Kept(BasicDone(f).0, BasicDone(f).1)
  {
    var g := f.(needed := HeaderLen(f.header) - BASIC_HEADER_LENGTH);
    if ValidBasic(g.header) && g.needed == 0 {
      ExtendedDoneKeeps(g);
    }
  }

  lemma InBasicKeeps(f: Frame, avail: seq<byte>)
    requires Inv(f) && f.state == BasicHeader && avail != []
    ensures var (g, o, k) := InBasic(f, avail); Kept(g, o) && k > 0
  {
    var g := FillBasic(f, avail);
    if g.needed == 0 {
      BasicDoneKeeps(g);
    }
  }

  /** The extended header is written behind the two octets that fix its length. */
  lemma ExtendedWrite(f: Frame, src: seq<byte>)
    requires InBounds(f) && f.state == ExtendedHeader && |src| <= f.needed
    ensures var off := HeaderLen(f.header) - f.needed;
            var h := Write(f.header, off, src);
            h[0] == f.header[0] && h[1] == f.header[1] && HeaderLen(h) == HeaderLen(f.header)
            && (ValidBasic(h) <==> ValidBasic(f.header))
  {}

  lemma InExtendedKeeps(f: Frame, avail: seq<byte>)
    requires Inv(f) && f.state == ExtendedHeader && !Wedged(f) && avail != []
    ensures var (g, o, k) := InExtended(f, avail); Kept(g, o) && k > 0
  {
    var g := FillExtended(f, avail);
    ExtendedWrite(f, avail[..Min(f.needed, |avail|)]);
    assert Clean(g) && ValidBasic(g.header);
    if g.needed == 0 {
      ExtendedDoneKeeps(g);
    }
  }

  /** An oversized frame is refused again on every call. */
  lemma WedgedStays(f: Frame, avail: seq<byte>)
    requires Inv(f) && Wedged(f)
    ensures InExtended(f, avail) == (f, Text, 0)
  {
    assert FillExtended(f, avail).header == f.header;
  }

  lemma InPayloadKeeps(f: Frame, avail: seq<byte>)
    requires Inv(f) && f.state == Payload && avail != []
    ensures var (g, o, k) := InPayload(f, avail); Kept(g, o) && k > 0
  {
    var g := FillPayload(f, avail);
    if g.needed == 0 {
      PayloadDoneKeeps(g);
    }
  }

  lemma InRecoveryKeeps(f: Frame, avail: seq<byte>)
    requires Inv(f) && f.state == Recovery && avail != []
    ensures var (g, o, k) := InRecovery(f, avail); Kept(g, o) && k > 0
  {}

  /**
   * The invariant documented in the source, with its exact limit: every `consume` keeps the parser within
   * its buffers and leaves bytes to ask for or a ready frame, unless it throws the string literal for an
   * oversized frame, and then no byte will ever be asked for again.
   */
  lemma ConsumeKeeps(f: Frame, avail: seq<byte>)
    requires Inv(f) && f.state != Ready && avail != []
    ensures var (g, o, k) := Consumed(f, avail);
            && Kept(g, o)
            && (k > 0 <==> !Wedged(f))
            && (Wedged(f) ==> o == Text && g == f)
  {
    match f.state
    case BasicHeader => InBasicKeeps(f, avail);
    case ExtendedHeader =>
      if Wedged(f) {
        WedgedStays(f, avail);
      } else {
        InExtendedKeeps(f, avail);
      }
    case Payload => InPayloadKeeps(f, avail);
    case Recovery => InRecoveryKeeps(f, avail);
  }

  // ----- one read or two

  /** `first` and `second` are what two reads in a row do, `whole` what one read of both does. */
  ghost predicate Agree(f: Frame, a: seq<byte>, b: seq<byte>, first: (Frame, Outcome, nat),
                        whole: (Frame, Outcome, nat))
  {
    if whole.2 <= |a| then first == whole
    else
      && first.1 == Fine && first.2 == |a| && first.0.state == f.state && InBounds(first.0)
      && Consumed(first.0, b) == (whole.0, whole.1, whole.2 - |a|)
  }

  /** A buffer with room for `needed` more bytes, filled from two reads or from one. */
  lemma FillTwice(buf: seq<byte>, off: nat, needed: nat, a: seq<byte>, b: seq<byte>)
    requires off + needed <= |buf|
    ensures needed <= |a| ==> (a + b)[..needed] == a[..needed]
    ensures needed > |a| ==>
              Write(Write(buf, off, a[..|a|]), off + |a|, b[..Min(needed - |a|, |b|)])
              == Write(buf, off, (a + b)[..Min(needed, |a + b|)])
  {
    if needed > |a| {
      var c := b[..Min(needed - |a|, |b|)];
      assert a[..|a|] == a && (a + b)[..Min(needed, |a + b|)] == a + c;
      hide Write;
      WriteTwice(buf, off, a, c);
    }
  }

  lemma FillBasicTwice(f: Frame, a: seq<byte>, b: seq<byte>)
    requires InBounds(f) && f.state == BasicHeader
    ensures f.needed <= |a| ==> FillBasic(f, a + b) == FillBasic(f, a)
    ensures f.needed > |a| ==> InBounds(FillBasic(f, a)) && FillBasic(FillBasic(f, a), b) == FillBasic(f, a + b)
  {
    hide Write;
    FillTwice(f.header, 2 - f.needed, f.needed, a, b);
  }

  lemma CutBasic(f: Frame, a: seq<byte>, b: seq<byte>)
    requires InBounds(f) && f.state == BasicHeader && b != []
    ensures Agree(f, a, b, InBasic(f, a), InBasic(f, a + b))
  {
    hide Write, BasicDone, InExtended, InPayload, InRecovery;
    FillBasicTwice(f, a, b);
  }

  lemma FillExtendedTwice(f: Frame, a: seq<byte>, b: seq<byte>)
    requires InBounds(f) && f.state == ExtendedHeader
    ensures f.needed <= |a| ==> FillExtended(f, a + b) == FillExtended(f, a)
    ensures f.needed > |a| ==>
              InBounds(FillExtended(f, a)) && FillExtended(FillExtended(f, a), b) == FillExtended(f, a + b)
  {
    hide Write, HeaderLen, ValidBasic;
    if f.needed > |a| {
      ExtendedWrite(f, a[..|a|]);
    }
    FillTwice(f.header, HeaderLen(f.header) - f.needed, f.needed, a, b);
  }

  lemma CutExtended(f: Frame, a: seq<byte>, b: seq<byte>)
    requires InBounds(f) && f.state == ExtendedHeader && b != []
    ensures Agree(f, a, b, InExtended(f, a), InExtended(f, a + b))
  {
    hide Write, ExtendedDone, InBasic, InPayload, InRecovery;
    FillExtendedTwice(f, a, b);
  }

  lemma FillPayloadTwice(f: Frame, a: seq<byte>, b: seq<byte>)
    requires InBounds(f) && f.state == Payload
    ensures f.needed <= |a| ==> FillPayload(f, a + b) == FillPayload(f, a)
    ensures f.needed > |a| ==> InBounds(FillPayload(f, a)) && FillPayload(FillPayload(f, a), b) == FillPayload(f, a + b)
  {
    hide Write;
    FillTwice(f.payload, |f.payload| - f.needed, f.needed, a, b);
  }

  lemma CutPayload(f: Frame, a: seq<byte>, b: seq<byte>)
    requires InBounds(f) && f.state == Payload && b != []
    ensures Agree(f, a, b, InPayload(f, a), InPayload(f, a + b))
  {
    hide Write, PayloadDone, InBasic, InExtended, InRecovery;
    FillPayloadTwice(f, a, b);
  }

  lemma {:induction false} DiscardConcat(a: seq<byte>, b: seq<byte>)
    ensures Discard(a + b) == if 0x88 in a then Discard(a) else |a| + Discard(b)
  {
    if a == [] {
      assert a + b == b;
    } else {
      assert (a + b)[1..] == a[1..] + b;
      DiscardConcat(a[1..], b);
    }
  }

  lemma CutRecovery(f: Frame, a: seq<byte>, b: seq<byte>)
    requires InBounds(f) && f.state == Recovery && a != [] && b != []
    ensures Agree(f, a, b, InRecovery(f, a), InRecovery(f, a + b))
  {
    hide Discard, InBasic, InExtended, InPayload;
    DiscardConcat(a, b);
    var k := Discard(a + b);
    if 0x88 in a {
      assert (a + b)[k - 1] == a[k - 1];
    } else {
      assert (a + b)[k - 1] == b[k - |a| - 1];
      var g := InRecovery(f, a).0;
      assert g.header == f.header[0 := a[|a| - 1]];
      assert a[|a| - 1] != 0x88;
      assert g.header[0 := b[k - |a| - 1]] == f.header[0 := b[k - |a| - 1]];
    }
  }

  /** A read may be cut anywhere: what the first part leaves undone the second part takes up. */
  lemma CutConsume(f: Frame, a: seq<byte>, b: seq<byte>)
    requires InBounds(f) && f.state != Ready && a != [] && b != []
    ensures Agree(f, a, b, Consumed(f, a), Consumed(f, a + b))
  {
    match f.state
    case BasicHeader => CutBasic(f, a, b);
    case ExtendedHeader => CutExtended(f, a, b);
    case Payload => CutPayload(f, a, b);
    case Recovery => CutRecovery(f, a, b);
  }

  // ----- recovery

  lemma DiscardUpTo(junk: seq<byte>, rest: seq<byte>)
    requires 0x88 !in junk
    ensures var all := junk + [0x88] + rest; Discard(all) == |junk| + 1 && all[|junk|] == 0x88
  {
    assert junk + [0x88] + rest == junk + ([0x88] + rest);
    DiscardConcat(junk, [0x88] + rest);
  }

  /**
   * After the first frame error everything before the next 0x88 is dropped; then the parser is, but for
   * the degraded flag, the fresh parser that has read that one byte.
   */
  lemma RecoverySkips(junk: seq<byte>, rest: seq<byte>)
    requires 0x88 !in junk
    ensures var broken := FRESH.(state := Recovery, degraded := true);
            && Consumed(FRESH, [0x88]).1 == Fine
            && Consumed(broken, junk + [0x88] + rest)
               == (Consumed(FRESH, [0x88]).0.(degraded := true), Fine, |junk| + 1)
  {
    var broken := FRESH.(state := Recovery, degraded := true);
    var all := junk + [0x88] + rest;
    DiscardUpTo(junk, rest);
    hide Discard, BasicDone, InExtended, InPayload;
    assert [0x88 as byte][..1] == [0x88];
    assert FillBasic(FRESH, [0x88]) == FRESH.(header := FRESH.header[0 := 0x88], needed := 1);
  }

  /** Without a 0x88 in sight the parser stays in recovery and has swallowed everything. */
  lemma RecoveryWaits(f: Frame, junk: seq<byte>)
    requires Inv(f) && f.state == Recovery && 0x88 !in junk
    ensures var (g, o, k) := InRecovery(f, junk);
            o == Fine && k == |junk| && g.state == Recovery && Inv(g)
  {}

  // ----- one frame

  /** Consumes until a frame is ready, an error is thrown or the stream is exhausted. */
  function ParseFrame(f: Frame, data: seq<byte>): (r: (Frame, Outcome, nat))
    requires Inv(f) && f.state != Ready
    ensures r.2 <= |data|
    decreases |data|
  {
    if data == [] then (f, Fine, 0)
    else
      ConsumeKeeps(f, data);
      var (g, o, k) := Consumed(f, data);
      if o != Fine || g.state == Ready then (g, o, k)
      else
        var (h, p, n) := ParseFrame(g, data[k..]);
        (h, p, k + n)
  }
}
