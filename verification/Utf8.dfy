/** UTF-8: the encoding of RFC 3629, and the table-driven decoder of samples/wsutf8.h. */
module Utf8 {
  import opened Bytes

  type codepoint = bv32

  // ----- sections 3 and 4 of RFC 3629

  predicate Scalar(c: codepoint) { c <= 0x10FFFF && !(0xD800 <= c <= 0xDFFF) }

  /** Six bits of a code point, and the bits above them. */
  function Six(c: codepoint, k: nat): (x: codepoint)
    requires k <= 32
    ensures x <= 0x3F
  {
    (c >> k) & 0x3F
  }

  function Top(c: codepoint, k: nat): (x: codepoint)
    requires k <= 32
    ensures k == 6 && c < 0x800 ==> x <= 0x1F
    ensures k == 12 && c < 0x10000 ==> x <= 0x0F
    ensures k == 18 && c <= 0x10FFFF ==> x <= 0x04
  {
    c >> k
  }

  // The octet patterns of section 3: 110xxxxx, 1110xxxx, 11110xxx and 10xxxxxx.

  function Head2(x: codepoint): byte requires x <= 0x1F { (0xC0 | x) as byte }
  function Head3(x: codepoint): byte requires x <= 0x0F { (0xE0 | x) as byte }
  function Head4(x: codepoint): byte requires x <= 0x07 { (0xF0 | x) as byte }
  function Follow(x: codepoint): byte requires x <= 0x3F { (0x80 | x) as byte }

  /** The octets of one character. */
  function Encode(c: codepoint): (r: seq<byte>)
    requires Scalar(c)
    ensures 1 <= |r| <= 4
  {
    if c < 0x80 then [c as byte]
    else if c < 0x800 then [Head2(Top(c, 6)), Follow(Six(c, 0))]
    else if c < 0x10000 then [Head3(Top(c, 12)), Follow(Six(c, 6)), Follow(Six(c, 0))]
    else [Head4(Top(c, 18)), Follow(Six(c, 12)), Follow(Six(c, 6)), Follow(Six(c, 0))]
  }

  function EncodeAll(cs: seq<codepoint>): seq<byte>
    requires forall c | c in cs :: Scalar(c)
  {
    if cs == [] then [] else Encode(cs[0]) + EncodeAll(cs[1..])
  }

  // ----- the table

  const ACCEPT: nat := 0
  const REJECT: nat := 1

  /** `utf8d`, sixteen entries a row: the classes of the 256 octets, then a row for each of the states 0 to 8. */
  const UTF8D: seq<seq<nat>> := [
    [0, 0, 0, 0, 0, 0, 0, 0, 0, 0, 0, 0, 0, 0, 0, 0],
    [0, 0, 0, 0, 0, 0, 0, 0, 0, 0, 0, 0, 0, 0, 0, 0],
    [0, 0, 0, 0, 0, 0, 0, 0, 0, 0, 0, 0, 0, 0, 0, 0],
    [0, 0, 0, 0, 0, 0, 0, 0, 0, 0, 0, 0, 0, 0, 0, 0],
    [0, 0, 0, 0, 0, 0, 0, 0, 0, 0, 0, 0, 0, 0, 0, 0],
    [0, 0, 0, 0, 0, 0, 0, 0, 0, 0, 0, 0, 0, 0, 0, 0],
    [0, 0, 0, 0, 0, 0, 0, 0, 0, 0, 0, 0, 0, 0, 0, 0],
    [0, 0, 0, 0, 0, 0, 0, 0, 0, 0, 0, 0, 0, 0, 0, 0],
    [1, 1, 1, 1, 1, 1, 1, 1, 1, 1, 1, 1, 1, 1, 1, 1],
    [9, 9, 9, 9, 9, 9, 9, 9, 9, 9, 9, 9, 9, 9, 9, 9],
    [7, 7, 7, 7, 7, 7, 7, 7, 7, 7, 7, 7, 7, 7, 7, 7],
    [7, 7, 7, 7, 7, 7, 7, 7, 7, 7, 7, 7, 7, 7, 7, 7],
    [8, 8, 2, 2, 2, 2, 2, 2, 2, 2, 2, 2, 2, 2, 2, 2],
    [2, 2, 2, 2, 2, 2, 2, 2, 2, 2, 2, 2, 2, 2, 2, 2],
    [10, 3, 3, 3, 3, 3, 3, 3, 3, 3, 3, 3, 3, 4, 3, 3],
    [11, 6, 6, 6, 5, 8, 8, 8, 8, 8, 8, 8, 8, 8, 8, 8],
    [0, 1, 2, 3, 5, 8, 7, 1, 1, 1, 4, 6, 1, 1, 1, 1],
    [1, 1, 1, 1, 1, 1, 1, 1, 1, 1, 1, 1, 1, 1, 1, 1],
    [1, 0, 1, 1, 1, 1, 1, 0, 1, 0, 1, 1, 1, 1, 1, 1],
    [1, 2, 1, 1, 1, 1, 1, 2, 1, 2, 1, 1, 1, 1, 1, 1],
    [1, 1, 1, 1, 1, 1, 1, 2, 1, 1, 1, 1, 1, 1, 1, 1],
    [1, 2, 1, 1, 1, 1, 1, 1, 1, 2, 1, 1, 1, 1, 1, 1],
    [1, 1, 1, 1, 1, 1, 1, 3, 1, 3, 1, 1, 1, 1, 1, 1],
    [1, 3, 1, 1, 1, 1, 1, 3, 1, 3, 1, 1, 1, 1, 1, 1],
    [1, 3, 1, 1, 1, 1, 1, 1, 1, 1, 1, 1, 1, 1, 1, 1]
  ]

  function Entry(i: nat): nat
    requires i < 400
  {
    assert |UTF8D| == 25 && forall r | 0 <= r < 25 :: |UTF8D[r]| == 16;
    UTF8D[i / 16][i % 16]
  }

  // ----- what the table says

  /** The octet classes the table distinguishes. */
  function Class(b: nat): (t: nat)
    ensures t < 12
  {
    if b < 0x80 then 0
    else if b < 0x90 then 1
    else if b < 0xA0 then 9
    else if b < 0xC0 then 7
    else if b < 0xC2 then 8
    else if b < 0xE0 then 2
    else if b == 0xE0 then 10
    else if b == 0xED then 4
    else if b < 0xF0 then 3
    else if b == 0xF0 then 11
    else if b < 0xF4 then 6
    else if b == 0xF4 then 5
    else 8
  }

  predicate Continuation(t: nat) { t == 1 || t == 7 || t == 9 }

  /** The transitions: how many continuation octets are due, and which ranges the first of them may use. */
  function Delta(s: nat, t: nat): (r: nat)
    requires s < 9 && t < 12
    ensures r < 9
  {
    match s
    case 0 => [0, 1, 2, 3, 5, 8, 7, 1, 1, 1, 4, 6][t]
    case 1 => 1
    case 2 => if Continuation(t) then 0 else 1
    case 3 => if Continuation(t) then 2 else 1
    case 4 => if t == 7 then 2 else 1
    case 5 => if t == 1 || t == 9 then 2 else 1
    case 6 => if t == 7 || t == 9 then 3 else 1
    case 7 => if Continuation(t) then 3 else 1
    case _ => if t == 1 then 3 else 1
  }

  lemma ClassRows(i: nat, j: nat)
    requires i < 16 && j < 16
    ensures UTF8D[i][j] == Class(16 * i + j)
  {
  }

  lemma StateRows(s: nat, t: nat)
    requires s < 9 && t < 12
    ensures UTF8D[16 + s][t] == Delta(s, t)
  {
  }

  /** The class of an octet, compared octet-wise. */
  lemma ClassOfByte(b: byte)
    ensures Class(b as nat) ==
      if b < 0x80 then 0 else if b < 0x90 then 1 else if b < 0xA0 then 9 else if b < 0xC0 then 7
      else if b < 0xC2 then 8 else if b < 0xE0 then 2 else if b == 0xE0 then 10 else if b == 0xED then 4
      else if b < 0xF0 then 3 else if b == 0xF0 then 11 else if b < 0xF4 then 6 else if b == 0xF4 then 5 else 8
  {}

  // ----- the decoder

  /** `decode`: the next state and code point. */
  function DecodeOctet(state: nat, codep: codepoint, b: byte): (r: (nat, codepoint))
    requires state < 9
    ensures r.0 < 9
  {
    EntryOfByte(b as nat);
    var t := Entry(b as nat);
    EntryOfState(state, t);
    (Entry(256 + state * 16 + t), Joined(state, t, codep, b))
  }

  function Joined(state: nat, t: nat, codep: codepoint, b: byte): codepoint
    requires t <= 32
  {
    if state != ACCEPT then (b as codepoint & 0x3F) | (codep << 6)
    else ((0xFF as codepoint) >> t) & b as codepoint
  }

  lemma EntryOfByte(i: nat)
    requires i < 256
    ensures Entry(i) == Class(i)
  {
    ClassRows(i / 16, i % 16);
  }

  lemma EntryOfState(s: nat, t: nat)
    requires s < 9 && t < 12
    ensures Entry(256 + s * 16 + t) == Delta(s, t)
  {
    StateRows(s, t);
    assert (256 + s * 16 + t) / 16 == 16 + s && (256 + s * 16 + t) % 16 == t;
  }

  lemma DecodeSays(state: nat, codep: codepoint, b: byte)
    requires state < 9
    ensures var t := Class(b as nat); DecodeOctet(state, codep, b) == (Delta(state, t), Joined(state, t, codep, b))
  {
    hide Entry, Joined, Class, Delta;
    EntryOfByte(b as nat);
    EntryOfState(state, Class(b as nat));
  }

  /** The decoder over a byte string. */
  function Run(state: nat, codep: codepoint, bs: seq<byte>): (r: (nat, codepoint))
    requires state < 9
    ensures r.0 < 9
    decreases |bs|
  {
    if bs == [] then (state, codep)
    else
      var (s, c) := DecodeOctet(state, codep, bs[0]);
      Run(s, c, bs[1..])
  }

  /** The code points the decoder holds each time it is back in ACCEPT. */
  function Decoded(state: nat, codep: codepoint, bs: seq<byte>): seq<codepoint>
    requires state < 9
    decreases |bs|
  {
    if bs == [] then []
    else
      var (s, c) := DecodeOctet(state, codep, bs[0]);
      (if s == ACCEPT then [c] else []) + Decoded(s, c, bs[1..])
  }

  /** The octets a state other than ACCEPT and REJECT admits, and the state they lead to. */
  function Low(s: nat): byte { if s == 4 then 0xA0 else if s == 6 then 0x90 else 0x80 }
  function High(s: nat): byte { if s == 5 then 0x9F else if s == 8 then 0x8F else 0xBF }
  function After(s: nat): nat { if s == 2 then ACCEPT else if s <= 5 then 2 else 3 }

  function Shifted(codep: codepoint, b: byte): codepoint { (b as codepoint & 0x3F) | (codep << 6) }

  predicate InRange(s: nat, b: byte) { 2 <= s < 9 && Low(s) <= b <= High(s) }

  /** A following octet. */
  lemma NextOctet(s: nat, codep: codepoint, b: byte)
    requires 2 <= s < 9
    ensures DecodeOctet(s, codep, b) ==
            (if InRange(s, b) then After(s) else REJECT, Shifted(codep, b))
  {
    hide DecodeOctet;
    ClassOfByte(b);
    DecodeSays(s, codep, b);
  }

  /** The state an initial octet leads to. */
  function Start(b: byte): nat {
    if b < 0x80 then ACCEPT
    else if b < 0xC2 then REJECT
    else if b < 0xE0 then 2
    else if b == 0xE0 then 4
    else if b == 0xED then 5
    else if b < 0xF0 then 3
    else if b == 0xF0 then 6
    else if b < 0xF4 then 7
    else if b == 0xF4 then 8
    else REJECT
  }

  /** The bits of the code point an initial octet carries. */
  function Bits(b: byte): codepoint {
    if b < 0x80 then b as codepoint
    else if b < 0xE0 then b as codepoint & 0x1F
    else if b < 0xF0 then b as codepoint & 0x0F
    else b as codepoint & 0x07
  }

  lemma FirstOctet(codep: codepoint, b: byte)
    ensures DecodeOctet(ACCEPT, codep, b).0 == Start(b)
    ensures Start(b) != REJECT ==> DecodeOctet(ACCEPT, codep, b).1 == Bits(b)
  {
    hide DecodeOctet;
    ClassOfByte(b);
    DecodeSays(ACCEPT, codep, b);
    FirstBits(b);
  }

  lemma FirstBits(b: byte)
    ensures Start(b) != REJECT ==> Joined(ACCEPT, Class(b as nat), 0, b) == Bits(b)
  {
    ClassOfByte(b);
  }

  // ----- one character, both ways

  /** The encoded characters of two, three and four octets are what the states admit, and spell the code point. */
  lemma TwoOctets(b0: byte, b1: byte)
    requires Start(b0) == 2 && InRange(2, b1)
    ensures var c := Shifted(Bits(b0), b1); Scalar(c) && Encode(c) == [b0, b1]
  {}

  lemma ThreeOctets(b0: byte, b1: byte, b2: byte)
    requires 3 <= Start(b0) <= 5 && InRange(Start(b0), b1) && InRange(2, b2)
    ensures var c := Shifted(Shifted(Bits(b0), b1), b2); Scalar(c) && Encode(c) == [b0, b1, b2]
  {}

  lemma FourOctets(b0: byte, b1: byte, b2: byte, b3: byte)
    requires 6 <= Start(b0) && InRange(Start(b0), b1) && InRange(3, b2) && InRange(2, b3)
    ensures var c := Shifted(Shifted(Shifted(Bits(b0), b1), b2), b3); Scalar(c) && Encode(c) == [b0, b1, b2, b3]
  {}

  lemma EncodedTwo(c: codepoint)
    requires 0x80 <= c < 0x800
    ensures var e := Encode(c); |e| == 2 && Start(e[0]) == 2 && InRange(2, e[1]) && Shifted(Bits(e[0]), e[1]) == c
  {}

  function Push(codep: codepoint, x: codepoint): codepoint { x | (codep << 6) }

  /** A following octet carries six bits. */
  lemma FollowBits(codep: codepoint, x: codepoint)
    requires x <= 0x3F
    ensures Shifted(codep, Follow(x)) == Push(codep, x)
  {}

  lemma HeadThree(x: codepoint)
    requires x <= 0xF
    ensures Start(Head3(x)) == (if x == 0 then 4 else if x == 0xD then 5 else 3) && Bits(Head3(x)) == x
  {}

  lemma HeadFour(x: codepoint)
    requires x <= 4
    ensures Start(Head4(x)) == (if x == 0 then 6 else if x == 4 then 8 else 7) && Bits(Head4(x)) == x
  {}

  lemma FollowRange(s: nat, x: codepoint)
    requires x <= 0x3F && 2 <= s < 9
    requires (s == 4 ==> x >= 0x20) && (s == 5 ==> x <= 0x1F) && (s == 6 ==> x >= 0x10) && (s == 8 ==> x <= 0x0F)
    ensures InRange(s, Follow(x))
  {}

  lemma SixBitsAgain(c: codepoint)
    ensures c < 0x10000 ==> Push(Push(Top(c, 12), Six(c, 6)), Six(c, 0)) == c
    ensures c < 0x200000 ==> Push(Push(Push(Top(c, 18), Six(c, 12)), Six(c, 6)), Six(c, 0)) == c
  {}

  lemma RangeThree(c: codepoint)
    requires Scalar(c) && 0x800 <= c < 0x10000
    ensures Top(c, 12) <= 0xF
    ensures Top(c, 12) == 0 ==> Six(c, 6) >= 0x20
    ensures Top(c, 12) == 0xD ==> Six(c, 6) <= 0x1F
  {}

  lemma RangeFour(c: codepoint)
    requires 0x10000 <= c <= 0x10FFFF
    ensures Top(c, 18) <= 4
    ensures Top(c, 18) == 0 ==> Six(c, 12) >= 0x10
    ensures Top(c, 18) == 4 ==> Six(c, 12) <= 0x0F
  {}

  lemma EncodedThree(c: codepoint)
    requires Scalar(c) && 0x800 <= c < 0x10000
    ensures var e := Encode(c);
            && |e| == 3 && 3 <= Start(e[0]) <= 5 && InRange(Start(e[0]), e[1]) && InRange(2, e[2])
            && Shifted(Shifted(Bits(e[0]), e[1]), e[2]) == c
  {
    RangeThree(c);
    ThreeParts(Top(c, 12), Six(c, 6), Six(c, 0));
    SixBitsAgain(c);
  }

  lemma ThreeParts(x: codepoint, y: codepoint, z: codepoint)
    requires x <= 0xF && y <= 0x3F && z <= 0x3F
    requires (x == 0 ==> y >= 0x20) && (x == 0xD ==> y <= 0x1F)
    ensures var (b0, b1, b2) := (Head3(x), Follow(y), Follow(z));
            && 3 <= Start(b0) <= 5 && InRange(Start(b0), b1) && InRange(2, b2)
            && Shifted(Shifted(Bits(b0), b1), b2) == Push(Push(x, y), z)
  {
    hide Start, Bits, InRange, Shifted, Push, Head3, Follow;
    HeadThree(x);
    FollowRange(Start(Head3(x)), y);
    FollowRange(2, z);
    FollowBits(x, y);
    FollowBits(Push(x, y), z);
  }

  lemma EncodedFour(c: codepoint)
    requires Scalar(c) && 0x10000 <= c
    ensures var e := Encode(c);
            && |e| == 4 && 6 <= Start(e[0]) && InRange(Start(e[0]), e[1]) && InRange(3, e[2]) && InRange(2, e[3])
            && Shifted(Shifted(Shifted(Bits(e[0]), e[1]), e[2]), e[3]) == c
  {
    hide Shifted, Start, InRange;
    RangeFour(c);
    FourParts(Top(c, 18), Six(c, 12), Six(c, 6), Six(c, 0));
    SixBitsAgain(c);
  }

  lemma FourParts(w: codepoint, x: codepoint, y: codepoint, z: codepoint)
    requires w <= 4 && x <= 0x3F && y <= 0x3F && z <= 0x3F
    requires (w == 0 ==> x >= 0x10) && (w == 4 ==> x <= 0x0F)
    ensures var (b0, b1, b2, b3) := (Head4(w), Follow(x), Follow(y), Follow(z));
            && 6 <= Start(b0) && InRange(Start(b0), b1) && InRange(3, b2) && InRange(2, b3)
            && Shifted(Shifted(Shifted(Bits(b0), b1), b2), b3) == Push(Push(Push(w, x), y), z)
  {
    hide Start, Bits, InRange, Shifted, Push, Head4, Follow;
    HeadFour(w);
    FollowRange(Start(Head4(w)), x);
    FollowRange(3, y);
    FollowRange(2, z);
    FollowBits(w, x);
    FollowBits(Push(w, x), y);
    FollowBits(Push(Push(w, x), y), z);
  }

  // ----- strings

  /** The decoder over a whole character, from ACCEPT. */
  lemma CharDecodes(c: codepoint, codep: codepoint, rest: seq<byte>)
    requires Scalar(c)
    ensures Run(ACCEPT, codep, Encode(c) + rest) == Run(ACCEPT, c, rest)
    ensures Decoded(ACCEPT, codep, Encode(c) + rest) == [c] + Decoded(ACCEPT, c, rest)
  {
    hide DecodeOctet, Encode, Start, InRange, Bits, Shifted;
    var e := Encode(c);
    var s := e + rest;
    FirstOctet(codep, e[0]);
    if c < 0x80 {
      OneOctet(c);
      RunStep(ACCEPT, codep, s);
      assert s[1..] == rest;
    } else if c < 0x800 {
      EncodedTwo(c);
      Tail2(2, Bits(e[0]), e[1], rest);
      RunStep(ACCEPT, codep, s);
      assert s[1..] == [e[1]] + rest;
    } else if c < 0x10000 {
      EncodedThree(c);
      Tail3(Start(e[0]), Bits(e[0]), e[1], e[2], rest);
      RunStep(ACCEPT, codep, s);
      assert s[1..] == [e[1], e[2]] + rest;
    } else {
      EncodedFour(c);
      Tail4(Start(e[0]), Bits(e[0]), e[1], e[2], e[3], rest);
      RunStep(ACCEPT, codep, s);
      assert s[1..] == [e[1], e[2], e[3]] + rest;
    }
  }

  lemma OneOctet(c: codepoint)
    requires c < 0x80
    ensures Encode(c) == [c as byte] && Start(c as byte) == ACCEPT && Bits(c as byte) == c
  {}

  lemma RunStep(state: nat, codep: codepoint, bs: seq<byte>)
    requires state < 9 && bs != []
    ensures var (s, c) := DecodeOctet(state, codep, bs[0]);
            && Run(state, codep, bs) == Run(s, c, bs[1..])
            && Decoded(state, codep, bs) == (if s == ACCEPT then [c] else []) + Decoded(s, c, bs[1..])
  {}

  /** The last following octet. */
  lemma Tail2(s: nat, codep: codepoint, b: byte, rest: seq<byte>)
    requires s == 2 && InRange(s, b)
    ensures var c := Shifted(codep, b); var bs := [b] + rest;
            Run(s, codep, bs) == Run(ACCEPT, c, rest) && Decoded(s, codep, bs) == [c] + Decoded(ACCEPT, c, rest)
  {
    hide DecodeOctet, InRange, Shifted;
    NextOctet(s, codep, b);
    RunStep(s, codep, [b] + rest);
    assert ([b] + rest)[1..] == rest;
  }

  /** The last two. */
  lemma Tail3(s: nat, codep: codepoint, b: byte, b2: byte, rest: seq<byte>)
    requires 3 <= s <= 5 && InRange(s, b) && InRange(2, b2)
    ensures var c := Shifted(Shifted(codep, b), b2); var bs := [b, b2] + rest;
            Run(s, codep, bs) == Run(ACCEPT, c, rest) && Decoded(s, codep, bs) == [c] + Decoded(ACCEPT, c, rest)
  {
    hide DecodeOctet, InRange, Shifted;
    NextOctet(s, codep, b);
    RunStep(s, codep, [b, b2] + rest);
    assert ([b, b2] + rest)[1..] == [b2] + rest;
    Tail2(2, Shifted(codep, b), b2, rest);
  }

  /** All three. */
  lemma Tail4(s: nat, codep: codepoint, b: byte, b2: byte, b3: byte, rest: seq<byte>)
    requires 6 <= s < 9 && InRange(s, b) && InRange(3, b2) && InRange(2, b3)
    ensures var c := Shifted(Shifted(Shifted(codep, b), b2), b3); var bs := [b, b2, b3] + rest;
            Run(s, codep, bs) == Run(ACCEPT, c, rest) && Decoded(s, codep, bs) == [c] + Decoded(ACCEPT, c, rest)
  {
    hide DecodeOctet, InRange, Shifted;
    NextOctet(s, codep, b);
    RunStep(s, codep, [b, b2, b3] + rest);
    assert ([b, b2, b3] + rest)[1..] == [b2, b3] + rest;
    Tail3(3, Shifted(codep, b), b2, b3, rest);
  }

  /** REJECT is absorbing. */
  lemma {:induction false} RejectStays(codep: codepoint, bs: seq<byte>)
    ensures Run(REJECT, codep, bs).0 == REJECT
    decreases |bs|
  {
    if bs != [] {
      DecodeSays(REJECT, codep, bs[0]);
      RejectStays(DecodeOctet(REJECT, codep, bs[0]).1, bs[1..]);
    }
  }

  /** Encoded text is accepted, and each return to ACCEPT leaves the code point of the next character. */
  lemma {:induction false} AcceptsEncoded(cs: seq<codepoint>, codep: codepoint)
    requires forall c | c in cs :: Scalar(c)
    ensures Run(ACCEPT, codep, EncodeAll(cs)).0 == ACCEPT
    ensures Decoded(ACCEPT, codep, EncodeAll(cs)) == cs
    decreases |cs|
  {
    if cs != [] {
      assert cs[0] in cs;
      CharDecodes(cs[0], codep, EncodeAll(cs[1..]));
      AcceptsEncoded(cs[1..], cs[0]);
    }
  }

  /** To get back to ACCEPT a pending state needs an octet in its range. */
  lemma NeedsOctet(s: nat, codep: codepoint, bs: seq<byte>)
    requires 2 <= s < 9 && Run(s, codep, bs).0 == ACCEPT
    ensures bs != [] && InRange(s, bs[0])
    ensures Run(After(s), Shifted(codep, bs[0]), bs[1..]).0 == ACCEPT
  {
    hide DecodeOctet, InRange, Shifted;
    if bs != [] {
      NextOctet(s, codep, bs[0]);
      RunStep(s, codep, bs);
      if !InRange(s, bs[0]) {
        RejectStays(DecodeOctet(s, codep, bs[0]).1, bs[1..]);
      }
    }
  }

  /** Accepted bytes start with an encoded character. */
  lemma StartsWithChar(codep: codepoint, bs: seq<byte>) returns (c: codepoint)
    requires bs != [] && Run(ACCEPT, codep, bs).0 == ACCEPT
    ensures Scalar(c) && Encode(c) <= bs
  {
    hide DecodeOctet, Shifted, InRange, Bits, Encode;
    var b := bs[0];
    FirstOctet(codep, b);
    RunStep(ACCEPT, codep, bs);
    c := DecodeOctet(ACCEPT, codep, b).1;
    if Start(b) == ACCEPT {
      c := OneByteChar(b);
    } else if Start(b) == REJECT {
      RejectStays(c, bs[1..]);
    } else {
      var s := Start(b);
      NeedsOctet(s, c, bs[1..]);
      c := Shifted(c, bs[1]);
      assert bs[1..][1..] == bs[2..];
      if s == 2 {
        TwoOctets(b, bs[1]);
        assert bs[..2] == [b, bs[1]];
      } else if s <= 5 {
        NeedsOctet(2, c, bs[2..]);
        ThreeOctets(b, bs[1], bs[2]);
        c := Shifted(c, bs[2]);
        assert bs[..3] == [b, bs[1], bs[2]];
      } else {
        NeedsOctet(3, c, bs[2..]);
        assert bs[2..][1..] == bs[3..];
        NeedsOctet(2, Shifted(c, bs[2]), bs[3..]);
        FourOctets(b, bs[1], bs[2], bs[3]);
        c := Shifted(Shifted(c, bs[2]), bs[3]);
        assert bs[..4] == [b, bs[1], bs[2], bs[3]];
      }
    }
  }

  lemma OneByteChar(b: byte) returns (c: codepoint)
    requires Start(b) == ACCEPT
    ensures Scalar(c) && Encode(c) == [b]
  {
    c := b as codepoint;
    assert b < 0x80;
  }

  /** What is accepted is the encoding of the code points the decoder held. */
  lemma {:induction false} AcceptedIsEncoded(codep: codepoint, bs: seq<byte>)
    requires Run(ACCEPT, codep, bs).0 == ACCEPT
    ensures var cs := Decoded(ACCEPT, codep, bs); (forall c | c in cs :: Scalar(c)) && EncodeAll(cs) == bs
    decreases |bs|
  {
    hide DecodeOctet, Encode;
    if bs != [] {
      var c := StartsWithChar(codep, bs);
      var rest := bs[|Encode(c)|..];
      assert bs == Encode(c) + rest;
      CharDecodes(c, codep, rest);
      AcceptedIsEncoded(c, rest);
    }
  }

  /**
   * The validator accepts a byte string exactly when it is a concatenation of well-formed characters, and
   * then the code points it went through are theirs.
   */
  lemma AcceptsExactlyUtf8(bs: seq<byte>)
    ensures Run(ACCEPT, 0, bs).0 == ACCEPT <==> exists cs :: IsEncodingOf(bs, cs)
    ensures forall cs :: IsEncodingOf(bs, cs) ==> Decoded(ACCEPT, 0, bs) == cs
  {
    if Run(ACCEPT, 0, bs).0 == ACCEPT {
      AcceptedIsEncoded(0, bs);
      assert IsEncodingOf(bs, Decoded(ACCEPT, 0, bs));
    }
    forall cs | IsEncodingOf(bs, cs) ensures Run(ACCEPT, 0, bs).0 == ACCEPT && Decoded(ACCEPT, 0, bs) == cs {
      AcceptsEncoded(cs, 0);
    }
  }

  ghost predicate IsEncodingOf(bs: seq<byte>, cs: seq<codepoint>) {
    (forall c | c in cs :: Scalar(c)) && bs == EncodeAll(cs)
  }

  // ----- the class

  lemma RunNothing(bs: seq<byte>)
    ensures forall state: nat, codep: codepoint | state < 9 :: Run(state, codep, bs[|bs|..]) == (state, codep)
  {}

  class Validator {
    var state: nat
    var codepoint: codepoint

    ghost predicate Valid() reads this { state < 9 }

    constructor ()
      ensures Valid() && state == ACCEPT && codepoint == 0
    {
      state, codepoint := ACCEPT, 0;
    }

    method Consume(b: byte) returns (ok: bool)
      requires Valid()
      modifies this
      ensures Valid() && (state, codepoint) == DecodeOctet(old(state), old(codepoint), b)
      ensures ok <==> state != REJECT
    {
      var (s, c) := DecodeOctet(state, codepoint, b);
      state, codepoint := s, c;
      ok := state != REJECT;
    }

    /**
     * Validates a range, giving up at the first octet that leads to REJECT. A validator that is in REJECT before
     * the call refuses everything but the empty range.
     */
    method Decode(bs: seq<byte>) returns (ok: bool)
      requires Valid()
      modifies this
      ensures Valid()
      ensures ok <==> bs == [] || Run(old(state), old(codepoint), bs).0 != REJECT
      ensures ok ==> (state, codepoint) == Run(old(state), old(codepoint), bs)
      ensures !ok ==> state == REJECT
    {
      hide Run, Decoded, DecodeOctet;
      ok := true;
      assert bs[0..] == bs;
      RunNothing(bs);
      for i := 0 to |bs|
        invariant Valid() && (i == 0 || state != REJECT) && ok
        invariant Run(old(state), old(codepoint), bs) == Run(state, codepoint, bs[i..])
      {
        assert bs[i..][1..] == bs[i + 1..];
        RunStep(state, codepoint, bs[i..]);
        ok := Consume(bs[i]);
        if !ok {
          RejectStays(codepoint, bs[i + 1..]);
          return;
        }
      }
    }

    function Complete(): (r: bool) reads this { state == ACCEPT }

    method Reset()
      modifies this
      ensures Valid() && state == ACCEPT && codepoint == 0
    {
      state, codepoint := ACCEPT, 0;
    }
  }

  /** `validate`: true exactly for well-formed UTF-8. */
  method Validate(s: seq<byte>) returns (ok: bool)
    ensures ok <==> exists cs :: IsEncodingOf(s, cs)
  {
    var v := new Validator();
    ok := v.Decode(s);
    AcceptsExactlyUtf8(s);
    if ok {
      ok := v.Complete();
    }
  }
}
