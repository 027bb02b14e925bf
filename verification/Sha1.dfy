/** SHA-1: the definition of FIPS PUB 180-1, and the streaming class of samples/sha1.cpp that refines it. */
module Sha1 {
  import opened Bytes
  import opened Lists
  import opened Words

  // ----- FIPS PUB 180-1

  datatype Digest = Digest(a: word, b: word, c: word, d: word, e: word)

  const INITIAL: Digest := Digest(0x67452301, 0xEFCDAB89, 0x98BADCFE, 0x10325476, 0xC3D2E1F0)

  /** The functions of section 5. */
  function F(t: nat, b: word, c: word, d: word): word {
    if t < 20 then Choose(b, c, d)
    else if t < 40 then Parity(b, c, d)
    else if t < 60 then Majority(b, c, d)
    else Parity(b, c, d)
  }

  /** The constants of section 6. */
  function K(t: nat): word {
    if t < 20 then 0x5A827999 else if t < 40 then 0x6ED9EBA1 else if t < 60 then 0x8F1BBCDC else 0xCA62C1D6
  }

  /** The constants are the square roots of 2, 3, 5 and 10, times 2^30, rounded down. */
  lemma RootsOf(t: nat)
    requires t < 80
    ensures var k := K(t) as nat; var n := if t < 20 then 2 else if t < 40 then 3 else if t < 60 then 5 else 10;
            k * k <= n * 0x1000_0000_0000_0000 < (k + 1) * (k + 1)
  {
    if t < 20 {
      assert K(t) as nat == 0x5A827999;
    } else if t < 40 {
      assert K(t) as nat == 0x6ED9EBA1;
    } else if t < 60 {
      assert K(t) as nat == 0x8F1BBCDC;
    } else {
      assert K(t) as nat == 0xCA62C1D6;
    }
  }

  function WordAt(block: seq<byte>, i: nat): word
    requires i + 4 <= |block|
  {
    Joined(block[i], block[i + 1], block[i + 2], block[i + 3])
  }

  /** A word of a block is four octets in network byte order. */
  lemma WordIsBE(block: seq<byte>, i: nat)
    requires i + 4 <= |block|
    ensures Number(WordAt(block, i)) == FromBE(block[i..i + 4])
  {
    hide *;
    WordJoins(block, i);
    FourAre(block[i..i + 4]);
    JoinedValue(block[i], block[i + 1], block[i + 2], block[i + 3]);
  }

  lemma WordJoins(block: seq<byte>, i: nat)
    requires i + 4 <= |block|
    ensures WordAt(block, i) == Joined(block[i], block[i + 1], block[i + 2], block[i + 3])
  {
    hide Joined;
  }

  lemma FourAre(s: seq<byte>)
    requires |s| == 4
    ensures FromBE(s) == Value(s[0], s[1], s[2], s[3])
  {
    hide FromBE;
    FourMore([], s);
    assert [] + s == s;
    NoOctets();
  }

  lemma NoOctets()
    ensures FromBE([]) == 0
  {}

  /** The message schedule of section 7, steps a and b. */
  function W(block: seq<byte>, t: nat): word
    requires |block| == 64
  {
    if t < 16 then WordAt(block, 4 * t)
    else Rotate(1, Mix(W(block, t - 3), W(block, t - 8), W(block, t - 14), W(block, t - 16)))
  }

  function Round(t: nat, s: Digest, w: word): Digest {
    var temp := Plus(Plus(Plus(Plus(Rotate(5, s.a), F(t, s.b, s.c, s.d)), s.e), w), K(t));
    Digest(temp, s.a, Rotate(30, s.b), s.c, s.d)
  }

  /** The state after `t` rounds of step d. */
  function Rounds(s: Digest, block: seq<byte>, t: nat): Digest
    requires |block| == 64
  {
    if t == 0 then s else Round(t - 1, Rounds(s, block, t - 1), W(block, t - 1))
  }

  function Compress(h: Digest, block: seq<byte>): Digest
    requires |block| == 64
  {
    var s := Rounds(h, block, 80);
    Digest(Plus(h.a, s.a), Plus(h.b, s.b), Plus(h.c, s.c), Plus(h.d, s.d), Plus(h.e, s.e))
  }

  function Fold(h: Digest, data: seq<byte>): Digest
    requires |data| % 64 == 0
    decreases |data|
  {
    if data == [] then h else Fold(Compress(h, data[..64]), data[64..])
  }

  /** Section 4: a one bit, as few zeros as complete a block, and the length in bits. */
  function Padded(msg: seq<byte>): (r: seq<byte>)
    ensures |r| % 64 == 0
  {
    msg + [0x80] + Zeros(Fill(|msg|)) + ToBE(8 * |msg|, 8)
  }

  /** The number of zero octets: the least that leaves eight octets to complete a block. */
  function Fill(length: nat): (k: nat)
    ensures k < 64 && (length + 1 + k + 8) % 64 == 0
  {
    var n := length % 64;
    var k := if n <= 55 then 55 - n else 119 - n;
    assert length == 64 * (length / 64) + n;
    k
  }

  function Hash(msg: seq<byte>): Digest { Fold(INITIAL, Padded(msg)) }

  /** The low word of a count of whole octets. */
  lemma WholeOctets(high: nat, low: nat, octets: nat)
    requires high * 0x1_0000_0000 + low == 8 * octets
    ensures low % 8 == 0
  {}

  // ----- folding in pieces

  lemma {:induction false} FoldConcat(h: Digest, a: seq<byte>, b: seq<byte>)
    requires |a| % 64 == 0 && |b| % 64 == 0
    ensures Fold(h, a + b) == Fold(Fold(h, a), b)
    decreases |a|
  {
    if a == [] {
      assert a + b == b;
    } else {
      assert (a + b)[..64] == a[..64] && (a + b)[64..] == a[64..] + b;
      FoldConcat(Compress(h, a[..64]), a[64..], b);
    }
  }

  lemma FoldBlock(h: Digest, done: seq<byte>, block: seq<byte>)
    requires |done| % 64 == 0 && |block| == 64
    ensures Fold(h, done + block) == Compress(Fold(h, done), block)
  {
    FoldConcat(h, done, block);
    assert block[..64] == block && block[64..] == [];
  }

  lemma FoldNothing(h: Digest)
    ensures Fold(h, []) == h
  {}

  lemma OneBlock(h: Digest, block: seq<byte>)
    requires |block| == 64
    ensures Fold(h, block) == Compress(h, block)
  {
    assert block[..64] == block && block[64..] == [];
  }

  lemma TwoBlocks(h: Digest, first: seq<byte>, second: seq<byte>)
    requires |first| == 64 && |second| == 64
    ensures Fold(h, first + second) == Compress(Compress(h, first), second)
  {
    FoldConcat(h, first, second);
    OneBlock(h, first);
    OneBlock(Compress(h, first), second);
  }

  // ----- the length field

  const WORD: nat := 0x1_0000_0000

  /** The eight length octets, written from the two halves of the bit count. */
  function LengthOctets(high: nat, low: nat): (r: seq<byte>)
    ensures |r| == 8
  {
    [ToByte(high / 0x1000000), ToByte(high / 0x10000), ToByte(high / 0x100), ToByte(high),
     ToByte(low / 0x1000000), ToByte(low / 0x10000), ToByte(low / 0x100), ToByte(low)]
  }

  lemma FourOctets(n: nat)
    ensures ToBE(n, 4) == [ToByte(n / 0x1000000), ToByte(n / 0x10000), ToByte(n / 0x100), ToByte(n)]
  {
    LowFour(n, 0);
    assert ToBE(n / 0x1_0000_0000, 0) == [];
  }

  lemma LastOctet(n: nat, k: nat)
    ensures ToBE(n, k + 1) == ToBE(n / 0x100, k) + [ToByte(n)]
  {}

  lemma LowFour(n: nat, k: nat)
    ensures ToBE(n, k + 4) == ToBE(n / 0x1_0000_0000, k)
              + [ToByte(n / 0x1000000), ToByte(n / 0x10000), ToByte(n / 0x100), ToByte(n)]
  {
    hide ToByte, ToBE;
    LastOctet(n, k + 3);
    LastOctet(n / 0x100, k + 2);
    assert n / 0x100 / 0x100 == n / 0x10000;
    LastOctet(n / 0x10000, k + 1);
    assert n / 0x10000 / 0x100 == n / 0x1000000;
    LastOctet(n / 0x1000000, k);
    assert n / 0x1000000 / 0x100 == n / 0x1_0000_0000;
  }

  /** A multiple of 256 does not reach the low octet. */
  lemma LowOctet(k: nat, y: nat)
    ensures ToByte(256 * k + y) == ToByte(y)
  {
    assert (256 * k + y) % 256 == y % 256;
  }

  // A multiple of the divisor can be taken out of a division.

  lemma Out24(high: nat, low: nat)
    ensures (high * 0x1_0000_0000 + low) / 0x1000000 == 256 * high + low / 0x1000000
  {}

  lemma Out16(high: nat, low: nat)
    ensures (high * 0x1_0000_0000 + low) / 0x10000 == 256 * (0x100 * high) + low / 0x10000
  {}

  lemma Out8(high: nat, low: nat)
    ensures (high * 0x1_0000_0000 + low) / 0x100 == 256 * (0x10000 * high) + low / 0x100
  {}

  lemma LowHalf(high: nat, low: nat)
    ensures var n := high * 0x1_0000_0000 + low;
            && ToByte(n / 0x1000000) == ToByte(low / 0x1000000) && ToByte(n / 0x10000) == ToByte(low / 0x10000)
            && ToByte(n / 0x100) == ToByte(low / 0x100) && ToByte(n) == ToByte(low)
  {
    hide ToByte;
    var n := high * 0x1_0000_0000 + low;
    assert ToByte(n / 0x1000000) == ToByte(low / 0x1000000) by {
      Out24(high, low);
      LowOctet(high, low / 0x1000000);
    }
    assert ToByte(n / 0x10000) == ToByte(low / 0x10000) by {
      Out16(high, low);
      LowOctet(0x100 * high, low / 0x10000);
    }
    assert ToByte(n / 0x100) == ToByte(low / 0x100) by {
      Out8(high, low);
      LowOctet(0x10000 * high, low / 0x100);
    }
    assert ToByte(n) == ToByte(low) by {
      LowOctet(0x1000000 * high, low);
    }
  }

  /** The two-word bit count is written as the 64-bit number it stands for. */
  lemma LengthOctetsAreBE(high: nat, low: nat)
    requires low < WORD
    ensures LengthOctets(high, low) == ToBE(high * 0x1_0000_0000 + low, 8)
  {
    hide ToByte, ToBE;
    var n := high * 0x1_0000_0000 + low;
    LowFour(n, 4);
    assert n / 0x1_0000_0000 == high;
    FourOctets(high);
    LowHalf(high, low);
  }

  // ----- the padding of a partly filled block

  const MAX_BITS: nat := 0x1_0000_0000_0000_0000

  /** The blocks that remain to be folded when `tail` is the unprocessed end of a message of `length` octets. */
  function LastBlocks(tail: seq<byte>, length: nat): seq<byte> {
    tail + [0x80] + Zeros(Fill(length)) + ToBE(8 * length, 8)
  }

  lemma HashFromTail(done: seq<byte>, tail: seq<byte>)
    requires |done| % 64 == 0 && |tail| < 64
    ensures |LastBlocks(tail, |done + tail|)| % 64 == 0
    ensures Hash(done + tail) == Fold(Fold(INITIAL, done), LastBlocks(tail, |done + tail|))
  {
    hide Compress, Fill, Fold, ToBE;
    var last := LastBlocks(tail, |done + tail|);
    assert Padded(done + tail) == done + last;
    assert |last| == |Padded(done + tail)| - |done|;
    FoldConcat(INITIAL, done, last);
  }

  /** Up to 55 octets in the last block leave room for the length; more need a second block. */
  lemma LastBlocksShape(tail: seq<byte>, length: nat)
    requires |tail| < 64 && length % 64 == |tail|
    ensures |tail| <= 55 ==>
              LastBlocks(tail, length) == tail + [0x80] + Zeros(55 - |tail|) + ToBE(8 * length, 8)
    ensures |tail| > 55 ==>
              LastBlocks(tail, length) == (tail + [0x80] + Zeros(63 - |tail|)) + (Zeros(56) + ToBE(8 * length, 8))
  {
    if |tail| > 55 {
      assert Zeros(119 - |tail|) == Zeros(63 - |tail|) + Zeros(56);
    }
  }

  // ----- the class

  class SHA1 {
    const h: array<word>
    const messageBlock: array<byte>
    var index: nat
    var lengthLow: nat
    var lengthHigh: nat
    var computed: bool
    var corrupted: bool
    /** Everything passed to `Input` since the last reset. */
    ghost var message: seq<byte>

    ghost function Digests(): Digest
      requires h.Length == 5
      reads h
    {
      Digest(h[0], h[1], h[2], h[3], h[4])
    }

    ghost predicate Shaped() reads this {
      && h.Length == 5 && messageBlock.Length == 64
      && index < 64 && lengthLow < WORD && lengthHigh < WORD
    }

    /** The two words count the bits; the full blocks are folded and the rest is in the block buffer. */
    ghost predicate Streaming()
      requires Shaped()
      reads this, h, messageBlock
    {
      var n := |message| - index;
      && n >= 0 && n % 64 == 0
      && lengthHigh * 0x1_0000_0000 + lengthLow == 8 * |message|
      && messageBlock[..index] == message[n..]
      && Digests() == Fold(INITIAL, message[..n])
    }

    ghost predicate Valid() reads this, h, messageBlock {
      && Shaped()
      && (!corrupted ==> 8 * |message| < MAX_BITS)
      && (!corrupted && !computed ==> Streaming())
      && (!corrupted && computed ==> Digests() == Hash(message))
    }

    constructor ()
      ensures Valid() && message == [] && !computed && !corrupted
      ensures fresh(h) && fresh(messageBlock)
    {
      h := new word[5](_ => 0);
      messageBlock := new byte[64](_ => 0);
      index, lengthLow, lengthHigh, computed, corrupted, message := 0, 0, 0, false, false, [];
      new;
      Reset();
    }

    method Reset()
      requires h.Length == 5 && messageBlock.Length == 64
      modifies this, h
      ensures Valid() && message == [] && !computed && !corrupted
    {
      hide Compress, Hash, Fold;
      h[0], h[1], h[2], h[3], h[4] := 0x67452301, 0xEFCDAB89, 0x98BADCFE, 0x10325476, 0xC3D2E1F0;
      assert Digests() == INITIAL;
      ClearCounts();
    }

    /** The part of `Reset` that is not about the digest words. */
    method ClearCounts()
      requires h.Length == 5 && messageBlock.Length == 64 && Digests() == INITIAL
      modifies this
      ensures Valid() && message == [] && !computed && !corrupted
    {
      hide Compress, Hash, Fold;
      FoldNothing(INITIAL);
      lengthLow, lengthHigh, index := 0, 0, 0;
      computed, corrupted := false, false;
      message := [];
      assert messageBlock[..0] == [] && message[..0] == [] && message[0..] == [];
    }

    method Assemble(t: nat) returns (x: word)
      requires messageBlock.Length == 64 && t < 16
      ensures x == WordAt(messageBlock[..], 4 * t)
    {
      x := messageBlock[t * 4] as word << 24;
      x := x | (messageBlock[t * 4 + 1] as word << 16);
      x := x | (messageBlock[t * 4 + 2] as word << 8);
      x := x | (messageBlock[t * 4 + 3] as word);
    }

    /** Expands the block buffer into the eighty words of the schedule. */
    method Expand() returns (w: array<word>)
      requires messageBlock.Length == 64
      ensures fresh(w) && w.Length == 80 && forall t | 0 <= t < 80 :: w[t] == W(messageBlock[..], t)
    {
      hide Rotate, Mix, WordAt, Joined;
      ghost var block := messageBlock[..];
      w := new word[80];
      for t := 0 to 16
        invariant forall i | 0 <= i < t :: w[i] == W(block, i)
      {
        w[t] := Assemble(t);
      }
      for t := 16 to 80
        invariant forall i | 0 <= i < t :: w[i] == W(block, i)
      {
        w[t] := Rotate(1, Mix(w[t - 3], w[t - 8], w[t - 14], w[t - 16]));
      }
    }

    // The eighty rounds, twenty with each function and constant.

    method FirstRounds(w: array<word>, s: Digest, ghost start: Digest, ghost block: seq<byte>) returns (r: Digest)
      requires |block| == 64 && w.Length == 80 && forall t | 0 <= t < 80 :: w[t] == W(block, t)
      requires s == Rounds(start, block, 0)
      ensures r == Rounds(start, block, 20)
    {
      hide Rotate, W, Plus, Choose, Parity, Majority;
      var Digest(a, b, c, d, e) := s;
      for t := 0 to 20
        invariant Digest(a, b, c, d, e) == Rounds(start, block, t)
      {
        var temp := Plus(Plus(Plus(Plus(Rotate(5, a), Choose(b, c, d)), e), w[t]), 0x5A827999);
        e, d, c, b, a := d, c, Rotate(30, b), a, temp;
      }
      r := Digest(a, b, c, d, e);
    }

    method SecondRounds(w: array<word>, s: Digest, ghost start: Digest, ghost block: seq<byte>) returns (r: Digest)
      requires |block| == 64 && w.Length == 80 && forall t | 0 <= t < 80 :: w[t] == W(block, t)
      requires s == Rounds(start, block, 20)
      ensures r == Rounds(start, block, 40)
    {
      hide Rotate, W, Plus, Choose, Parity, Majority;
      var Digest(a, b, c, d, e) := s;
      for t := 20 to 40
        invariant Digest(a, b, c, d, e) == Rounds(start, block, t)
      {
        var temp := Plus(Plus(Plus(Plus(Rotate(5, a), Parity(b, c, d)), e), w[t]), 0x6ED9EBA1);
        e, d, c, b, a := d, c, Rotate(30, b), a, temp;
      }
      r := Digest(a, b, c, d, e);
    }

    method ThirdRounds(w: array<word>, s: Digest, ghost start: Digest, ghost block: seq<byte>) returns (r: Digest)
      requires |block| == 64 && w.Length == 80 && forall t | 0 <= t < 80 :: w[t] == W(block, t)
      requires s == Rounds(start, block, 40)
      ensures r == Rounds(start, block, 60)
    {
      hide Rotate, W, Plus, Choose, Parity, Majority;
      var Digest(a, b, c, d, e) := s;
      for t := 40 to 60
        invariant Digest(a, b, c, d, e) == Rounds(start, block, t)
      {
        var temp := Plus(Plus(Plus(Plus(Rotate(5, a), Majority(b, c, d)), e), w[t]), 0x8F1BBCDC);
        e, d, c, b, a := d, c, Rotate(30, b), a, temp;
      }
      r := Digest(a, b, c, d, e);
    }

    method FourthRounds(w: array<word>, s: Digest, ghost start: Digest, ghost block: seq<byte>) returns (r: Digest)
      requires |block| == 64 && w.Length == 80 && forall t | 0 <= t < 80 :: w[t] == W(block, t)
      requires s == Rounds(start, block, 60)
      ensures r == Rounds(start, block, 80)
    {
      hide Rotate, W, Plus, Choose, Parity, Majority;
      var Digest(a, b, c, d, e) := s;
      for t := 60 to 80
        invariant Digest(a, b, c, d, e) == Rounds(start, block, t)
      {
        var temp := Plus(Plus(Plus(Plus(Rotate(5, a), Parity(b, c, d)), e), w[t]), 0xCA62C1D6);
        e, d, c, b, a := d, c, Rotate(30, b), a, temp;
      }
      r := Digest(a, b, c, d, e);
    }

    method ProcessMessageBlock()
      requires h.Length == 5 && messageBlock.Length == 64
      modifies h, this`index
      ensures Digests() == Compress(old(Digests()), messageBlock[..])
      ensures index == 0
    {
      hide W, Round, Plus;
      ghost var start, block := Digests(), messageBlock[..];
      var w := Expand();
      var s := Digest(h[0], h[1], h[2], h[3], h[4]);
      s := FirstRounds(w, s, start, block);
      s := SecondRounds(w, s, start, block);
      s := ThirdRounds(w, s, start, block);
      s := FourthRounds(w, s, start, block);
      h[0], h[1], h[2], h[3], h[4] := 
        Plus(h[0], s.a), Plus(h[1], s.b), Plus(h[2], s.c), Plus(h[3], s.d), Plus(h[4], s.e);
      index := 0;
    }

    /** Folds in the block that the last octet has filled. */
    method TakeBlock()
      requires h.Length == 5 && messageBlock.Length == 64
      requires |message| >= 64 && |message| % 64 == 0
      requires messageBlock[..] == message[|message| - 64..]
      requires Digests() == Fold(INITIAL, message[..|message| - 64])
      modifies h, this`index
      ensures index == 0 && Digests() == Fold(INITIAL, message)
    {
      hide Compress;
      var n := |message| - 64;
      assert message == message[..n] + messageBlock[..];
      FoldBlock(INITIAL, message[..n], messageBlock[..]);
      ProcessMessageBlock();
    }

    /** Counts eight more bits; the count wraps at 2^64, which corrupts the digest. */
    method CountOctet()
      requires lengthLow < WORD && lengthHigh < WORD && !corrupted && lengthLow % 8 == 0
      modifies this`lengthLow, this`lengthHigh, this`corrupted
      ensures lengthLow < WORD && lengthHigh < WORD && lengthLow % 8 == 0
      ensures var bits := old(lengthHigh * 0x1_0000_0000 + lengthLow) + 8;
              && (corrupted <==> bits >= MAX_BITS)
              && (!corrupted ==> lengthHigh * 0x1_0000_0000 + lengthLow == bits)
    {
      lengthLow := (lengthLow + 8) % 0x1_0000_0000;
      if lengthLow == 0 {
        lengthHigh := (lengthHigh + 1) % 0x1_0000_0000;
        if lengthHigh == 0 {
          corrupted := true;
        }
      }
    }

    /** Puts one octet into the block buffer. */
    method StoreOctet(octet: byte)
      requires Shaped() && Streaming()
      modifies this`index, this`message, messageBlock
      ensures index == old(index) + 1 && message == old(message) + [octet]
      ensures var n := |message| - index;
              && n >= 0 && n % 64 == 0 && messageBlock[..index] == message[n..]
              && Digests() == Fold(INITIAL, message[..n])
    {
      hide Compress, Fold;
      ghost var n := |message| - index;
      messageBlock[index] := octet;
      index := index + 1;
      message := message + [octet];
      assert messageBlock[..index] == message[n..];
      assert message[..n] == old(message)[..n];
    }

    /** Takes in one octet. */
    method InputOctet(octet: byte)
      requires Valid() && !computed && !corrupted
      modifies this, h, messageBlock
      ensures Valid() && !computed && message == old(message) + [octet]
      ensures corrupted <==> 8 * |message| >= MAX_BITS
    {
      hide Compress, Hash, Fold;
      WholeOctets(lengthHigh, lengthLow, |message|);
      StoreOctet(octet);
      CountOctet();
      FlushFull();
    }

    /** Folds in the block buffer if it is full. */
    method FlushFull()
      requires h.Length == 5 && messageBlock.Length == 64 && 0 < index <= 64
      requires var n := |message| - index;
               && n >= 0 && n % 64 == 0 && messageBlock[..index] == message[n..]
               && Digests() == Fold(INITIAL, message[..n])
      modifies h, this`index
      ensures index < 64
      ensures var n := |message| - index;
              && n >= 0 && n % 64 == 0 && messageBlock[..index] == message[n..]
              && Digests() == Fold(INITIAL, message[..n])
    {
      hide Compress, Fold;
      if index == 64 {
        assert messageBlock[..64] == messageBlock[..];
        TakeBlock();
        assert messageBlock[..0] == [] && message[..|message|] == message;
      }
    }

    /** Appends to the message. Input after the digest was computed, or beyond 2^64 bits, corrupts it. */
    method Input(data: seq<byte>)
      requires Valid()
      modifies this, h, messageBlock
      ensures Valid() && computed == old(computed)
      ensures data == [] ==> corrupted == old(corrupted) && message == old(message)
      ensures data != [] ==>
                (corrupted <==> old(computed) || old(corrupted) || 8 * |old(message) + data| >= MAX_BITS)
      ensures !corrupted ==> message == old(message) + data
    {
      if data == [] {
        return;
      }
      if computed || corrupted {
        corrupted := true;
        return;
      }
      var i := 0;
      while i < |data| && !corrupted
        invariant i <= |data| && Valid() && !computed
        invariant message == old(message) + data[..i]
        invariant corrupted <==> 8 * |message| >= MAX_BITS
      {
        InputOctet(data[i]);
        i := i + 1;
        assert data[..i] == data[..i - 1] + [data[i - 1]];
      }
    }

    method FillZeros(limit: nat)
      requires messageBlock.Length == 64 && index <= limit <= 64
      modifies messageBlock, this`index
      ensures index == limit
      ensures messageBlock[..limit] == old(messageBlock[..index]) + Zeros(limit - old(index))
    {
      while index < limit
        invariant old(index) <= index <= limit
        invariant messageBlock[..index] == old(messageBlock[..index]) + Zeros(index - old(index))
      {
        messageBlock[index] := 0;
        index := index + 1;
      }
    }

    method StoreLength()
      requires messageBlock.Length == 64
      modifies messageBlock
      ensures messageBlock[..56] == old(messageBlock[..56])
      ensures messageBlock[56..] == LengthOctets(lengthHigh, lengthLow)
    {
      messageBlock[56] := ToByte(lengthHigh / 0x1000000);
      messageBlock[57] := ToByte(lengthHigh / 0x10000);
      messageBlock[58] := ToByte(lengthHigh / 0x100);
      messageBlock[59] := ToByte(lengthHigh);
      messageBlock[60] := ToByte(lengthLow / 0x1000000);
      messageBlock[61] := ToByte(lengthLow / 0x10000);
      messageBlock[62] := ToByte(lengthLow / 0x100);
      messageBlock[63] := ToByte(lengthLow);
    }

    /** The `0x80` octet, zeros up to `limit`: what both branches of `PadMessage` begin with. */
    method StartPadding(limit: nat)
      requires messageBlock.Length == 64 && index < limit <= 64
      modifies messageBlock, this`index
      ensures index == limit
      ensures messageBlock[..limit] == old(messageBlock[..index]) + [0x80] + Zeros(limit - 1 - old(index))
    {
      messageBlock[index] := 0x80;
      index := index + 1;
      assert messageBlock[..index] == old(messageBlock[..index]) + [0x80];
      FillZeros(limit);
    }

    /** More than 55 octets in the buffer: the padding spills into a second block. */
    method PadTwoBlocks(ghost tail: seq<byte>)
      requires h.Length == 5 && messageBlock.Length == 64
      requires 55 < index < 64 && messageBlock[..index] == tail
      modifies this`index, h, messageBlock
      ensures index == 0
      ensures Digests() == Fold(old(Digests()), (tail + [0x80] + Zeros(63 - |tail|))
                                                + (Zeros(56) + LengthOctets(lengthHigh, lengthLow)))
    {
      hide Compress, Zeros, LengthOctets;
      ghost var start := Digests();
      StartPadding(64);
      ghost var first := messageBlock[..];
      assert first == tail + [0x80] + Zeros(63 - |tail|) by { assert first == messageBlock[..64]; }
      ProcessMessageBlock();
      FillZeros(56);
      assert messageBlock[..56] == Zeros(56) by { assert messageBlock[..0] == []; }
      StoreLength();
      ghost var second := messageBlock[..];
      assert second == Zeros(56) + LengthOctets(lengthHigh, lengthLow) by {
        assert second == messageBlock[..56] + messageBlock[56..];
      }
      ProcessMessageBlock();
      TwoBlocks(start, first, second);
    }

    /** Up to 55 octets: the padding fits the block. */
    method PadOneBlock(ghost tail: seq<byte>)
      requires h.Length == 5 && messageBlock.Length == 64
      requires index <= 55 && messageBlock[..index] == tail
      modifies this`index, h, messageBlock
      ensures index == 0
      ensures Digests() == Fold(old(Digests()), tail + [0x80] + Zeros(55 - |tail|)
                                                + LengthOctets(lengthHigh, lengthLow))
    {
      hide Compress, Zeros, LengthOctets;
      ghost var start := Digests();
      StartPadding(56);
      StoreLength();
      ghost var last := messageBlock[..];
      assert last == tail + [0x80] + Zeros(55 - |tail|) + LengthOctets(lengthHigh, lengthLow) by {
        assert last == messageBlock[..56] + messageBlock[56..];
      }
      ProcessMessageBlock();
      OneBlock(start, last);
    }

    /** Pads the message and folds in the one or two blocks that remain. */
    method PadMessage()
      requires Valid() && !computed && !corrupted
      modifies this`index, h, messageBlock
      ensures index == 0 && Digests() == Hash(message)
    {
      hide Compress, Fold, Hash, Zeros, LengthOctets;
      ghost var n := |message| - index;
      ghost var tail := messageBlock[..index];
      assert message == message[..n] + tail;
      HashFromTail(message[..n], tail);
      LastBlocksShape(tail, |message|);
      LengthOctetsAreBE(lengthHigh, lengthLow);
      if index > 55 {
        PadTwoBlocks(tail);
      } else {
        PadOneBlock(tail);
      }
    }

    /**
     * The digest, unless the message was corrupted: the value FIPS PUB 180-1 defines for everything that
     * was passed to `Input`.
     */
    method Result() returns (ok: bool, digest: seq<word>)
      requires Valid()
      modifies this, h, messageBlock
      ensures Valid() && corrupted == old(corrupted) && message == old(message)
      ensures ok <==> !corrupted
      ensures ok ==> computed && var d := Hash(message); digest == [d.a, d.b, d.c, d.d, d.e]
    {
      hide Compress, Fold, Hash;
      if corrupted {
        return false, [];
      }
      if !computed {
        PadMessage();
        computed := true;
      }
      ok, digest := true, [];
      for i := 0 to 5
        invariant digest == h[..i]
      {
        digest := digest + [h[i]];
      }
    }
  }

  /** However a message below 2^64 bits is cut into pieces, the digest is the one of the whole message. */
  method DigestOfPieces(pieces: seq<seq<byte>>) returns (ok: bool, digest: seq<word>)
    ensures ok <==> 8 * |Concat(pieces)| < MAX_BITS
    ensures ok ==> var d := Hash(Concat(pieces)); digest == [d.a, d.b, d.c, d.d, d.e]
  {
    hide Hash, Fold, SHA1.Valid;
    var sha := new SHA1();
    for i := 0 to |pieces|
      invariant sha.Valid() && !sha.computed && fresh(sha) && fresh(sha.h) && fresh(sha.messageBlock)
      invariant !sha.corrupted ==> sha.message == Concat(pieces[..i])
      invariant sha.corrupted <==> 8 * |Concat(pieces[..i])| >= MAX_BITS
    {
      ConcatSnoc(pieces[..i], pieces[i]);
      assert pieces[..i + 1] == pieces[..i] + [pieces[i]];
      sha.Input(pieces[i]);
    }
    assert pieces[..|pieces|] == pieces;
    ok, digest := sha.Result();
  }
}
