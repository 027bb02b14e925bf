/** The 32-bit words of FIPS PUB 180-1: the operations on them, and what they are bit by bit and as numbers. */
module Words {
  import BitFacts

  type word = bv32
  type octet = bv8

  /** The circular left shift of section 3. */
  function Rotate(n: bv6, x: word): word
    requires n <= 32
  {
    BitFacts.United(BitFacts.Left(x, n), BitFacts.Right(x, 32 - n))
  }

  /** Addition modulo 2^32. */
  function Plus(x: word, y: word): word { x + y }

  function Choose(b: word, c: word, d: word): word { (b & c) | (!b & d) }
  function Parity(b: word, c: word, d: word): word { b ^ c ^ d }
  function Majority(b: word, c: word, d: word): word { (b & c) | (b & d) | (c & d) }
  function Mix(w: word, x: word, y: word, z: word): word { w ^ x ^ y ^ z }

  /** A word from its four octets. */
  function Joined(a: octet, b: octet, c: octet, d: octet): word {
    (a as word << 24) | (b as word << 16) | (c as word << 8) | (d as word)
  }

  // ----- bit by bit

  /** The bit that `m` selects. */
  predicate Bit(x: word, m: word) { x & m != 0 }

  predicate OneBit(m: word) { m & (m - 1) == 0 }

  // A circular left shift takes bit i to bit i + n, and around the end.

  lemma RotateUp(n: bv6, x: word, i: bv6)
    requires n < 32 && i < 32 && i + n < 32
    ensures Bit(Rotate(n, x), 1 << (i + n)) == Bit(x, 1 << i)
  {
    hide *;
    RotateIs(n, x);
    BitFacts.Shifted(n, x, i);
    BitIs(Rotate(n, x), i + n);
    BitIs(x, i);
  }

  lemma RotateAround(n: bv6, x: word, i: bv6)
    requires n < 32 && i < 32 && i + n >= 32
    ensures Bit(Rotate(n, x), 1 << (i + n - 32)) == Bit(x, 1 << i)
  {
    hide *;
    RotateIs(n, x);
    BitFacts.Wrapped(n, x, i);
    BitIs(Rotate(n, x), i + n - 32);
    BitIs(x, i);
  }

  lemma RotateIs(n: bv6, x: word)
    requires n <= 32
    ensures Rotate(n, x) == BitFacts.United(BitFacts.Left(x, n), BitFacts.Right(x, 32 - n))
  {
    hide BitFacts.Left, BitFacts.Right, BitFacts.United;
  }

  lemma BitIs(x: word, i: bv6)
    requires i < 32
    ensures Bit(x, 1 << i) <==> BitFacts.IsSet(x, i)
  {}

  // The truth tables of the functions of section 5, and of the sum in the schedule.

  lemma ChooseBits(b: word, c: word, d: word, m: word)
    requires OneBit(m)
    ensures Bit(Choose(b, c, d), m) == if Bit(b, m) then Bit(c, m) else Bit(d, m)
  {
    BitFacts.Chosen(b, c, d, m);
  }

  lemma MajorityBits(b: word, c: word, d: word, m: word)
    requires OneBit(m)
    ensures Bit(Majority(b, c, d), m) <==>
              (Bit(b, m) && Bit(c, m)) || (Bit(b, m) && Bit(d, m)) || (Bit(c, m) && Bit(d, m))
  {
    BitFacts.Voted(b, c, d, m);
  }

  lemma ParityBits(b: word, c: word, d: word, m: word)
    requires OneBit(m)
    ensures Bit(Parity(b, c, d), m) == ((Bit(b, m) != Bit(c, m)) != Bit(d, m))
  {
    BitFacts.Summed(b, c, m);
    BitFacts.Summed(b ^ c, d, m);
  }

  lemma MixBits(w: word, x: word, y: word, z: word, m: word)
    requires OneBit(m)
    ensures Bit(Mix(w, x, y, z), m) == (((Bit(w, m) != Bit(x, m)) != Bit(y, m)) != Bit(z, m))
  {
    BitFacts.Summed(w, x, m);
    BitFacts.Summed(w ^ x, y, m);
    BitFacts.Summed(w ^ x ^ y, z, m);
  }

  // ----- as numbers

  lemma JoinedIs(a: octet, b: octet, c: octet, d: octet)
    ensures Joined(a, b, c, d) == (a as word << 24) | (b as word << 16) | (c as word << 8) | (d as word)
  {}

  /** The first octet is the most significant one. */
  lemma JoinedNumber(a: octet, b: octet, c: octet, d: octet)
    ensures Joined(a, b, c, d) as nat == 0x1000000 * a as nat + 0x10000 * b as nat + 0x100 * c as nat + d as nat
  {
    hide *;
    JoinedIs(a, b, c, d);
    BitFacts.Octets(a, b, c, d);
  }

  lemma Cut(x: word) returns (a: octet, b: octet, c: octet, d: octet)
    ensures x == Joined(a, b, c, d)
  {
    a, b := (x >> 24) as octet, ((x >> 16) & 0xFF) as octet;
    c, d := ((x >> 8) & 0xFF) as octet, (x & 0xFF) as octet;
  }

  lemma JoinedUp(a: octet, b: octet, c: octet, d: octet)
    ensures var x := Joined(a, b, c, d);
            && (d != 0xFF ==> x + 1 == Joined(a, b, c, d + 1))
            && (d == 0xFF && c != 0xFF ==> x + 1 == Joined(a, b, c + 1, 0))
            && (d == c == 0xFF && b != 0xFF ==> x + 1 == Joined(a, b + 1, 0, 0))
            && (d == c == b == 0xFF && a != 0xFF ==> x + 1 == Joined(a + 1, 0, 0, 0))
            && (d == c == b == a == 0xFF ==> x == 0xFFFF_FFFF)
  {
    BitFacts.CountedUp(a, b, c, d);
  }

  /** The number a word stands for. */
  function Number(x: word): nat { x as nat }

  /** The number a word stands for, by its octets. */
  function Value(a: octet, b: octet, c: octet, d: octet): nat {
    0x1000000 * a as nat + 0x10000 * b as nat + 0x100 * c as nat + d as nat
  }

  lemma JoinedValue(a: octet, b: octet, c: octet, d: octet)
    ensures Number(Joined(a, b, c, d)) == Value(a, b, c, d)
  {
    hide Joined;
    JoinedNumber(a, b, c, d);
  }

  lemma ValueUp(a: octet, b: octet, c: octet, d: octet)
    ensures d != 0xFF ==> Value(a, b, c, d + 1) == Value(a, b, c, d) + 1
    ensures d == 0xFF && c != 0xFF ==> Value(a, b, c + 1, 0) == Value(a, b, c, d) + 1
    ensures d == c == 0xFF && b != 0xFF ==> Value(a, b + 1, 0, 0) == Value(a, b, c, d) + 1
    ensures d == c == b == 0xFF && a != 0xFF ==> Value(a + 1, 0, 0, 0) == Value(a, b, c, d) + 1
  {
    if d != 0xFF {
      BitFacts.OctetUp(d);
    } else if c != 0xFF {
      BitFacts.OctetUp(c);
    } else if b != 0xFF {
      BitFacts.OctetUp(b);
    } else if a != 0xFF {
      BitFacts.OctetUp(a);
    }
  }

  /** Where a word is followed by another one, and the two numbers. */
  lemma JoinedFollows(a: octet, b: octet, c: octet, d: octet, e: octet, f: octet, g: octet, h: octet)
    requires Value(e, f, g, h) == Value(a, b, c, d) + 1
    ensures Number(Joined(e, f, g, h)) == Number(Joined(a, b, c, d)) + 1
  {
    hide *;
    JoinedValue(a, b, c, d);
    JoinedValue(e, f, g, h);
  }

  function Up(x: word): word { x + 1 }
  function Down(x: word): word { x - 1 }

  lemma UpIs(x: word)
    ensures Up(x) == x + 1
  {}

  /** Counting up a word counts up the number. */
  lemma WordUp(x: word)
    requires x != 0xFFFF_FFFF
    ensures Number(Up(x)) == Number(x) + 1
  {
    hide *;
    UpIs(x);
    var a, b, c, d := Cut(x);
    JoinedUp(a, b, c, d);
    ValueUp(a, b, c, d);
    if d != 0xFF {
      JoinedFollows(a, b, c, d, a, b, c, d + 1);
    } else if c != 0xFF {
      JoinedFollows(a, b, c, d, a, b, c + 1, 0);
    } else if b != 0xFF {
      JoinedFollows(a, b, c, d, a, b + 1, 0, 0);
    } else {
      JoinedFollows(a, b, c, d, a + 1, 0, 0, 0);
    }
  }

  lemma Extremes()
    ensures Number(0) == 0 && Number(0xFFFF_FFFF) == 0xFFFF_FFFF
    ensures forall x :: Number(x) <= 0xFFFF_FFFF
  {}

  /** One word counted up and the other one down. */
  lemma PlusOver(x: word, y: word)
    ensures Plus(Up(x), Down(y)) == Plus(x, y) && Up(Down(y)) == y && Plus(x, 0) == x
    ensures Plus(0xFFFF_FFFF, y) == Down(y)
    ensures y != 0 ==> Down(y) != 0xFFFF_FFFF
  {}

  /** The sum of two words is the sum of the numbers, less 2^32 where it is as large. */
  lemma {:induction false} PlusNumber(x: word, y: word)
    ensures Number(Plus(x, y)) == (Number(x) + Number(y)) % 0x1_0000_0000
    decreases Number(y)
  {
    hide *;
    Extremes();
    PlusOver(x, y);
    if y != 0 {
      WordUp(Down(y));
      if x != 0xFFFF_FFFF {
        WordUp(x);
        PlusNumber(Up(x), Down(y));
      }
    }
  }
}
