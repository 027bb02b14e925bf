/** The operators of 32-bit words, and facts about them. A mask `m` has one bit. */
module BitFacts {
  function Left(x: bv32, n: bv6): bv32 requires n <= 32 { x << n }
  function Right(x: bv32, n: bv6): bv32 requires n <= 32 { x >> n }
  function Common(x: bv32, m: bv32): bv32 { x & m }
  function United(x: bv32, y: bv32): bv32 { x | y }
  function Mask(i: bv6): bv32 requires i < 32 { 1 << i }
  predicate IsSet(x: bv32, i: bv6) requires i < 32 { Common(x, Mask(i)) != 0 }

  // A shift takes every bit along, one place at a time.

  lemma {:induction false} Up(n: bv6, x: bv32, i: bv6)
    requires n < 32 && i < 32 && i + n < 32
    ensures IsSet(Left(x, n), i + n) == IsSet(x, i)
    decreases n
  {
    hide *;
    if n == 0 {
      NoShift(x);
    } else {
      Up(n - 1, x, i);
      NextLeft(x, n);
      OneUp(Left(x, n - 1), i + n - 1);
    }
  }

  lemma {:induction false} Down(n: bv6, x: bv32, i: bv6)
    requires n <= i < 32
    ensures IsSet(Right(x, n), i - n) == IsSet(x, i)
    decreases n
  {
    hide *;
    if n == 0 {
      NoShift(x);
    } else {
      Down(n - 1, x, i);
      NextRight(x, n);
      OneDown(Right(x, n - 1), i - n + 1);
    }
  }

  lemma NoShift(x: bv32) ensures Left(x, 0) == x == Right(x, 0) {}
  lemma NextLeft(x: bv32, n: bv6) requires 0 < n < 32 ensures Left(x, n) == Left(Left(x, n - 1), 1) {}
  lemma NextRight(x: bv32, n: bv6) requires 0 < n < 32 ensures Right(x, n) == Right(Right(x, n - 1), 1) {}
  lemma OneUp(x: bv32, i: bv6) requires i < 31 ensures IsSet(Left(x, 1), i + 1) == IsSet(x, i) {}
  lemma OneDown(x: bv32, i: bv6) requires 0 < i < 32 ensures IsSet(Right(x, 1), i - 1) == IsSet(x, i) {}

  // A circular shift takes the bits that leave on the left in again on the right.

  lemma Shifted(n: bv6, x: bv32, i: bv6)
    requires n < 32 && i < 32 && i + n < 32
    ensures IsSet(United(Left(x, n), Right(x, 32 - n)), i + n) == IsSet(x, i)
  {
    hide *;
    Up(n, x, i);
    NoneHigh(n, x, i + n);
    EitherSet(Left(x, n), Right(x, 32 - n), i + n);
  }

  lemma Wrapped(n: bv6, x: bv32, i: bv6)
    requires n < 32 && i < 32 && i + n >= 32
    ensures IsSet(United(Left(x, n), Right(x, 32 - n)), i + n - 32) == IsSet(x, i)
  {
    hide *;
    Down(32 - n, x, i);
    assert i - (32 - n) == i + n - 32;
    NoneLow(n, x, i + n - 32);
    EitherSet(Left(x, n), Right(x, 32 - n), i + n - 32);
  }

  lemma NoneHigh(n: bv6, x: bv32, i: bv6) requires n <= i < 32 ensures !IsSet(Right(x, 32 - n), i) {}
  lemma NoneLow(n: bv6, x: bv32, i: bv6) requires i < n <= 32 ensures !IsSet(Left(x, n), i) {}

  lemma EitherSet(x: bv32, y: bv32, i: bv6)
    requires i < 32
    ensures IsSet(United(x, y), i) == (IsSet(x, i) || IsSet(y, i))
  {
    hide Common, United, Mask;
    Distributes(x, y, Mask(i));
    NoneOf(Common(x, Mask(i)), Common(y, Mask(i)));
  }

  lemma Distributes(x: bv32, y: bv32, m: bv32)
    ensures Common(United(x, y), m) == United(Common(x, m), Common(y, m))
  {}

  lemma NoneOf(x: bv32, y: bv32)
    ensures United(x, y) == 0 <==> x == 0 && y == 0
  {}

  lemma Chosen(b: bv32, c: bv32, d: bv32, m: bv32)
    requires m & (m - 1) == 0
    ensures ((b & c) | (!b & d)) & m == if b & m != 0 then c & m else d & m
  {}

  lemma Voted(b: bv32, c: bv32, d: bv32, m: bv32)
    requires m & (m - 1) == 0
    ensures ((b & c) | (b & d) | (c & d)) & m == if b & m == c & m then b & m else d & m
  {}

  lemma Summed(x: bv32, y: bv32, m: bv32)
    requires m & (m - 1) == 0
    ensures (x ^ y) & m != 0 <==> ((x & m != 0) != (y & m != 0))
  {}

  lemma Octets(a: bv8, b: bv8, c: bv8, d: bv8)
    ensures ((a as bv32 << 24) | (b as bv32 << 16) | (c as bv32 << 8) | (d as bv32)) as nat
            == 0x1000000 * a as nat + 0x10000 * b as nat + 0x100 * c as nat + d as nat
  {}

  lemma CountedUp(a: bv8, b: bv8, c: bv8, d: bv8)
    ensures var x := (a as bv32 << 24) | (b as bv32 << 16) | (c as bv32 << 8) | (d as bv32);
            && (d != 0xFF ==> x + 1 == (a as bv32 << 24) | (b as bv32 << 16) | (c as bv32 << 8) | ((d + 1) as bv32))
            && (d == 0xFF && c != 0xFF ==> x + 1 == (a as bv32 << 24) | (b as bv32 << 16) | ((c + 1) as bv32 << 8))
            && (d == c == 0xFF && b != 0xFF ==> x + 1 == (a as bv32 << 24) | ((b + 1) as bv32 << 16))
            && (d == c == b == 0xFF && a != 0xFF ==> x + 1 == (a + 1) as bv32 << 24)
            && (d == c == b == a == 0xFF ==> x == 0xFFFF_FFFF)
  {}

  lemma OctetUp(a: bv8)
    requires a != 0xFF
    ensures (a + 1) as nat == a as nat + 1
  {}
}
