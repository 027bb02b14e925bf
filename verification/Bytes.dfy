/** Octets and big-endian numbers, shared by the codecs. */
module Bytes {
  type byte = bv8

  function Min(a: nat, b: nat): nat { if a <= b then a else b }

  /** `dst` with `src` written over it from index `off` on. */
  function Write<T>(dst: seq<T>, off: nat, src: seq<T>): (r: seq<T>)
    requires off + |src| <= |dst|
    ensures |r| == |dst|
  {
    seq(|dst|, i requires 0 <= i < |dst| => if off <= i < off + |src| then src[i - off] else dst[i])
  }

  /** Writing a buffer in two pieces is writing it at once. */
  lemma WriteTwice<T>(dst: seq<T>, off: nat, a: seq<T>, b: seq<T>)
    requires off + |a| + |b| <= |dst|
    ensures Write(Write(dst, off, a), off + |a|, b) == Write(dst, off, a + b)
  {}

  function Zeros(n: nat): (r: seq<byte>)
    ensures |r| == n
  {
    seq(n, _ => 0)
  }

  function Pow256(k: nat): (r: nat)
    ensures r > 0
  {
    if k == 0 then 1 else 256 * Pow256(k - 1)
  }

  function ToByte(n: nat): byte { (n % 256) as byte }

  /** The number a byte string spells in network byte order. */
  function FromBE(bs: seq<byte>): nat {
    if bs == [] then 0 else 256 * FromBE(bs[..|bs| - 1]) + bs[|bs| - 1] as nat
  }

  /** The low `k` octets of `n` in network byte order. */
  function ToBE(n: nat, k: nat): (r: seq<byte>)
    ensures |r| == k
  {
    if k == 0 then [] else ToBE(n / 256, k - 1) + [ToByte(n)]
  }

  // ----- octets of a number, one by one

  lemma FromOctet(hi: seq<byte>, b: byte)
    ensures FromBE(hi + [b]) == 256 * FromBE(hi) + b as nat
  {
    assert (hi + [b])[..|hi|] == hi;
  }

  lemma TwoOctets(f: seq<byte>)
    requires |f| == 2
    ensures FromBE(f) == 256 * f[0] as nat + f[1] as nat
  {
    FromOctet([], f[0]);
    FromOctet([f[0]], f[1]);
    assert [] + [f[0]] == [f[0]] && [f[0]] + [f[1]] == f;
  }

  lemma FourMore(hi: seq<byte>, f: seq<byte>)
    requires |f| == 4
    ensures FromBE(hi + f) == 0x1_0000_0000 * FromBE(hi)
              + 0x1000000 * f[0] as nat + 0x10000 * f[1] as nat + 0x100 * f[2] as nat + f[3] as nat
  {
    hide FromBE;
    FromOctet(hi, f[0]);
    FromOctet(hi + [f[0]], f[1]);
    FromOctet(hi + [f[0]] + [f[1]], f[2]);
    FromOctet(hi + [f[0]] + [f[1]] + [f[2]], f[3]);
    assert hi + [f[0]] + [f[1]] + [f[2]] + [f[3]] == hi + f;
  }

  // ----- one octet and the number it stands for

  lemma NextByte(b: byte)
    requires b < 0xFF
    ensures (b + 1) as nat == b as nat + 1
  {}

  /** Every number below 256 is the value of a byte. */
  lemma {:induction false} ByteOf(m: nat) returns (b: byte)
    requires m < 256
    ensures b as nat == m
  {
    if m == 0 {
      b := 0;
    } else {
      b := ByteOf(m - 1);
      assert b < 0xFF;
      NextByte(b);
      b := b + 1;
    }
  }

  lemma BackToByte(b: byte)
    ensures (b as nat) as byte == b
  {}

  lemma SmallRoundTrip(m: nat)
    requires m < 256
    ensures (m as byte) as nat == m
  {
    var b := ByteOf(m);
    BackToByte(b);
  }

  lemma ByteRoundTrip(b: byte)
    ensures ToByte(b as nat) == b
  {
    var m := b as nat;
    assert m % 256 == m;
  }

  lemma NatRoundTrip(n: nat)
    ensures ToByte(n) as nat == n % 256
  {
    var m := n % 256;
    SmallRoundTrip(m);
  }

  lemma {:induction false} FromBEBound(bs: seq<byte>)
    ensures FromBE(bs) < Pow256(|bs|)
  {
    if bs != [] {
      FromBEBound(bs[..|bs| - 1]);
    }
  }

  /** Reading back what `ToBE` wrote gives the number modulo the field width. */
  lemma {:induction false} FromToBE(n: nat, k: nat)
    requires n < Pow256(k)
    ensures FromBE(ToBE(n, k)) == n
  {
    if k != 0 {
      var bs := ToBE(n, k);
      FromToBE(n / 256, k - 1);
      assert bs[..k - 1] == ToBE(n / 256, k - 1);
      NatRoundTrip(n);
    }
  }

  /** Fixed-width fields have one spelling per number. */
  lemma {:induction false} ToFromBE(bs: seq<byte>)
    ensures ToBE(FromBE(bs), |bs|) == bs
  {
    if bs != [] {
      var n := FromBE(bs);
      var hi, lo := FromBE(bs[..|bs| - 1]), bs[|bs| - 1] as nat;
      assert n / 256 == hi && n % 256 == lo;
      ToFromBE(bs[..|bs| - 1]);
      ByteRoundTrip(bs[|bs| - 1]);
    }
  }
}
