/** Base64: the encoding of section 4 of RFC 4648, and the two functions of samples/base64.cpp. */
module Base64 {
  import opened Bytes

  const UPPER: string := "ABCDEFGHIJKLMNOPQRSTUVWXYZ"
  const LOWER: string := "abcdefghijklmnopqrstuvwxyz"
  const OTHER: string := "0123456789+/"
  const ALPHABET: string := UPPER + LOWER + OTHER

  // ----- section 4 of RFC 4648

  function Digit(x: byte): char
    requires x < 64
  {
    ALPHABET[x as nat]
  }

  /** Three octets as one 24-bit group. */
  function Group(a: byte, b: byte, c: byte): bv32 { (a as bv32 << 16) | (b as bv32 << 8) | c as bv32 }

  /** The `i`-th six bits of a group, counted from the left. */
  function Six(n: bv32, i: nat): (x: byte)
    requires i < 4
    ensures x < 64
  {
    (if i == 0 then (n >> 18) & 0x3F else if i == 1 then (n >> 12) & 0x3F
     else if i == 2 then (n >> 6) & 0x3F else n & 0x3F) as byte
  }

  function Digits(n: bv32): (r: string)
    ensures |r| == 4
  {
    [Digit(Six(n, 0)), Digit(Six(n, 1)), Digit(Six(n, 2)), Digit(Six(n, 3))]
  }

  /** Whole groups give four digits; one or two octets are filled up with zero bits and padded. */
  function Encoded(s: seq<byte>): string {
    if |s| == 0 then ""
    else if |s| == 1 then Digits(Group(s[0], 0, 0))[..2] + "=="
    else if |s| == 2 then Digits(Group(s[0], s[1], 0))[..3] + "="
    else Digits(Group(s[0], s[1], s[2])) + Encoded(s[3..])
  }

  lemma {:induction false} EncodedLength(s: seq<byte>)
    ensures |Encoded(s)| == 4 * ((|s| + 2) / 3)
    decreases |s|
  {
    hide Digits, Group;
    if |s| >= 3 {
      EncodedLength(s[3..]);
      assert (|s| - 3 + 2) / 3 + 1 == (|s| + 2) / 3;
    }
  }

  lemma {:induction false} EncodedConcat(a: seq<byte>, b: seq<byte>)
    requires |a| % 3 == 0
    ensures Encoded(a + b) == Encoded(a) + Encoded(b)
    decreases |a|
  {
    hide Digits, Group;
    if a == [] {
      assert a + b == b;
    } else {
      assert (a + b)[3..] == a[3..] + b;
      EncodedConcat(a[3..], b);
    }
  }

  // ----- the tables and examples of the standard

  /** Table 1: which character stands for which value. */
  lemma DigitSays(x: byte)
    requires x < 64
    ensures var v, c := x as nat, Digit(x) as nat;
            && (v < 26 ==> c == 'A' as nat + v)
            && (26 <= v < 52 ==> c == 'a' as nat + (v - 26))
            && (52 <= v < 62 ==> c == '0' as nat + (v - 52))
            && (v == 62 ==> c == '+' as nat) && (v == 63 ==> c == '/' as nat)
  {
    var v := x as nat;
    if v < 26 {
      UpperAt(v);
      assert ALPHABET[v] == UPPER[v];
    } else if v < 52 {
      LowerAt(v - 26);
      assert ALPHABET[v] == LOWER[v - 26];
    } else {
      OtherAt(v - 52);
      assert ALPHABET[v] == OTHER[v - 52];
    }
  }

  /** The digits of a group, put side by side, are its three octets put side by side. */
  lemma SixesMakeGroup(a: byte, b: byte, c: byte)
    ensures var n: bv32 := (a as bv32 << 16) | (b as bv32 << 8) | c as bv32;
            && Group(a, b, c) == n
            && (Six(n, 0) as bv32 << 18) | (Six(n, 1) as bv32 << 12) | (Six(n, 2) as bv32 << 6) | Six(n, 3) as bv32 == n
  {}

  /** The test vectors of section 10. */
  lemma Vectors()
    ensures Encoded([]) == "" && Encoded([0x66]) == "Zg==" && Encoded([0x66, 0x6F]) == "Zm8="
    ensures Encoded([0x66, 0x6F, 0x6F]) == "Zm9v" && Encoded([0x66, 0x6F, 0x6F, 0x62]) == "Zm9vYg=="
    ensures Encoded([0x66, 0x6F, 0x6F, 0x62, 0x61]) == "Zm9vYmE="
    ensures Encoded([0x66, 0x6F, 0x6F, 0x62, 0x61, 0x72]) == "Zm9vYmFy"
  {
    hide Digits, Group;
    Foo();
    Bar();
    var foo: seq<byte> := [0x66, 0x6F, 0x6F];
    EncodedConcat(foo, [0x62]);
    EncodedConcat(foo, [0x62, 0x61]);
    EncodedConcat(foo, [0x62, 0x61, 0x72]);
    assert foo + [0x62, 0x61, 0x72] == [0x66, 0x6F, 0x6F, 0x62, 0x61, 0x72];
  }

  lemma Foo()
    ensures Encoded([0x66]) == "Zg==" && Encoded([0x66, 0x6F]) == "Zm8=" && Encoded([0x66, 0x6F, 0x6F]) == "Zm9v"
  {}

  lemma Bar()
    ensures Encoded([0x62]) == "Yg==" && Encoded([0x62, 0x61]) == "YmE=" && Encoded([0x62, 0x61, 0x72]) == "YmFy"
  {
    hide *;
    OneOctet();
    TwoOctets();
    ThreeOctets();
  }

  lemma OneOctet() ensures Encoded([0x62]) == "Yg==" {}
  lemma TwoOctets() ensures Encoded([0x62, 0x61]) == "YmE=" {}
  lemma ThreeOctets() ensures Encoded([0x62, 0x61, 0x72]) == "YmFy" {}

  // ----- the bit arithmetic of the source

  function Sextet0(a: byte): byte { (a & 0xFC) >> 2 }
  function Sextet1(a: byte, b: byte): byte { ((a & 0x03) << 4) + ((b & 0xF0) >> 4) }
  function Sextet2(b: byte, c: byte): byte { ((b & 0x0F) << 2) + ((c & 0xC0) >> 6) }
  function Sextet3(c: byte): byte { c & 0x3F }

  /** `char_array_4` from `char_array_3`. */
  function Sextets(a: byte, b: byte, c: byte): (r: seq<byte>)
    ensures |r| == 4
  {
    [Sextet0(a), Sextet1(a, b), Sextet2(b, c), Sextet3(c)]
  }

  function Octet0(w: byte, x: byte): byte { (w << 2) + ((x & 0x30) >> 4) }
  function Octet1(x: byte, y: byte): byte { ((x & 0x0F) << 4) + ((y & 0x3C) >> 2) }
  function Octet2(y: byte, z: byte): byte { ((y & 0x03) << 6) + z }

  /** `char_array_3` from `char_array_4`, truncated to octets. */
  function Octets(w: byte, x: byte, y: byte, z: byte): (r: seq<byte>)
    ensures |r| == 3
  {
    [Octet0(w, x), Octet1(x, y), Octet2(y, z)]
  }

  /** The shifts and masks compute the digits of the 24-bit group. */
  lemma SextetsAreDigits(a: byte, b: byte, c: byte)
    ensures var n := Group(a, b, c); Sextets(a, b, c) == [Six(n, 0), Six(n, 1), Six(n, 2), Six(n, 3)]
  {
    hide Six, Group, Sextet0, Sextet1, Sextet2, Sextet3;
    First(a, b, c);
    Second(a, b, c);
    Third(a, b, c);
    Fourth(a, b, c);
  }

  lemma First(a: byte, b: byte, c: byte) ensures Six(Group(a, b, c), 0) == Sextet0(a) {}
  lemma Second(a: byte, b: byte, c: byte) ensures Six(Group(a, b, c), 1) == Sextet1(a, b) {}
  lemma Third(a: byte, b: byte, c: byte) ensures Six(Group(a, b, c), 2) == Sextet2(b, c) {}
  lemma Fourth(a: byte, b: byte, c: byte) ensures Six(Group(a, b, c), 3) == Sextet3(c) {}

  /** Taking sextets apart and together again is the identity. */
  lemma OctetsSextets(a: byte, b: byte, c: byte)
    ensures var s := Sextets(a, b, c); Octets(s[0], s[1], s[2], s[3]) == [a, b, c]
  {}

  /** What the last two characters of a short group hold does not reach the octets that are kept. */
  lemma ShortGroups(a: byte, b: byte, junk: byte, junk': byte)
    ensures var s := Sextets(a, 0, 0); Octets(s[0], s[1], junk, junk')[0] == a
    ensures var s := Sextets(a, b, 0); Octets(s[0], s[1], s[2], junk)[..2] == [a, b]
  {}

  // ----- characters

  predicate IsBase64(c: char) {
    'A' <= c <= 'Z' || 'a' <= c <= 'z' || '0' <= c <= '9' || c == '+' || c == '/'
  }

  /** `base64_chars.find`; 255 stands for npos cut down to an octet. */
  function Index(c: char): (i: nat)
    ensures i < 256 && (IsBase64(c) <==> i < 64)
  {
    if 'A' <= c <= 'Z' then c as nat - 'A' as nat
    else if 'a' <= c <= 'z' then c as nat - 'a' as nat + 26
    else if '0' <= c <= '9' then c as nat - '0' as nat + 52
    else if c == '+' then 62
    else if c == '/' then 63
    else 255
  }

  function Find(c: char): byte { Index(c) as byte }

  lemma UpperAt(i: nat)
    requires i < 26
    ensures UPPER[i] as nat == 'A' as nat + i
  {}

  lemma LowerAt(i: nat)
    requires i < 26
    ensures LOWER[i] as nat == 'a' as nat + i
  {}

  lemma OtherAt(i: nat)
    requires i < 12
    ensures OTHER[i] == if i < 10 then ('0' as nat + i) as char else if i == 10 then '+' else '/'
  {}

  /** The search finds every digit at its place. */
  lemma AlphabetAt(i: nat)
    requires i < 64
    ensures Index(ALPHABET[i]) == i
  {
    if i < 26 {
      UpperAt(i);
      assert ALPHABET[i] == UPPER[i];
    } else if i < 52 {
      LowerAt(i - 26);
      assert ALPHABET[i] == LOWER[i - 26];
    } else {
      OtherAt(i - 52);
      assert ALPHABET[i] == OTHER[i - 52];
    }
  }

  lemma FindDigit(x: byte)
    requires x < 64
    ensures Find(Digit(x)) == x && IsBase64(Digit(x))
  {
    AlphabetAt(x as nat);
  }

  /** What is found is at its place; the characters found are those of the alphabet. */
  lemma FoundAt(c: char)
    requires IsBase64(c)
    ensures ALPHABET[Index(c)] == c
  {
    var i := Index(c);
    if i < 26 {
      UpperAt(i);
      assert ALPHABET[i] == UPPER[i];
    } else if i < 52 {
      LowerAt(i - 26);
      assert ALPHABET[i] == LOWER[i - 26];
    } else {
      OtherAt(i - 52);
      assert ALPHABET[i] == OTHER[i - 52];
    }
  }

  // ----- what the decoder computes

  /** Length of the leading run of alphabet characters: decoding ends at padding or anything foreign. */
  function Leading(t: string): (n: nat)
    ensures n <= |t| && (n < |t| ==> !IsBase64(t[n])) && forall i | 0 <= i < n :: IsBase64(t[i])
  {
    if t == "" || !IsBase64(t[0]) then 0 else 1 + Leading(t[1..])
  }

  const NUL: char := 0 as char

  function Four(w: char, x: char, y: char, z: char): seq<byte> { Octets(Find(w), Find(x), Find(y), Find(z)) }

  /** Groups of four give three octets; a group of two or three gives one or two, NULs standing in for the rest. */
  function DecodedRun(p: string): seq<byte> {
    if |p| >= 4 then Four(p[0], p[1], p[2], p[3]) + DecodedRun(p[4..])
    else if |p| == 3 then Four(p[0], p[1], p[2], NUL)[..2]
    else if |p| == 2 then Four(p[0], p[1], NUL, NUL)[..1]
    else []
  }

  function Decoded(t: string): seq<byte> { DecodedRun(t[..Leading(t)]) }

  // ----- round trip

  lemma DigitsDecode(a: byte, b: byte, c: byte)
    ensures var d := Digits(Group(a, b, c));
            && (forall i | 0 <= i < 4 :: IsBase64(d[i]))
            && Find(d[0]) == Sextets(a, b, c)[0] && Find(d[1]) == Sextets(a, b, c)[1]
            && Find(d[2]) == Sextets(a, b, c)[2] && Find(d[3]) == Sextets(a, b, c)[3]
  {
    hide Group, Six, Sextets, Find, Digit;
    var n := Group(a, b, c);
    SextetsAreDigits(a, b, c);
    FindDigit(Six(n, 0));
    FindDigit(Six(n, 1));
    FindDigit(Six(n, 2));
    FindDigit(Six(n, 3));
  }

  lemma {:induction false} LeadingConcat(d: string, rest: string)
    requires forall i | 0 <= i < |d| :: IsBase64(d[i])
    ensures Leading(d + rest) == |d| + Leading(rest)
  {
    if d == "" {
      assert d + rest == rest;
    } else {
      assert (d + rest)[1..] == d[1..] + rest;
      LeadingConcat(d[1..], rest);
    }
  }

  lemma DecodedGroup(d: string, rest: string)
    requires |d| == 4 && forall i | 0 <= i < 4 :: IsBase64(d[i])
    ensures Decoded(d + rest) == Four(d[0], d[1], d[2], d[3]) + Decoded(rest)
  {
    LeadingConcat(d, rest);
    var p := (d + rest)[..4 + Leading(rest)];
    assert p[..4] == d && p[4..] == rest[..Leading(rest)];
    assert p[0] == d[0] && p[1] == d[1] && p[2] == d[2] && p[3] == d[3];
  }

  lemma PadIsForeign()
    ensures !IsBase64('=')
  {}

  /** A short group in front of its padding. */
  lemma DecodedShort(d: string, pad: string)
    requires forall i | 0 <= i < |d| :: IsBase64(d[i])
    requires pad in ["=", "=="]
    ensures Decoded(d + pad) == DecodedRun(d)
  {
    hide DecodedRun, IsBase64;
    LeadingConcat(d, pad);
    assert Leading(pad) == 0 by { PadIsForeign(); assert pad[0] == '='; }
    assert (d + pad)[..|d|] == d;
  }

  /** Decoding gives back every byte string that was encoded. */
  lemma {:induction false} RoundTrip(s: seq<byte>)
    ensures Decoded(Encoded(s)) == s
    decreases |s|
  {
    hide Group, Sextets, Octets, Find, Digits;
    if |s| == 0 {
    } else if |s| == 1 {
      var d := Digits(Group(s[0], 0, 0));
      DigitsDecode(s[0], 0, 0);
      DecodedShort(d[..2], "==");
      ShortGroups(s[0], 0, Find(NUL), Find(NUL));
    } else if |s| == 2 {
      var d := Digits(Group(s[0], s[1], 0));
      DigitsDecode(s[0], s[1], 0);
      DecodedShort(d[..3], "=");
      ShortGroups(s[0], s[1], Find(NUL), Find(NUL));
    } else {
      var d := Digits(Group(s[0], s[1], s[2]));
      DigitsDecode(s[0], s[1], s[2]);
      DecodedGroup(d, Encoded(s[3..]));
      OctetsSextets(s[0], s[1], s[2]);
      RoundTrip(s[3..]);
    }
  }

  // ----- the functions of the source

  /** `char_array_4` from `char_array_3`, as both places in the encoder compute it. */
  method Expand(a: array<byte>, out: array<byte>)
    requires a.Length == 3 && out.Length == 4 && a != out
    modifies out
    ensures out[..] == Sextets(a[0], a[1], a[2])
  {
    hide Sextet0, Sextet1, Sextet2, Sextet3;
    out[0] := Sextet0(a[0]);
    out[1] := Sextet1(a[0], a[1]);
    out[2] := Sextet2(a[1], a[2]);
    out[3] := Sextet3(a[2]);
  }

  /** `for (j = 0; j < count; j++) ret += base64_chars[char_array_4[j]]`. */
  method WriteDigits(ghost a: byte, ghost b: byte, ghost c: byte, out: array<byte>, count: nat) returns (r: string)
    requires out.Length == 4 && out[..] == Sextets(a, b, c) && count <= 4
    ensures r == Digits(Group(a, b, c))[..count]
  {
    hide Group, Sextets, Six, Digit;
    SextetsAreDigits(a, b, c);
    assert out[..][0] == out[0] && out[..][1] == out[1] && out[..][2] == out[2] && out[..][3] == out[3];
    ghost var d := Digits(Group(a, b, c));
    assert forall i | 0 <= i < 4 :: out[i] < 64 && d[i] == Digit(out[i]);
    r := "";
    for j := 0 to count
      invariant r == d[..j]
    {
      r := r + [Digit(out[j])];
      assert d[..j + 1] == d[..j] + [d[j]];
    }
  }

  lemma FullGroup(done: seq<byte>, a: byte, b: byte, c: byte)
    requires |done| % 3 == 0
    ensures Encoded(done + [a, b, c]) == Encoded(done) + Digits(Group(a, b, c))
  {
    hide *;
    EncodedConcat(done, [a, b, c]);
    OneGroup(a, b, c);
  }

  lemma OneGroup(a: byte, b: byte, c: byte)
    ensures Encoded([a, b, c]) == Digits(Group(a, b, c))
  {
    hide Group, Digits;
    assert [a, b, c][3..] == [];
  }

  /** The group of one or two octets left in `a` at the end, with its padding. */
  method WriteShortGroup(a: array<byte>, out: array<byte>, count: nat) returns (r: string)
    requires a.Length == 3 && out.Length == 4 && a != out && 0 < count < 3
    modifies a, out
    ensures r == Encoded(old(a[..count]))
  {
    hide Group, Sextets, Digits;
    var i := count;
    for j := i to 3
      invariant a[..count] == old(a[..count])
      invariant forall k | count <= k < j :: a[k] == 0
    {
      a[j] := 0;
    }
    Expand(a, out);
    assert a[0] == a[..count][0];
    assert count == 2 ==> a[1] == a[..count][1];
    r := WriteDigits(a[0], a[1], a[2], out, i + 1);
    ghost var digits := r;
    while i < 3
      invariant count <= i <= 3
      invariant r == digits + if i == count then "" else if i == count + 1 then "=" else "=="
    {
      r := r + "=";
      i := i + 1;
    }
  }

  method Encode(bytes: seq<byte>) returns (ret: string)
    ensures ret == Encoded(bytes)
  {
    hide Group, Sextets, Digits, Encoded;
    EncodedNothing();
    ret := "";
    var i := 0;
    var a, out := new byte[3](_ => 0), new byte[4](_ => 0);
    ghost var groups: nat := 0;
    for pos := 0 to |bytes|
      invariant i < 3 && pos == 3 * groups + i
      invariant forall j | 0 <= j < i :: a[j] == bytes[3 * groups + j]
      invariant ret == Encoded(bytes[..3 * groups])
    {
      a[i] := bytes[pos];
      i := i + 1;
      if i == 3 {
        Expand(a, out);
        var four := WriteDigits(a[0], a[1], a[2], out, 4);
        ret := ret + four;
        NextGroup(bytes, groups);
        assert four == four[..4];
        groups := groups + 1;
        i := 0;
      }
    }
    RestIsShort(bytes, groups);
    if i > 0 {
      assert a[..i] == bytes[3 * groups..];
      var short := WriteShortGroup(a, out, i);
      ret := ret + short;
    }
  }

  /** The encoding so far, continued by one group. */
  lemma NextGroup(bytes: seq<byte>, groups: nat)
    requires 3 * groups + 3 <= |bytes|
    ensures var n := 3 * groups;
            var g := bytes[n..n + 3];
            Encoded(bytes[..n + 3]) == Encoded(bytes[..n]) + Digits(Group(g[0], g[1], g[2]))
  {
    hide *;
    var n := 3 * groups;
    var g := bytes[n..n + 3];
    FullGroup(bytes[..n], g[0], g[1], g[2]);
    assert bytes[..n] + [g[0], g[1], g[2]] == bytes[..n + 3];
  }

  lemma RestIsShort(bytes: seq<byte>, groups: nat)
    requires 3 * groups <= |bytes|
    ensures var n := 3 * groups;
            && Encoded(bytes) == Encoded(bytes[..n]) + Encoded(bytes[n..])
            && (n == |bytes| ==> bytes[..n] == bytes)
  {
    hide *;
    var n := 3 * groups;
    EncodedConcat(bytes[..n], bytes[n..]);
    assert bytes == bytes[..n] + bytes[n..];
  }

  lemma EncodedNothing()
    ensures Encoded([]) == ""
  {}

  /** `char_array_3` from the characters in `q`, as both places in the decoder compute it. */
  method Contract(q: array<char>, out: array<byte>)
    requires q.Length == 4 && out.Length == 3
    modifies out
    ensures out[..] == Four(q[0], q[1], q[2], q[3])
  {
    hide Octet0, Octet1, Octet2, Find;
    var v := new byte[4](_ => 0);
    for i := 0 to 4
      invariant forall j | 0 <= j < i :: v[j] == Find(q[j])
    {
      v[i] := Find(q[i]);
    }
    out[0] := Octet0(v[0], v[1]);
    out[1] := Octet1(v[1], v[2]);
    out[2] := Octet2(v[2], v[3]);
  }

  lemma {:induction false} RunConcat(done: string, d: string)
    requires |done| % 4 == 0
    ensures DecodedRun(done + d) == DecodedRun(done) + DecodedRun(d)
    decreases |done|
  {
    hide *;
    if done == "" {
      assert done + d == d;
      RunNothing();
    } else {
      var rest := done[4..];
      assert (done + d)[4..] == rest + d;
      RunGroup(done);
      RunGroup(done + d);
      RunConcat(rest, d);
    }
  }

  lemma RunGroup(p: string)
    requires |p| >= 4
    ensures DecodedRun(p) == Four(p[0], p[1], p[2], p[3]) + DecodedRun(p[4..])
  {
    hide Four;
  }

  lemma FullRun(done: string, w: char, x: char, y: char, z: char)
    requires |done| % 4 == 0
    ensures DecodedRun(done + [w, x, y, z]) == DecodedRun(done) + Four(w, x, y, z)
  {
    hide Four;
    RunConcat(done, [w, x, y, z]);
    assert [w, x, y, z][4..] == "";
  }

  /** The group of up to three characters left in `q` at the end. */
  method ReadShortGroup(q: array<char>, out: array<byte>, count: nat) returns (r: seq<byte>)
    requires q.Length == 4 && out.Length == 3 && 0 < count < 4
    modifies q, out
    ensures r == DecodedRun(old(q[..count]))
  {
    hide Four;
    for j := count to 4
      invariant q[..count] == old(q[..count])
      invariant forall k | count <= k < j :: q[k] == NUL
    {
      q[j] := NUL;
    }
    Contract(q, out);
    ghost var p := q[..count];
    assert q[0] == p[0] && (count > 1 ==> q[1] == p[1]) && (count > 2 ==> q[2] == p[2]);
    r := [];
    for j := 0 to count - 1
      invariant r == out[..j]
    {
      r := r + [out[j]];
    }
  }

  method Decode(encoded: string) returns (ret: seq<byte>)
    ensures ret == Decoded(encoded)
  {
    hide *;
    ret := [];
    var i, pos := 0, 0;
    var q, out := new char[4](_ => NUL), new byte[3](_ => 0);
    RunNothing();
    while pos < |encoded| && encoded[pos] != '=' && IsBase64(encoded[pos])
      invariant pos <= |encoded| && i < 4 && i <= pos && (pos - i) % 4 == 0
      invariant Leading(encoded) >= pos
      invariant q[..i] == encoded[pos - i..pos]
      invariant ret == DecodedRun(encoded[..pos - i])
    {
      q[i] := encoded[pos];
      i := i + 1;
      pos := pos + 1;
      assert q[..i] == encoded[pos - i..pos];
      if i == 4 {
        Contract(q, out);
        FullRun(encoded[..pos - 4], q[0], q[1], q[2], q[3]);
        assert encoded[..pos - 4] + [q[0], q[1], q[2], q[3]] == encoded[..pos] by {
          assert q[..4] == [q[0], q[1], q[2], q[3]];
        }
        for j := 0 to 3
          invariant ret == DecodedRun(encoded[..pos - 4]) + out[..j]
        {
          ret := ret + [out[j]];
        }
        assert out[..3] == out[..];
        i := 0;
      }
    }
    PadIsForeign();
    RunEnds(encoded, pos - i, pos);
    if i > 0 {
      var short := ReadShortGroup(q, out, i);
      ret := ret + short;
    }
  }

  /** The whole groups of the leading run, and the rest of it. */
  lemma RunEnds(encoded: string, done: nat, pos: nat)
    requires done <= pos == Leading(encoded) && done % 4 == 0
    ensures Decoded(encoded) == DecodedRun(encoded[..done]) + DecodedRun(encoded[done..pos])
    ensures done == pos ==> DecodedRun(encoded[done..pos]) == []
  {
    hide DecodedRun, Leading;
    assert encoded[..pos] == encoded[..done] + encoded[done..pos];
    RunConcat(encoded[..done], encoded[done..pos]);
    RunNothing();
  }

  lemma RunNothing()
    ensures DecodedRun("") == []
  {}

  /** The functions of the source are inverse to each other on every byte string. */
  method EncodeThenDecode(bytes: seq<byte>) returns (text: string, back: seq<byte>)
    ensures back == bytes && |text| == 4 * ((|bytes| + 2) / 3)
  {
    text := Encode(bytes);
    back := Decode(text);
    RoundTrip(bytes);
    EncodedLength(bytes);
  }
}
