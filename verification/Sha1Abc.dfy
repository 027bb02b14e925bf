/** The first message in the appendix of FIPS PUB 180-1, word by word and round by round: the digest of "abc". */
module Sha1Abc {
  import opened Bytes
  import opened Sha1
  import opened Words

  const ABC: seq<byte> := [0x61, 0x62, 0x63]

  /** Its one block. */
  predicate IsBlock(b: seq<byte>) {
    && |b| == 64 && b[0] == 0x61 && b[1] == 0x62 && b[2] == 0x63 && b[3] == 0x80
    && (forall i | 4 <= i < 63 :: b[i] == 0) && b[63] == 24
  }

  // ----- the schedule

  predicate Has(block: seq<byte>, t: nat, a: word, b: word, c: word, d: word, e: word, f: word, g: word, h: word) {
    && |block| == 64
    && W(block, t) == a && W(block, t + 1) == b && W(block, t + 2) == c && W(block, t + 3) == d
    && W(block, t + 4) == e && W(block, t + 5) == f && W(block, t + 6) == g && W(block, t + 7) == h
  }

  lemma PaddedAbc()
    ensures IsBlock(Padded(ABC))
  {
    hide ToBE, Zeros, LengthOctets;
    LengthOctetsAreBE(0, 24);
    LengthOfAbc();
    var p := Padded(ABC);
    assert p == ABC + [0x80] + Zeros(52) + [0, 0, 0, 0, 0, 0, 0, 24];
    ZerosAt(52);
  }

  lemma LengthOfAbc()
    ensures LengthOctets(0, 24) == [0, 0, 0, 0, 0, 0, 0, 24] && Fill(3) == 52
  {
    assert ToByte(0) == 0 && ToByte(24) == 24;
  }

  lemma ZerosAt(n: nat)
    ensures forall i | 0 <= i < n :: Zeros(n)[i] == 0
  {}

  lemma FirstWords(b: seq<byte>)
    requires IsBlock(b)
    ensures Has(b, 0, 0x61626380, 0x00000000, 0x00000000, 0x00000000, 0x00000000, 0x00000000, 0x00000000, 0x00000000)
    ensures Has(b, 8, 0x00000000, 0x00000000, 0x00000000, 0x00000000, 0x00000000, 0x00000000, 0x00000000, 0x00000018)
  {}

  /** One more word, from the four it is made of. */
  lemma Word(b: seq<byte>, t: nat, w: word)
    requires |b| == 64 && 16 <= t
    requires Rotate(1, Mix(W(b, t - 3), W(b, t - 8), W(b, t - 14), W(b, t - 16))) == w
    ensures W(b, t) == w
  {}

  lemma Words16(b: seq<byte>)
    requires Has(b, 0, 0x61626380, 0x00000000, 0x00000000, 0x00000000, 0x00000000, 0x00000000, 0x00000000, 0x00000000)
    requires Has(b, 8, 0x00000000, 0x00000000, 0x00000000, 0x00000000, 0x00000000, 0x00000000, 0x00000000, 0x00000018)
    ensures Has(b, 16, 0xC2C4C700, 0x00000000, 0x00000030, 0x85898E01, 0x00000000, 0x00000060, 0x0B131C03, 0x00000030)
    ensures Has(b, 24, 0x85898EC1, 0x16263806, 0x00000000, 0x00000180, 0x2C4C700C, 0x000000F0, 0x93AFB507, 0x5898E048)
  {
    hide W;
    Word(b, 16, 0xC2C4C700);
    Word(b, 17, 0x00000000);
    Word(b, 18, 0x00000030);
    Word(b, 19, 0x85898E01);
    Word(b, 20, 0x00000000);
    Word(b, 21, 0x00000060);
    Word(b, 22, 0x0B131C03);
    Word(b, 23, 0x00000030);
    Word(b, 24, 0x85898EC1);
    Word(b, 25, 0x16263806);
    Word(b, 26, 0x00000000);
    Word(b, 27, 0x00000180);
    Word(b, 28, 0x2C4C700C);
    Word(b, 29, 0x000000F0);
    Word(b, 30, 0x93AFB507);
    Word(b, 31, 0x5898E048);
  }

  lemma Words32(b: seq<byte>)
    requires Has(b, 16, 0xC2C4C700, 0x00000000, 0x00000030, 0x85898E01, 0x00000000, 0x00000060, 0x0B131C03, 0x00000030)
    requires Has(b, 24, 0x85898EC1, 0x16263806, 0x00000000, 0x00000180, 0x2C4C700C, 0x000000F0, 0x93AFB507, 0x5898E048)
    ensures Has(b, 32, 0x8E9A9202, 0x00000600, 0xB131C0F0, 0x16263BC6, 0x4EBED41E, 0x626380A1, 0x16263806, 0x000018C0)
    ensures Has(b, 40, 0xD2E138C4, 0x00000F00, 0x3AFB5079, 0x898E04E5, 0xE2BA3C2B, 0x000060C0, 0x053A37CD, 0x74458547)
  {
    hide W;
    Word(b, 32, 0x8E9A9202);
    Word(b, 33, 0x00000600);
    Word(b, 34, 0xB131C0F0);
    Word(b, 35, 0x16263BC6);
    Word(b, 36, 0x4EBED41E);
    Word(b, 37, 0x626380A1);
    Word(b, 38, 0x16263806);
    Word(b, 39, 0x000018C0);
    Word(b, 40, 0xD2E138C4);
    Word(b, 41, 0x00000F00);
    Word(b, 42, 0x3AFB5079);
    Word(b, 43, 0x898E04E5);
    Word(b, 44, 0xE2BA3C2B);
    Word(b, 45, 0x000060C0);
    Word(b, 46, 0x053A37CD);
    Word(b, 47, 0x74458547);
  }

  lemma Words48(b: seq<byte>)
    requires Has(b, 32, 0x8E9A9202, 0x00000600, 0xB131C0F0, 0x16263BC6, 0x4EBED41E, 0x626380A1, 0x16263806, 0x000018C0)
    requires Has(b, 40, 0xD2E138C4, 0x00000F00, 0x3AFB5079, 0x898E04E5, 0xE2BA3C2B, 0x000060C0, 0x053A37CD, 0x74458547)
    ensures Has(b, 48, 0xDA9415ED, 0x26380A16, 0x626383A1, 0x4EBF54DE, 0x3835B44B, 0x0000F600, 0x1E84C7A3, 0x98E04D98)
    ensures Has(b, 56, 0x651D16A0, 0x62658CA1, 0x458544D6, 0x44584CB7, 0x7BA06619, 0x6380AEA2, 0x0AE55269, 0x627B49A1)
  {
    hide W;
    Word(b, 48, 0xDA9415ED);
    Word(b, 49, 0x26380A16);
    Word(b, 50, 0x626383A1);
    Word(b, 51, 0x4EBF54DE);
    Word(b, 52, 0x3835B44B);
    Word(b, 53, 0x0000F600);
    Word(b, 54, 0x1E84C7A3);
    Word(b, 55, 0x98E04D98);
    Word(b, 56, 0x651D16A0);
    Word(b, 57, 0x62658CA1);
    Word(b, 58, 0x458544D6);
    Word(b, 59, 0x44584CB7);
    Word(b, 60, 0x7BA06619);
    Word(b, 61, 0x6380AEA2);
    Word(b, 62, 0x0AE55269);
    Word(b, 63, 0x627B49A1);
  }

  lemma Words64(b: seq<byte>)
    requires Has(b, 48, 0xDA9415ED, 0x26380A16, 0x626383A1, 0x4EBF54DE, 0x3835B44B, 0x0000F600, 0x1E84C7A3, 0x98E04D98)
    requires Has(b, 56, 0x651D16A0, 0x62658CA1, 0x458544D6, 0x44584CB7, 0x7BA06619, 0x6380AEA2, 0x0AE55269, 0x627B49A1)
    ensures Has(b, 64, 0x7CD45C9D, 0x000F0000, 0xFB50753A, 0xEC6765E8, 0xBA3C2BE2, 0x0060C000, 0x3A37CD05, 0x458546F4)
    ensures Has(b, 72, 0xB8599DD6, 0x380A1A26, 0x01E02203, 0xE7CC3456, 0xE6E60B69, 0x00F60A00, 0x5795EF4F, 0x822E0879)
  {
    hide W;
    Word(b, 64, 0x7CD45C9D);
    Word(b, 65, 0x000F0000);
    Word(b, 66, 0xFB50753A);
    Word(b, 67, 0xEC6765E8);
    Word(b, 68, 0xBA3C2BE2);
    Word(b, 69, 0x0060C000);
    Word(b, 70, 0x3A37CD05);
    Word(b, 71, 0x458546F4);
    Word(b, 72, 0xB8599DD6);
    Word(b, 73, 0x380A1A26);
    Word(b, 74, 0x01E02203);
    Word(b, 75, 0xE7CC3456);
    Word(b, 76, 0xE6E60B69);
    Word(b, 77, 0x00F60A00);
    Word(b, 78, 0x5795EF4F);
    Word(b, 79, 0x822E0879);
  }

  // ----- the rounds

  predicate After(b: seq<byte>, t: nat, s: Digest) { |b| == 64 && Rounds(INITIAL, b, t) == s }

  lemma Next(b: seq<byte>, t: nat, w: word, r: Digest)
    requires |b| == 64 && W(b, t) == w && Round(t, Rounds(INITIAL, b, t), w) == r
    ensures Rounds(INITIAL, b, t + 1) == r
  {}

  lemma Rounds0(b: seq<byte>)
    requires Has(b, 0, 0x61626380, 0x00000000, 0x00000000, 0x00000000, 0x00000000, 0x00000000, 0x00000000, 0x00000000)
    requires Has(b, 8, 0x00000000, 0x00000000, 0x00000000, 0x00000000, 0x00000000, 0x00000000, 0x00000000, 0x00000018)
    requires After(b, 0, Digest(0x67452301, 0xEFCDAB89, 0x98BADCFE, 0x10325476, 0xC3D2E1F0))
    ensures After(b, 16, Digest(0x20BDD62F, 0x196BEE77, 0x644A3DA5, 0x1181ED99, 0x18C623F9))
  {
    hide W, Rounds;
    Next(b, 0, 0x61626380, Digest(0x0116FC33, 0x67452301, 0x7BF36AE2, 0x98BADCFE, 0x10325476));
    Next(b, 1, 0x00000000, Digest(0x8990536D, 0x0116FC33, 0x59D148C0, 0x7BF36AE2, 0x98BADCFE));
    Next(b, 2, 0x00000000, Digest(0xA1390F08, 0x8990536D, 0xC045BF0C, 0x59D148C0, 0x7BF36AE2));
    Next(b, 3, 0x00000000, Digest(0xCDD8E11B, 0xA1390F08, 0x626414DB, 0xC045BF0C, 0x59D148C0));
    Next(b, 4, 0x00000000, Digest(0xCFD499DE, 0xCDD8E11B, 0x284E43C2, 0x626414DB, 0xC045BF0C));
    Next(b, 5, 0x00000000, Digest(0x3FC7CA40, 0xCFD499DE, 0xF3763846, 0x284E43C2, 0x626414DB));
    Next(b, 6, 0x00000000, Digest(0x993E30C1, 0x3FC7CA40, 0xB3F52677, 0xF3763846, 0x284E43C2));
    Next(b, 7, 0x00000000, Digest(0x9E8C07D4, 0x993E30C1, 0x0FF1F290, 0xB3F52677, 0xF3763846));
    Next(b, 8, 0x00000000, Digest(0x4B6AE328, 0x9E8C07D4, 0x664F8C30, 0x0FF1F290, 0xB3F52677));
    Next(b, 9, 0x00000000, Digest(0x8351F929, 0x4B6AE328, 0x27A301F5, 0x664F8C30, 0x0FF1F290));
    Next(b, 10, 0x00000000, Digest(0xFBDA9E89, 0x8351F929, 0x12DAB8CA, 0x27A301F5, 0x664F8C30));
    Next(b, 11, 0x00000000, Digest(0x63188FE4, 0xFBDA9E89, 0x60D47E4A, 0x12DAB8CA, 0x27A301F5));
    Next(b, 12, 0x00000000, Digest(0x4607B664, 0x63188FE4, 0x7EF6A7A2, 0x60D47E4A, 0x12DAB8CA));
    Next(b, 13, 0x00000000, Digest(0x9128F695, 0x4607B664, 0x18C623F9, 0x7EF6A7A2, 0x60D47E4A));
    Next(b, 14, 0x00000000, Digest(0x196BEE77, 0x9128F695, 0x1181ED99, 0x18C623F9, 0x7EF6A7A2));
    Next(b, 15, 0x00000018, Digest(0x20BDD62F, 0x196BEE77, 0x644A3DA5, 0x1181ED99, 0x18C623F9));
  }

  lemma Rounds16(b: seq<byte>)
    requires Has(b, 16, 0xC2C4C700, 0x00000000, 0x00000030, 0x85898E01, 0x00000000, 0x00000060, 0x0B131C03, 0x00000030)
    requires Has(b, 24, 0x85898EC1, 0x16263806, 0x00000000, 0x00000180, 0x2C4C700C, 0x000000F0, 0x93AFB507, 0x5898E048)
    requires After(b, 16, Digest(0x20BDD62F, 0x196BEE77, 0x644A3DA5, 0x1181ED99, 0x18C623F9))
    ensures After(b, 32, Digest(0x3B845D33, 0x1267B407, 0x717EEBD7, 0xA0DC2D4B, 0xD2AA1365))
  {
    hide W, Rounds;
    Next(b, 16, 0xC2C4C700, Digest(0x4E925823, 0x20BDD62F, 0xC65AFB9D, 0x644A3DA5, 0x1181ED99));
    Next(b, 17, 0x00000000, Digest(0x82AA6728, 0x4E925823, 0xC82F758B, 0xC65AFB9D, 0x644A3DA5));
    Next(b, 18, 0x00000030, Digest(0xDC64901D, 0x82AA6728, 0xD3A49608, 0xC82F758B, 0xC65AFB9D));
    Next(b, 19, 0x85898E01, Digest(0xFD9E1D7D, 0xDC64901D, 0x20AA99CA, 0xD3A49608, 0xC82F758B));
    Next(b, 20, 0x00000000, Digest(0x1A37B0CA, 0xFD9E1D7D, 0x77192407, 0x20AA99CA, 0xD3A49608));
    Next(b, 21, 0x00000060, Digest(0x33A23BFC, 0x1A37B0CA, 0x7F67875F, 0x77192407, 0x20AA99CA));
    Next(b, 22, 0x0B131C03, Digest(0x21283486, 0x33A23BFC, 0x868DEC32, 0x7F67875F, 0x77192407));
    Next(b, 23, 0x00000030, Digest(0xD541F12D, 0x21283486, 0x0CE88EFF, 0x868DEC32, 0x7F67875F));
    Next(b, 24, 0x85898EC1, Digest(0xC7567DC6, 0xD541F12D, 0x884A0D21, 0x0CE88EFF, 0x868DEC32));
    Next(b, 25, 0x16263806, Digest(0x48413BA4, 0xC7567DC6, 0x75507C4B, 0x884A0D21, 0x0CE88EFF));
    Next(b, 26, 0x00000000, Digest(0xBE35FBD5, 0x48413BA4, 0xB1D59F71, 0x75507C4B, 0x884A0D21));
    Next(b, 27, 0x00000180, Digest(0x4AA84D97, 0xBE35FBD5, 0x12104EE9, 0xB1D59F71, 0x75507C4B));
    Next(b, 28, 0x2C4C700C, Digest(0x8370B52E, 0x4AA84D97, 0x6F8D7EF5, 0x12104EE9, 0xB1D59F71));
    Next(b, 29, 0x000000F0, Digest(0xC5FBAF5D, 0x8370B52E, 0xD2AA1365, 0x6F8D7EF5, 0x12104EE9));
    Next(b, 30, 0x93AFB507, Digest(0x1267B407, 0xC5FBAF5D, 0xA0DC2D4B, 0xD2AA1365, 0x6F8D7EF5));
    Next(b, 31, 0x5898E048, Digest(0x3B845D33, 0x1267B407, 0x717EEBD7, 0xA0DC2D4B, 0xD2AA1365));
  }

  lemma Rounds32(b: seq<byte>)
    requires Has(b, 32, 0x8E9A9202, 0x00000600, 0xB131C0F0, 0x16263BC6, 0x4EBED41E, 0x626380A1, 0x16263806, 0x000018C0)
    requires Has(b, 40, 0xD2E138C4, 0x00000F00, 0x3AFB5079, 0x898E04E5, 0xE2BA3C2B, 0x000060C0, 0x053A37CD, 0x74458547)
    requires After(b, 32, Digest(0x3B845D33, 0x1267B407, 0x717EEBD7, 0xA0DC2D4B, 0xD2AA1365))
    ensures After(b, 48, Digest(0xBEAD02CA, 0xA01B846C, 0x8714787C, 0x503CA382, 0xFB86C6AB))
  {
    hide W, Rounds;
    Next(b, 32, 0x8E9A9202, Digest(0x046FAA0A, 0x3B845D33, 0xC499ED01, 0x717EEBD7, 0xA0DC2D4B));
    Next(b, 33, 0x00000600, Digest(0x2C0EBC11, 0x046FAA0A, 0xCEE1174C, 0xC499ED01, 0x717EEBD7));
    Next(b, 34, 0xB131C0F0, Digest(0x21796AD4, 0x2C0EBC11, 0x811BEA82, 0xCEE1174C, 0xC499ED01));
    Next(b, 35, 0x16263BC6, Digest(0xDCBBB0CB, 0x21796AD4, 0x4B03AF04, 0x811BEA82, 0xCEE1174C));
    Next(b, 36, 0x4EBED41E, Digest(0x0F511FD8, 0xDCBBB0CB, 0x085E5AB5, 0x4B03AF04, 0x811BEA82));
    Next(b, 37, 0x626380A1, Digest(0xDC63973F, 0x0F511FD8, 0xF72EEC32, 0x085E5AB5, 0x4B03AF04));
    Next(b, 38, 0x16263806, Digest(0x4C986405, 0xDC63973F, 0x03D447F6, 0xF72EEC32, 0x085E5AB5));
    Next(b, 39, 0x000018C0, Digest(0x32DE1CBA, 0x4C986405, 0xF718E5CF, 0x03D447F6, 0xF72EEC32));
    Next(b, 40, 0xD2E138C4, Digest(0xFC87DEDF, 0x32DE1CBA, 0x53261901, 0xF718E5CF, 0x03D447F6));
    Next(b, 41, 0x00000F00, Digest(0x970A0D5C, 0xFC87DEDF, 0x8CB7872E, 0x53261901, 0xF718E5CF));
    Next(b, 42, 0x3AFB5079, Digest(0x7F193DC5, 0x970A0D5C, 0xFF21F7B7, 0x8CB7872E, 0x53261901));
    Next(b, 43, 0x898E04E5, Digest(0xEE1B1AAF, 0x7F193DC5, 0x25C28357, 0xFF21F7B7, 0x8CB7872E));
    Next(b, 44, 0xE2BA3C2B, Digest(0x40F28E09, 0xEE1B1AAF, 0x5FC64F71, 0x25C28357, 0xFF21F7B7));
    Next(b, 45, 0x000060C0, Digest(0x1C51E1F2, 0x40F28E09, 0xFB86C6AB, 0x5FC64F71, 0x25C28357));
    Next(b, 46, 0x053A37CD, Digest(0xA01B846C, 0x1C51E1F2, 0x503CA382, 0xFB86C6AB, 0x5FC64F71));
    Next(b, 47, 0x74458547, Digest(0xBEAD02CA, 0xA01B846C, 0x8714787C, 0x503CA382, 0xFB86C6AB));
  }

  lemma Rounds48(b: seq<byte>)
    requires Has(b, 48, 0xDA9415ED, 0x26380A16, 0x626383A1, 0x4EBF54DE, 0x3835B44B, 0x0000F600, 0x1E84C7A3, 0x98E04D98)
    requires Has(b, 56, 0x651D16A0, 0x62658CA1, 0x458544D6, 0x44584CB7, 0x7BA06619, 0x6380AEA2, 0x0AE55269, 0x627B49A1)
    requires After(b, 48, Digest(0xBEAD02CA, 0xA01B846C, 0x8714787C, 0x503CA382, 0xFB86C6AB))
    ensures After(b, 64, Digest(0x6B61C9E1, 0xB66C020B, 0x9523272C, 0xF5D5B051, 0x8FD4B796))
  {
    hide W, Rounds;
    Next(b, 48, 0xDA9415ED, Digest(0xBAF39337, 0xBEAD02CA, 0x2806E11B, 0x8714787C, 0x503CA382));
    Next(b, 49, 0x26380A16, Digest(0x120731C5, 0xBAF39337, 0xAFAB40B2, 0x2806E11B, 0x8714787C));
    Next(b, 50, 0x626383A1, Digest(0x641DB2CE, 0x120731C5, 0xEEBCE4CD, 0xAFAB40B2, 0x2806E11B));
    Next(b, 51, 0x4EBF54DE, Digest(0x3847AD66, 0x641DB2CE, 0x4481CC71, 0xEEBCE4CD, 0xAFAB40B2));
    Next(b, 52, 0x3835B44B, Digest(0xE490436D, 0x3847AD66, 0x99076CB3, 0x4481CC71, 0xEEBCE4CD));
    Next(b, 53, 0x0000F600, Digest(0x27E9F1D8, 0xE490436D, 0x8E11EB59, 0x99076CB3, 0x4481CC71));
    Next(b, 54, 0x1E84C7A3, Digest(0x7B71F76D, 0x27E9F1D8, 0x792410DB, 0x8E11EB59, 0x99076CB3));
    Next(b, 55, 0x98E04D98, Digest(0x5E6456AF, 0x7B71F76D, 0x09FA7C76, 0x792410DB, 0x8E11EB59));
    Next(b, 56, 0x651D16A0, Digest(0xC846093F, 0x5E6456AF, 0x5EDC7DDB, 0x09FA7C76, 0x792410DB));
    Next(b, 57, 0x62658CA1, Digest(0xD262FF50, 0xC846093F, 0xD79915AB, 0x5EDC7DDB, 0x09FA7C76));
    Next(b, 58, 0x458544D6, Digest(0x09D785FD, 0xD262FF50, 0xF211824F, 0xD79915AB, 0x5EDC7DDB));
    Next(b, 59, 0x44584CB7, Digest(0x3F52DE5A, 0x09D785FD, 0x3498BFD4, 0xF211824F, 0xD79915AB));
    Next(b, 60, 0x7BA06619, Digest(0xD756C147, 0x3F52DE5A, 0x4275E17F, 0x3498BFD4, 0xF211824F));
    Next(b, 61, 0x6380AEA2, Digest(0x548C9CB2, 0xD756C147, 0x8FD4B796, 0x4275E17F, 0x3498BFD4));
    Next(b, 62, 0x0AE55269, Digest(0xB66C020B, 0x548C9CB2, 0xF5D5B051, 0x8FD4B796, 0x4275E17F));
    Next(b, 63, 0x627B49A1, Digest(0x6B61C9E1, 0xB66C020B, 0x9523272C, 0xF5D5B051, 0x8FD4B796));
  }

  lemma Rounds64(b: seq<byte>)
    requires Has(b, 64, 0x7CD45C9D, 0x000F0000, 0xFB50753A, 0xEC6765E8, 0xBA3C2BE2, 0x0060C000, 0x3A37CD05, 0x458546F4)
    requires Has(b, 72, 0xB8599DD6, 0x380A1A26, 0x01E02203, 0xE7CC3456, 0xE6E60B69, 0x00F60A00, 0x5795EF4F, 0x822E0879)
    requires After(b, 64, Digest(0x6B61C9E1, 0xB66C020B, 0x9523272C, 0xF5D5B051, 0x8FD4B796))
    ensures After(b, 80, Digest(0x42541B35, 0x5738D5E1, 0x21834873, 0x681E6DF6, 0xD8FDF6AD))
  {
    hide W, Rounds;
    Next(b, 64, 0x7CD45C9D, Digest(0x19DFA7AC, 0x6B61C9E1, 0xED9B0082, 0x9523272C, 0xF5D5B051));
    Next(b, 65, 0x000F0000, Digest(0x101655F9, 0x19DFA7AC, 0x5AD87278, 0xED9B0082, 0x9523272C));
    Next(b, 66, 0xFB50753A, Digest(0x0C3DF2B4, 0x101655F9, 0x0677E9EB, 0x5AD87278, 0xED9B0082));
    Next(b, 67, 0xEC6765E8, Digest(0x78DD4D2B, 0x0C3DF2B4, 0x4405957E, 0x0677E9EB, 0x5AD87278));
    Next(b, 68, 0xBA3C2BE2, Digest(0x497093C0, 0x78DD4D2B, 0x030F7CAD, 0x4405957E, 0x0677E9EB));
    Next(b, 69, 0x0060C000, Digest(0x3F2588C2, 0x497093C0, 0xDE37534A, 0x030F7CAD, 0x4405957E));
    Next(b, 70, 0x3A37CD05, Digest(0xC199F8C7, 0x3F2588C2, 0x125C24F0, 0xDE37534A, 0x030F7CAD));
    Next(b, 71, 0x458546F4, Digest(0x39859DE7, 0xC199F8C7, 0x8FC96230, 0x125C24F0, 0xDE37534A));
    Next(b, 72, 0xB8599DD6, Digest(0xEDB42DE4, 0x39859DE7, 0xF0667E31, 0x8FC96230, 0x125C24F0));
    Next(b, 73, 0x380A1A26, Digest(0x11793F6F, 0xEDB42DE4, 0xCE616779, 0xF0667E31, 0x8FC96230));
    Next(b, 74, 0x01E02203, Digest(0x5EE76897, 0x11793F6F, 0x3B6D0B79, 0xCE616779, 0xF0667E31));
    Next(b, 75, 0xE7CC3456, Digest(0x63F7DAB7, 0x5EE76897, 0xC45E4FDB, 0x3B6D0B79, 0xCE616779));
    Next(b, 76, 0xE6E60B69, Digest(0xA079B7D9, 0x63F7DAB7, 0xD7B9DA25, 0xC45E4FDB, 0x3B6D0B79));
    Next(b, 77, 0x00F60A00, Digest(0x860D21CC, 0xA079B7D9, 0xD8FDF6AD, 0xD7B9DA25, 0xC45E4FDB));
    Next(b, 78, 0x5795EF4F, Digest(0x5738D5E1, 0x860D21CC, 0x681E6DF6, 0xD8FDF6AD, 0xD7B9DA25));
    Next(b, 79, 0x822E0879, Digest(0x42541B35, 0x5738D5E1, 0x21834873, 0x681E6DF6, 0xD8FDF6AD));
  }

  /** The digest of "abc". */
  lemma DigestOfAbc()
    ensures Hash(ABC) == Digest(0xA9993E36, 0x4706816A, 0xBA3E2571, 0x7850C26C, 0x9CD0D89D)
  {
    hide Has, After, W, Compress, Hash, Fold, Padded;
    PaddedAbc();
    var b := Padded(ABC);
    FirstWords(b);
    Words16(b);
    Words32(b);
    Words48(b);
    Words64(b);
    StartsInitial(b);
    Rounds0(b);
    Rounds16(b);
    Rounds32(b);
    Rounds48(b);
    Rounds64(b);
    HashIs(ABC);
    OneBlock(INITIAL, b);
    LastState(b);
  }

  lemma StartsInitial(b: seq<byte>)
    requires |b| == 64
    ensures After(b, 0, Digest(0x67452301, 0xEFCDAB89, 0x98BADCFE, 0x10325476, 0xC3D2E1F0))
  {}

  lemma HashIs(msg: seq<byte>)
    ensures Hash(msg) == Fold(INITIAL, Padded(msg))
  {
    hide Fold, Padded;
  }

  lemma LastState(b: seq<byte>)
    requires After(b, 80, Digest(0x42541B35, 0x5738D5E1, 0x21834873, 0x681E6DF6, 0xD8FDF6AD))
    ensures Compress(INITIAL, b) == Digest(0xA9993E36, 0x4706816A, 0xBA3E2571, 0x7850C26C, 0x9CD0D89D)
  {
    hide Rounds;
  }
}
