/** The standard's own example (FIPS 180-2, appendix A.1): the SHA-1 of "abc", with the schedule and the working variables
    of every round as its table gives them. */
module Sha1Example {
  import opened Sha1Spec

  /** The one padded block of "abc". */
  function Block(): (b: seq<Byte>)
    ensures |b| == BLOCK
  {
    [0x61, 0x62, 0x63, 0x80] + Zeros(59) + [24]
  }

  ghost predicate Words0(b: seq<Byte>)
    requires |b| == BLOCK
  {
    && W(b, 0) == 0x61626380 && W(b, 1) == 0x00000000 && W(b, 2) == 0x00000000 && W(b, 3) == 0x00000000
    && W(b, 4) == 0x00000000 && W(b, 5) == 0x00000000 && W(b, 6) == 0x00000000 && W(b, 7) == 0x00000000
    && W(b, 8) == 0x00000000 && W(b, 9) == 0x00000000 && W(b, 10) == 0x00000000 && W(b, 11) == 0x00000000
    && W(b, 12) == 0x00000000 && W(b, 13) == 0x00000000 && W(b, 14) == 0x00000000 && W(b, 15) == 0x00000018
  }

  ghost predicate Words16(b: seq<Byte>)
    requires |b| == BLOCK
  {
    && W(b, 16) == 0xC2C4C700 && W(b, 17) == 0x00000000 && W(b, 18) == 0x00000030 && W(b, 19) == 0x85898E01
    && W(b, 20) == 0x00000000 && W(b, 21) == 0x00000060 && W(b, 22) == 0x0B131C03 && W(b, 23) == 0x00000030
    && W(b, 24) == 0x85898EC1 && W(b, 25) == 0x16263806 && W(b, 26) == 0x00000000 && W(b, 27) == 0x00000180
    && W(b, 28) == 0x2C4C700C && W(b, 29) == 0x000000F0 && W(b, 30) == 0x93AFB507 && W(b, 31) == 0x5898E048
  }

  ghost predicate Words32(b: seq<Byte>)
    requires |b| == BLOCK
  {
    && W(b, 32) == 0x8E9A9202 && W(b, 33) == 0x00000600 && W(b, 34) == 0xB131C0F0 && W(b, 35) == 0x16263BC6
    && W(b, 36) == 0x4EBED41E && W(b, 37) == 0x626380A1 && W(b, 38) == 0x16263806 && W(b, 39) == 0x000018C0
    && W(b, 40) == 0xD2E138C4 && W(b, 41) == 0x00000F00 && W(b, 42) == 0x3AFB5079 && W(b, 43) == 0x898E04E5
    && W(b, 44) == 0xE2BA3C2B && W(b, 45) == 0x000060C0 && W(b, 46) == 0x053A37CD && W(b, 47) == 0x74458547
  }

  ghost predicate Words48(b: seq<Byte>)
    requires |b| == BLOCK
  {
    && W(b, 48) == 0xDA9415ED && W(b, 49) == 0x26380A16 && W(b, 50) == 0x626383A1 && W(b, 51) == 0x4EBF54DE
    && W(b, 52) == 0x3835B44B && W(b, 53) == 0x0000F600 && W(b, 54) == 0x1E84C7A3 && W(b, 55) == 0x98E04D98
    && W(b, 56) == 0x651D16A0 && W(b, 57) == 0x62658CA1 && W(b, 58) == 0x458544D6 && W(b, 59) == 0x44584CB7
    && W(b, 60) == 0x7BA06619 && W(b, 61) == 0x6380AEA2 && W(b, 62) == 0x0AE55269 && W(b, 63) == 0x627B49A1
  }

  ghost predicate Words64(b: seq<Byte>)
    requires |b| == BLOCK
  {
    && W(b, 64) == 0x7CD45C9D && W(b, 65) == 0x000F0000 && W(b, 66) == 0xFB50753A && W(b, 67) == 0xEC6765E8
    && W(b, 68) == 0xBA3C2BE2 && W(b, 69) == 0x0060C000 && W(b, 70) == 0x3A37CD05 && W(b, 71) == 0x458546F4
    && W(b, 72) == 0xB8599DD6 && W(b, 73) == 0x380A1A26 && W(b, 74) == 0x01E02203 && W(b, 75) == 0xE7CC3456
    && W(b, 76) == 0xE6E60B69 && W(b, 77) == 0x00F60A00 && W(b, 78) == 0x5795EF4F && W(b, 79) == 0x822E0879
  }

  /** The bytes of "abc" and of its padding, word by word. */
  lemma FirstWords()
    ensures Words0(Block())
  {
    var b := Block();
    assert b[0..4] == [0x61, 0x62, 0x63, 0x80] && b[60..64] == [0, 0, 0, 24];
    forall t: nat | 0 < t < 15 ensures b[4*t..4*t+4] == [0, 0, 0, 0] {
    }
    hide Block;
    assert W(b, 0) == WordOf(b[0..4]);
    assert W(b, 15) == WordOf(b[60..64]);
    forall t: nat | 0 < t < 15 ensures W(b, t) == 0 {
      assert W(b, t) == WordOf(b[4*t..4*t+4]);
    }
    hide W, WordOf;
  }

  lemma NextWords16(b: seq<Byte>)
    requires |b| == BLOCK && Words0(b)
    ensures Words16(b)
  {
  }

  lemma NextWords32(b: seq<Byte>)
    requires |b| == BLOCK && Words16(b)
    ensures Words32(b)
  {
  }

  lemma NextWords48(b: seq<Byte>)
    requires |b| == BLOCK && Words32(b)
    ensures Words48(b)
  {
  }

  lemma NextWords64(b: seq<Byte>)
    requires |b| == BLOCK && Words48(b)
    ensures Words64(b)
  {
  }

  lemma Rounds0To20(b: seq<Byte>)
    requires |b| == BLOCK && Words0(b) && Words16(b)
    ensures Rounds(IV, b, 20) == Hash(0xFD9E1D7D, 0xDC64901D, 0x20AA99CA, 0xD3A49608, 0xC82F758B)
  {
    assert Rounds(IV, b, 0) == Hash(0x67452301, 0xEFCDAB89, 0x98BADCFE, 0x10325476, 0xC3D2E1F0);
    assert Rounds(IV, b, 1) == Hash(0x0116FC33, 0x67452301, 0x7BF36AE2, 0x98BADCFE, 0x10325476);
    assert Rounds(IV, b, 2) == Hash(0x8990536D, 0x0116FC33, 0x59D148C0, 0x7BF36AE2, 0x98BADCFE);
    assert Rounds(IV, b, 3) == Hash(0xA1390F08, 0x8990536D, 0xC045BF0C, 0x59D148C0, 0x7BF36AE2);
    assert Rounds(IV, b, 4) == Hash(0xCDD8E11B, 0xA1390F08, 0x626414DB, 0xC045BF0C, 0x59D148C0);
    assert Rounds(IV, b, 5) == Hash(0xCFD499DE, 0xCDD8E11B, 0x284E43C2, 0x626414DB, 0xC045BF0C);
    assert Rounds(IV, b, 6) == Hash(0x3FC7CA40, 0xCFD499DE, 0xF3763846, 0x284E43C2, 0x626414DB);
    assert Rounds(IV, b, 7) == Hash(0x993E30C1, 0x3FC7CA40, 0xB3F52677, 0xF3763846, 0x284E43C2);
    assert Rounds(IV, b, 8) == Hash(0x9E8C07D4, 0x993E30C1, 0x0FF1F290, 0xB3F52677, 0xF3763846);
    assert Rounds(IV, b, 9) == Hash(0x4B6AE328, 0x9E8C07D4, 0x664F8C30, 0x0FF1F290, 0xB3F52677);
    assert Rounds(IV, b, 10) == Hash(0x8351F929, 0x4B6AE328, 0x27A301F5, 0x664F8C30, 0x0FF1F290);
    assert Rounds(IV, b, 11) == Hash(0xFBDA9E89, 0x8351F929, 0x12DAB8CA, 0x27A301F5, 0x664F8C30);
    assert Rounds(IV, b, 12) == Hash(0x63188FE4, 0xFBDA9E89, 0x60D47E4A, 0x12DAB8CA, 0x27A301F5);
    assert Rounds(IV, b, 13) == Hash(0x4607B664, 0x63188FE4, 0x7EF6A7A2, 0x60D47E4A, 0x12DAB8CA);
    assert Rounds(IV, b, 14) == Hash(0x9128F695, 0x4607B664, 0x18C623F9, 0x7EF6A7A2, 0x60D47E4A);
    assert Rounds(IV, b, 15) == Hash(0x196BEE77, 0x9128F695, 0x1181ED99, 0x18C623F9, 0x7EF6A7A2);
    assert Rounds(IV, b, 16) == Hash(0x20BDD62F, 0x196BEE77, 0x644A3DA5, 0x1181ED99, 0x18C623F9);
    assert Rounds(IV, b, 17) == Hash(0x4E925823, 0x20BDD62F, 0xC65AFB9D, 0x644A3DA5, 0x1181ED99);
    assert Rounds(IV, b, 18) == Hash(0x82AA6728, 0x4E925823, 0xC82F758B, 0xC65AFB9D, 0x644A3DA5);
    assert Rounds(IV, b, 19) == Hash(0xDC64901D, 0x82AA6728, 0xD3A49608, 0xC82F758B, 0xC65AFB9D);
    assert Rounds(IV, b, 20) == Hash(0xFD9E1D7D, 0xDC64901D, 0x20AA99CA, 0xD3A49608, 0xC82F758B);
  }

  lemma Rounds20To40(b: seq<Byte>)
    requires |b| == BLOCK && Words16(b) && Words32(b) && Rounds(IV, b, 20) == Hash(0xFD9E1D7D, 0xDC64901D, 0x20AA99CA, 0xD3A49608, 0xC82F758B)
    ensures Rounds(IV, b, 40) == Hash(0x32DE1CBA, 0x4C986405, 0xF718E5CF, 0x03D447F6, 0xF72EEC32)
  {
    assert Rounds(IV, b, 21) == Hash(0x1A37B0CA, 0xFD9E1D7D, 0x77192407, 0x20AA99CA, 0xD3A49608);
    assert Rounds(IV, b, 22) == Hash(0x33A23BFC, 0x1A37B0CA, 0x7F67875F, 0x77192407, 0x20AA99CA);
    assert Rounds(IV, b, 23) == Hash(0x21283486, 0x33A23BFC, 0x868DEC32, 0x7F67875F, 0x77192407);
    assert Rounds(IV, b, 24) == Hash(0xD541F12D, 0x21283486, 0x0CE88EFF, 0x868DEC32, 0x7F67875F);
    assert Rounds(IV, b, 25) == Hash(0xC7567DC6, 0xD541F12D, 0x884A0D21, 0x0CE88EFF, 0x868DEC32);
    assert Rounds(IV, b, 26) == Hash(0x48413BA4, 0xC7567DC6, 0x75507C4B, 0x884A0D21, 0x0CE88EFF);
    assert Rounds(IV, b, 27) == Hash(0xBE35FBD5, 0x48413BA4, 0xB1D59F71, 0x75507C4B, 0x884A0D21);
    assert Rounds(IV, b, 28) == Hash(0x4AA84D97, 0xBE35FBD5, 0x12104EE9, 0xB1D59F71, 0x75507C4B);
    assert Rounds(IV, b, 29) == Hash(0x8370B52E, 0x4AA84D97, 0x6F8D7EF5, 0x12104EE9, 0xB1D59F71);
    assert Rounds(IV, b, 30) == Hash(0xC5FBAF5D, 0x8370B52E, 0xD2AA1365, 0x6F8D7EF5, 0x12104EE9);
    assert Rounds(IV, b, 31) == Hash(0x1267B407, 0xC5FBAF5D, 0xA0DC2D4B, 0xD2AA1365, 0x6F8D7EF5);
    assert Rounds(IV, b, 32) == Hash(0x3B845D33, 0x1267B407, 0x717EEBD7, 0xA0DC2D4B, 0xD2AA1365);
    assert Rounds(IV, b, 33) == Hash(0x046FAA0A, 0x3B845D33, 0xC499ED01, 0x717EEBD7, 0xA0DC2D4B);
    assert Rounds(IV, b, 34) == Hash(0x2C0EBC11, 0x046FAA0A, 0xCEE1174C, 0xC499ED01, 0x717EEBD7);
    assert Rounds(IV, b, 35) == Hash(0x21796AD4, 0x2C0EBC11, 0x811BEA82, 0xCEE1174C, 0xC499ED01);
    assert Rounds(IV, b, 36) == Hash(0xDCBBB0CB, 0x21796AD4, 0x4B03AF04, 0x811BEA82, 0xCEE1174C);
    assert Rounds(IV, b, 37) == Hash(0x0F511FD8, 0xDCBBB0CB, 0x085E5AB5, 0x4B03AF04, 0x811BEA82);
    assert Rounds(IV, b, 38) == Hash(0xDC63973F, 0x0F511FD8, 0xF72EEC32, 0x085E5AB5, 0x4B03AF04);
    assert Rounds(IV, b, 39) == Hash(0x4C986405, 0xDC63973F, 0x03D447F6, 0xF72EEC32, 0x085E5AB5);
    assert Rounds(IV, b, 40) == Hash(0x32DE1CBA, 0x4C986405, 0xF718E5CF, 0x03D447F6, 0xF72EEC32);
  }

  lemma Rounds40To60(b: seq<Byte>)
    requires |b| == BLOCK && Words32(b) && Words48(b) && Rounds(IV, b, 40) == Hash(0x32DE1CBA, 0x4C986405, 0xF718E5CF, 0x03D447F6, 0xF72EEC32)
    ensures Rounds(IV, b, 60) == Hash(0x3F52DE5A, 0x09D785FD, 0x3498BFD4, 0xF211824F, 0xD79915AB)
  {
    assert Rounds(IV, b, 41) == Hash(0xFC87DEDF, 0x32DE1CBA, 0x53261901, 0xF718E5CF, 0x03D447F6);
    assert Rounds(IV, b, 42) == Hash(0x970A0D5C, 0xFC87DEDF, 0x8CB7872E, 0x53261901, 0xF718E5CF);
    assert Rounds(IV, b, 43) == Hash(0x7F193DC5, 0x970A0D5C, 0xFF21F7B7, 0x8CB7872E, 0x53261901);
    assert Rounds(IV, b, 44) == Hash(0xEE1B1AAF, 0x7F193DC5, 0x25C28357, 0xFF21F7B7, 0x8CB7872E);
    assert Rounds(IV, b, 45) == Hash(0x40F28E09, 0xEE1B1AAF, 0x5FC64F71, 0x25C28357, 0xFF21F7B7);
    assert Rounds(IV, b, 46) == Hash(0x1C51E1F2, 0x40F28E09, 0xFB86C6AB, 0x5FC64F71, 0x25C28357);
    assert Rounds(IV, b, 47) == Hash(0xA01B846C, 0x1C51E1F2, 0x503CA382, 0xFB86C6AB, 0x5FC64F71);
    assert Rounds(IV, b, 48) == Hash(0xBEAD02CA, 0xA01B846C, 0x8714787C, 0x503CA382, 0xFB86C6AB);
    assert Rounds(IV, b, 49) == Hash(0xBAF39337, 0xBEAD02CA, 0x2806E11B, 0x8714787C, 0x503CA382);
    assert Rounds(IV, b, 50) == Hash(0x120731C5, 0xBAF39337, 0xAFAB40B2, 0x2806E11B, 0x8714787C);
    assert Rounds(IV, b, 51) == Hash(0x641DB2CE, 0x120731C5, 0xEEBCE4CD, 0xAFAB40B2, 0x2806E11B);
    assert Rounds(IV, b, 52) == Hash(0x3847AD66, 0x641DB2CE, 0x4481CC71, 0xEEBCE4CD, 0xAFAB40B2);
    assert Rounds(IV, b, 53) == Hash(0xE490436D, 0x3847AD66, 0x99076CB3, 0x4481CC71, 0xEEBCE4CD);
    assert Rounds(IV, b, 54) == Hash(0x27E9F1D8, 0xE490436D, 0x8E11EB59, 0x99076CB3, 0x4481CC71);
    assert Rounds(IV, b, 55) == Hash(0x7B71F76D, 0x27E9F1D8, 0x792410DB, 0x8E11EB59, 0x99076CB3);
    assert Rounds(IV, b, 56) == Hash(0x5E6456AF, 0x7B71F76D, 0x09FA7C76, 0x792410DB, 0x8E11EB59);
    assert Rounds(IV, b, 57) == Hash(0xC846093F, 0x5E6456AF, 0x5EDC7DDB, 0x09FA7C76, 0x792410DB);
    assert Rounds(IV, b, 58) == Hash(0xD262FF50, 0xC846093F, 0xD79915AB, 0x5EDC7DDB, 0x09FA7C76);
    assert Rounds(IV, b, 59) == Hash(0x09D785FD, 0xD262FF50, 0xF211824F, 0xD79915AB, 0x5EDC7DDB);
    assert Rounds(IV, b, 60) == Hash(0x3F52DE5A, 0x09D785FD, 0x3498BFD4, 0xF211824F, 0xD79915AB);
  }

  lemma Rounds60To80(b: seq<Byte>)
    requires |b| == BLOCK && Words48(b) && Words64(b) && Rounds(IV, b, 60) == Hash(0x3F52DE5A, 0x09D785FD, 0x3498BFD4, 0xF211824F, 0xD79915AB)
    ensures Rounds(IV, b, 80) == Hash(0x42541B35, 0x5738D5E1, 0x21834873, 0x681E6DF6, 0xD8FDF6AD)
  {
    assert Rounds(IV, b, 61) == Hash(0xD756C147, 0x3F52DE5A, 0x4275E17F, 0x3498BFD4, 0xF211824F);
    assert Rounds(IV, b, 62) == Hash(0x548C9CB2, 0xD756C147, 0x8FD4B796, 0x4275E17F, 0x3498BFD4);
    assert Rounds(IV, b, 63) == Hash(0xB66C020B, 0x548C9CB2, 0xF5D5B051, 0x8FD4B796, 0x4275E17F);
    assert Rounds(IV, b, 64) == Hash(0x6B61C9E1, 0xB66C020B, 0x9523272C, 0xF5D5B051, 0x8FD4B796);
    assert Rounds(IV, b, 65) == Hash(0x19DFA7AC, 0x6B61C9E1, 0xED9B0082, 0x9523272C, 0xF5D5B051);
    assert Rounds(IV, b, 66) == Hash(0x101655F9, 0x19DFA7AC, 0x5AD87278, 0xED9B0082, 0x9523272C);
    assert Rounds(IV, b, 67) == Hash(0x0C3DF2B4, 0x101655F9, 0x0677E9EB, 0x5AD87278, 0xED9B0082);
    assert Rounds(IV, b, 68) == Hash(0x78DD4D2B, 0x0C3DF2B4, 0x4405957E, 0x0677E9EB, 0x5AD87278);
    assert Rounds(IV, b, 69) == Hash(0x497093C0, 0x78DD4D2B, 0x030F7CAD, 0x4405957E, 0x0677E9EB);
    assert Rounds(IV, b, 70) == Hash(0x3F2588C2, 0x497093C0, 0xDE37534A, 0x030F7CAD, 0x4405957E);
    assert Rounds(IV, b, 71) == Hash(0xC199F8C7, 0x3F2588C2, 0x125C24F0, 0xDE37534A, 0x030F7CAD);
    assert Rounds(IV, b, 72) == Hash(0x39859DE7, 0xC199F8C7, 0x8FC96230, 0x125C24F0, 0xDE37534A);
    assert Rounds(IV, b, 73) == Hash(0xEDB42DE4, 0x39859DE7, 0xF0667E31, 0x8FC96230, 0x125C24F0);
    assert Rounds(IV, b, 74) == Hash(0x11793F6F, 0xEDB42DE4, 0xCE616779, 0xF0667E31, 0x8FC96230);
    assert Rounds(IV, b, 75) == Hash(0x5EE76897, 0x11793F6F, 0x3B6D0B79, 0xCE616779, 0xF0667E31);
    assert Rounds(IV, b, 76) == Hash(0x63F7DAB7, 0x5EE76897, 0xC45E4FDB, 0x3B6D0B79, 0xCE616779);
    assert Rounds(IV, b, 77) == Hash(0xA079B7D9, 0x63F7DAB7, 0xD7B9DA25, 0xC45E4FDB, 0x3B6D0B79);
    assert Rounds(IV, b, 78) == Hash(0x860D21CC, 0xA079B7D9, 0xD8FDF6AD, 0xD7B9DA25, 0xC45E4FDB);
    assert Rounds(IV, b, 79) == Hash(0x5738D5E1, 0x860D21CC, 0x681E6DF6, 0xD8FDF6AD, 0xD7B9DA25);
    assert Rounds(IV, b, 80) == Hash(0x42541B35, 0x5738D5E1, 0x21834873, 0x681E6DF6, 0xD8FDF6AD);
  }

  lemma Padded()
    ensures Pad([0x61, 0x62, 0x63]) == Block()
  {
    assert ZeroCount(3) == 52;
    CountIs24();
    hide ZeroCount, BitCount;
  }

  lemma CountIs24()
    ensures BitCount(24) == [0, 0, 0, 0, 0, 0, 0, 24]
  {
    assert LowByte(24) == 24 && LowByte(0) == 0;
    hide LowByte;
    forall i | 0 < i < 8 ensures ByteAt(24, i) == 0 {
      assert 24 / 256 == 0 && ByteAt(24, i) == ByteAt(0, i - 1);
      NoHighBytes(i - 1);
    }
  }

  lemma {:induction false} NoHighBytes(i: nat)
    ensures ByteAt(0, i) == LowByte(0)
  {
    hide LowByte;
    if i > 0 { NoHighBytes(i - 1); }
  }

  lemma OneBlock(b: seq<Byte>)
    requires |b| == BLOCK
    ensures HashBlocks(b) == Compress(IV, b)
  {
    hide Compress, IV;
    assert b[..0] == [] && b[0..] == b;
  }

  /** SHA-1("abc"). */
  lemma Abc()
    ensures Sha1Spec.Sha1([0x61, 0x62, 0x63]) ==
      [0xA9, 0x99, 0x3E, 0x36, 0x47, 0x06, 0x81, 0x6A, 0xBA, 0x3E, 0x25, 0x71, 0x78, 0x50, 0xC2, 0x6C, 0x9C, 0xD0, 0xD8, 0x9D]
  {
    hide W, Rounds, Block, Pad, Compress, HashBlocks, Words0, Words16, Words32, Words48, Words64;
    var b := Block();
    FirstWords();
    NextWords16(b);
    NextWords32(b);
    NextWords48(b);
    NextWords64(b);
    Rounds0To20(b);
    Rounds20To40(b);
    Rounds40To60(b);
    Rounds60To80(b);
    Padded();
    OneBlock(b);
    Summed(b);
  }

  lemma Summed(b: seq<Byte>)
    requires |b| == BLOCK && Rounds(IV, b, 80) == Hash(0x42541B35, 0x5738D5E1, 0x21834873, 0x681E6DF6, 0xD8FDF6AD)
    ensures Compress(IV, b) == Hash(0xA9993E36, 0x4706816A, 0xBA3E2571, 0x7850C26C, 0x9CD0D89D)
  {
    hide Rounds;
  }
}
