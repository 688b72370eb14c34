/** Two digests of the test suite of RFC 1321, section A.5, worked through step by step: they pin down every entry of
    the tables. Source: lib/md5.c. */
module Md5Suite {
  import opened Md5
  import opened Md5Digest

  const START: Registers<Word> := Registers(0x67452301, 0xefcdab89, 0x98badcfe, 0x10325476)

  /** The block of a short message: its first word and its length in bits. */
  predicate Short(w: Block, first: Word, bits: Word) {
    w[0] == first && w[14] == bits && forall j :: 0 < j < 16 && j != 14 ==> w[j] == 0
  }

  /** One more step */
  lemma Next(w: Block, n: nat, r: Registers<Word>, x: Word)
    requires n < 64 && Turns(START, n, w) == r
    requires Mix(r.a, Choice(n, r.b, r.c, r.d), Sine(n), w[Place(n)], r.b, Amount(n)) == x
    ensures Turns(START, n + 1, w) == Registers(r.d, x, r.b, r.c)
  {
  }

  // ----- the block of a short message -----

  /** The first word of a message of at most three bytes: its bytes and the one bit. */
  function First(msg: seq<Byte>): Word
    requires |msg| <= 3
  {
    ToInt32((msg + [0x80, 0, 0, 0])[..4])
  }

  lemma NoBytes()
    ensures ToInt32([0, 0, 0, 0]) == 0 && U32(0) == 0
  {
  }

  lemma PadParts(msg: seq<Byte>)
    requires |msg| <= 3
    ensures |Pad(msg)| == 64 && Pad(msg)[0..4] == (msg + [0x80, 0, 0, 0])[..4]
    ensures Pad(msg)[56..60] == Bytes(U32(8 * |msg|)) && Pad(msg)[60..64] == Bytes(U32(0))
    ensures forall j :: 4 <= j < 56 ==> Pad(msg)[j] == 0
  {
    assert PadZeros(|msg|) == 55 - |msg|;
    hide Bytes, U32, PadZeros;
  }

  lemma ShortPad(msg: seq<Byte>)
    requires |msg| <= 3
    ensures |Pad(msg)| == 64 && Short(Words(Pad(msg)), First(msg), U32(8 * |msg|))
  {
    var p := Pad(msg);
    hide Bytes, U32, ToInt32, Pad;
    PadParts(msg);
    ToInt32UndoesBytes(U32(8 * |msg|));
    ToInt32UndoesBytes(U32(0));
    NoBytes();
    forall j | 0 < j < 14
      ensures Words(p)[j] == 0
    {
      assert p[4 * j..4 * j + 4] == [0, 0, 0, 0];
    }
  }

  /** The digest of a message of one block */
  lemma OneBlock(msg: seq<Byte>, r: Registers<Word>, h: Registers<Word>)
    requires |Pad(msg)| == 64 && Turns(START, 64, Words(Pad(msg))) == r
    requires h == Registers(0x67452301 + r.a, 0xefcdab89 + r.b, 0x98badcfe + r.c, 0x10325476 + r.d)
    ensures Digest(msg) == Output(State(h.a, h.b, h.c, h.d))
  {
    var p := Pad(msg);
    var w := Words(p);
    InitialIs();
    TurnsCompress(INITIAL, w);
    assert p[..64] == p && p[64..] == [];
    hide Turns, Compress, Words, Output, Pad;
    FoldNone(Compress(INITIAL, w));
  }

  // ----- the empty message -----

  lemma Empty8(w: Block)
    requires Short(w, 0x00000080, 0)
    ensures Turns(START, 8, w) == Registers(0x32033344, 0x9bc13ce9, 0xf5b158db, 0x2f35d494)
  {
    assert Turns(START, 0, w) == START;
    hide Turns;
    Next(w, 0, Registers(0x67452301, 0xefcdab89, 0x98badcfe, 0x10325476), 0xa5202774);
    Next(w, 1, Registers(0x10325476, 0xa5202774, 0xefcdab89, 0x98badcfe), 0xf59592dd);
    Next(w, 2, Registers(0x98badcfe, 0xf59592dd, 0xa5202774, 0xefcdab89), 0xe7f06b23);
    Next(w, 3, Registers(0xefcdab89, 0xe7f06b23, 0xf59592dd, 0xa5202774), 0x1b163203);
    Next(w, 4, Registers(0xa5202774, 0x1b163203, 0xe7f06b23, 0xf59592dd), 0x32033344);
    Next(w, 5, Registers(0xf59592dd, 0x32033344, 0x1b163203, 0xe7f06b23), 0x2f35d494);
    Next(w, 6, Registers(0xe7f06b23, 0x2f35d494, 0x32033344, 0x1b163203), 0xf5b158db);
    Next(w, 7, Registers(0x1b163203, 0xf5b158db, 0x2f35d494, 0x32033344), 0x9bc13ce9);
  }

  lemma Empty16(w: Block)
    requires Short(w, 0x00000080, 0)
    ensures Turns(START, 16, w) == Registers(0xf56c7cf1, 0xd6819c6a, 0x5aa53f75, 0x374943a7)
  {
    Empty8(w);
    hide Turns;
    Next(w, 8, Registers(0x32033344, 0x9bc13ce9, 0xf5b158db, 0x2f35d494), 0x3893b991);
    Next(w, 9, Registers(0x2f35d494, 0x3893b991, 0x9bc13ce9, 0xf5b158db), 0xfce4a312);
    Next(w, 10, Registers(0xf5b158db, 0xfce4a312, 0x3893b991, 0x9bc13ce9), 0xe1ef0576);
    Next(w, 11, Registers(0x9bc13ce9, 0xe1ef0576, 0xfce4a312, 0x3893b991), 0x70768a29);
    Next(w, 12, Registers(0x3893b991, 0x70768a29, 0xe1ef0576, 0xfce4a312), 0xf56c7cf1);
    Next(w, 13, Registers(0xfce4a312, 0xf56c7cf1, 0x70768a29, 0xe1ef0576), 0x374943a7);
    Next(w, 14, Registers(0xe1ef0576, 0x374943a7, 0xf56c7cf1, 0x70768a29), 0x5aa53f75);
    Next(w, 15, Registers(0x70768a29, 0x5aa53f75, 0x374943a7, 0xf56c7cf1), 0xd6819c6a);
  }

  lemma Empty24(w: Block)
    requires Short(w, 0x00000080, 0)
    ensures Turns(START, 24, w) == Registers(0x3d1e3e6c, 0xe422531a, 0xeb41643e, 0x68b7b3e3)
  {
    Empty16(w);
    hide Turns;
    Next(w, 16, Registers(0xf56c7cf1, 0xd6819c6a, 0x5aa53f75, 0x374943a7), 0x1c7d7513);
    Next(w, 17, Registers(0x374943a7, 0x1c7d7513, 0xd6819c6a, 0x5aa53f75), 0x7bd57a3a);
    Next(w, 18, Registers(0x5aa53f75, 0x7bd57a3a, 0x1c7d7513, 0xd6819c6a), 0xc095f13a);
    Next(w, 19, Registers(0xd6819c6a, 0xc095f13a, 0x7bd57a3a, 0x1c7d7513), 0xbd782e17);
    Next(w, 20, Registers(0x1c7d7513, 0xbd782e17, 0xc095f13a, 0x7bd57a3a), 0x3d1e3e6c);
    Next(w, 21, Registers(0x7bd57a3a, 0x3d1e3e6c, 0xbd782e17, 0xc095f13a), 0x68b7b3e3);
    Next(w, 22, Registers(0xc095f13a, 0x68b7b3e3, 0x3d1e3e6c, 0xbd782e17), 0xeb41643e);
    Next(w, 23, Registers(0xbd782e17, 0xeb41643e, 0x68b7b3e3, 0x3d1e3e6c), 0xe422531a);
  }

  lemma Empty32(w: Block)
    requires Short(w, 0x00000080, 0)
    ensures Turns(START, 32, w) == Registers(0x13707036, 0xa2205f1f, 0x1c31c384, 0xae7813db)
  {
    Empty24(w);
    hide Turns;
    Next(w, 24, Registers(0x3d1e3e6c, 0xe422531a, 0xeb41643e, 0x68b7b3e3), 0x306ec122);
    Next(w, 25, Registers(0x68b7b3e3, 0x306ec122, 0xe422531a, 0xeb41643e), 0xd28c77c2);
    Next(w, 26, Registers(0xeb41643e, 0xd28c77c2, 0x306ec122, 0xe422531a), 0xa3c663da);
    Next(w, 27, Registers(0xe422531a, 0xa3c663da, 0xd28c77c2, 0x306ec122), 0xa0572807);
    Next(w, 28, Registers(0x306ec122, 0xa0572807, 0xa3c663da, 0xd28c77c2), 0x13707036);
    Next(w, 29, Registers(0xd28c77c2, 0x13707036, 0xa0572807, 0xa3c663da), 0xae7813db);
    Next(w, 30, Registers(0xa3c663da, 0xae7813db, 0x13707036, 0xa0572807), 0x1c31c384);
    Next(w, 31, Registers(0xa0572807, 0x1c31c384, 0xae7813db, 0x13707036), 0xa2205f1f);
  }

  lemma Empty40(w: Block)
    requires Short(w, 0x00000080, 0)
    ensures Turns(START, 40, w) == Registers(0x5f7a9b2e, 0xc5dc8c15, 0x91ca4cb7, 0xabc34e16)
  {
    Empty32(w);
    hide Turns;
    Next(w, 32, Registers(0x13707036, 0xa2205f1f, 0x1c31c384, 0xae7813db), 0xdf63eaa1);
    Next(w, 33, Registers(0xae7813db, 0xdf63eaa1, 0xa2205f1f, 0x1c31c384), 0xc3689f5b);
    Next(w, 34, Registers(0x1c31c384, 0xc3689f5b, 0xdf63eaa1, 0xa2205f1f), 0x12f3e755);
    Next(w, 35, Registers(0xa2205f1f, 0x12f3e755, 0xc3689f5b, 0xdf63eaa1), 0x004b6669);
    Next(w, 36, Registers(0xdf63eaa1, 0x004b6669, 0x12f3e755, 0xc3689f5b), 0x5f7a9b2e);
    Next(w, 37, Registers(0xc3689f5b, 0x5f7a9b2e, 0x004b6669, 0x12f3e755), 0xabc34e16);
    Next(w, 38, Registers(0x12f3e755, 0xabc34e16, 0x5f7a9b2e, 0x004b6669), 0x91ca4cb7);
    Next(w, 39, Registers(0x004b6669, 0x91ca4cb7, 0xabc34e16, 0x5f7a9b2e), 0xc5dc8c15);
  }

  lemma Empty48(w: Block)
    requires Short(w, 0x00000080, 0)
    ensures Turns(START, 48, w) == Registers(0x3f55edfd, 0xca7d2dbd, 0x68d84ea2, 0x22a31f54)
  {
    Empty40(w);
    hide Turns;
    Next(w, 40, Registers(0x5f7a9b2e, 0xc5dc8c15, 0x91ca4cb7, 0xabc34e16), 0x4497169d);
    Next(w, 41, Registers(0xabc34e16, 0x4497169d, 0xc5dc8c15, 0x91ca4cb7), 0x76fd93d4);
    Next(w, 42, Registers(0x91ca4cb7, 0x76fd93d4, 0x4497169d, 0xc5dc8c15), 0xfd95f243);
    Next(w, 43, Registers(0xc5dc8c15, 0xfd95f243, 0x76fd93d4, 0x4497169d), 0x0fe32453);
    Next(w, 44, Registers(0x4497169d, 0x0fe32453, 0xfd95f243, 0x76fd93d4), 0x3f55edfd);
    Next(w, 45, Registers(0x76fd93d4, 0x3f55edfd, 0x0fe32453, 0xfd95f243), 0x22a31f54);
    Next(w, 46, Registers(0xfd95f243, 0x22a31f54, 0x3f55edfd, 0x0fe32453), 0x68d84ea2);
    Next(w, 47, Registers(0x0fe32453, 0x68d84ea2, 0x22a31f54, 0x3f55edfd), 0xca7d2dbd);
  }

  lemma Empty56(w: Block)
    requires Short(w, 0x00000080, 0)
    ensures Turns(START, 56, w) == Registers(0x5625a114, 0x1e77fa61, 0x392ad0d0, 0x3450f42b)
  {
    Empty48(w);
    hide Turns;
    Next(w, 48, Registers(0x3f55edfd, 0xca7d2dbd, 0x68d84ea2, 0x22a31f54), 0x93aa2577);
    Next(w, 49, Registers(0x22a31f54, 0x93aa2577, 0xca7d2dbd, 0x68d84ea2), 0x1688dc85);
    Next(w, 50, Registers(0x68d84ea2, 0x1688dc85, 0x93aa2577, 0xca7d2dbd), 0xcd85b8cb);
    Next(w, 51, Registers(0xca7d2dbd, 0xcd85b8cb, 0x1688dc85, 0x93aa2577), 0x561e0689);
    Next(w, 52, Registers(0x93aa2577, 0x561e0689, 0xcd85b8cb, 0x1688dc85), 0x5625a114);
    Next(w, 53, Registers(0x1688dc85, 0x5625a114, 0x561e0689, 0xcd85b8cb), 0x3450f42b);
    Next(w, 54, Registers(0xcd85b8cb, 0x3450f42b, 0x5625a114, 0x561e0689), 0x392ad0d0);
    Next(w, 55, Registers(0x561e0689, 0x392ad0d0, 0x3450f42b, 0x5625a114), 0x1e77fa61);
  }

  lemma Empty64(w: Block)
    requires Short(w, 0x00000080, 0)
    ensures Turns(START, 64, w) == Registers(0x7246fad3, 0x14e45506, 0xff4ea3eb, 0x6e10a476)
  {
    Empty56(w);
    hide Turns;
    Next(w, 56, Registers(0x5625a114, 0x1e77fa61, 0x392ad0d0, 0x3450f42b), 0x474a9c8c);
    Next(w, 57, Registers(0x3450f42b, 0x474a9c8c, 0x1e77fa61, 0x392ad0d0), 0xdfce00bc);
    Next(w, 58, Registers(0x392ad0d0, 0xdfce00bc, 0x474a9c8c, 0x1e77fa61), 0x36594b14);
    Next(w, 59, Registers(0x1e77fa61, 0x36594b14, 0xdfce00bc, 0x474a9c8c), 0x30130182);
    Next(w, 60, Registers(0x474a9c8c, 0x30130182, 0x36594b14, 0xdfce00bc), 0x7246fad3);
    Next(w, 61, Registers(0xdfce00bc, 0x7246fad3, 0x30130182, 0x36594b14), 0x6e10a476);
    Next(w, 62, Registers(0x36594b14, 0x6e10a476, 0x7246fad3, 0x30130182), 0xff4ea3eb);
    Next(w, 63, Registers(0x30130182, 0xff4ea3eb, 0x6e10a476, 0x7246fad3), 0x14e45506);
  }

  lemma EmptyFirst(msg: seq<Byte>)
    requires msg == []
    ensures |msg| <= 3 && First(msg) == 0x00000080 && U32(8 * |msg|) == 0
  {
  }

  lemma EmptyBytes()
    ensures Output(State(0xd98c1dd4, 0x04b2008f, 0x980980e9, 0x7e42f8ec)) ==
      [0xd4, 0x1d, 0x8c, 0xd9, 0x8f, 0x00, 0xb2, 0x04,
       0xe9, 0x80, 0x09, 0x98, 0xec, 0xf8, 0x42, 0x7e]
  {
  }

  /** The digest of the empty message is d41d8cd98f00b204e9800998ecf8427e. */
  lemma EmptyDigest()
    ensures Digest([]) ==
      [0xd4, 0x1d, 0x8c, 0xd9, 0x8f, 0x00, 0xb2, 0x04,
       0xe9, 0x80, 0x09, 0x98, 0xec, 0xf8, 0x42, 0x7e]
  {
    var msg: seq<Byte> := [];
    EmptyFirst(msg);
    ShortPad(msg);
    Empty64(Words(Pad(msg)));
    EmptyBytes();
    hide *;
    OneBlock(msg, Registers(0x7246fad3, 0x14e45506, 0xff4ea3eb, 0x6e10a476),
             Registers(0xd98c1dd4, 0x04b2008f, 0x980980e9, 0x7e42f8ec));
  }

  // ----- the message "abc" -----

  lemma Abc8(w: Block)
    requires Short(w, 0x80636261, 24)
    ensures Turns(START, 8, w) == Registers(0xc73741ef, 0x928d99f6, 0x207dc67b, 0x8bac3051)
  {
    assert Turns(START, 0, w) == START;
    hide Turns;
    Next(w, 0, Registers(0x67452301, 0xefcdab89, 0x98badcfe, 0x10325476), 0xd6d117b4);
    Next(w, 1, Registers(0x10325476, 0xd6d117b4, 0xefcdab89, 0x98badcfe), 0x344a8432);
    Next(w, 2, Registers(0x98badcfe, 0x344a8432, 0xd6d117b4, 0xefcdab89), 0x2f6fbd72);
    Next(w, 3, Registers(0xefcdab89, 0x2f6fbd72, 0x344a8432, 0xd6d117b4), 0x7ad956f2);
    Next(w, 4, Registers(0xd6d117b4, 0x7ad956f2, 0x2f6fbd72, 0x344a8432), 0xc73741ef);
    Next(w, 5, Registers(0x344a8432, 0xc73741ef, 0x7ad956f2, 0x2f6fbd72), 0x8bac3051);
    Next(w, 6, Registers(0x2f6fbd72, 0x8bac3051, 0xc73741ef, 0x7ad956f2), 0x207dc67b);
    Next(w, 7, Registers(0x7ad956f2, 0x207dc67b, 0x8bac3051, 0xc73741ef), 0x928d99f6);
  }

  lemma Abc16(w: Block)
    requires Short(w, 0x80636261, 24)
    ensures Turns(START, 16, w) == Registers(0xdda9b9a6, 0x72aff2e0, 0xe396856b, 0xa1051895)
  {
    Abc8(w);
    hide Turns;
    Next(w, 8, Registers(0xc73741ef, 0x928d99f6, 0x207dc67b, 0x8bac3051), 0x854b3712);
    Next(w, 9, Registers(0x8bac3051, 0x854b3712, 0x928d99f6, 0x207dc67b), 0x74e2f284);
    Next(w, 10, Registers(0x207dc67b, 0x74e2f284, 0x854b3712, 0x928d99f6), 0x3020401c);
    Next(w, 11, Registers(0x928d99f6, 0x3020401c, 0x74e2f284, 0x854b3712), 0x5ed49596);
    Next(w, 12, Registers(0x854b3712, 0x5ed49596, 0x3020401c, 0x74e2f284), 0xdda9b9a6);
    Next(w, 13, Registers(0x74e2f284, 0xdda9b9a6, 0x5ed49596, 0x3020401c), 0xa1051895);
    Next(w, 14, Registers(0x3020401c, 0xa1051895, 0xdda9b9a6, 0x5ed49596), 0xe396856b);
    Next(w, 15, Registers(0x5ed49596, 0xe396856b, 0xa1051895, 0xdda9b9a6), 0x72aff2e0);
  }

  lemma Abc24(w: Block)
    requires Short(w, 0x80636261, 24)
    ensures Turns(START, 24, w) == Registers(0x59a8ffda, 0x47092c07, 0xabfc7920, 0x6d002f1e)
  {
    Abc16(w);
    hide Turns;
    Next(w, 16, Registers(0xdda9b9a6, 0x72aff2e0, 0xe396856b, 0xa1051895), 0x3e9e9126);
    Next(w, 17, Registers(0xa1051895, 0x3e9e9126, 0x72aff2e0, 0xe396856b), 0x4a1d804e);
    Next(w, 18, Registers(0xe396856b, 0x4a1d804e, 0x3e9e9126, 0x72aff2e0), 0xe25e1652);
    Next(w, 19, Registers(0x72aff2e0, 0xe25e1652, 0x4a1d804e, 0x3e9e9126), 0xb5b204e4);
    Next(w, 20, Registers(0x3e9e9126, 0xb5b204e4, 0xe25e1652, 0x4a1d804e), 0x59a8ffda);
    Next(w, 21, Registers(0x4a1d804e, 0x59a8ffda, 0xb5b204e4, 0xe25e1652), 0x6d002f1e);
    Next(w, 22, Registers(0xe25e1652, 0x6d002f1e, 0x59a8ffda, 0xb5b204e4), 0xabfc7920);
    Next(w, 23, Registers(0xb5b204e4, 0xabfc7920, 0x6d002f1e, 0x59a8ffda), 0x47092c07);
  }

  lemma Abc32(w: Block)
    requires Short(w, 0x80636261, 24)
    ensures Turns(START, 32, w) == Registers(0x790a77fb, 0x726342d3, 0xa62884aa, 0x9f47e4f8)
  {
    Abc24(w);
    hide Turns;
    Next(w, 24, Registers(0x59a8ffda, 0x47092c07, 0xabfc7920, 0x6d002f1e), 0xb7f268cf);
    Next(w, 25, Registers(0x6d002f1e, 0xb7f268cf, 0x47092c07, 0xabfc7920), 0x09388eff);
    Next(w, 26, Registers(0xabfc7920, 0x09388eff, 0xb7f268cf, 0x47092c07), 0xfe1623b1);
    Next(w, 27, Registers(0x47092c07, 0xfe1623b1, 0x09388eff, 0xb7f268cf), 0x786acb8f);
    Next(w, 28, Registers(0xb7f268cf, 0x786acb8f, 0xfe1623b1, 0x09388eff), 0x790a77fb);
    Next(w, 29, Registers(0x09388eff, 0x790a77fb, 0x786acb8f, 0xfe1623b1), 0x9f47e4f8);
    Next(w, 30, Registers(0xfe1623b1, 0x9f47e4f8, 0x790a77fb, 0x786acb8f), 0xa62884aa);
    Next(w, 31, Registers(0x786acb8f, 0xa62884aa, 0x9f47e4f8, 0x790a77fb), 0x726342d3);
  }

  lemma Abc40(w: Block)
    requires Short(w, 0x80636261, 24)
    ensures Turns(START, 40, w) == Registers(0x21b117b9, 0x5a2f5ea5, 0x3575227e, 0x6e7429d5)
  {
    Abc32(w);
    hide Turns;
    Next(w, 32, Registers(0x790a77fb, 0x726342d3, 0xa62884aa, 0x9f47e4f8), 0xb3707ebf);
    Next(w, 33, Registers(0x9f47e4f8, 0xb3707ebf, 0x726342d3, 0xa62884aa), 0x60127b2e);
    Next(w, 34, Registers(0xa62884aa, 0x60127b2e, 0xb3707ebf, 0x726342d3), 0x8d212ff5);
    Next(w, 35, Registers(0x726342d3, 0x8d212ff5, 0x60127b2e, 0xb3707ebf), 0x3b0875c7);
    Next(w, 36, Registers(0xb3707ebf, 0x3b0875c7, 0x8d212ff5, 0x60127b2e), 0x21b117b9);
    Next(w, 37, Registers(0x60127b2e, 0x21b117b9, 0x3b0875c7, 0x8d212ff5), 0x6e7429d5);
    Next(w, 38, Registers(0x8d212ff5, 0x6e7429d5, 0x21b117b9, 0x3b0875c7), 0x3575227e);
    Next(w, 39, Registers(0x3b0875c7, 0x3575227e, 0x6e7429d5, 0x21b117b9), 0x5a2f5ea5);
  }

  lemma Abc48(w: Block)
    requires Short(w, 0x80636261, 24)
    ensures Turns(START, 48, w) == Registers(0x7f2e507b, 0x7beb9700, 0x8fae6399, 0x99d9679d)
  {
    Abc40(w);
    hide Turns;
    Next(w, 40, Registers(0x21b117b9, 0x5a2f5ea5, 0x3575227e, 0x6e7429d5), 0x11de1779);
    Next(w, 41, Registers(0x6e7429d5, 0x11de1779, 0x5a2f5ea5, 0x3575227e), 0xfadcaa38);
    Next(w, 42, Registers(0x3575227e, 0xfadcaa38, 0x11de1779, 0x5a2f5ea5), 0x31c465ca);
    Next(w, 43, Registers(0x5a2f5ea5, 0x31c465ca, 0xfadcaa38, 0x11de1779), 0x4c6124f4);
    Next(w, 44, Registers(0x11de1779, 0x4c6124f4, 0x31c465ca, 0xfadcaa38), 0x7f2e507b);
    Next(w, 45, Registers(0xfadcaa38, 0x7f2e507b, 0x4c6124f4, 0x31c465ca), 0x99d9679d);
    Next(w, 46, Registers(0x31c465ca, 0x99d9679d, 0x7f2e507b, 0x4c6124f4), 0x8fae6399);
    Next(w, 47, Registers(0x4c6124f4, 0x8fae6399, 0x99d9679d, 0x7f2e507b), 0x7beb9700);
  }

  lemma Abc56(w: Block)
    requires Short(w, 0x80636261, 24)
    ensures Turns(START, 56, w) == Registers(0x06cc5e8a, 0x3bfa2c27, 0x7d632dd0, 0x5b0d97aa)
  {
    Abc48(w);
    hide Turns;
    Next(w, 48, Registers(0x7f2e507b, 0x7beb9700, 0x8fae6399, 0x99d9679d), 0x7b201df8);
    Next(w, 49, Registers(0x99d9679d, 0x7b201df8, 0x7beb9700, 0x8fae6399), 0xf4e8e96e);
    Next(w, 50, Registers(0x8fae6399, 0xf4e8e96e, 0x7b201df8, 0x7beb9700), 0xb298cefd);
    Next(w, 51, Registers(0x7beb9700, 0xb298cefd, 0xf4e8e96e, 0x7b201df8), 0x8bf025c4);
    Next(w, 52, Registers(0x7b201df8, 0x8bf025c4, 0xb298cefd, 0xf4e8e96e), 0x06cc5e8a);
    Next(w, 53, Registers(0xf4e8e96e, 0x06cc5e8a, 0x8bf025c4, 0xb298cefd), 0x5b0d97aa);
    Next(w, 54, Registers(0xb298cefd, 0x5b0d97aa, 0x06cc5e8a, 0x8bf025c4), 0x7d632dd0);
    Next(w, 55, Registers(0x8bf025c4, 0x7d632dd0, 0x5b0d97aa, 0x06cc5e8a), 0x3bfa2c27);
  }

  lemma Abc64(w: Block)
    requires Short(w, 0x80636261, 24)
    ensures Turns(START, 64, w) == Registers(0x310ade8f, 0xc08226b3, 0xe484b9d8, 0x624d8cb2)
  {
    Abc56(w);
    hide Turns;
    Next(w, 56, Registers(0x06cc5e8a, 0x3bfa2c27, 0x7d632dd0, 0x5b0d97aa), 0x7f81cc35);
    Next(w, 57, Registers(0x5b0d97aa, 0x7f81cc35, 0x3bfa2c27, 0x7d632dd0), 0x094454ab);
    Next(w, 58, Registers(0x7d632dd0, 0x094454ab, 0x7f81cc35, 0x3bfa2c27), 0x4f9dbe3f);
    Next(w, 59, Registers(0x3bfa2c27, 0x4f9dbe3f, 0x094454ab, 0x7f81cc35), 0x7327d604);
    Next(w, 60, Registers(0x7f81cc35, 0x7327d604, 0x4f9dbe3f, 0x094454ab), 0x310ade8f);
    Next(w, 61, Registers(0x094454ab, 0x310ade8f, 0x7327d604, 0x4f9dbe3f), 0x624d8cb2);
    Next(w, 62, Registers(0x4f9dbe3f, 0x624d8cb2, 0x310ade8f, 0x7327d604), 0xe484b9d8);
    Next(w, 63, Registers(0x7327d604, 0xe484b9d8, 0x624d8cb2, 0x310ade8f), 0xc08226b3);
  }

  lemma AbcFirst(msg: seq<Byte>)
    requires msg == [0x61, 0x62, 0x63]
    ensures |msg| <= 3 && First(msg) == 0x80636261 && U32(8 * |msg|) == 24
  {
  }

  lemma AbcBytes()
    ensures Output(State(0x98500190, 0xb04fd23c, 0x7d3f96d6, 0x727fe128)) ==
      [0x90, 0x01, 0x50, 0x98, 0x3c, 0xd2, 0x4f, 0xb0,
       0xd6, 0x96, 0x3f, 0x7d, 0x28, 0xe1, 0x7f, 0x72]
  {
  }

  /** The digest of "abc" is 900150983cd24fb0d6963f7d28e17f72. */
  lemma AbcDigest()
    ensures Digest([0x61, 0x62, 0x63]) ==
      [0x90, 0x01, 0x50, 0x98, 0x3c, 0xd2, 0x4f, 0xb0,
       0xd6, 0x96, 0x3f, 0x7d, 0x28, 0xe1, 0x7f, 0x72]
  {
    var msg: seq<Byte> := [0x61, 0x62, 0x63];
    AbcFirst(msg);
    ShortPad(msg);
    Abc64(Words(Pad(msg)));
    AbcBytes();
    hide *;
    OneBlock(msg, Registers(0x310ade8f, 0xc08226b3, 0xe484b9d8, 0x624d8cb2),
             Registers(0x98500190, 0xb04fd23c, 0x7d3f96d6, 0x727fe128));
  }
}
