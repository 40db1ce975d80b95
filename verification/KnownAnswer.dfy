/** The digest of the empty message, step by step: the first answer of appendix A.5 of RFC 1321. */
module KnownAnswer {
  import opened Bytes
  import opened Md5Block
  import opened Md5

  /** The sixteen words of the one block the empty message is padded to. */
  predicate IsEmptyBlock(x: seq<Word>) {
    |x| == 16 && x[0] == 0x80 && forall i :: 0 < i < 16 ==> x[i] == 0
  }

  /** The mixing function of step `n`. */
  function Mixed(n: nat, x: Word, y: Word, z: Word): Word {
    if n < 16 then F(x, y, z) else if n < 32 then G(x, y, z) else if n < 48 then H(x, y, z) else I(x, y, z)
  }

  /**
    One more step of a round: `m` is the mixing function's value, `v` and `w` the sums it goes into, `y` their
    sum with the first register, and `z` that sum turned.
   */
  lemma Next(n: nat, i: nat, start: Quad<Word>, q: Quad<Word>, x: seq<Word>,
             m: Word, v: Word, w: Word, y: Word, z: Word, r: Word)
    requires n + i < 64 && |x| == 16 && Rounds(Word32(), n, i, start, x) == q
    requires m == Mixed(n + i, q.b, q.c, q.d) && v == Plus(m, x[Index(n + i)]) && w == Plus(v, Sine(n + i))
    requires y == Plus(q.a, w) && z == RotateLeft(y, Shift(n + i)) && r == Plus(z, q.b)
    ensures Rounds(Word32(), n, i + 1, start, x) == Quad(q.d, r, q.b, q.c)
  {
    hide F, G, H, I, Plus, RotateLeft, Sine, Shift, Index;
  }

  lemma EmptyRound1(x: seq<Word>)
    requires IsEmptyBlock(x)
    ensures Rounds(Word32(), 0, 16, Quad(0x67452301, 0xefcdab89, 0x98badcfe, 0x10325476), x)
      == Quad(0xf56c7cf1, 0xd6819c6a, 0x5aa53f75, 0x374943a7)
  {
    hide Word32, Step;
    var q: Quad<Word> := Quad(0x67452301, 0xefcdab89, 0x98badcfe, 0x10325476);
    Next(0, 0, q, Quad(0x67452301, 0xefcdab89, 0x98badcfe, 0x10325476), x,
      0x98badcfe, 0x98badd7e, 0x702581f6, 0xd76aa4f7, 0xb5527beb, 0xa5202774);
    Next(0, 1, q, Quad(0x10325476, 0xa5202774, 0xefcdab89, 0x98badcfe), x,
      0xbd9afb8a, 0xbd9afb8a, 0xa662b2e0, 0xb6950756, 0x50756b69, 0xf59592dd);
    Next(0, 2, q, Quad(0x98badcfe, 0xf59592dd, 0xa5202774, 0xefcdab89), x,
      0xaf482b54, 0xaf482b54, 0xd3689c2f, 0x6c23792d, 0xf25ad846, 0xe7f06b23);
    Next(0, 3, q, Quad(0xefcdab89, 0xe7f06b23, 0xf59592dd, 0xa5202774), x,
      0xe5900655, 0xe5900655, 0xa74dd543, 0x971b80cc, 0x3325c6e0, 0x1b163203);
    Next(0, 4, q, Quad(0xa5202774, 0x1b163203, 0xe7f06b23, 0xf59592dd), x,
      0xe791a2df, 0xe791a2df, 0xdd0db28e, 0x822dda02, 0x16ed0141, 0x32033344);
    Next(0, 5, q, Quad(0xf59592dd, 0x32033344, 0x1b163203, 0xe7f06b23), x,
      0xd7f27a23, 0xd7f27a23, 0x1f7a404d, 0x150fd32a, 0xfd32a150, 0x2f35d494);
    Next(0, 6, q, Quad(0xe7f06b23, 0x2f35d494, 0x32033344, 0x1b163203), x,
      0x32033207, 0x32033207, 0xda33781a, 0xc223e33d, 0xc67b8447, 0xf5b158db);
    Next(0, 7, q, Quad(0x1b163203, 0xf5b158db, 0x2f35d494, 0x32033344), x,
      0x27337394, 0x27337394, 0x247a0895, 0x3f903a98, 0xa60fe40e, 0x9bc13ce9);
    Next(0, 8, q, Quad(0x32033344, 0x9bc13ce9, 0xf5b158db, 0x2f35d494), x,
      0xb5b5d8dd, 0xb5b5d8dd, 0x1f3671b5, 0x5139a4f9, 0x9cd27ca8, 0x3893b991);
    Next(0, 9, q, Quad(0x2f35d494, 0x3893b991, 0x9bc13ce9, 0xf5b158db), x,
      0xdda178cb, 0xdda178cb, 0x68e6707a, 0x981c450e, 0xc450e981, 0xfce4a312);
    Next(0, 10, q, Quad(0xf5b158db, 0xfce4a312, 0x3893b991, 0x9bc13ce9), x,
      0x3b81bdf9, 0x3b81bdf9, 0x3b8119aa, 0x31327285, 0xe50a6264, 0xe1ef0576);
    Next(0, 11, q, Quad(0x9bc13ce9, 0xe1ef0576, 0xfce4a312, 0x3893b991), x,
      0xf8f4b993, 0xf8f4b993, 0x82519151, 0x1e12ce3a, 0x8e8784b3, 0x70768a29);
    Next(0, 12, q, Quad(0x3893b991, 0x70768a29, 0xe1ef0576, 0xfce4a312), x,
      0xece62132, 0xece62132, 0x58763254, 0x9109ebe5, 0x84f5f2c8, 0xf56c7cf1);
    Next(0, 13, q, Quad(0xfce4a312, 0xf56c7cf1, 0x70768a29, 0xe1ef0576), x,
      0x70e70927, 0x70e70927, 0x6e7f7aba, 0x6b641dcc, 0x41dcc6b6, 0x374943a7);
    Next(0, 14, q, Quad(0xe1ef0576, 0x374943a7, 0xf56c7cf1, 0x70768a29), x,
      0x757ec8a9, 0x757ec8a9, 0x1bf80c37, 0xfde711ad, 0x235bfbce, 0x5aa53f75);
    Next(0, 15, q, Quad(0x70768a29, 0x5aa53f75, 0x374943a7, 0xf56c7cf1), x,
      0xb74943a5, 0xb74943a5, 0x00fd4bc6, 0x7173d5ef, 0x7bdc5cf5, 0xd6819c6a);
  }

  lemma EmptyRound2(x: seq<Word>)
    requires IsEmptyBlock(x)
    ensures Rounds(Word32(), 16, 16, Quad(0xf56c7cf1, 0xd6819c6a, 0x5aa53f75, 0x374943a7), x)
      == Quad(0x13707036, 0xa2205f1f, 0x1c31c384, 0xae7813db)
  {
    hide Word32, Step;
    var q: Quad<Word> := Quad(0xf56c7cf1, 0xd6819c6a, 0x5aa53f75, 0x374943a7);
    Next(16, 0, q, Quad(0xf56c7cf1, 0xd6819c6a, 0x5aa53f75, 0x374943a7), x,
      0x5ea53c72, 0x5ea53c72, 0x54c361d4, 0x4a2fdec5, 0x45fbd8a9, 0x1c7d7513);
    Next(16, 1, q, Quad(0x374943a7, 0x1c7d7513, 0xd6819c6a, 0x5aa53f75), x,
      0x9c25b51b, 0x9c25b51b, 0x5c66685b, 0x93afac02, 0x5f580527, 0x7bd57a3a);
    Next(16, 2, q, Quad(0x5aa53f75, 0x7bd57a3a, 0x1c7d7513, 0xd6819c6a), x,
      0x5afd793b, 0x5afd793b, 0x815bd38c, 0xdc011301, 0x44c07700, 0xc095f13a);
    Next(16, 3, q, Quad(0xd6819c6a, 0xc095f13a, 0x7bd57a3a, 0x1c7d7513), x,
      0x63957b3a, 0x63957bba, 0x4d4c4364, 0x23cddfce, 0xfce23cdd, 0xbd782e17);
    Next(16, 4, q, Quad(0x1c7d7513, 0xbd782e17, 0xc095f13a, 0x7bd57a3a), x,
      0xb950ab12, 0xb950ab12, 0x8f7fbb6f, 0xabfd3082, 0x7fa61055, 0x3d1e3e6c);
    Next(16, 5, q, Quad(0x7bd57a3a, 0x3d1e3e6c, 0xbd782e17, 0xc095f13a), x,
      0x3d7c3e2d, 0x3d7c3e2d, 0x3fc05280, 0xbb95ccba, 0x2b997577, 0x68b7b3e3);
    Next(16, 6, q, Quad(0xc095f13a, 0x68b7b3e3, 0x3d1e3e6c, 0xbd782e17), x,
      0x2836326b, 0x2836326b, 0x00d818ec, 0xc16e0a26, 0x8289b05b, 0xeb41643e);
    Next(16, 7, q, Quad(0xbd782e17, 0xeb41643e, 0x68b7b3e3, 0x3d1e3e6c), x,
      0x69a1a5af, 0x69a1a5af, 0x5175a177, 0x0eedcf8e, 0xf8e0eedc, 0xe422531a);
    Next(16, 8, q, Quad(0x3d1e3e6c, 0xe422531a, 0xeb41643e, 0x68b7b3e3), x,
      0xe362571e, 0xe362571e, 0x05442504, 0x42626370, 0x4c4c6e08, 0x306ec122);
    Next(16, 9, q, Quad(0x68b7b3e3, 0x306ec122, 0xe422531a, 0xeb41643e), x,
      0x24625322, 0x24625322, 0xe7995af8, 0x50510edb, 0xa21db6a0, 0xd28c77c2);
    Next(16, 10, q, Quad(0xeb41643e, 0xd28c77c2, 0x306ec122, 0xe422531a), x,
      0xd04cd322, 0xd04cd322, 0xc521e0a9, 0xb06344e7, 0xd139ec18, 0xa3c663da);
    Next(16, 11, q, Quad(0xe422531a, 0xa3c663da, 0xd28c77c2, 0x306ec122), x,
      0xe2c677c2, 0xe2c677c2, 0x28208caf, 0x0c42dfc9, 0xfc90c42d, 0xa0572807);
    Next(16, 12, q, Quad(0x306ec122, 0xa0572807, 0xa3c663da, 0xd28c77c2), x,
      0xa146201a, 0xa146201a, 0x4b2a091f, 0x7b98ca41, 0x7319482f, 0x13707036);
    Next(16, 13, q, Quad(0xd28c77c2, 0x13707036, 0xa0572807, 0xa3c663da), x,
      0x03516817, 0x03516817, 0x00410c0f, 0xd2cd83d1, 0x9b07a3a5, 0xae7813db);
    Next(16, 14, q, Quad(0xa3c663da, 0xae7813db, 0x13707036, 0xa0572807), x,
      0xb3705033, 0xb3705033, 0x1adf530c, 0xbea5b6e6, 0x6db9afa9, 0x1c31c384);
    Next(16, 15, q, Quad(0xa0572807, 0x1c31c384, 0xae7813db, 0x13707036), x,
      0xbc3843cd, 0xbc3843cd, 0x49629057, 0xe9b9b85e, 0x85ee9b9b, 0xa2205f1f);
  }

  lemma EmptyRound3(x: seq<Word>)
    requires IsEmptyBlock(x)
    ensures Rounds(Word32(), 32, 16, Quad(0x13707036, 0xa2205f1f, 0x1c31c384, 0xae7813db), x)
      == Quad(0x3f55edfd, 0xca7d2dbd, 0x68d84ea2, 0x22a31f54)
  {
    hide Word32, Step;
    var q: Quad<Word> := Quad(0x13707036, 0xa2205f1f, 0x1c31c384, 0xae7813db);
    Next(32, 0, q, Quad(0x13707036, 0xa2205f1f, 0x1c31c384, 0xae7813db), x,
      0x10698f40, 0x10698f40, 0x1063c882, 0x23d438b8, 0x3d438b82, 0xdf63eaa1);
    Next(32, 1, q, Quad(0xae7813db, 0xdf63eaa1, 0xa2205f1f, 0x1c31c384), x,
      0x6172763a, 0x6172763a, 0xe8e46cbb, 0x975c8096, 0xe404b4ba, 0xc3689f5b);
    Next(32, 2, q, Quad(0x1c31c384, 0xc3689f5b, 0xdf63eaa1, 0xa2205f1f), x,
      0xbe2b2ae5, 0xbe2b2ae5, 0x2bc88c07, 0x47fa4f8b, 0x4f8b47fa, 0x12f3e755);
    Next(32, 3, q, Quad(0xa2205f1f, 0x12f3e755, 0xc3689f5b, 0xdf63eaa1), x,
      0x0ef892af, 0x0ef892af, 0x0cddcabb, 0xaefe29da, 0xed577f14, 0x004b6669);
    Next(32, 4, q, Quad(0xdf63eaa1, 0x004b6669, 0x12f3e755, 0xc3689f5b), x,
      0xd1d01e67, 0xd1d01e67, 0x768f08ab, 0x55f2f34c, 0x5f2f34c5, 0x5f7a9b2e);
    Next(32, 5, q, Quad(0xc3689f5b, 0x5f7a9b2e, 0x004b6669, 0x12f3e755), x,
      0x4dc21a12, 0x4dc21a12, 0x99a0e9bb, 0x5d098916, 0x4c48b2e8, 0xabc34e16);
    Next(32, 6, q, Quad(0x12f3e755, 0xabc34e16, 0x5f7a9b2e, 0x004b6669), x,
      0xf4f2b351, 0xf4f2b351, 0xebadfeb1, 0xfea1e606, 0xe606fea1, 0x91ca4cb7);
    Next(32, 7, q, Quad(0x004b6669, 0x91ca4cb7, 0xabc34e16, 0x5f7a9b2e), x,
      0x6573998f, 0x6573998f, 0x243355ff, 0x247ebc68, 0x34123f5e, 0xc5dc8c15);
    Next(32, 8, q, Quad(0x5f7a9b2e, 0xc5dc8c15, 0x91ca4cb7, 0xabc34e16), x,
      0xffd58eb4, 0xffd58eb4, 0x28710d7a, 0x87eba8a8, 0x7eba8a88, 0x4497169d);
    Next(32, 9, q, Quad(0xabc34e16, 0x4497169d, 0xc5dc8c15, 0x91ca4cb7), x,
      0x1081d63f, 0x1081d6bf, 0xfb22feb9, 0xa6e64ccf, 0x32667d37, 0x76fd93d4);
    Next(32, 10, q, Quad(0x91ca4cb7, 0x76fd93d4, 0x4497169d, 0xc5dc8c15), x,
      0xf7b6095c, 0xf7b6095c, 0xcca539e1, 0x5e6f8698, 0x86985e6f, 0xfd95f243);
    Next(32, 11, q, Quad(0xc5dc8c15, 0xfd95f243, 0x76fd93d4, 0x4497169d), x,
      0xcfff770a, 0xcfff770a, 0xd487940f, 0x9a642024, 0x124d3210, 0x0fe32453);
    Next(32, 12, q, Quad(0x4497169d, 0x0fe32453, 0xfd95f243, 0x76fd93d4), x,
      0x848b45c4, 0x848b45c4, 0x5e6015fd, 0xa2f72c9a, 0x2f72c9aa, 0x3f55edfd);
    Next(32, 13, q, Quad(0x76fd93d4, 0x3f55edfd, 0x0fe32453, 0xfd95f243), x,
      0xcd233bed, 0xcd233bed, 0xb3fed5d2, 0x2afc69a6, 0xe34d3157, 0x22a31f54);
    Next(32, 14, q, Quad(0xfd95f243, 0x22a31f54, 0x3f55edfd, 0x0fe32453), x,
      0x1215d6fa, 0x1215d6fa, 0x31b853f2, 0x2f4e4635, 0x46352f4e, 0x68d84ea2);
    Next(32, 15, q, Quad(0x0fe32453, 0x68d84ea2, 0x22a31f54, 0x3f55edfd), x,
      0x752ebc0b, 0x752ebc0b, 0x39db1270, 0x49be36c3, 0x61a4df1b, 0xca7d2dbd);
  }

  lemma EmptyRound4(x: seq<Word>)
    requires IsEmptyBlock(x)
    ensures Rounds(Word32(), 48, 16, Quad(0x3f55edfd, 0xca7d2dbd, 0x68d84ea2, 0x22a31f54), x)
      == Quad(0x7246fad3, 0x14e45506, 0xff4ea3eb, 0x6e10a476)
  {
    hide Word32, Step;
    var q: Quad<Word> := Quad(0x3f55edfd, 0xca7d2dbd, 0x68d84ea2, 0x22a31f54);
    Next(48, 0, q, Quad(0x3f55edfd, 0xca7d2dbd, 0x68d84ea2, 0x22a31f54), x,
      0xb7a5a31d, 0xb7a5a39d, 0xabcec5e1, 0xeb24b3de, 0xc92cf7ba, 0x93aa2577);
    Next(48, 1, q, Quad(0x22a31f54, 0x93aa2577, 0xca7d2dbd, 0x68d84ea2), x,
      0x5dd298c2, 0x5dd298c2, 0xa0fd9859, 0xc3a0b7ad, 0x82deb70e, 0x1688dc85);
    Next(48, 2, q, Quad(0x68d84ea2, 0x1688dc85, 0x93aa2577, 0xca7d2dbd), x,
      0xa420fbb0, 0xa420fbb0, 0x4fb51f57, 0xb88d6df9, 0xb6fcdc46, 0xcd85b8cb);
    Next(48, 3, q, Quad(0xca7d2dbd, 0xcd85b8cb, 0x1688dc85, 0x93aa2577), x,
      0xfb5d264e, 0xfb5d264e, 0xf7f0c687, 0xc26df444, 0x88984dbe, 0x561e0689);
    Next(48, 4, q, Quad(0x93aa2577, 0x561e0689, 0xcd85b8cb, 0x1688dc85), x,
      0x32fa9f30, 0x32fa9f30, 0x9855f8f3, 0x2c001e6a, 0x00079a8b, 0x5625a114);
    Next(48, 5, q, Quad(0x1688dc85, 0x5625a114, 0x561e0689, 0xcd85b8cb), x,
      0x2061e1bd, 0x2061e1bd, 0xaf6eae4f, 0xc5f78ad4, 0xde2b5317, 0x3450f42b);
    Next(48, 6, q, Quad(0xcd85b8cb, 0x3450f42b, 0x5625a114, 0x561e0689), x,
      0xebd45c6b, 0xebd45c6b, 0xebc450e8, 0xb94a09b3, 0x04d9dca5, 0x392ad0d0);
    Next(48, 7, q, Quad(0x561e0689, 0x392ad0d0, 0x3450f42b, 0x5625a114), x,
      0x8daa2ad0, 0x8daa2ad0, 0x132e88a1, 0x694c8f2a, 0xe54d2991, 0x1e77fa61);
    Next(48, 8, q, Quad(0x5625a114, 0x1e77fa61, 0x392ad0d0, 0x3450f42b), x,
      0xe6d52b25, 0xe6d52b25, 0x567da974, 0xaca34a88, 0x28d2a22b, 0x474a9c8c);
    Next(48, 9, q, Quad(0x3450f42b, 0x474a9c8c, 0x1e77fa61, 0x392ad0d0), x,
      0xd9a845ce, 0xd9a845ce, 0xd7d52cae, 0x0c2620d9, 0x98836430, 0xdfce00bc);
    Next(48, 10, q, Quad(0x392ad0d0, 0xdfce00bc, 0x474a9c8c, 0x1e77fa61), x,
      0xb8849932, 0xb8849932, 0x5b85dc46, 0x94b0ad16, 0x568b4a58, 0x36594b14);
    Next(48, 11, q, Quad(0x1e77fa61, 0x36594b14, 0xdfce00bc, 0x474a9c8c), x,
      0x61336bcb, 0x61336bcb, 0xaf3b7d6c, 0xcdb377cd, 0xf9b9b66e, 0x30130182);
    Next(48, 12, q, Quad(0x474a9c8c, 0x30130182, 0x36594b14, 0xdfce00bc), x,
      0x066ab4d7, 0x066ab4d7, 0xfdbe3359, 0x4508cfe5, 0x4233f951, 0x7246fad3);
    Next(48, 13, q, Quad(0xdfce00bc, 0x7246fad3, 0x30130182, 0x36594b14), x,
      0xcbf5ff79, 0xcbf5ff79, 0x8930f1ae, 0x68fef26a, 0xfbc9a9a3, 0x6e10a476);
    Next(48, 14, q, Quad(0x36594b14, 0x6e10a476, 0x7246fad3, 0x30130182), x,
      0x9dba04ac, 0x9dba04ac, 0xc891d767, 0xfeeb227b, 0x913dff75, 0xff4ea3eb);
    Next(48, 15, q, Quad(0x30130182, 0xff4ea3eb, 0x6e10a476, 0x7246fad3), x,
      0x91ef0399, 0x91ef0399, 0x7d75d72a, 0xad88d8ac, 0x1595b11b, 0x14e45506);
  }

  /** The registers after the 64 steps. */
  lemma EmptyBlockRounds(x: seq<Word>)
    requires IsEmptyBlock(x)
    ensures AllRounds(Word32(), InitialState(), x) == Quad(0x7246fad3, 0x14e45506, 0xff4ea3eb, 0x6e10a476)
  {
    EmptyRound1(x);
    EmptyRound2(x);
    EmptyRound3(x);
    EmptyRound4(x);
    hide Rounds;
  }

  lemma {:induction false} EncodeZeros(k: nat)
    ensures EncodeWords(seq(k, _ => 0)) == Zeros(4 * k)
  {
    if k == 0 {
    } else {
      EncodeZeros(k - 1);
      assert seq(k, _ => 0)[1..] == seq(k - 1, _ => 0);
      LeFour(0);
    }
  }

  lemma EmptyPadded()
    ensures Padded([]) == EncodeWords([0x80] + seq(15, _ => 0))
  {
    var words: seq<u32> := [0x80] + seq(15, _ => 0);
    assert words[1..] == seq(15, _ => 0);
    EncodeZeros(15);
    LeFour(0x80);
    LeTwoWords(0);
    LeFour(0);
    assert Padded([]) == [0x80] + Zeros(55) + Le(0, 8);
  }

  lemma EmptyBlock()
    ensures |Padded([])| == 64 && IsEmptyBlock(BlockWords(Word32(), Padded([])))
  {
    var words: seq<u32> := [0x80] + seq(15, _ => 0);
    EmptyPadded();
    DecodeEncode(words);
    assert FromInt(0x80) == 0x80 && FromInt(0) == 0;
  }

  lemma EmptyCompressed()
    ensures |Padded([])| == 64
      && CompressBlock(InitialState(), Padded([])) == Quad(0xd98c1dd4, 0x04b2008f, 0x980980e9, 0x7e42f8ec)
  {
    EmptyBlock();
    var x := BlockWords(Word32(), Padded([]));
    EmptyBlockRounds(x);
    hide AllRounds, BlockWords, Padded, IsEmptyBlock;
    var end: Quad<Word> := Quad(0x7246fad3, 0x14e45506, 0xff4ea3eb, 0x6e10a476);
    assert Plus(0x67452301, end.a) == 0xd98c1dd4 && Plus(0xEFCDAB89, end.b) == 0x04b2008f;
    assert Plus(0x98BADCFE, end.c) == 0x980980e9 && Plus(0x10325476, end.d) == 0x7e42f8ec;
    hide Plus;
  }

  lemma EmptyState()
    ensures Fold(Md5Hash(), InitialState(), Padded([])) == Quad(0xd98c1dd4, 0x04b2008f, 0x980980e9, 0x7e42f8ec)
  {
    EmptyCompressed();
    var m := Padded([]);
    FoldBlock(Md5Hash(), InitialState(), [], m);
    hide CompressBlock, Padded;
    assert [] + m == m;
    assert Fold(Md5Hash(), InitialState(), []) == InitialState();
  }

  lemma EmptyWords()
    ensures EncodeWords([0xd98c1dd4, 0x04b2008f, 0x980980e9, 0x7e42f8ec])
      == [0xd4, 0x1d, 0x8c, 0xd9, 0x8f, 0x00, 0xb2, 0x04, 0xe9, 0x80, 0x09, 0x98, 0xec, 0xf8, 0x42, 0x7e]
  {
    hide EncodeWords, Le;
    var a, b, c, d := 0xd98c1dd4, 0x04b2008f, 0x980980e9, 0x7e42f8ec;
    assert [a, b, c, d] == [a, b] + [c, d];
    EncodeAppend([a, b], [c, d]);
    TwoWords(a, b);
    TwoWords(c, d);
    assert Le(a, 4) == [0xd4, 0x1d, 0x8c, 0xd9] by { LeFour(a); }
    assert Le(b, 4) == [0x8f, 0x00, 0xb2, 0x04] by { LeFour(b); }
    assert Le(c, 4) == [0xe9, 0x80, 0x09, 0x98] by { LeFour(c); }
    assert Le(d, 4) == [0xec, 0xf8, 0x42, 0x7e] by { LeFour(d); }
  }

  /** MD5 ("") = d41d8cd98f00b204e9800998ecf8427e */
  lemma EmptyDigest()
    ensures Md5Digest([]) == [0xd4, 0x1d, 0x8c, 0xd9, 0x8f, 0x00, 0xb2, 0x04, 0xe9, 0x80, 0x09, 0x98, 0xec, 0xf8,
      0x42, 0x7e]
  {
    EmptyState();
    EmptyWords();
    var q: Quad<Word> := Quad(0xd98c1dd4, 0x04b2008f, 0x980980e9, 0x7e42f8ec);
    assert Value(q.a) == 0xd98c1dd4 && Value(q.b) == 0x04b2008f && Value(q.c) == 0x980980e9 && Value(q.d) == 0x7e42f8ec;
    hide Fold, Padded, EncodeWords, Value;
  }
}
