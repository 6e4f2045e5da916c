/** BLAKE2s-256 of the 64 bytes 00 01 .. 3f, round by round.  The sixteen message words differ, so the example fixes
    every entry of the message schedule of section 2.7 of RFC 7693, every rotation and every position of the mixing. */
module Blake2sExample {
  import opened Blake2sSpec

  function Message(): seq<bv8> { seq(64, i requires 0 <= i < 64 => ByteOf(i)) }

  function MessageWords(): Vec
  {
    [0x03020100, 0x07060504, 0x0b0a0908, 0x0f0e0d0c, 0x13121110, 0x17161514, 0x1b1a1918, 0x1f1e1d1c,
     0x23222120, 0x27262524, 0x2b2a2928, 0x2f2e2d2c, 0x33323130, 0x37363534, 0x3b3a3938, 0x3f3e3d3c]
  }

  lemma Word0() ensures WordAt(Message(), 0) == 0x03020100 {}
  lemma Word1() ensures WordAt(Message(), 1) == 0x07060504 {}
  lemma Word2() ensures WordAt(Message(), 2) == 0x0b0a0908 {}
  lemma Word3() ensures WordAt(Message(), 3) == 0x0f0e0d0c {}
  lemma Word4() ensures WordAt(Message(), 4) == 0x13121110 {}
  lemma Word5() ensures WordAt(Message(), 5) == 0x17161514 {}
  lemma Word6() ensures WordAt(Message(), 6) == 0x1b1a1918 {}
  lemma Word7() ensures WordAt(Message(), 7) == 0x1f1e1d1c {}
  lemma Word8() ensures WordAt(Message(), 8) == 0x23222120 {}
  lemma Word9() ensures WordAt(Message(), 9) == 0x27262524 {}
  lemma Word10() ensures WordAt(Message(), 10) == 0x2b2a2928 {}
  lemma Word11() ensures WordAt(Message(), 11) == 0x2f2e2d2c {}
  lemma Word12() ensures WordAt(Message(), 12) == 0x33323130 {}
  lemma Word13() ensures WordAt(Message(), 13) == 0x37363534 {}
  lemma Word14() ensures WordAt(Message(), 14) == 0x3b3a3938 {}
  lemma Word15() ensures WordAt(Message(), 15) == 0x3f3e3d3c {}

  lemma Loaded()
    ensures Words(Message(), 16) == MessageWords()
  {
    hide Words, WordAt;
    Word0(); Word1(); Word2(); Word3(); Word4(); Word5(); Word6(); Word7();
    Word8(); Word9(); Word10(); Word11(); Word12(); Word13(); Word14(); Word15();
  }

  // -------------------------------------------------------------------------
  // A round, column by column and then diagonal by diagonal

  /** The columns of v. */
  predicate Holds(v: Vec, p: Quad, q: Quad, r: Quad, s: Quad)
  {
    && Take(v, 0, 4, 8, 12) == p && Take(v, 1, 5, 9, 13) == q
    && Take(v, 2, 6, 10, 14) == r && Take(v, 3, 7, 11, 15) == s
  }

  lemma GOnColumn0(v: Vec, x: bv32, y: bv32)
    ensures var w := G(v, 0, 4, 8, 12, x, y);
            && Take(w, 0, 4, 8, 12) == Mix(Take(v, 0, 4, 8, 12), x, y)
            && Take(w, 1, 5, 9, 13) == Take(v, 1, 5, 9, 13) && Take(w, 2, 6, 10, 14) == Take(v, 2, 6, 10, 14)
            && Take(w, 3, 7, 11, 15) == Take(v, 3, 7, 11, 15)
  {
    hide Mix;
  }

  lemma GOnColumn1(v: Vec, x: bv32, y: bv32)
    ensures var w := G(v, 1, 5, 9, 13, x, y);
            && Take(w, 1, 5, 9, 13) == Mix(Take(v, 1, 5, 9, 13), x, y)
            && Take(w, 0, 4, 8, 12) == Take(v, 0, 4, 8, 12) && Take(w, 2, 6, 10, 14) == Take(v, 2, 6, 10, 14)
            && Take(w, 3, 7, 11, 15) == Take(v, 3, 7, 11, 15)
  {
    hide Mix;
  }

  lemma GOnColumn2(v: Vec, x: bv32, y: bv32)
    ensures var w := G(v, 2, 6, 10, 14, x, y);
            && Take(w, 2, 6, 10, 14) == Mix(Take(v, 2, 6, 10, 14), x, y)
            && Take(w, 0, 4, 8, 12) == Take(v, 0, 4, 8, 12) && Take(w, 1, 5, 9, 13) == Take(v, 1, 5, 9, 13)
            && Take(w, 3, 7, 11, 15) == Take(v, 3, 7, 11, 15)
  {
    hide Mix;
  }

  lemma GOnColumn3(v: Vec, x: bv32, y: bv32)
    ensures var w := G(v, 3, 7, 11, 15, x, y);
            && Take(w, 3, 7, 11, 15) == Mix(Take(v, 3, 7, 11, 15), x, y)
            && Take(w, 0, 4, 8, 12) == Take(v, 0, 4, 8, 12) && Take(w, 1, 5, 9, 13) == Take(v, 1, 5, 9, 13)
            && Take(w, 2, 6, 10, 14) == Take(v, 2, 6, 10, 14)
  {
    hide Mix;
  }

  lemma GOnDiagonal0(v: Vec, x: bv32, y: bv32)
    ensures var w, d := G(v, 0, 5, 10, 15, x, y), Mix(Take(v, 0, 5, 10, 15), x, y);
            && Take(w, 0, 4, 8, 12) == Take(v, 0, 4, 8, 12).(a := d.a)
            && Take(w, 1, 5, 9, 13) == Take(v, 1, 5, 9, 13).(b := d.b)
            && Take(w, 2, 6, 10, 14) == Take(v, 2, 6, 10, 14).(c := d.c)
            && Take(w, 3, 7, 11, 15) == Take(v, 3, 7, 11, 15).(d := d.d)
  {
    hide Mix;
  }

  lemma GOnDiagonal1(v: Vec, x: bv32, y: bv32)
    ensures var w, d := G(v, 1, 6, 11, 12, x, y), Mix(Take(v, 1, 6, 11, 12), x, y);
            && Take(w, 1, 5, 9, 13) == Take(v, 1, 5, 9, 13).(a := d.a)
            && Take(w, 2, 6, 10, 14) == Take(v, 2, 6, 10, 14).(b := d.b)
            && Take(w, 3, 7, 11, 15) == Take(v, 3, 7, 11, 15).(c := d.c)
            && Take(w, 0, 4, 8, 12) == Take(v, 0, 4, 8, 12).(d := d.d)
  {
    hide Mix;
  }

  lemma GOnDiagonal2(v: Vec, x: bv32, y: bv32)
    ensures var w, d := G(v, 2, 7, 8, 13, x, y), Mix(Take(v, 2, 7, 8, 13), x, y);
            && Take(w, 2, 6, 10, 14) == Take(v, 2, 6, 10, 14).(a := d.a)
            && Take(w, 3, 7, 11, 15) == Take(v, 3, 7, 11, 15).(b := d.b)
            && Take(w, 0, 4, 8, 12) == Take(v, 0, 4, 8, 12).(c := d.c)
            && Take(w, 1, 5, 9, 13) == Take(v, 1, 5, 9, 13).(d := d.d)
  {
    hide Mix;
  }

  lemma GOnDiagonal3(v: Vec, x: bv32, y: bv32)
    ensures var w, d := G(v, 3, 4, 9, 14, x, y), Mix(Take(v, 3, 4, 9, 14), x, y);
            && Take(w, 3, 7, 11, 15) == Take(v, 3, 7, 11, 15).(a := d.a)
            && Take(w, 0, 4, 8, 12) == Take(v, 0, 4, 8, 12).(b := d.b)
            && Take(w, 1, 5, 9, 13) == Take(v, 1, 5, 9, 13).(c := d.c)
            && Take(w, 2, 6, 10, 14) == Take(v, 2, 6, 10, 14).(d := d.d)
  {
    hide Mix;
  }

  /** The diagonals of v, from its columns. */
  lemma TakeDiagonals(v: Vec)
    ensures var p0, p1 := Take(v, 0, 4, 8, 12), Take(v, 1, 5, 9, 13);
            var p2, p3 := Take(v, 2, 6, 10, 14), Take(v, 3, 7, 11, 15);
            && Take(v, 0, 5, 10, 15) == Quad(p0.a, p1.b, p2.c, p3.d)
            && Take(v, 1, 6, 11, 12) == Quad(p1.a, p2.b, p3.c, p0.d)
            && Take(v, 2, 7, 8, 13) == Quad(p2.a, p3.b, p0.c, p1.d)
            && Take(v, 3, 4, 9, 14) == Quad(p3.a, p0.b, p1.c, p2.d)
  {
  }

  lemma ColumnsByQuads(v: Vec, m: Vec, s: Schedule, p0: Quad, p1: Quad, p2: Quad, p3: Quad)
    requires Holds(v, p0, p1, p2, p3)
    ensures Holds(Columns(v, m, s), Mix(p0, m[s[0]], m[s[1]]), Mix(p1, m[s[2]], m[s[3]]),
                  Mix(p2, m[s[4]], m[s[5]]), Mix(p3, m[s[6]], m[s[7]]))
  {
    hide Mix, G, Take;
    var v0 := G(v, 0, 4, 8, 12, m[s[0]], m[s[1]]);
    var v1 := G(v0, 1, 5, 9, 13, m[s[2]], m[s[3]]);
    var v2 := G(v1, 2, 6, 10, 14, m[s[4]], m[s[5]]);
    GOnColumn0(v, m[s[0]], m[s[1]]); GOnColumn1(v0, m[s[2]], m[s[3]]);
    GOnColumn2(v1, m[s[4]], m[s[5]]); GOnColumn3(v2, m[s[6]], m[s[7]]);
  }

  lemma DiagonalsByQuads(v: Vec, m: Vec, s: Schedule, p0: Quad, p1: Quad, p2: Quad, p3: Quad)
    requires Holds(v, p0, p1, p2, p3)
    ensures var d0 := Mix(Quad(p0.a, p1.b, p2.c, p3.d), m[s[8]], m[s[9]]);
            var d1 := Mix(Quad(p1.a, p2.b, p3.c, p0.d), m[s[10]], m[s[11]]);
            var d2 := Mix(Quad(p2.a, p3.b, p0.c, p1.d), m[s[12]], m[s[13]]);
            var d3 := Mix(Quad(p3.a, p0.b, p1.c, p2.d), m[s[14]], m[s[15]]);
            Holds(Diagonals(v, m, s), Quad(d0.a, d3.b, d2.c, d1.d), Quad(d1.a, d0.b, d3.c, d2.d),
                  Quad(d2.a, d1.b, d0.c, d3.d), Quad(d3.a, d2.b, d1.c, d0.d))
  {
    hide Mix, G, Take;
    var v0 := G(v, 0, 5, 10, 15, m[s[8]], m[s[9]]);
    var v1 := G(v0, 1, 6, 11, 12, m[s[10]], m[s[11]]);
    var v2 := G(v1, 2, 7, 8, 13, m[s[12]], m[s[13]]);
    TakeDiagonals(v); GOnDiagonal0(v, m[s[8]], m[s[9]]);
    TakeDiagonals(v0); GOnDiagonal1(v0, m[s[10]], m[s[11]]);
    TakeDiagonals(v1); GOnDiagonal2(v1, m[s[12]], m[s[13]]);
    TakeDiagonals(v2); GOnDiagonal3(v2, m[s[14]], m[s[15]]);
  }

  // -------------------------------------------------------------------------
  // The ten rounds

  function First(): Vec { Start(KeyedStart(32, 0), 64, true) }

  lemma StartOfChain()
    ensures KeyedStart(32, 0) == [0x6b08e647, 0xbb67ae85, 0x3c6ef372, 0xa54ff53a,
                                 0x510e527f, 0x9b05688c, 0x1f83d9ab, 0x5be0cd19]
  {
  }

  lemma StartOfVector()
    ensures Xor(IV[4], WordOf(64 % WORD)) == 0x510e523f && Xor(IV[5], WordOf(64 / WORD % WORD)) == 0x9b05688c
    ensures Xor(IV[6], 0xffff_ffff) == 0xe07c2654
  {
  }

  lemma Round0()
    ensures Holds(After(0), Quad(0x6b08e647, 0x510e527f, 0x6a09e667, 0x510e523f),
                  Quad(0xbb67ae85, 0x9b05688c, 0xbb67ae85, 0x9b05688c),
                  Quad(0x3c6ef372, 0x1f83d9ab, 0x3c6ef372, 0xe07c2654),
                  Quad(0xa54ff53a, 0x5be0cd19, 0xa54ff53a, 0x5be0cd19))
  {
    hide KeyedStart, WordOf, Xor;
    StartOfChain();
    StartOfVector();
  }

  function After(n: nat): Vec
    requires n <= 10
  {
    Rounds(First(), MessageWords(), n)
  }

  lemma Columns1()
    ensures Mix(Quad(0x6b08e647, 0x510e527f, 0x6a09e667, 0x510e523f), 0x03020100, 0x07060504) ==
            Quad(0x2637afa2, 0xcfd693a4, 0x8b51a2bf, 0xb54dce41)
    ensures Mix(Quad(0xbb67ae85, 0x9b05688c, 0xbb67ae85, 0x9b05688c), 0x0b0a0908, 0x0f0e0d0c) ==
            Quad(0x783ebcb1, 0x63812fb7, 0xc72e543d, 0xc330ab46)
    ensures Mix(Quad(0x3c6ef372, 0x1f83d9ab, 0x3c6ef372, 0xe07c2654), 0x13121110, 0x17161514) ==
            Quad(0x3a2da9f6, 0x4aef70c3, 0xc3aad710, 0x8ec25426)
    ensures Mix(Quad(0xa54ff53a, 0x5be0cd19, 0xa54ff53a, 0x5be0cd19), 0x1b1a1918, 0x1f1e1d1c) ==
            Quad(0x5b46fab6, 0x1d8fa2e7, 0xd80f71a1, 0x1c4d34bd)
  {
  }

  lemma Diagonals1()
    ensures Mix(Quad(0x2637afa2, 0x63812fb7, 0xc3aad710, 0x1c4d34bd), 0x23222120, 0x27262524) ==
            Quad(0x551ae487, 0x211191b6, 0x09d165fa, 0x1161de54)
    ensures Mix(Quad(0x783ebcb1, 0x4aef70c3, 0xd80f71a1, 0xb54dce41), 0x2b2a2928, 0x2f2e2d2c) ==
            Quad(0xe4da2403, 0x1c8076e8, 0x8768d435, 0x167c077f)
    ensures Mix(Quad(0x3a2da9f6, 0x1d8fa2e7, 0x8b51a2bf, 0xc330ab46), 0x33323130, 0x37363534) ==
            Quad(0xa9bd8475, 0xbfd91c64, 0x0b19e36b, 0xaa7cf6cd)
    ensures Mix(Quad(0x5b46fab6, 0xcfd693a4, 0xc72e543d, 0x8ec25426), 0x3b3a3938, 0x3f3e3d3c) ==
            Quad(0x9cff5828, 0xb1c137b7, 0x17f28882, 0xbd0f4bb0)
  {
  }

  lemma Round1()
    ensures Holds(After(1), Quad(0x551ae487, 0xb1c137b7, 0x0b19e36b, 0x167c077f),
                  Quad(0xe4da2403, 0x211191b6, 0x17f28882, 0xaa7cf6cd),
                  Quad(0xa9bd8475, 0x1c8076e8, 0x09d165fa, 0xbd0f4bb0),
                  Quad(0x9cff5828, 0xbfd91c64, 0x8768d435, 0x1161de54))
  {
    hide Mix, Holds, Columns, Diagonals, First;
    Round0(); Columns1(); Diagonals1();
    ColumnsByQuads(After(0), MessageWords(), Sigma(0), Quad(0x6b08e647, 0x510e527f, 0x6a09e667, 0x510e523f),
                   Quad(0xbb67ae85, 0x9b05688c, 0xbb67ae85, 0x9b05688c),
                   Quad(0x3c6ef372, 0x1f83d9ab, 0x3c6ef372, 0xe07c2654),
                   Quad(0xa54ff53a, 0x5be0cd19, 0xa54ff53a, 0x5be0cd19));
    var v := Columns(After(0), MessageWords(), Sigma(0));
    DiagonalsByQuads(v, MessageWords(), Sigma(0), Quad(0x2637afa2, 0xcfd693a4, 0x8b51a2bf, 0xb54dce41),
                     Quad(0x783ebcb1, 0x63812fb7, 0xc72e543d, 0xc330ab46),
                     Quad(0x3a2da9f6, 0x4aef70c3, 0xc3aad710, 0x8ec25426),
                     Quad(0x5b46fab6, 0x1d8fa2e7, 0xd80f71a1, 0x1c4d34bd));
  }

  lemma Columns2()
    ensures Mix(Quad(0x551ae487, 0xb1c137b7, 0x0b19e36b, 0x167c077f), 0x3b3a3938, 0x2b2a2928) ==
            Quad(0x736f4cbe, 0x9a6ed4a7, 0x31449ded, 0xd4216618)
    ensures Mix(Quad(0xe4da2403, 0x211191b6, 0x17f28882, 0xaa7cf6cd), 0x13121110, 0x23222120) ==
            Quad(0xe7765653, 0x1b633187, 0x1aceade7, 0xd2d772e4)
    ensures Mix(Quad(0xa9bd8475, 0x1c8076e8, 0x09d165fa, 0xbd0f4bb0), 0x27262524, 0x3f3e3d3c) ==
            Quad(0x3578f5e9, 0x4dff6f30, 0xf761000a, 0x825e49a5)
    ensures Mix(Quad(0x9cff5828, 0xbfd91c64, 0x8768d435, 0x1161de54), 0x37363534, 0x1b1a1918) ==
            Quad(0x0b2cd51c, 0x605cfc07, 0x727a11f4, 0x737cb850)
  {
  }

  lemma Diagonals2()
    ensures Mix(Quad(0x736f4cbe, 0x1b633187, 0xf761000a, 0x737cb850), 0x07060504, 0x33323130) ==
            Quad(0x3b9d4616, 0xa72dd3f5, 0xe47b6b4e, 0xb20084a0)
    ensures Mix(Quad(0xe7765653, 0x4dff6f30, 0x727a11f4, 0xd4216618), 0x03020100, 0x0b0a0908) ==
            Quad(0x5b27be34, 0x6ac368a8, 0x7611ba9c, 0x62fbbc52)
    ensures Mix(Quad(0x3578f5e9, 0x605cfc07, 0x31449ded, 0xd2d772e4), 0x2f2e2d2c, 0x1f1e1d1c) ==
            Quad(0x80a2323c, 0xc226abf3, 0x8f2a0fe5, 0xefed5a25)
    ensures Mix(Quad(0x0b2cd51c, 0x9a6ed4a7, 0x1aceade7, 0x825e49a5), 0x17161514, 0x0f0e0d0c) ==
            Quad(0x52d84ec6, 0x4b79fc2b, 0x3be69746, 0x29a5aa70)
  {
  }

  lemma Round2()
    ensures Holds(After(2), Quad(0x3b9d4616, 0x4b79fc2b, 0x8f2a0fe5, 0x62fbbc52),
                  Quad(0x5b27be34, 0xa72dd3f5, 0x3be69746, 0xefed5a25),
                  Quad(0x80a2323c, 0x6ac368a8, 0xe47b6b4e, 0x29a5aa70),
                  Quad(0x52d84ec6, 0xc226abf3, 0x7611ba9c, 0xb20084a0))
  {
    hide Mix, Holds, Columns, Diagonals, First;
    Round1(); Columns2(); Diagonals2();
    ColumnsByQuads(After(1), MessageWords(), Sigma(1), Quad(0x551ae487, 0xb1c137b7, 0x0b19e36b, 0x167c077f),
                   Quad(0xe4da2403, 0x211191b6, 0x17f28882, 0xaa7cf6cd),
                   Quad(0xa9bd8475, 0x1c8076e8, 0x09d165fa, 0xbd0f4bb0),
                   Quad(0x9cff5828, 0xbfd91c64, 0x8768d435, 0x1161de54));
    var v := Columns(After(1), MessageWords(), Sigma(1));
    DiagonalsByQuads(v, MessageWords(), Sigma(1), Quad(0x736f4cbe, 0x9a6ed4a7, 0x31449ded, 0xd4216618),
                     Quad(0xe7765653, 0x1b633187, 0x1aceade7, 0xd2d772e4),
                     Quad(0x3578f5e9, 0x4dff6f30, 0xf761000a, 0x825e49a5),
                     Quad(0x0b2cd51c, 0x605cfc07, 0x727a11f4, 0x737cb850));
  }

  lemma Columns3()
    ensures Mix(Quad(0x3b9d4616, 0x4b79fc2b, 0x8f2a0fe5, 0x62fbbc52), 0x2f2e2d2c, 0x23222120) ==
            Quad(0x61ea218e, 0x32373c57, 0x931cba98, 0x30b2d5f5)
    ensures Mix(Quad(0x5b27be34, 0xa72dd3f5, 0x3be69746, 0xefed5a25), 0x33323130, 0x03020100) ==
            Quad(0x5ce0e943, 0x13b6fc52, 0xff290de3, 0x29c59c33)
    ensures Mix(Quad(0x80a2323c, 0x6ac368a8, 0xe47b6b4e, 0x29a5aa70), 0x17161514, 0x0b0a0908) ==
            Quad(0x05cdc50f, 0x2a8697a2, 0xbb03dd1a, 0xd10045ee)
    ensures Mix(Quad(0x52d84ec6, 0xc226abf3, 0x7611ba9c, 0xb20084a0), 0x3f3e3d3c, 0x37363534) ==
            Quad(0x3e222139, 0x613eb759, 0x2df518a0, 0x048d77c7)
  {
  }

  lemma Diagonals3()
    ensures Mix(Quad(0x61ea218e, 0x13b6fc52, 0xbb03dd1a, 0x048d77c7), 0x2b2a2928, 0x3b3a3938) ==
            Quad(0xaf350697, 0xaadcb9f4, 0xbd737c02, 0xd19ffaa2)
    ensures Mix(Quad(0x5ce0e943, 0x2a8697a2, 0x2df518a0, 0x30b2d5f5), 0x0f0e0d0c, 0x1b1a1918) ==
            Quad(0x3dea9efb, 0xda9c0ab4, 0xc25fad9f, 0x3c65ee38)
    ensures Mix(Quad(0x05cdc50f, 0x613eb759, 0x931cba98, 0x29c59c33), 0x1f1e1d1c, 0x07060504) ==
            Quad(0x6b203d35, 0x695d5939, 0x73430219, 0xda6e9792)
    ensures Mix(Quad(0x3e222139, 0x32373c57, 0xff290de3, 0xd10045ee), 0x27262524, 0x13121110) ==
            Quad(0x2df0df0a, 0x7b7e656b, 0x3c6dfefb, 0x75eaaa99)
  {
  }

  lemma Round3()
    ensures Holds(After(3), Quad(0xaf350697, 0x7b7e656b, 0x73430219, 0x3c65ee38),
                  Quad(0x3dea9efb, 0xaadcb9f4, 0x3c6dfefb, 0xda6e9792),
                  Quad(0x6b203d35, 0xda9c0ab4, 0xbd737c02, 0x75eaaa99),
                  Quad(0x2df0df0a, 0x695d5939, 0xc25fad9f, 0xd19ffaa2))
  {
    hide Mix, Holds, Columns, Diagonals, First;
    Round2(); Columns3(); Diagonals3();
    ColumnsByQuads(After(2), MessageWords(), Sigma(2), Quad(0x3b9d4616, 0x4b79fc2b, 0x8f2a0fe5, 0x62fbbc52),
                   Quad(0x5b27be34, 0xa72dd3f5, 0x3be69746, 0xefed5a25),
                   Quad(0x80a2323c, 0x6ac368a8, 0xe47b6b4e, 0x29a5aa70),
                   Quad(0x52d84ec6, 0xc226abf3, 0x7611ba9c, 0xb20084a0));
    var v := Columns(After(2), MessageWords(), Sigma(2));
    DiagonalsByQuads(v, MessageWords(), Sigma(2), Quad(0x61ea218e, 0x32373c57, 0x931cba98, 0x30b2d5f5),
                     Quad(0x5ce0e943, 0x13b6fc52, 0xff290de3, 0x29c59c33),
                     Quad(0x05cdc50f, 0x2a8697a2, 0xbb03dd1a, 0xd10045ee),
                     Quad(0x3e222139, 0x613eb759, 0x2df518a0, 0x048d77c7));
  }

  lemma Columns4()
    ensures Mix(Quad(0xaf350697, 0x7b7e656b, 0x73430219, 0x3c65ee38), 0x1f1e1d1c, 0x27262524) ==
            Quad(0x9b61bfb3, 0xcd901f5d, 0xe265bf97, 0x07fc47ca)
    ensures Mix(Quad(0x3dea9efb, 0xaadcb9f4, 0x3c6dfefb, 0xda6e9792), 0x0f0e0d0c, 0x07060504) ==
            Quad(0x5303abb8, 0x0acca1af, 0x3278973c, 0x03a16a86)
    ensures Mix(Quad(0x6b203d35, 0xda9c0ab4, 0xbd737c02, 0x75eaaa99), 0x37363534, 0x33323130) ==
            Quad(0xab099505, 0x1c9121e8, 0xb27412b6, 0x1d7c8d9c)
    ensures Mix(Quad(0x2df0df0a, 0x695d5939, 0xc25fad9f, 0xd19ffaa2), 0x2f2e2d2c, 0x3b3a3938) ==
            Quad(0xcd6755c0, 0xba9d9fb1, 0x857f6fc4, 0x2352aa42)
  {
  }

  lemma Diagonals4()
    ensures Mix(Quad(0x9b61bfb3, 0x0acca1af, 0xb27412b6, 0x2352aa42), 0x0b0a0908, 0x1b1a1918) ==
            Quad(0x154a0882, 0x74270b05, 0x5b7207ba, 0xe8d5629a)
    ensures Mix(Quad(0x5303abb8, 0x1c9121e8, 0x857f6fc4, 0x07fc47ca), 0x17161514, 0x2b2a2928) ==
            Quad(0xc0f872a9, 0x804a803d, 0x2a63780d, 0xff6586f3)
    ensures Mix(Quad(0xab099505, 0xba9d9fb1, 0xe265bf97, 0x03a16a86), 0x13121110, 0x03020100) ==
            Quad(0xcda5fa80, 0x15f6c727, 0xaa892030, 0x98e2e581)
    ensures Mix(Quad(0xcd6755c0, 0xcd901f5d, 0x3278973c, 0x1d7c8d9c), 0x3f3e3d3c, 0x23222120) ==
            Quad(0x1ae3ce5d, 0xd537d0fc, 0x8663848e, 0x14252609)
  {
  }

  lemma Round4()
    ensures Holds(After(4), Quad(0x154a0882, 0xd537d0fc, 0xaa892030, 0xff6586f3),
                  Quad(0xc0f872a9, 0x74270b05, 0x8663848e, 0x98e2e581),
                  Quad(0xcda5fa80, 0x804a803d, 0x5b7207ba, 0x14252609),
                  Quad(0x1ae3ce5d, 0x15f6c727, 0x2a63780d, 0xe8d5629a))
  {
    hide Mix, Holds, Columns, Diagonals, First;
    Round3(); Columns4(); Diagonals4();
    ColumnsByQuads(After(3), MessageWords(), Sigma(3), Quad(0xaf350697, 0x7b7e656b, 0x73430219, 0x3c65ee38),
                   Quad(0x3dea9efb, 0xaadcb9f4, 0x3c6dfefb, 0xda6e9792),
                   Quad(0x6b203d35, 0xda9c0ab4, 0xbd737c02, 0x75eaaa99),
                   Quad(0x2df0df0a, 0x695d5939, 0xc25fad9f, 0xd19ffaa2));
    var v := Columns(After(3), MessageWords(), Sigma(3));
    DiagonalsByQuads(v, MessageWords(), Sigma(3), Quad(0x9b61bfb3, 0xcd901f5d, 0xe265bf97, 0x07fc47ca),
                     Quad(0x5303abb8, 0x0acca1af, 0x3278973c, 0x03a16a86),
                     Quad(0xab099505, 0x1c9121e8, 0xb27412b6, 0x1d7c8d9c),
                     Quad(0xcd6755c0, 0xba9d9fb1, 0x857f6fc4, 0x2352aa42));
  }

  lemma Columns5()
    ensures Mix(Quad(0x154a0882, 0xd537d0fc, 0xaa892030, 0xff6586f3), 0x27262524, 0x03020100) ==
            Quad(0xf5997e6f, 0x9e610f52, 0xd068d782, 0xad8dc890)
    ensures Mix(Quad(0xc0f872a9, 0x74270b05, 0x8663848e, 0x98e2e581), 0x17161514, 0x1f1e1d1c) ==
            Quad(0x915c47e3, 0xfa290bc1, 0x328d78f8, 0x34e61f93)
    ensures Mix(Quad(0xcda5fa80, 0x804a803d, 0x5b7207ba, 0x14252609), 0x0b0a0908, 0x13121110) ==
            Quad(0xb654ac22, 0x696833f4, 0xfe51ed79, 0xfd1398e0)
    ensures Mix(Quad(0x1ae3ce5d, 0x15f6c727, 0x2a63780d, 0xe8d5629a), 0x2b2a2928, 0x3f3e3d3c) ==
            Quad(0x5ad432b6, 0x55a36073, 0x6e210f64, 0x6786e286)
  {
  }

  lemma Diagonals5()
    ensures Mix(Quad(0xf5997e6f, 0xfa290bc1, 0xfe51ed79, 0x6786e286), 0x3b3a3938, 0x07060504) ==
            Quad(0x45306eff, 0x0b6d117f, 0xa5a51916, 0x8564de23)
    ensures Mix(Quad(0x915c47e3, 0x696833f4, 0x6e210f64, 0xad8dc890), 0x2f2e2d2c, 0x33323130) ==
            Quad(0x5e9f47fd, 0xd8a1139a, 0x51f3a0a6, 0x823f0cc3)
    ensures Mix(Quad(0xb654ac22, 0x55a36073, 0xd068d782, 0x34e61f93), 0x1b1a1918, 0x23222120) ==
            Quad(0xfa8a3725, 0x84d864df, 0xdc679f9a, 0xd1c0b424)
    ensures Mix(Quad(0x5ad432b6, 0x9e610f52, 0x328d78f8, 0xfd1398e0), 0x0f0e0d0c, 0x37363534) ==
            Quad(0x5122d27e, 0xb2514014, 0x3909446f, 0x2e86d627)
  {
  }

  lemma Round5()
    ensures Holds(After(5), Quad(0x45306eff, 0xb2514014, 0xdc679f9a, 0x823f0cc3),
                  Quad(0x5e9f47fd, 0x0b6d117f, 0x3909446f, 0xd1c0b424),
                  Quad(0xfa8a3725, 0xd8a1139a, 0xa5a51916, 0x2e86d627),
                  Quad(0x5122d27e, 0x84d864df, 0x51f3a0a6, 0x8564de23))
  {
    hide Mix, Holds, Columns, Diagonals, First;
    Round4(); Columns5(); Diagonals5();
    ColumnsByQuads(After(4), MessageWords(), Sigma(4), Quad(0x154a0882, 0xd537d0fc, 0xaa892030, 0xff6586f3),
                   Quad(0xc0f872a9, 0x74270b05, 0x8663848e, 0x98e2e581),
                   Quad(0xcda5fa80, 0x804a803d, 0x5b7207ba, 0x14252609),
                   Quad(0x1ae3ce5d, 0x15f6c727, 0x2a63780d, 0xe8d5629a));
    var v := Columns(After(4), MessageWords(), Sigma(4));
    DiagonalsByQuads(v, MessageWords(), Sigma(4), Quad(0xf5997e6f, 0x9e610f52, 0xd068d782, 0xad8dc890),
                     Quad(0x915c47e3, 0xfa290bc1, 0x328d78f8, 0x34e61f93),
                     Quad(0xb654ac22, 0x696833f4, 0xfe51ed79, 0xfd1398e0),
                     Quad(0x5ad432b6, 0x55a36073, 0x6e210f64, 0x6786e286));
  }

  lemma Columns6()
    ensures Mix(Quad(0x45306eff, 0xb2514014, 0xdc679f9a, 0x823f0cc3), 0x0b0a0908, 0x33323130) ==
            Quad(0x3b601a61, 0xfcc6dbd3, 0x66cfd8e8, 0xd58fb89a)
    ensures Mix(Quad(0x5e9f47fd, 0x0b6d117f, 0x3909446f, 0xd1c0b424), 0x1b1a1918, 0x2b2a2928) ==
            Quad(0x32ffe904, 0xb4c00548, 0xe2ade912, 0xe2f44fbd)
    ensures Mix(Quad(0xfa8a3725, 0xd8a1139a, 0xa5a51916, 0x2e86d627), 0x03020100, 0x2f2e2d2c) ==
            Quad(0x2b1532db, 0xf72c9a4c, 0xb3f49f8b, 0x70b68dca)
    ensures Mix(Quad(0x5122d27e, 0x84d864df, 0x51f3a0a6, 0x8564de23), 0x23222120, 0x0f0e0d0c) ==
            Quad(0xa4312e30, 0xad7ae289, 0x21748c71, 0x49226f52)
  {
  }

  lemma Diagonals6()
    ensures Mix(Quad(0x3b601a61, 0xb4c00548, 0xb3f49f8b, 0x49226f52), 0x13121110, 0x37363534) ==
            Quad(0x07a2d7eb, 0x8d840485, 0x0f383338, 0xfb58499d)
    ensures Mix(Quad(0x32ffe904, 0xf72c9a4c, 0x21748c71, 0xd58fb89a), 0x1f1e1d1c, 0x17161514) ==
            Quad(0x980d89fb, 0x609e81e0, 0x78ec244b, 0x3e80fb15)
    ensures Mix(Quad(0x2b1532db, 0xad7ae289, 0x66cfd8e8, 0xe2f44fbd), 0x3f3e3d3c, 0x3b3a3938) ==
            Quad(0x1dbb754a, 0xa072b93b, 0xf3ee74a2, 0x7000a680)
    ensures Mix(Quad(0xa4312e30, 0xfcc6dbd3, 0xe2ade912, 0x70b68dca), 0x07060504, 0x27262524) ==
            Quad(0x87bdcffc, 0x47423157, 0x19813072, 0xb4057018)
  {
  }

  lemma Round6()
    ensures Holds(After(6), Quad(0x07a2d7eb, 0x47423157, 0xf3ee74a2, 0x3e80fb15),
                  Quad(0x980d89fb, 0x8d840485, 0x19813072, 0x7000a680),
                  Quad(0x1dbb754a, 0x609e81e0, 0x0f383338, 0xb4057018),
                  Quad(0x87bdcffc, 0xa072b93b, 0x78ec244b, 0xfb58499d))
  {
    hide Mix, Holds, Columns, Diagonals, First;
    Round5(); Columns6(); Diagonals6();
    ColumnsByQuads(After(5), MessageWords(), Sigma(5), Quad(0x45306eff, 0xb2514014, 0xdc679f9a, 0x823f0cc3),
                   Quad(0x5e9f47fd, 0x0b6d117f, 0x3909446f, 0xd1c0b424),
                   Quad(0xfa8a3725, 0xd8a1139a, 0xa5a51916, 0x2e86d627),
                   Quad(0x5122d27e, 0x84d864df, 0x51f3a0a6, 0x8564de23));
    var v := Columns(After(5), MessageWords(), Sigma(5));
    DiagonalsByQuads(v, MessageWords(), Sigma(5), Quad(0x3b601a61, 0xfcc6dbd3, 0x66cfd8e8, 0xd58fb89a),
                     Quad(0x32ffe904, 0xb4c00548, 0xe2ade912, 0xe2f44fbd),
                     Quad(0x2b1532db, 0xf72c9a4c, 0xb3f49f8b, 0x70b68dca),
                     Quad(0xa4312e30, 0xad7ae289, 0x21748c71, 0x49226f52));
  }

  lemma Columns7()
    ensures Mix(Quad(0x07a2d7eb, 0x47423157, 0xf3ee74a2, 0x3e80fb15), 0x33323130, 0x17161514) ==
            Quad(0xa01c70c6, 0x8a00b118, 0x06b7ad05, 0x51617bcc)
    ensures Mix(Quad(0x980d89fb, 0x8d840485, 0x19813072, 0x7000a680), 0x07060504, 0x3f3e3d3c) ==
            Quad(0x04a200d8, 0xfa0af606, 0x9db73365, 0x4f31a65c)
    ensures Mix(Quad(0x1dbb754a, 0x609e81e0, 0x0f383338, 0xb4057018), 0x3b3a3938, 0x37363534) ==
            Quad(0x035d5862, 0xa4a0cf35, 0x42f5681e, 0xf3432755)
    ensures Mix(Quad(0x87bdcffc, 0xa072b93b, 0x78ec244b, 0xfb58499d), 0x13121110, 0x2b2a2928) ==
            Quad(0x3c5b8eb4, 0xec5cb15d, 0xfbb665b3, 0xaeef814e)
  {
  }

  lemma Diagonals7()
    ensures Mix(Quad(0xa01c70c6, 0xfa0af606, 0x42f5681e, 0xaeef814e), 0x03020100, 0x1f1e1d1c) ==
            Quad(0x9a74bcbe, 0x4affb34b, 0xa1f49273, 0x787cf68f)
    ensures Mix(Quad(0x04a200d8, 0xa4a0cf35, 0xfbb665b3, 0x51617bcc), 0x1b1a1918, 0x0f0e0d0c) ==
            Quad(0x2fbd9a24, 0x19e81fda, 0xa85d4eff, 0x19bd540f)
    ensures Mix(Quad(0x035d5862, 0xec5cb15d, 0x06b7ad05, 0x4f31a65c), 0x27262524, 0x0b0a0908) ==
            Quad(0x9aa06aa6, 0x64fc7e29, 0x06892609, 0x77121f33)
    ensures Mix(Quad(0x3c5b8eb4, 0x8a00b118, 0x9db73365, 0xf3432755), 0x23222120, 0x2f2e2d2c) ==
            Quad(0xe4538527, 0x9d97659e, 0x00143841, 0x1aa3ea9f)
  {
  }

  lemma Round7()
    ensures Holds(After(7), Quad(0x9a74bcbe, 0x9d97659e, 0x06892609, 0x19bd540f),
                  Quad(0x2fbd9a24, 0x4affb34b, 0x00143841, 0x77121f33),
                  Quad(0x9aa06aa6, 0x19e81fda, 0xa1f49273, 0x1aa3ea9f),
                  Quad(0xe4538527, 0x64fc7e29, 0xa85d4eff, 0x787cf68f))
  {
    hide Mix, Holds, Columns, Diagonals, First;
    Round6(); Columns7(); Diagonals7();
    ColumnsByQuads(After(6), MessageWords(), Sigma(6), Quad(0x07a2d7eb, 0x47423157, 0xf3ee74a2, 0x3e80fb15),
                   Quad(0x980d89fb, 0x8d840485, 0x19813072, 0x7000a680),
                   Quad(0x1dbb754a, 0x609e81e0, 0x0f383338, 0xb4057018),
                   Quad(0x87bdcffc, 0xa072b93b, 0x78ec244b, 0xfb58499d));
    var v := Columns(After(6), MessageWords(), Sigma(6));
    DiagonalsByQuads(v, MessageWords(), Sigma(6), Quad(0xa01c70c6, 0x8a00b118, 0x06b7ad05, 0x51617bcc),
                     Quad(0x04a200d8, 0xfa0af606, 0x9db73365, 0x4f31a65c),
                     Quad(0x035d5862, 0xa4a0cf35, 0x42f5681e, 0xf3432755),
                     Quad(0x3c5b8eb4, 0xec5cb15d, 0xfbb665b3, 0xaeef814e));
  }

  lemma Columns8()
    ensures Mix(Quad(0x9a74bcbe, 0x9d97659e, 0x06892609, 0x19bd540f), 0x37363534, 0x2f2e2d2c) ==
            Quad(0x27da00bb, 0x038e4b33, 0x4e4ce27e, 0x44244576)
    ensures Mix(Quad(0x2fbd9a24, 0x4affb34b, 0x00143841, 0x77121f33), 0x1f1e1d1c, 0x3b3a3938) ==
            Quad(0x192996ec, 0x57be5497, 0x9b39b882, 0x256c9178)
    ensures Mix(Quad(0x9aa06aa6, 0x19e81fda, 0xa1f49273, 0x1aa3ea9f), 0x33323130, 0x07060504) ==
            Quad(0xf42f6d7d, 0xaaa54e79, 0x57c9901c, 0x64a50090)
    ensures Mix(Quad(0xe4538527, 0x64fc7e29, 0xa85d4eff, 0x787cf68f), 0x0f0e0d0c, 0x27262524) ==
            Quad(0x9012f241, 0x65c45318, 0xf2a730f3, 0x6376c1d2)
  {
  }

  lemma Diagonals8()
    ensures Mix(Quad(0x27da00bb, 0x57be5497, 0x57c9901c, 0x6376c1d2), 0x17161514, 0x03020100) ==
            Quad(0xafe5b773, 0x77716f36, 0xae82d736, 0xab045142)
    ensures Mix(Quad(0x192996ec, 0xaaa54e79, 0xf2a730f3, 0x44244576), 0x3f3e3d3c, 0x13121110) ==
            Quad(0x7c7e4164, 0x23838a59, 0xa79a2122, 0x4d1ba906)
    ensures Mix(Quad(0xf42f6d7d, 0x65c45318, 0x4e4ce27e, 0x256c9178), 0x23222120, 0x1b1a1918) ==
            Quad(0x372da8b3, 0x022f3f6c, 0x89621be7, 0xca47e0f0)
    ensures Mix(Quad(0x9012f241, 0x038e4b33, 0x9b39b882, 0x64a50090), 0x0b0a0908, 0x2b2a2928) ==
            Quad(0x64138a33, 0x1f0aef51, 0x1f49b200, 0x3d22ff70)
  {
  }

  lemma Round8()
    ensures Holds(After(8), Quad(0xafe5b773, 0x1f0aef51, 0x89621be7, 0x4d1ba906),
                  Quad(0x7c7e4164, 0x77716f36, 0x1f49b200, 0xca47e0f0),
                  Quad(0x372da8b3, 0x23838a59, 0xae82d736, 0x3d22ff70),
                  Quad(0x64138a33, 0x022f3f6c, 0xa79a2122, 0xab045142))
  {
    hide Mix, Holds, Columns, Diagonals, First;
    Round7(); Columns8(); Diagonals8();
    ColumnsByQuads(After(7), MessageWords(), Sigma(7), Quad(0x9a74bcbe, 0x9d97659e, 0x06892609, 0x19bd540f),
                   Quad(0x2fbd9a24, 0x4affb34b, 0x00143841, 0x77121f33),
                   Quad(0x9aa06aa6, 0x19e81fda, 0xa1f49273, 0x1aa3ea9f),
                   Quad(0xe4538527, 0x64fc7e29, 0xa85d4eff, 0x787cf68f));
    var v := Columns(After(7), MessageWords(), Sigma(7));
    DiagonalsByQuads(v, MessageWords(), Sigma(7), Quad(0x27da00bb, 0x038e4b33, 0x4e4ce27e, 0x44244576),
                     Quad(0x192996ec, 0x57be5497, 0x9b39b882, 0x256c9178),
                     Quad(0xf42f6d7d, 0xaaa54e79, 0x57c9901c, 0x64a50090),
                     Quad(0x9012f241, 0x65c45318, 0xf2a730f3, 0x6376c1d2));
  }

  lemma Columns9()
    ensures Mix(Quad(0xafe5b773, 0x1f0aef51, 0x89621be7, 0x4d1ba906), 0x1b1a1918, 0x3f3e3d3c) ==
            Quad(0x03e4f07a, 0x5ba393e4, 0x0b52014f, 0x6b153e57)
    ensures Mix(Quad(0x7c7e4164, 0x77716f36, 0x1f49b200, 0xca47e0f0), 0x3b3a3938, 0x27262524) ==
            Quad(0xdbd600d5, 0x18c374fb, 0xe43f8c53, 0xbbd2f4e5)
    ensures Mix(Quad(0x372da8b3, 0x23838a59, 0xae82d736, 0x3d22ff70), 0x2f2e2d2c, 0x0f0e0d0c) ==
            Quad(0xff9451c4, 0x31c3151b, 0x872c6918, 0x3960dce5)
    ensures Mix(Quad(0x64138a33, 0x022f3f6c, 0xa79a2122, 0xab045142), 0x03020100, 0x23222120) ==
            Quad(0x4d4b014c, 0x512154df, 0x504e7a25, 0x0cd696c3)
  {
  }

  lemma Diagonals9()
    ensures Mix(Quad(0x03e4f07a, 0x18c374fb, 0x872c6918, 0x0cd696c3), 0x33323130, 0x0b0a0908) ==
            Quad(0xe8de94ca, 0xcd870523, 0x4e7b64fb, 0xc6e8b8d7)
    ensures Mix(Quad(0xdbd600d5, 0x31c3151b, 0x504e7a25, 0x6b153e57), 0x37363534, 0x1f1e1d1c) ==
            Quad(0x323ca86b, 0x5b728f73, 0x7708f986, 0xb1474f87)
    ensures Mix(Quad(0xff9451c4, 0x512154df, 0x0b52014f, 0xbbd2f4e5), 0x07060504, 0x13121110) ==
            Quad(0x01417812, 0x2ee70294, 0xe5f2f14c, 0x7b5e0394)
    ensures Mix(Quad(0x4d4b014c, 0x5ba393e4, 0xe43f8c53, 0x3960dce5), 0x2b2a2928, 0x17161514) ==
            Quad(0x8e20a95a, 0xc3963785, 0x69ea170f, 0x22ec9d44)
  {
  }

  lemma Round9()
    ensures Holds(After(9), Quad(0xe8de94ca, 0xc3963785, 0xe5f2f14c, 0xb1474f87),
                  Quad(0x323ca86b, 0xcd870523, 0x69ea170f, 0x7b5e0394),
                  Quad(0x01417812, 0x5b728f73, 0x4e7b64fb, 0x22ec9d44),
                  Quad(0x8e20a95a, 0x2ee70294, 0x7708f986, 0xc6e8b8d7))
  {
    hide Mix, Holds, Columns, Diagonals, First;
    Round8(); Columns9(); Diagonals9();
    ColumnsByQuads(After(8), MessageWords(), Sigma(8), Quad(0xafe5b773, 0x1f0aef51, 0x89621be7, 0x4d1ba906),
                   Quad(0x7c7e4164, 0x77716f36, 0x1f49b200, 0xca47e0f0),
                   Quad(0x372da8b3, 0x23838a59, 0xae82d736, 0x3d22ff70),
                   Quad(0x64138a33, 0x022f3f6c, 0xa79a2122, 0xab045142));
    var v := Columns(After(8), MessageWords(), Sigma(8));
    DiagonalsByQuads(v, MessageWords(), Sigma(8), Quad(0x03e4f07a, 0x5ba393e4, 0x0b52014f, 0x6b153e57),
                     Quad(0xdbd600d5, 0x18c374fb, 0xe43f8c53, 0xbbd2f4e5),
                     Quad(0xff9451c4, 0x31c3151b, 0x872c6918, 0x3960dce5),
                     Quad(0x4d4b014c, 0x512154df, 0x504e7a25, 0x0cd696c3));
  }

  lemma Columns10()
    ensures Mix(Quad(0xe8de94ca, 0xc3963785, 0xe5f2f14c, 0xb1474f87), 0x2b2a2928, 0x0b0a0908) ==
            Quad(0xdcaf35d5, 0x5cae9f00, 0xad49b778, 0x0c665f53)
    ensures Mix(Quad(0x323ca86b, 0xcd870523, 0x69ea170f, 0x7b5e0394), 0x23222120, 0x13121110) ==
            Quad(0x949789f5, 0x5bb7c369, 0x857e1e9a, 0x4e59add0)
    ensures Mix(Quad(0x01417812, 0x5b728f73, 0x4e7b64fb, 0x22ec9d44), 0x1f1e1d1c, 0x1b1a1918) ==
            Quad(0xab916edc, 0xa7fdac06, 0xea733270, 0xe2127437)
    ensures Mix(Quad(0x8e20a95a, 0x2ee70294, 0x7708f986, 0xc6e8b8d7), 0x07060504, 0x17161514) ==
            Quad(0xcb18e2b5, 0xc840084d, 0xcff13a4b, 0x50c33de0)
  {
  }

  lemma Diagonals10()
    ensures Mix(Quad(0xdcaf35d5, 0x5bb7c369, 0xea733270, 0x50c33de0), 0x3f3e3d3c, 0x2f2e2d2c) ==
            Quad(0x52ce3f4f, 0x8f6938ec, 0x1f66adee, 0x29595418)
    ensures Mix(Quad(0x949789f5, 0xa7fdac06, 0xcff13a4b, 0x0c665f53), 0x27262524, 0x3b3a3938) ==
            Quad(0x01dcd057, 0xce79480d, 0x5e433ae7, 0x8a0590bf)
    ensures Mix(Quad(0xab916edc, 0xc840084d, 0xad49b778, 0x4e59add0), 0x0f0e0d0c, 0x33323130) ==
            Quad(0x7143ac5d, 0x4c1373b9, 0xb2882a5e, 0xdb58a660)
    ensures Mix(Quad(0xcb18e2b5, 0x5cae9f00, 0x857e1e9a, 0xe2127437), 0x37363534, 0x03020100) ==
            Quad(0xaa91070d, 0xc0c4a8c8, 0x2ac52b44, 0xe2684fbb)
  {
  }

  lemma Round10()
    ensures Holds(After(10), Quad(0x52ce3f4f, 0xc0c4a8c8, 0xb2882a5e, 0x8a0590bf),
                  Quad(0x01dcd057, 0x8f6938ec, 0x2ac52b44, 0xdb58a660),
                  Quad(0x7143ac5d, 0xce79480d, 0x1f66adee, 0xe2684fbb),
                  Quad(0xaa91070d, 0x4c1373b9, 0x5e433ae7, 0x29595418))
  {
    hide Mix, Holds, Columns, Diagonals, First;
    Round9(); Columns10(); Diagonals10();
    ColumnsByQuads(After(9), MessageWords(), Sigma(9), Quad(0xe8de94ca, 0xc3963785, 0xe5f2f14c, 0xb1474f87),
                   Quad(0x323ca86b, 0xcd870523, 0x69ea170f, 0x7b5e0394),
                   Quad(0x01417812, 0x5b728f73, 0x4e7b64fb, 0x22ec9d44),
                   Quad(0x8e20a95a, 0x2ee70294, 0x7708f986, 0xc6e8b8d7));
    var v := Columns(After(9), MessageWords(), Sigma(9));
    DiagonalsByQuads(v, MessageWords(), Sigma(9), Quad(0xdcaf35d5, 0x5cae9f00, 0xad49b778, 0x0c665f53),
                     Quad(0x949789f5, 0x5bb7c369, 0x857e1e9a, 0x4e59add0),
                     Quad(0xab916edc, 0xa7fdac06, 0xea733270, 0xe2127437),
                     Quad(0xcb18e2b5, 0xc840084d, 0xcff13a4b, 0x50c33de0));
  }

  // -------------------------------------------------------------------------
  // The digest

  function Chained(): Chain
  {
    [0x8b4ef356, 0x907e5596, 0x524bf2c1, 0x519dc8d0, 0x1bcf6a08, 0xcf34f600, 0x3392de1d, 0x3eaaeab8]
  }

  lemma FoldByColumns(h: Chain, v: Vec, p: Quad, q: Quad, r: Quad, s: Quad)
    requires Holds(v, p, q, r, s)
    ensures FoldWord(h, v, 0) == Xor(Xor(h[0], p.a), p.c) && FoldWord(h, v, 1) == Xor(Xor(h[1], q.a), q.c)
    ensures FoldWord(h, v, 2) == Xor(Xor(h[2], r.a), r.c) && FoldWord(h, v, 3) == Xor(Xor(h[3], s.a), s.c)
    ensures FoldWord(h, v, 4) == Xor(Xor(h[4], p.b), p.d) && FoldWord(h, v, 5) == Xor(Xor(h[5], q.b), q.d)
    ensures FoldWord(h, v, 6) == Xor(Xor(h[6], r.b), r.d) && FoldWord(h, v, 7) == Xor(Xor(h[7], s.b), s.d)
  {
    hide Xor;
  }

  lemma Folded()
    ensures Fold(KeyedStart(32, 0), After(10)) == Chained()
  {
    hide After, KeyedStart, Fold, FoldWord, Holds;
    StartOfChain();
    Round10();
    FoldByColumns(KeyedStart(32, 0), After(10), Quad(0x52ce3f4f, 0xc0c4a8c8, 0xb2882a5e, 0x8a0590bf),
                  Quad(0x01dcd057, 0x8f6938ec, 0x2ac52b44, 0xdb58a660),
                  Quad(0x7143ac5d, 0xce79480d, 0x1f66adee, 0xe2684fbb),
                  Quad(0xaa91070d, 0x4c1373b9, 0x5e433ae7, 0x29595418));
  }

  lemma OneBlock(h: Chain, block: seq<bv8>)
    requires |block| == BLOCKBYTES
    ensures Hashed(h, block) == F(h, block, 64, true)
  {
    hide F;
    assert block[0..] + Zeros(0) == block;
  }

  lemma HashedExample()
    ensures Hashed(KeyedStart(32, 0), Message()) == Chained()
  {
    hide Hashed, Fold, Start, KeyedStart, Message, MessageWords, Rounds, Words, Chained;
    MessageSize();
    OneBlock(KeyedStart(32, 0), Message());
    Loaded();
    Folded();
  }

  lemma MessageSize()
    ensures |Message()| == 64 && KeyBlock([]) + Message() == Message()
  {
    hide ByteOf;
  }

  lemma BytesSnoc(w: Chain, k: nat)
    requires k < 8
    ensures Bytes(w[..k + 1]) == Bytes(w[..k]) + Store32(w[k])
  {
    hide Store32;
    assert w[..k + 1][..k] == w[..k];
  }

  lemma ChainBytes(w: Chain)
    ensures Bytes(w) == Store32(w[0]) + Store32(w[1]) + Store32(w[2]) + Store32(w[3]) +
                        Store32(w[4]) + Store32(w[5]) + Store32(w[6]) + Store32(w[7])
  {
    assert Bytes(w[..0]) == [];
    hide Bytes, Store32;
    assert [] + Store32(w[0]) == Store32(w[0]);
    BytesSnoc(w, 0); BytesSnoc(w, 1); BytesSnoc(w, 2); BytesSnoc(w, 3);
    BytesSnoc(w, 4); BytesSnoc(w, 5); BytesSnoc(w, 6); BytesSnoc(w, 7);
    assert w[..8] == w;
  }

  lemma Stored()
    ensures Bytes(Chained()) ==
            [0x56, 0xf3, 0x4e, 0x8b] + [0x96, 0x55, 0x7e, 0x90] + [0xc1, 0xf2, 0x4b, 0x52] + [0xd0, 0xc8, 0x9d, 0x51] +
            [0x08, 0x6a, 0xcf, 0x1b] + [0x00, 0xf6, 0x34, 0xcf] + [0x1d, 0xde, 0x92, 0x33] + [0xb8, 0xea, 0xaa, 0x3e]
  {
    hide Bytes;
    ChainBytes(Chained());
  }

  /** BLAKE2s-256 of the bytes 00 01 .. 3f. */
  lemma DigestExample()
    ensures Digest(Message(), [], 32) ==
            [0x56, 0xf3, 0x4e, 0x8b] + [0x96, 0x55, 0x7e, 0x90] + [0xc1, 0xf2, 0x4b, 0x52] + [0xd0, 0xc8, 0x9d, 0x51] +
            [0x08, 0x6a, 0xcf, 0x1b] + [0x00, 0xf6, 0x34, 0xcf] + [0x1d, 0xde, 0x92, 0x33] + [0xb8, 0xea, 0xaa, 0x3e]
  {
    hide Hashed, KeyedStart, Message, Bytes, Chained, KeyBlock;
    MessageSize();
    HashedExample();
    var d := Bytes(Chained());
    assert |d| == 32 && d[..32] == d;
    Stored();
  }
}
