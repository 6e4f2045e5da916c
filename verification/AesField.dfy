/** The byte tables and the field arithmetic of crypto/aes.c. */
module AesField {

  // Each row of sixteen table bytes is one 128-bit literal, leftmost byte first.
  // Rows of the forward table g_sbox.
  function SboxRow(hi: bv8): bv128
  {
    if hi == 0x0 then 0x637c777b_f26b6fc5_3001672b_fed7ab76
    else if hi == 0x1 then 0xca82c97d_fa5947f0_add4a2af_9ca472c0
    else if hi == 0x2 then 0xb7fd9326_363ff7cc_34a5e5f1_71d83115
    else if hi == 0x3 then 0x04c723c3_1896059a_071280e2_eb27b275
    else if hi == 0x4 then 0x09832c1a_1b6e5aa0_523bd6b3_29e32f84
    else if hi == 0x5 then 0x53d100ed_20fcb15b_6acbbe39_4a4c58cf
    else if hi == 0x6 then 0xd0efaafb_434d3385_45f9027f_503c9fa8
    else if hi == 0x7 then 0x51a3408f_929d38f5_bcb6da21_10fff3d2
    else if hi == 0x8 then 0xcd0c13ec_5f974417_c4a77e3d_645d1973
    else if hi == 0x9 then 0x60814fdc_222a9088_46eeb814_de5e0bdb
    else if hi == 0xa then 0xe0323a0a_4906245c_c2d3ac62_9195e479
    else if hi == 0xb then 0xe7c8376d_8dd54ea9_6c56f4ea_657aae08
    else if hi == 0xc then 0xba78252e_1ca6b4c6_e8dd741f_4bbd8b8a
    else if hi == 0xd then 0x703eb566_4803f60e_613557b9_86c11d9e
    else if hi == 0xe then 0xe1f89811_69d98e94_9b1e87e9_ce5528df
    else 0x8ca1890d_bfe64268_41992d0f_b054bb16
  }

  // Rows of the inverse table g_rsbox.
  function RsboxRow(hi: bv8): bv128
  {
    if hi == 0x0 then 0x52096ad5_3036a538_bf40a39e_81f3d7fb
    else if hi == 0x1 then 0x7ce33982_9b2fff87_348e4344_c4dee9cb
    else if hi == 0x2 then 0x547b9432_a6c2233d_ee4c950b_42fac34e
    else if hi == 0x3 then 0x082ea166_28d924b2_765ba249_6d8bd125
    else if hi == 0x4 then 0x72f8f664_86689816_d4a45ccc_5d65b692
    else if hi == 0x5 then 0x6c704850_fdedb9da_5e154657_a78d9d84
    else if hi == 0x6 then 0x90d8ab00_8cbcd30a_f7e45805_b8b34506
    else if hi == 0x7 then 0xd02c1e8f_ca3f0f02_c1afbd03_01138a6b
    else if hi == 0x8 then 0x3a911141_4f67dcea_97f2cfce_f0b4e673
    else if hi == 0x9 then 0x96ac7422_e7ad3585_e2f937e8_1c75df6e
    else if hi == 0xa then 0x47f11a71_1d29c589_6fb7620e_aa18be1b
    else if hi == 0xb then 0xfc563e4b_c6d27920_9adbc0fe_78cd5af4
    else if hi == 0xc then 0x1fdda833_8807c731_b1121059_2780ec5f
    else if hi == 0xd then 0x60517fa9_19b54a0d_2de57a9f_93c99cef
    else if hi == 0xe then 0xa0e03b4d_ae2af5b0_c8ebbb3c_83539961
    else 0x172b047e_ba77d626_e1691463_55210c7d
  }

  function Cell(row: bv128, column: bv8): bv8
    requires column < 16
  {
    ((row >> (8 * (15 - column))) & 0xff) as bv8
  }

  /** g_sbox[x] */
  function Sub(x: bv8): bv8 { Cell(SboxRow(x >> 4), x & 0xf) }

  /** g_rsbox[x] */
  function InvSub(x: bv8): bv8 { Cell(RsboxRow(x >> 4), x & 0xf) }

  /** Addition in GF(2^8). */
  function Add(x: bv8, y: bv8): bv8 { x ^ y }

  /** galois_mul2: doubling in GF(2^8) modulo x^8 + x^4 + x^3 + x + 1. */
  function Mul2(x: bv8): bv8
  {
    if x >> 7 != 0 then (x << 1) ^ 0x1b else x << 1
  }

  /** The product of section 4.2 of FIPS 197: shift-and-add over the bits of c. */
  function Times(c: bv8, x: bv8): bv8
    decreases c
  {
    if c == 0 then 0
    else if c & 1 == 1 then Add(x, Times(c >> 1, Mul2(x)))
    else Times(c >> 1, Mul2(x))
  }

  /** The sum of a column. */
  function Sum(a: bv8, b: bv8, c: bv8, d: bv8): bv8 { Add(Add(Add(a, b), c), d) }

  /** One row of MixColumns (section 5.1.3 of FIPS 197); the other rows apply the
      same function to the rotated column. */
  function MixRow(a: bv8, b: bv8, c: bv8, d: bv8): bv8
  {
    Sum(Times(0x02, a), Times(0x03, b), c, d)
  }

  /** One row of InvMixColumns (section 5.3.3 of FIPS 197). */
  function InvMixRow(a: bv8, b: bv8, c: bv8, d: bv8): bv8
  {
    Sum(Times(0x0e, a), Times(0x0b, b), Times(0x0d, c), Times(0x09, d))
  }

  // -------------------------------------------------------------------------
  // The two tables are mutually inverse permutations of the bytes.

  lemma InvSubSub0(x: bv8) requires x < 0x40 ensures InvSub(Sub(x)) == x {}
  lemma InvSubSub1(x: bv8) requires 0x40 <= x < 0x80 ensures InvSub(Sub(x)) == x {}
  lemma InvSubSub2(x: bv8) requires 0x80 <= x < 0xc0 ensures InvSub(Sub(x)) == x {}
  lemma InvSubSub3(x: bv8) requires 0xc0 <= x ensures InvSub(Sub(x)) == x {}
  lemma SubInvSub0(x: bv8) requires x < 0x40 ensures Sub(InvSub(x)) == x {}
  lemma SubInvSub1(x: bv8) requires 0x40 <= x < 0x80 ensures Sub(InvSub(x)) == x {}
  lemma SubInvSub2(x: bv8) requires 0x80 <= x < 0xc0 ensures Sub(InvSub(x)) == x {}
  lemma SubInvSub3(x: bv8) requires 0xc0 <= x ensures Sub(InvSub(x)) == x {}

  lemma TablesInverse(x: bv8)
    ensures InvSub(Sub(x)) == x
    ensures Sub(InvSub(x)) == x
  {
    hide Sub, InvSub;
    if x < 0x40 { InvSubSub0(x); SubInvSub0(x); }
    else if x < 0x80 { InvSubSub1(x); SubInvSub1(x); }
    else if x < 0xc0 { InvSubSub2(x); SubInvSub2(x); }
    else { InvSubSub3(x); SubInvSub3(x); }
  }

  // -------------------------------------------------------------------------
  // Sums are compared bit by bit.

  function Bit(x: bv8, k: bv8): bool
    requires k < 8
  {
    (x >> k) & 1 == 1
  }

  lemma BitOfSum(x: bv8, y: bv8, k: bv8)
    requires k < 8
    ensures Bit(Add(x, y), k) == (Bit(x, k) != Bit(y, k))
  {}

  lemma BitsOfSums()
    ensures forall x, y, k: bv8 {:trigger Bit(Add(x, y), k)} | k < 8 :: Bit(Add(x, y), k) == (Bit(x, k) != Bit(y, k))
  {
    forall x, y, k: bv8 | k < 8 ensures Bit(Add(x, y), k) == (Bit(x, k) != Bit(y, k)) {
      BitOfSum(x, y, k);
    }
  }

  lemma SameBits(x: bv8, y: bv8)
    requires forall k: bv8 | k < 8 :: Bit(x, k) == Bit(y, k)
    ensures x == y
  {
    assert Bit(x, 0) == Bit(y, 0) && Bit(x, 1) == Bit(y, 1) && Bit(x, 2) == Bit(y, 2) && Bit(x, 3) == Bit(y, 3);
    assert Bit(x, 4) == Bit(y, 4) && Bit(x, 5) == Bit(y, 5) && Bit(x, 6) == Bit(y, 6) && Bit(x, 7) == Bit(y, 7);
  }

  /** Exchanging the middle two of four summands. */
  lemma Interchange(a: bv8, b: bv8, c: bv8, d: bv8)
    ensures Add(Add(a, b), Add(c, d)) == Add(Add(a, c), Add(b, d))
    ensures Sum(a, b, c, d) == Add(Add(a, b), Add(c, d))
    ensures Sum(a, b, c, d) == Add(Add(a, c), Add(b, d))
  {
    hide Add, Bit;
    BitsOfSums();
    SameBits(Add(Add(a, b), Add(c, d)), Add(Add(a, c), Add(b, d)));
    SameBits(Add(Add(Add(a, b), c), d), Add(Add(a, b), Add(c, d)));
  }

  /** A summand that occurs twice disappears. */
  lemma Cancel(x: bv8, y: bv8, m: bv8)
    ensures Add(Add(x, m), Add(y, m)) == Add(x, y)
    ensures Add(Add(x, m), Add(m, y)) == Add(x, y)
    ensures Add(Add(x, m), m) == x
    ensures Add(x, y) == Add(y, x)
  {
    hide Add, Bit;
    BitsOfSums();
    SameBits(Add(Add(x, m), Add(y, m)), Add(x, y));
    SameBits(Add(Add(x, m), Add(m, y)), Add(x, y));
    SameBits(Add(Add(x, m), m), x);
    SameBits(Add(x, y), Add(y, x));
  }

  // Doubling without a branch: the carry bit, spread by the reduction polynomial.
  lemma Mul2Form(x: bv8)
    ensures Mul2(x) == (x << 1) ^ (x >> 7) ^ ((x >> 7) << 1) ^ ((x >> 7) << 3) ^ ((x >> 7) << 4)
  {}

  lemma Mul2FormLinear(x: bv8, y: bv8)
    ensures ((x ^ y) << 1) ^ ((x ^ y) >> 7) ^ (((x ^ y) >> 7) << 1) ^ (((x ^ y) >> 7) << 3) ^ (((x ^ y) >> 7) << 4)
            == ((x << 1) ^ (x >> 7) ^ ((x >> 7) << 1) ^ ((x >> 7) << 3) ^ ((x >> 7) << 4))
               ^ ((y << 1) ^ (y >> 7) ^ ((y >> 7) << 1) ^ ((y >> 7) << 3) ^ ((y >> 7) << 4))
  {}

  /** Doubling distributes over addition. */
  lemma Mul2Linear(x: bv8, y: bv8)
    ensures Mul2(Add(x, y)) == Add(Mul2(x), Mul2(y))
  {
    hide Mul2;
    Mul2Form(x);
    Mul2Form(y);
    Mul2Form(x ^ y);
    Mul2FormLinear(x, y);
  }

  // -------------------------------------------------------------------------
  // The products by the matrix constants, as chains of doublings.

  lemma TimesOne(x: bv8)
    ensures Times(1, x) == x
  {
    hide Mul2;
    assert Times(0, Mul2(x)) == 0;
  }

  lemma TimesEven(c: bv8, x: bv8)
    requires c != 0 && c & 1 == 0
    ensures Times(c, x) == Times(c >> 1, Mul2(x))
  {}

  lemma TimesOdd(c: bv8, x: bv8)
    requires c & 1 == 1
    ensures Times(c, x) == Add(x, Times(c >> 1, Mul2(x)))
  {}

  lemma Products(x: bv8)
    ensures var x1 := Mul2(x); var x2 := Mul2(x1); var x3 := Mul2(x2);
            && Times(0x02, x) == x1
            && Times(0x03, x) == Add(x, x1)
            && Times(0x09, x) == Add(x, x3)
            && Times(0x0b, x) == Add(x, Add(x1, x3))
            && Times(0x0d, x) == Add(x, Add(x2, x3))
            && Times(0x0e, x) == Add(x1, Add(x2, x3))
  {
    hide Add, Mul2, Times;
    var x1 := Mul2(x);
    var x2 := Mul2(x1);
    TimesOne(x1); TimesOne(Mul2(x2));
    TimesEven(0x02, x); TimesOdd(0x03, x);
    TimesEven(0x02, x2); TimesOdd(0x03, x2);
    TimesOdd(0x09, x); TimesEven(0x04, x1);
    TimesOdd(0x0b, x); TimesOdd(0x05, x1);
    TimesOdd(0x0d, x); TimesEven(0x06, x1);
    TimesEven(0x0e, x); TimesOdd(0x07, x1);
  }

  // -------------------------------------------------------------------------
  // The code's in-place forms and the two matrices.

  /** The in-place row of the code: x + 2(x + y) + (sum of the column). */
  function FastRow(x: bv8, y: bv8, sum: bv8): bv8 { Add(Add(x, Mul2(Add(x, y))), sum) }

  /** It is the row of the matrix. */
  lemma FastRowIsMixRow(a: bv8, b: bv8, c: bv8, d: bv8)
    ensures FastRow(a, b, Sum(a, b, c, d)) == MixRow(a, b, c, d)
  {
    hide Add, Mul2, Times, Bit;
    Products(a);
    Products(b);
    Mul2Linear(a, b);
    BitsOfSums();
    SameBits(Add(Add(a, Add(Mul2(a), Mul2(b))), Sum(a, b, c, d)), Sum(Mul2(a), Add(b, Mul2(b)), c, d));
  }

  /** Two neighbouring rows add up to (a + b) + 2(a + c). */
  lemma NeighbourRows(a: bv8, b: bv8, c: bv8, t: bv8)
    ensures Add(FastRow(a, b, t), FastRow(b, c, t)) == Add(Add(a, b), Mul2(Add(a, c)))
  {
    hide Add, Mul2;
    var p, q := Mul2(Add(a, b)), Mul2(Add(b, c));
    Cancel(Add(a, p), Add(b, q), t);
    Interchange(a, p, b, q);
    Mul2Linear(Add(a, b), Add(b, c));
    Cancel(a, c, b);
  }

  /** Mixing preserves the sum of the column. */
  lemma MixKeepsSum(a: bv8, b: bv8, c: bv8, d: bv8)
    ensures var t := Sum(a, b, c, d);
            Sum(FastRow(a, b, t), FastRow(b, c, t), FastRow(c, d, t), FastRow(d, a, t)) == t
  {
    hide Add, Mul2, FastRow, Sum;
    var t := Sum(a, b, c, d);
    NeighbourRows(a, b, c, t);
    NeighbourRows(c, d, a, t);
    Cancel(a, c, c);
    Interchange(FastRow(a, b, t), FastRow(b, c, t), FastRow(c, d, t), FastRow(d, a, t));
    Cancel(Add(a, b), Add(c, d), Mul2(Add(a, c)));
    Interchange(a, b, c, d);
  }

  /** Mixing a mixed column adds 4(a + c): the square of the matrix. */
  lemma MixTwice(a: bv8, b: bv8, c: bv8, d: bv8)
    ensures var t := Sum(a, b, c, d);
            FastRow(FastRow(a, b, t), FastRow(b, c, t), t) == Add(a, Mul2(Mul2(Add(a, c))))
  {
    hide Add, Mul2, Sum, Bit;
    var t, p, w := Sum(a, b, c, d), Mul2(Add(a, b)), Mul2(Mul2(Add(a, c)));
    NeighbourRows(a, b, c, t);
    Mul2Linear(Add(a, b), Mul2(Add(a, c)));
    BitsOfSums();
    SameBits(Add(Add(Add(Add(a, p), t), Add(p, w)), t), Add(a, w));
  }

  /** The "barreto" step on one entry and the one two rows below it. */
  function Barreto(x: bv8, z: bv8): bv8 { Add(x, Mul2(Mul2(Add(x, z)))) }

  /** It is an involution. */
  lemma BarretoTwice(x: bv8, z: bv8)
    ensures Barreto(Barreto(x, z), Barreto(z, x)) == x
  {
    hide Add, Mul2;
    var u := Mul2(Mul2(Add(x, z)));
    Cancel(x, z, u);
  }

  lemma BarretoPair(a: bv8, b: bv8, c: bv8, d: bv8)
    ensures Add(Barreto(a, c), Barreto(b, d)) == Add(Add(a, b), Mul2(Mul2(Sum(a, b, c, d))))
    ensures Sum(Barreto(a, c), Barreto(b, d), Barreto(c, a), Barreto(d, b)) == Sum(a, b, c, d)
  {
    hide Add, Mul2, Sum;
    var u, v := Mul2(Mul2(Add(a, c))), Mul2(Mul2(Add(b, d)));
    Interchange(a, u, b, v);
    Mul2Linear(Add(a, c), Add(b, d));
    Mul2Linear(Mul2(Add(a, c)), Mul2(Add(b, d)));
    Interchange(a, b, c, d);
    Cancel(a, c, u); Cancel(b, d, v);
    Interchange(Barreto(a, c), Barreto(b, d), Barreto(c, a), Barreto(d, b));
  }

  lemma InvMixBits(
      a: bv8, a1: bv8, a2: bv8, a3: bv8, b: bv8, b1: bv8, b3: bv8, c: bv8, c2: bv8, c3: bv8, d: bv8, d3: bv8)
    ensures Sum(Add(a1, Add(a2, a3)), Add(b, Add(b1, b3)), Add(c, Add(c2, c3)), Add(d, d3))
            == Add(Add(Add(a, Add(a2, c2)), Add(Add(a1, b1), Sum(a3, b3, c3, d3))), Sum(a, b, c, d))
  {
    hide Add, Bit;
    BitsOfSums();
    SameBits(Sum(Add(a1, Add(a2, a3)), Add(b, Add(b1, b3)), Add(c, Add(c2, c3)), Add(d, d3)),
             Add(Add(Add(a, Add(a2, c2)), Add(Add(a1, b1), Sum(a3, b3, c3, d3))), Sum(a, b, c, d)));
  }

  lemma Mul2OfSum(a: bv8, b: bv8, c: bv8, d: bv8)
    ensures Mul2(Sum(a, b, c, d)) == Sum(Mul2(a), Mul2(b), Mul2(c), Mul2(d))
  {
    hide Add, Mul2;
    Mul2Linear(Add(Add(a, b), c), d);
    Mul2Linear(Add(a, b), c);
    Mul2Linear(a, b);
  }

  /** "invMixColumns = barreto + mixColumns", row by row. */
  lemma BarretoThenMix(a: bv8, b: bv8, c: bv8, d: bv8)
    ensures MixRow(Barreto(a, c), Barreto(b, d), Barreto(c, a), Barreto(d, b)) == InvMixRow(a, b, c, d)
  {
    hide Add, Mul2, Times, MixRow, Sum;
    var t := Sum(a, b, c, d);
    FastRowIsMixRow(Barreto(a, c), Barreto(b, d), Barreto(c, a), Barreto(d, b));
    BarretoPair(a, b, c, d);
    Mul2Linear(Add(a, b), Mul2(Mul2(t)));
    var a1, b1, c1, d1 := Mul2(a), Mul2(b), Mul2(c), Mul2(d);
    var a2, b2, c2, d2 := Mul2(a1), Mul2(b1), Mul2(c1), Mul2(d1);
    Mul2OfSum(a, b, c, d); Mul2OfSum(a1, b1, c1, d1); Mul2OfSum(a2, b2, c2, d2);
    Mul2Linear(a, b); Mul2Linear(a, c); Mul2Linear(a1, c1);
    Products(a); Products(b); Products(c); Products(d);
    InvMixBits(a, a1, a2, Mul2(a2), b, b1, Mul2(b2), c, c2, Mul2(c2), d, Mul2(d2));
  }
}
