/** The substitution table against its definition in section 5.1.1 of FIPS 197:
    the inverse in GF(2^8), then an affine map over GF(2). */
module AesSbox {
  import opened AesField

  function Rotl(x: bv8, k: bv8): bv8
    requires 0 < k < 8
  {
    (x << k) | (x >> (8 - k))
  }

  /** b_i + b_(i+4) + b_(i+5) + b_(i+6) + b_(i+7) + c_i on every bit, c = 63 hexadecimal. */
  function Affine(b: bv8): bv8 { b ^ Rotl(b, 1) ^ Rotl(b, 2) ^ Rotl(b, 3) ^ Rotl(b, 4) ^ 0x63 }

  function InvAffine(s: bv8): bv8 { Rotl(s, 1) ^ Rotl(s, 3) ^ Rotl(s, 6) ^ 0x05 }

  lemma AffineInverse(s: bv8)
    ensures Affine(InvAffine(s)) == s
  {}

  function Pick(c: bv8, x: bv8): bv8 { if c & 1 == 1 then x else 0 }

  /** Four steps of the product, from bit k of c on, before rest. */
  function Steps(c: bv8, x: bv8, k: bv8, rest: bv8): bv8
    requires k < 5
  {
    var x1 := Mul2(x);
    var x2 := Mul2(x1);
    Add(Pick(c >> k, x),
        Add(Pick(c >> (k + 1), x1), Add(Pick(c >> (k + 2), x2), Add(Pick(c >> (k + 3), Mul2(x2)), rest))))
  }

  /** The product c * x with all eight steps written out. */
  function Product(c: bv8, x: bv8): bv8 { Steps(c, x, 0, Steps(c, Mul2(Mul2(Mul2(Mul2(x)))), 4, 0)) }

  lemma TimesStep(c: bv8, x: bv8, k: bv8)
    requires k < 8
    ensures Times(c >> k, x) == Add(Pick(c >> k, x), Times(c >> (k + 1), Mul2(x)))
  {
    hide Mul2;
    assert (c >> k) >> 1 == c >> (k + 1);
  }

  lemma TimesDone(c: bv8, x: bv8)
    ensures c >> 0 == c && Times(c >> 8, x) == 0
  {}

  lemma StepsOfTimes(c: bv8, x: bv8, k: bv8)
    requires k < 5
    ensures Times(c >> k, x) == Steps(c, x, k, Times(c >> (k + 4), Mul2(Mul2(Mul2(Mul2(x))))))
  {
    hide Mul2, Times, Pick, Add;
    var x1 := Mul2(x);
    var x2 := Mul2(x1);
    TimesStep(c, x, k); TimesStep(c, x1, k + 1); TimesStep(c, x2, k + 2); TimesStep(c, Mul2(x2), k + 3);
  }

  lemma ProductIsTimes(c: bv8, x: bv8)
    ensures Product(c, x) == Times(c, x)
  {
    hide Mul2, Times, Steps;
    var x4 := Mul2(Mul2(Mul2(Mul2(x))));
    StepsOfTimes(c, x, 0);
    StepsOfTimes(c, x4, 4);
    TimesDone(c, x);
    TimesDone(c, Mul2(Mul2(Mul2(Mul2(x4)))));
  }

  lemma InverseLow(x: bv8) requires 0 < x < 0x80 ensures Product(x, InvAffine(Sub(x))) == 1 {}
  lemma InverseHigh(x: bv8) requires 0x80 <= x ensures Product(x, InvAffine(Sub(x))) == 1 {}

  /** Every table entry is the affine image of the inverse of its index (of 0 for 0). */
  lemma SboxIsInverseThenAffine(x: bv8) returns (y: bv8)
    ensures Sub(x) == Affine(y)
    ensures if x == 0 then y == 0 else Times(x, y) == 1
  {
    y := InvAffine(Sub(x));
    AffineInverse(Sub(x));
    if x == 0 {
      assert InvAffine(Sub(0)) == 0;
    } else {
      hide *;
      ProductIsTimes(x, y);
      if x < 0x80 { InverseLow(x); } else { InverseHigh(x); }
    }
  }
}
