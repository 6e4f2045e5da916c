/** The stirring constants of crypto/random_pool.c, stated by their effect: which words a new word depends on, how far
    it is rotated, and what two words make of an empty pool. */
module PoolStirring {
  import opened Arithmetic
  import opened Blake2sSpec
  import opened PoolSpec

  // -------------------------------------------------------------------------
  // The taps

  /** Position j lies d above i exactly when the taps find it there. */
  lemma UpExactly(i: nat, j: nat, d: nat, size: nat)
    requires i < size && j < size && d < size
    ensures Up(i, d, size) == j <==> (j - i) % size == d
  {
    if j >= i {
      InRange(j - i, size);
    } else {
      Remainder(j - i, size, -1, j - i + size);
    }
  }

  lemma XorLeft(x: bv32, x': bv32, y: bv32)
    ensures Xor(x, y) == Xor(x', y) <==> x == x'
  {
  }

  lemma XorRight(x: bv32, y: bv32, y': bv32)
    ensures Xor(x, y) == Xor(x, y') <==> y == y'
  {
  }

  function Five(a: bv32, b: bv32, c: bv32, d: bv32, e: bv32): bv32 { Xor(Xor(Xor(Xor(a, b), c), d), e) }

  lemma LastThree(x: bv32, x': bv32, c: bv32, d: bv32, e: bv32)
    ensures Xor(Xor(Xor(x, c), d), e) == Xor(Xor(Xor(x', c), d), e) <==> x == x'
  {
    hide Xor;
    XorLeft(x, x', c);
    XorLeft(Xor(x, c), Xor(x', c), d);
    XorLeft(Xor(Xor(x, c), d), Xor(Xor(x', c), d), e);
  }

  /** A change of one term changes the sum. */
  lemma FirstTerms(a: bv32, b: bv32, c: bv32, d: bv32, e: bv32, w: bv32)
    ensures Five(w, b, c, d, e) == Five(a, b, c, d, e) <==> w == a
    ensures Five(a, w, c, d, e) == Five(a, b, c, d, e) <==> w == b
  {
    hide Xor;
    XorLeft(w, a, b);
    LastThree(Xor(w, b), Xor(a, b), c, d, e);
    XorRight(a, w, b);
    LastThree(Xor(a, w), Xor(a, b), c, d, e);
  }

  lemma LastTerms(a: bv32, b: bv32, c: bv32, d: bv32, e: bv32, w: bv32)
    ensures Five(a, b, w, d, e) == Five(a, b, c, d, e) <==> w == c
    ensures Five(a, b, c, w, e) == Five(a, b, c, d, e) <==> w == d
    ensures Five(a, b, c, d, w) == Five(a, b, c, d, e) <==> w == e
  {
    hide Xor;
    var ab, abc := Xor(a, b), Xor(Xor(a, b), c);
    XorRight(ab, w, c);
    XorLeft(Xor(ab, w), abc, d);
    XorLeft(Xor(Xor(ab, w), d), Xor(abc, d), e);
    XorRight(abc, w, d);
    XorLeft(Xor(abc, w), Xor(abc, d), e);
    XorRight(Xor(abc, d), w, e);
  }

  /** A change of word j changes what is stirred in at i exactly when j lies 1, 25, 51, 76 or 104 above i. */
  lemma TapsExactly(words: seq<bv32>, i: nat, j: nat, w: bv32)
    requires |words| > LARGEST_TAP && i < |words| && j < |words| && w != words[j]
    ensures Taps(words[j := w], i) != Taps(words, i) <==> (j - i) % |words| in {1, 25, 51, 76, 104}
  {
    hide Xor;
    var n := |words|;
    UpExactly(i, j, 104, n); UpExactly(i, j, 76, n); UpExactly(i, j, 51, n); UpExactly(i, j, 25, n);
    UpExactly(i, j, 1, n);
    var a, b, c := words[Up(i, 104, n)], words[Up(i, 76, n)], words[Up(i, 51, n)];
    var d, e := words[Up(i, 25, n)], words[Up(i, 1, n)];
    assert Taps(words, i) == Five(a, b, c, d, e);
    var words' := words[j := w];
    assert Taps(words', i) == Five(words'[Up(i, 104, n)], words'[Up(i, 76, n)], words'[Up(i, 51, n)],
                                   words'[Up(i, 25, n)], words'[Up(i, 1, n)]);
    hide Five, Taps;
    FirstTerms(a, b, c, d, e, w);
    LastTerms(a, b, c, d, e, w);
  }

  // -------------------------------------------------------------------------
  // The rotation

  /** To the left: bit k goes to bit k + r modulo 32. */
  lemma RotlBit(r: bv8, k: bv8)
    requires r < 32 && k < 32
    ensures Rotl(1 << k, r) == 1 << ((k + r) & 31)
  {
  }

  /** n turns by seven, modulo 32. */
  function Turned(r: bv8, n: nat): bv8
  {
    if n == 0 then r else (Turned(r, n - 1) + 7) & 31
  }

  /** How often the pointer comes to zero in n steps down from i. */
  function PassesZero(i: nat, n: nat, size: nat): nat
    requires i < size
    decreases n
  {
    if n == 0 then 0 else
      var j := Down(i, size);
      (if j == 0 then 1 else 0) + PassesZero(j, n - 1, size)
  }

  lemma {:induction false} TurnedTwice(r: bv8, m: nat, n: nat)
    ensures Turned(Turned(r, m), n) == Turned(r, m + n)
    decreases n
  {
    if n > 0 {
      TurnedTwice(r, m, n - 1);
    }
  }

  lemma NextTurns(r: bv8, i: nat)
    requires r < 32
    ensures NextRotate(r, i) == Turned(r, if i == 0 then 2 else 1)
  {
    assert Turned(r, 0) == r;
    OneTurnMore(r, 0);
    OneTurnMore(r, 1);
    hide Turned;
  }

  /** Every word turns by seven, and by seven more where the pointer passes zero. */
  lemma {:induction false} RotateAfter(p: Pool, buf: seq<bv32>)
    requires Valid(p)
    ensures Added(p, buf).rotate == Turned(p.rotate, |buf| + PassesZero(p.addptr, |buf|, |p.words|))
    decreases |buf|
  {
    hide Mixed, NextRotate;
    if buf != [] {
      var q := Step(p, buf[0]);
      RotateAfter(q, buf[1..]);
      NextTurns(p.rotate, q.addptr);
      TurnedTwice(p.rotate, if q.addptr == 0 then 2 else 1, |buf| - 1 + PassesZero(q.addptr, |buf| - 1, |p.words|));
    }
  }

  /** At most one step of a pass does. */
  lemma {:induction false} ZeroOnce(i: nat, n: nat, size: nat)
    requires i < size && n <= size
    ensures PassesZero(i, n, size) == if (0 < i <= n) || (i == 0 && n == size) then 1 else 0
    decreases n
  {
    if n > 0 {
      ZeroOnce(Down(i, size), n - 1, size);
    }
  }

  lemma EightTurns(r: bv8)
    requires r < 32
    ensures Turned(r, 8) == (r + 24) & 31
  {
    assert Turned(r, 0) == r;
    hide Turned;
    OneTurnMore(r, 0); OneTurnMore(r, 1); OneTurnMore(r, 2); OneTurnMore(r, 3);
    assert Turned(r, 4) == (r + 28) & 31;
    OneTurnMore(r, 4); OneTurnMore(r, 5); OneTurnMore(r, 6); OneTurnMore(r, 7);
  }

  lemma OneTurnMore(r: bv8, n: nat)
    ensures Turned(r, n + 1) == (Turned(r, n) + 7) & 31
  {
  }

  lemma FullTurns(r: bv8)
    requires r < 32
    ensures Turned(r, 32) == r && Turned(r, 128) == r
  {
    EightTurns(r);
    var a := (r + 24) & 31;
    EightTurns(a); TurnedTwice(r, 8, 8);
    var b := (a + 24) & 31;
    EightTurns(b); TurnedTwice(r, 16, 8);
    var c := (b + 24) & 31;
    EightTurns(c); TurnedTwice(r, 24, 8);
    assert (c + 24) & 31 == r;
    TurnedTwice(r, 32, 32); TurnedTwice(r, 64, 32); TurnedTwice(r, 96, 32);
  }

  /** A pass over the 128 words of the source, from any position, leaves the rotation seven further. */
  lemma PassTurnsBySeven(p: Pool, buf: seq<bv32>)
    requires Valid(p) && |p.words| == |buf| == 128
    ensures Added(p, buf).rotate == (p.rotate + 7) & 31
  {
    RotateAfter(p, buf);
    ZeroOnce(p.addptr, 128, 128);
    FullTurns(p.rotate);
    TurnedTwice(p.rotate, 128, 1);
    assert Turned(p.rotate, 1) == (Turned(p.rotate, 0) + 7) & 31;
  }

  // -------------------------------------------------------------------------
  // Two words into an empty pool

  function Empty(): Pool { Pool(seq(128, _ => 0), 0, 0) }

  /** The words 1 and 1: the first goes to the last position, the second, rotated by seven, below it. */
  lemma TwoWords()
    ensures Added(Empty(), [1, 1]) == Pool(Empty().words[127 := 0x3b6e20c8][126 := 0x076dc409], 126, 14)
  {
    var p := Empty();
    assert Taps(p.words, 127) == 0 && Mixed(p.words, 127, 0, 1) == 0x3b6e20c8;
    var q := Pool(p.words[127 := 0x3b6e20c8], 127, 7);
    assert Step(p, 1) == q;
    assert Taps(q.words, 126) == 0x3b6e20c8 && Mixed(q.words, 126, 7, 1) == 0x076dc409;
    assert Step(q, 1) == Pool(q.words[126 := 0x076dc409], 126, 14);
    assert [1, 1][1..] == [1];
    hide Step;
    assert Added(q, [1]) == Step(q, 1) by { assert [1][1..] == []; }
  }
}
