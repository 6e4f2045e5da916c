/** For a fixed message block the mixing function, each round and the ten rounds together are bijections of
    the working vector. */
module Blake2sInverse {
  import opened Blake2sSpec

  lemma RotrBack(w: bv32, c: bv6)
    requires c <= 32
    ensures Rotr(Rotr(w, c), 32 - c) == w
  {
  }

  lemma RotrForth(w: bv32, c: bv6)
    requires c <= 32
    ensures Rotr(Rotr(w, 32 - c), c) == w
  {
  }

  function Minus(x: bv32, y: bv32): bv32
  {
    x - y
  }

  lemma PlusBack(x: bv32, y: bv32)
    ensures Minus(Plus(x, y), y) == x
  {
    assert Plus(x, y) == x + y;
    assert Minus(x + y, y) == x + y - y == x;
  }

  lemma MinusBack(x: bv32, y: bv32)
    ensures Plus(Minus(x, y), y) == x
  {
    assert Minus(x, y) == x - y;
    assert Plus(x - y, y) == x - y + y == x;
  }

  // -------------------------------------------------------------------------
  // One half of the mixing function, then all of it

  function UndoHalfMix(q: Quad, x: bv32, r1: bv6, r2: bv6): Quad
  {
    var b := Xor(Rotr(q.b, 32 - r2), q.c);
    var c := Minus(q.c, q.d);
    var d := Xor(Rotr(q.d, 32 - r1), q.a);
    Quad(Minus(Minus(q.a, x), b), b, c, d)
  }

  function UndoMix(q: Quad, x: bv32, y: bv32): Quad
  {
    UndoHalfMix(UndoHalfMix(q, y, 8, 7), x, 16, 12)
  }

  lemma HalfMixInverse(q: Quad, x: bv32, r1: bv6, r2: bv6)
    requires r1 <= 32 && r2 <= 32
    ensures UndoHalfMix(HalfMix(q, x, r1, r2), x, r1, r2) == q
    ensures HalfMix(UndoHalfMix(q, x, r1, r2), x, r1, r2) == q
  {
    hide Rotr, Xor, Plus, Minus;
    var p := HalfMix(q, x, r1, r2);
    RotrBack(Xor(q.d, p.a), r1);
    XorTwice(q.d, p.a);
    RotrBack(Xor(q.b, p.c), r2);
    XorTwice(q.b, p.c);
    PlusBack(q.c, p.d);
    PlusBack(Plus(q.a, q.b), x);
    PlusBack(q.a, q.b);
    HalfMixAfterUndo(q, x, r1, r2);
  }

  lemma HalfMixAfterUndo(q: Quad, x: bv32, r1: bv6, r2: bv6)
    requires r1 <= 32 && r2 <= 32
    ensures HalfMix(UndoHalfMix(q, x, r1, r2), x, r1, r2) == q
  {
    hide Rotr, Xor, Plus, Minus;
    var p := UndoHalfMix(q, x, r1, r2);
    MinusBack(Minus(q.a, x), p.b);
    MinusBack(q.a, x);
    XorTwice(Rotr(q.d, 32 - r1), q.a);
    RotrForth(q.d, r1);
    MinusBack(q.c, q.d);
    XorTwice(Rotr(q.b, 32 - r2), q.c);
    RotrForth(q.b, r2);
  }

  lemma MixInverse(q: Quad, x: bv32, y: bv32)
    ensures UndoMix(Mix(q, x, y), x, y) == q && Mix(UndoMix(q, x, y), x, y) == q
  {
    hide HalfMix, UndoHalfMix;
    HalfMixInverse(q, x, 16, 12);
    HalfMixInverse(HalfMix(q, x, 16, 12), y, 8, 7);
    HalfMixInverse(q, y, 8, 7);
    HalfMixInverse(UndoHalfMix(q, y, 8, 7), x, 16, 12);
  }

  function UndoG(v: Vec, a: nat, b: nat, c: nat, d: nat, x: bv32, y: bv32): Vec
    requires Distinct(a, b, c, d)
  {
    Put(v, a, b, c, d, UndoMix(Take(v, a, b, c, d), x, y))
  }

  lemma PutTaken(v: Vec, a: nat, b: nat, c: nat, d: nat)
    requires Distinct(a, b, c, d)
    ensures Put(v, a, b, c, d, Take(v, a, b, c, d)) == v
  {
  }

  lemma GInverse(v: Vec, a: nat, b: nat, c: nat, d: nat, x: bv32, y: bv32)
    requires Distinct(a, b, c, d)
    ensures UndoG(G(v, a, b, c, d, x, y), a, b, c, d, x, y) == v
    ensures G(UndoG(v, a, b, c, d, x, y), a, b, c, d, x, y) == v
  {
    hide Mix, UndoMix, Put, Take, Distinct;
    var q := Take(v, a, b, c, d);
    MixInverse(q, x, y);
    PutAgain(v, a, b, c, d, Mix(q, x, y), q);
    PutAgain(v, a, b, c, d, UndoMix(q, x, y), q);
    PutTaken(v, a, b, c, d);
  }

  // -------------------------------------------------------------------------
  // Rounds

  function UndoColumns(v: Vec, m: Vec, s: Schedule): Vec
  {
    var v := UndoG(v, 3, 7, 11, 15, m[s[6]], m[s[7]]);
    var v := UndoG(v, 2, 6, 10, 14, m[s[4]], m[s[5]]);
    var v := UndoG(v, 1, 5, 9, 13, m[s[2]], m[s[3]]);
    UndoG(v, 0, 4, 8, 12, m[s[0]], m[s[1]])
  }

  function UndoDiagonals(v: Vec, m: Vec, s: Schedule): Vec
  {
    var v := UndoG(v, 3, 4, 9, 14, m[s[14]], m[s[15]]);
    var v := UndoG(v, 2, 7, 8, 13, m[s[12]], m[s[13]]);
    var v := UndoG(v, 1, 6, 11, 12, m[s[10]], m[s[11]]);
    UndoG(v, 0, 5, 10, 15, m[s[8]], m[s[9]])
  }

  lemma ColumnsInverse(v: Vec, m: Vec, s: Schedule)
    ensures UndoColumns(Columns(v, m, s), m, s) == v && Columns(UndoColumns(v, m, s), m, s) == v
  {
    hide G, UndoG;
    var v1 := G(v, 0, 4, 8, 12, m[s[0]], m[s[1]]);
    var v2 := G(v1, 1, 5, 9, 13, m[s[2]], m[s[3]]);
    var v3 := G(v2, 2, 6, 10, 14, m[s[4]], m[s[5]]);
    GInverse(v, 0, 4, 8, 12, m[s[0]], m[s[1]]);
    GInverse(v1, 1, 5, 9, 13, m[s[2]], m[s[3]]);
    GInverse(v2, 2, 6, 10, 14, m[s[4]], m[s[5]]);
    GInverse(v3, 3, 7, 11, 15, m[s[6]], m[s[7]]);
    var u1 := UndoG(v, 3, 7, 11, 15, m[s[6]], m[s[7]]);
    var u2 := UndoG(u1, 2, 6, 10, 14, m[s[4]], m[s[5]]);
    var u3 := UndoG(u2, 1, 5, 9, 13, m[s[2]], m[s[3]]);
    GInverse(v, 3, 7, 11, 15, m[s[6]], m[s[7]]);
    GInverse(u1, 2, 6, 10, 14, m[s[4]], m[s[5]]);
    GInverse(u2, 1, 5, 9, 13, m[s[2]], m[s[3]]);
    GInverse(u3, 0, 4, 8, 12, m[s[0]], m[s[1]]);
  }

  lemma DiagonalsInverse(v: Vec, m: Vec, s: Schedule)
    ensures UndoDiagonals(Diagonals(v, m, s), m, s) == v && Diagonals(UndoDiagonals(v, m, s), m, s) == v
  {
    hide G, UndoG;
    var v1 := G(v, 0, 5, 10, 15, m[s[8]], m[s[9]]);
    var v2 := G(v1, 1, 6, 11, 12, m[s[10]], m[s[11]]);
    var v3 := G(v2, 2, 7, 8, 13, m[s[12]], m[s[13]]);
    GInverse(v, 0, 5, 10, 15, m[s[8]], m[s[9]]);
    GInverse(v1, 1, 6, 11, 12, m[s[10]], m[s[11]]);
    GInverse(v2, 2, 7, 8, 13, m[s[12]], m[s[13]]);
    GInverse(v3, 3, 4, 9, 14, m[s[14]], m[s[15]]);
    var u1 := UndoG(v, 3, 4, 9, 14, m[s[14]], m[s[15]]);
    var u2 := UndoG(u1, 2, 7, 8, 13, m[s[12]], m[s[13]]);
    var u3 := UndoG(u2, 1, 6, 11, 12, m[s[10]], m[s[11]]);
    GInverse(v, 3, 4, 9, 14, m[s[14]], m[s[15]]);
    GInverse(u1, 2, 7, 8, 13, m[s[12]], m[s[13]]);
    GInverse(u2, 1, 6, 11, 12, m[s[10]], m[s[11]]);
    GInverse(u3, 0, 5, 10, 15, m[s[8]], m[s[9]]);
  }

  function UndoRound(v: Vec, m: Vec, s: Schedule): Vec
  {
    UndoColumns(UndoDiagonals(v, m, s), m, s)
  }

  function UndoRounds(v: Vec, m: Vec, n: nat): Vec
    requires n <= 10
    decreases n
  {
    if n == 0 then v
    else UndoRounds(UndoRound(v, m, Sigma(n - 1)), m, n - 1)
  }

  lemma {:induction false} RoundsInverse(v: Vec, m: Vec, n: nat)
    requires n <= 10
    ensures UndoRounds(Rounds(v, m, n), m, n) == v && Rounds(UndoRounds(v, m, n), m, n) == v
    decreases n
  {
    hide Columns, Diagonals, UndoColumns, UndoDiagonals, Sigma;
    if n > 0 {
      var s := Sigma(n - 1);
      var w := Rounds(v, m, n - 1);
      ColumnsInverse(w, m, s);
      DiagonalsInverse(Columns(w, m, s), m, s);
      RoundsInverse(v, m, n - 1);
      var u := UndoDiagonals(v, m, s);
      DiagonalsInverse(v, m, s);
      ColumnsInverse(u, m, s);
      RoundsInverse(UndoColumns(u, m, s), m, n - 1);
    }
  }

  /** No two working vectors meet under the same message block. */
  lemma RoundsInjective(v: Vec, v': Vec, m: Vec)
    requires Rounds(v, m, 10) == Rounds(v', m, 10)
    ensures v == v'
  {
    RoundsInverse(v, m, 10);
    RoundsInverse(v', m, 10);
  }
}
