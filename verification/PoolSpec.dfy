/** The entropy pool of crypto/random_pool.c on values: how words are mixed in, and which pools and buffers
    stay apart. */
module PoolSpec {
  import opened Arithmetic
  import opened Blake2sSpec

  /** The degrees of the stirring polynomial below the pool size. */
  const LARGEST_TAP := 104

  datatype Pool = Pool(words: seq<bv32>, addptr: nat, rotate: bv8)

  ghost predicate Valid(p: Pool)
  {
    |p.words| > LARGEST_TAP && p.addptr < |p.words| && p.rotate < 32
  }

  // -------------------------------------------------------------------------
  // Words

  function Rotl(x: bv32, r: bv8): bv32
    requires r < 32
  {
    (x << r) | (x >> (32 - r))
  }

  function Unrotl(x: bv32, r: bv8): bv32
    requires r < 32
  {
    (x >> r) | (x << (32 - r))
  }

  lemma RotlBack(x: bv32, r: bv8)
    requires r < 32
    ensures Unrotl(Rotl(x, r), r) == x
  {
  }

  lemma UnrotlBack(x: bv32, r: bv8)
    requires r < 32
    ensures Rotl(Unrotl(x, r), r) == x
  {
  }

  /** pool_twist. */
  function TwistTable(k: bv32): bv32
  {
    if k == 0 then 0x00000000 else if k == 1 then 0x3b6e20c8 else if k == 2 then 0x76dc4190
    else if k == 3 then 0x4db26158 else if k == 4 then 0xedb88320 else if k == 5 then 0xd6d6a3e8
    else if k == 6 then 0x9b64c2b0 else 0xa00ae278
  }

  function Twist(w: bv32): bv32
  {
    Xor(w >> 3, TwistTable(w & 7))
  }

  /** One bit through the shift register of the IEEE 802.3 CRC-32, least significant bit first. */
  function CrcStep(w: bv32): bv32
  {
    if w & 1 == 1 then (w >> 1) ^ 0xedb88320 else w >> 1
  }

  /** The table is three such bits at a time. */
  lemma TwistIsCrc(w: bv32)
    ensures Twist(w) == CrcStep(CrcStep(CrcStep(w)))
  {
    hide TwistTable;
    var a := CrcStep(w);
    var b := CrcStep(a);
    var c := CrcStep(b);
    assert a == if w & 1 == 1 then (w >> 1) ^ 0xedb88320 else w >> 1;
    assert b == if a & 1 == 1 then (a >> 1) ^ 0xedb88320 else a >> 1;
    assert c == if b & 1 == 1 then (b >> 1) ^ 0xedb88320 else b >> 1;
    hide CrcStep;
    ThreeBits(w, a, b, c);
    assert Twist(w) == (w >> 3) ^ TwistTable(w & 7);
  }

  lemma ThreeBits(w: bv32, a: bv32, b: bv32, c: bv32)
    requires a == if w & 1 == 1 then (w >> 1) ^ 0xedb88320 else w >> 1
    requires b == if a & 1 == 1 then (a >> 1) ^ 0xedb88320 else a >> 1
    requires c == if b & 1 == 1 then (b >> 1) ^ 0xedb88320 else b >> 1
    ensures c == (w >> 3) ^ TwistTable(w & 7)
  {
  }

  /** The eight entries differ in their top three bits, which the shifted word leaves alone. */
  function TwistIndex(top: bv32): bv32
  {
    if top == 0 then 0 else if top == 1 then 1 else if top == 2 then 3 else if top == 3 then 2
    else if top == 4 then 6 else if top == 5 then 7 else if top == 6 then 5 else 4
  }

  function Join(z: bv32, k: bv32): bv32
  {
    (z << 3) | k
  }

  function Untwist(y: bv32): bv32
  {
    var k := TwistIndex(y >> 29);
    Join(Xor(y, TwistTable(k)), k)
  }

  lemma TwistBack(w: bv32)
    ensures Untwist(Twist(w)) == w
  {
    hide TwistTable, TwistIndex, Join, Xor;
    JoinParts(w);
    TopOfTwist(w >> 3, w & 7);
    XorTwice(w >> 3, TwistTable(w & 7));
  }

  lemma JoinParts(w: bv32)
    ensures (w >> 3) >> 29 == 0 && w & 7 <= 7 && Join(w >> 3, w & 7) == w
  {
  }

  lemma TopOfTwist(z: bv32, k: bv32)
    requires z >> 29 == 0 && k <= 7
    ensures TwistIndex(Xor(z, TwistTable(k)) >> 29) == k
  {
  }

  lemma UntwistBack(y: bv32)
    ensures Twist(Untwist(y)) == y
  {
    hide TwistTable, TwistIndex, Join, Xor;
    var k := TwistIndex(y >> 29);
    TopCancels(y);
    JoinBack(Xor(y, TwistTable(k)), k);
    XorTwice(y, TwistTable(k));
  }

  lemma TopCancels(y: bv32)
    ensures Xor(y, TwistTable(TwistIndex(y >> 29))) >> 29 == 0 && TwistIndex(y >> 29) <= 7
  {
  }

  lemma JoinBack(z: bv32, k: bv32)
    requires z >> 29 == 0 && k <= 7
    ensures Join(z, k) & 7 == k && Join(z, k) >> 3 == z
  {
  }

  // -------------------------------------------------------------------------
  // Positions modulo the pool size

  function Down(i: nat, size: nat): (j: nat)
    requires i < size
    ensures j < size
  {
    if i == 0 then size - 1 else i - 1
  }

  function Up(i: nat, d: nat, size: nat): (j: nat)
    requires i < size && d <= size
    ensures j < size
  {
    if i + d < size then i + d else i + d - size
  }

  /** With the 128 words of the source, masking a position is wrapping it. */
  lemma MaskWraps(x: bv8)
    ensures x & 127 == if x < 128 then x else x - 128
    ensures (x - 1) & 127 == if x & 127 == 0 then 127 else (x & 127) - 1
  {
  }

  // -------------------------------------------------------------------------
  // One word

  function Taps(words: seq<bv32>, i: nat): bv32
    requires |words| > LARGEST_TAP && i < |words|
  {
    var n := |words|;
    Xor(Xor(Xor(Xor(words[Up(i, 104, n)], words[Up(i, 76, n)]), words[Up(i, 51, n)]),
        words[Up(i, 25, n)]), words[Up(i, 1, n)])
  }

  /** No tap is the word itself. */
  lemma TapsIgnore(words: seq<bv32>, i: nat, w: bv32)
    requires |words| > LARGEST_TAP && i < |words|
    ensures Taps(words[i := w], i) == Taps(words, i)
  {
    hide Xor;
  }

  function NextRotate(rotate: bv8, i: nat): (r: bv8)
    ensures r < 32
  {
    (rotate + if i != 0 then 7 else 14) & 31
  }

  function LastRotate(rotate: bv8, i: nat): (r: bv8)
    ensures r < 32
  {
    (rotate - if i != 0 then 7 else 14) & 31
  }

  lemma RotateBack(r: bv8, i: nat)
    requires r < 32
    ensures LastRotate(NextRotate(r, i), i) == r && NextRotate(LastRotate(r, i), i) == r
  {
  }

  /** What goes into the pool at position i. */
  function Mixed(words: seq<bv32>, i: nat, rotate: bv8, x: bv32): bv32
    requires |words| > LARGEST_TAP && i < |words| && rotate < 32
  {
    Twist(Xor(Xor(Rotl(x, rotate), Taps(words, i)), words[i]))
  }

  function Step(p: Pool, x: bv32): (p': Pool)
    requires Valid(p)
    ensures Valid(p') && |p'.words| == |p.words|
  {
    var i := Down(p.addptr, |p.words|);
    Pool(p.words[i := Mixed(p.words, i, p.rotate, x)], i, NextRotate(p.rotate, i))
  }

  function Unmixed(words: seq<bv32>, i: nat, rotate: bv8, x: bv32): bv32
    requires |words| > LARGEST_TAP && i < |words| && rotate < 32
  {
    Xor(Untwist(words[i]), Xor(Rotl(x, rotate), Taps(words, i)))
  }

  function UndoStep(p: Pool, x: bv32): (p': Pool)
    requires Valid(p)
    ensures Valid(p') && |p'.words| == |p.words|
  {
    var i := p.addptr;
    var rotate := LastRotate(p.rotate, i);
    Pool(p.words[i := Unmixed(p.words, i, rotate, x)], Up(i, 1, |p.words|), rotate)
  }

  lemma XorUndo(t: bv32, w: bv32)
    ensures Xor(Xor(t, w), t) == w
  {
  }

  lemma XorRedo(t: bv32, w: bv32)
    ensures Xor(t, Xor(w, t)) == w
  {
  }

  lemma StepBack(p: Pool, x: bv32)
    requires Valid(p)
    ensures UndoStep(Step(p, x), x) == p
  {
    hide Xor, Rotl, Taps, Twist, Untwist, NextRotate, LastRotate;
    var i := Down(p.addptr, |p.words|);
    var t := Xor(Rotl(x, p.rotate), Taps(p.words, i));
    TwistBack(Xor(t, p.words[i]));
    TapsIgnore(p.words, i, Mixed(p.words, i, p.rotate, x));
    RotateBack(p.rotate, i);
    XorUndo(t, p.words[i]);
  }

  lemma UndoStepBack(p: Pool, x: bv32)
    requires Valid(p)
    ensures Step(UndoStep(p, x), x) == p
  {
    hide Xor, Rotl, Taps, Twist, Untwist, NextRotate, LastRotate;
    var i := p.addptr;
    var rotate := LastRotate(p.rotate, i);
    var t := Xor(Rotl(x, rotate), Taps(p.words, i));
    TapsIgnore(p.words, i, Unmixed(p.words, i, rotate, x));
    UntwistBack(p.words[i]);
    RotateBack(p.rotate, i);
    XorRedo(t, Untwist(p.words[i]));
  }

  // -------------------------------------------------------------------------
  // addentropy

  function Added(p: Pool, buf: seq<bv32>): (p': Pool)
    requires Valid(p)
    ensures Valid(p') && |p'.words| == |p.words|
    decreases |buf|
  {
    if buf == [] then p else Added(Step(p, buf[0]), buf[1..])
  }

  function Removed(p: Pool, buf: seq<bv32>): (p': Pool)
    requires Valid(p)
    ensures Valid(p') && |p'.words| == |p.words|
    decreases |buf|
  {
    if buf == [] then p else UndoStep(Removed(p, buf[1..]), buf[0])
  }

  /** A fixed buffer permutes the pools, and Removed is the way back. */
  lemma {:induction false} AddedIsBijective(p: Pool, buf: seq<bv32>)
    requires Valid(p)
    ensures Removed(Added(p, buf), buf) == p && Added(Removed(p, buf), buf) == p
    decreases |buf|
  {
    hide Step, UndoStep;
    if buf != [] {
      AddedIsBijective(Step(p, buf[0]), buf[1..]);
      StepBack(p, buf[0]);
      AddedIsBijective(p, buf[1..]);
      UndoStepBack(Removed(p, buf[1..]), buf[0]);
    }
  }

  /** Where the pointer ends up: n positions down, modulo the pool size. */
  lemma {:induction false} PointerAfter(p: Pool, buf: seq<bv32>)
    requires Valid(p)
    ensures Added(p, buf).addptr == (p.addptr - |buf|) % |p.words|
    decreases |buf|
  {
    var n := |p.words|;
    if buf != [] {
      PointerAfter(Step(p, buf[0]), buf[1..]);
      var q := Step(p, buf[0]).addptr;
      if p.addptr == 0 {
        assert q - (|buf| - 1) == (p.addptr - |buf|) + n;
        OnePeriodMore(p.addptr - |buf|, n);
      }
    } else {
      InRange(p.addptr, n);
    }
  }

  // -------------------------------------------------------------------------
  // Different buffers, different pools: exactly up to one word for each position

  /** Fewer words than positions leave the positions from the pointer upwards alone. */
  lemma {:induction false} Untouched(p: Pool, buf: seq<bv32>, d: nat)
    requires Valid(p) && d + |buf| < |p.words|
    ensures Added(p, buf).words[Up(p.addptr, d, |p.words|)] == p.words[Up(p.addptr, d, |p.words|)]
    decreases |buf|
  {
    hide Mixed, NextRotate;
    if buf != [] {
      Untouched(Step(p, buf[0]), buf[1..], d + 1);
    }
  }

  lemma MixedInjective(words: seq<bv32>, i: nat, rotate: bv8, x: bv32, y: bv32)
    requires |words| > LARGEST_TAP && i < |words| && rotate < 32
    requires Mixed(words, i, rotate, x) == Mixed(words, i, rotate, y)
    ensures x == y
  {
    hide Xor, Rotl, Unrotl, Taps, Twist, Untwist;
    MixedChoice(words, i, rotate, x);
    MixedChoice(words, i, rotate, y);
  }

  /** The word that makes y come out at position i. */
  function Choice(words: seq<bv32>, i: nat, rotate: bv8, y: bv32): bv32
    requires |words| > LARGEST_TAP && i < |words| && rotate < 32
  {
    Unrotl(Xor(Xor(Untwist(y), words[i]), Taps(words, i)), rotate)
  }

  lemma MixedChoice(words: seq<bv32>, i: nat, rotate: bv8, x: bv32)
    requires |words| > LARGEST_TAP && i < |words| && rotate < 32
    ensures Choice(words, i, rotate, Mixed(words, i, rotate, x)) == x
  {
    hide Xor, Rotl, Unrotl, Taps, Twist, Untwist;
    var r, t, w := Rotl(x, rotate), Taps(words, i), words[i];
    TwistBack(Xor(Xor(r, t), w));
    XorTwice(Xor(r, t), w);
    XorTwice(r, t);
    RotlBack(x, rotate);
  }

  lemma ChoiceMixed(words: seq<bv32>, i: nat, rotate: bv8, y: bv32)
    requires |words| > LARGEST_TAP && i < |words| && rotate < 32
    ensures Mixed(words, i, rotate, Choice(words, i, rotate, y)) == y
  {
    hide Xor, Rotl, Unrotl, Taps, Twist, Untwist;
    var u, t, w := Untwist(y), Taps(words, i), words[i];
    UnrotlBack(Xor(Xor(u, w), t), rotate);
    XorTwice(Xor(u, w), t);
    XorTwice(u, w);
    UntwistBack(y);
  }

  lemma {:induction false} DifferentBuffers(p: Pool, a: seq<bv32>, b: seq<bv32>)
    requires Valid(p) && |a| == |b| <= |p.words| && Added(p, a).words == Added(p, b).words
    ensures a == b
    decreases |a|
  {
    hide Mixed, NextRotate;
    if a != [] {
      var i := Down(p.addptr, |p.words|);
      Untouched(Step(p, a[0]), a[1..], 0);
      Untouched(Step(p, b[0]), b[1..], 0);
      MixedInjective(p.words, i, p.rotate, a[0], b[0]);
      DifferentBuffers(Step(p, a[0]), a[1..], b[1..]);
      assert a == [a[0]] + a[1..] && b == [b[0]] + b[1..];
    }
  }

  function Back(i: nat, d: nat, size: nat): (j: nat)
    requires i < size && d <= size
    ensures j < size
  {
    if i >= d then i - d else i + size - d
  }

  /** n words that put the target's values at the n positions they are written to. */
  function Steer(p: Pool, target: seq<bv32>, n: nat): (buf: seq<bv32>)
    requires Valid(p) && |target| == |p.words|
    ensures |buf| == n
    decreases n
  {
    if n == 0 then []
    else
      var i := Down(p.addptr, |p.words|);
      var x := Choice(p.words, i, p.rotate, target[i]);
      [x] + Steer(Step(p, x), target, n - 1)
  }

  lemma {:induction false} Steered(p: Pool, target: seq<bv32>, n: nat, d: nat)
    requires Valid(p) && |target| == |p.words| && d < n <= |p.words|
    ensures Added(p, Steer(p, target, n)).words[Back(p.addptr, d + 1, |p.words|)]
            == target[Back(p.addptr, d + 1, |p.words|)]
    decreases n
  {
    hide Mixed, Choice, NextRotate;
    var i := Down(p.addptr, |p.words|);
    var x := Choice(p.words, i, p.rotate, target[i]);
    var rest := Steer(Step(p, x), target, n - 1);
    assert Steer(p, target, n)[1..] == rest && Steer(p, target, n)[0] == x;
    if d == 0 {
      ChoiceMixed(p.words, i, p.rotate, target[i]);
      Untouched(Step(p, x), rest, 0);
    } else {
      Steered(Step(p, x), target, n - 1, d - 1);
    }
  }

  /** One word for each position can turn any pool into any other. */
  lemma EveryPoolReachable(p: Pool, target: seq<bv32>)
    requires Valid(p) && |target| == |p.words|
    ensures Added(p, Steer(p, target, |p.words|)).words == target
  {
    hide Added, Steer;
    var reached := Added(p, Steer(p, target, |p.words|)).words;
    forall j | 0 <= j < |target| ensures reached[j] == target[j] {
      SteeredAt(p, target, j);
    }
  }

  lemma SteeredAt(p: Pool, target: seq<bv32>, j: nat)
    requires Valid(p) && |target| == |p.words| && j < |target|
    ensures Added(p, Steer(p, target, |p.words|)).words[j] == target[j]
  {
    var a, n := p.addptr, |p.words|;
    assert a < n;
    hide *;
    var d := BackTo(a, j, n);
    Steered(p, target, n, d);
  }

  lemma BackTo(i: nat, j: nat, size: nat) returns (d: nat)
    requires i < size && j < size
    ensures d < size && Back(i, d + 1, size) == j
  {
    d := if j < i then i - j - 1 else i + size - j - 1;
  }

  lemma {:induction false} AddedConcat(p: Pool, x: seq<bv32>, y: seq<bv32>)
    requires Valid(p)
    ensures Added(p, x + y) == Added(Added(p, x), y)
    decreases |x|
  {
    hide Step;
    if x == [] {
      assert x + y == y;
    } else {
      assert (x + y)[0] == x[0] && (x + y)[1..] == x[1..] + y;
      AddedConcat(Step(p, x[0]), x[1..], y);
    }
  }

  lemma {:induction false} SamePlace(p: Pool, p': Pool, a: seq<bv32>, b: seq<bv32>)
    requires Valid(p) && Valid(p') && |p.words| == |p'.words| && |a| == |b|
    requires p.addptr == p'.addptr && p.rotate == p'.rotate
    ensures Added(p, a).addptr == Added(p', b).addptr && Added(p, a).rotate == Added(p', b).rotate
    decreases |a|
  {
    hide Mixed, NextRotate;
    if a != [] {
      SamePlace(Step(p, a[0]), Step(p', b[0]), a[1..], b[1..]);
    }
  }

  /** With more words than positions some two buffers end in the same pool. */
  lemma Collision(p: Pool, n: nat) returns (a: seq<bv32>, b: seq<bv32>)
    requires Valid(p) && n > |p.words|
    ensures |a| == |b| == n && a != b && Added(p, a) == Added(p, b)
  {
    hide Added, Steer;
    var size := |p.words|;
    a := seq(n, _ => 0);
    var start := [1] + seq(n - size - 1, _ => 0);
    var q := Added(p, start);
    var rest := Steer(q, Added(p, a).words, size);
    b := start + rest;
    AddedConcat(p, start, rest);
    EveryPoolReachable(q, Added(p, a).words);
    SamePlace(p, p, a, b);
    assert a[0] == 0 && b[0] == 1;
  }

  lemma DifferentBuffersExactlyWhen(p: Pool, n: nat)
    requires Valid(p)
    ensures (forall a, b :: |a| == n && |b| == n && Added(p, a) == Added(p, b) ==> a == b) <==> n <= |p.words|
  {
    hide Added;
    if n <= |p.words| {
      forall a, b | |a| == n && |b| == n && Added(p, a) == Added(p, b) ensures a == b {
        DifferentBuffers(p, a, b);
      }
    } else {
      var a, b := Collision(p, n);
    }
  }
}
