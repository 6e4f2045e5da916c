/** BLAKE2s as RFC 7693 defines it: sections 2.1 to 2.7, 3.1, 3.2 and 3.3. */
module Blake2sSpec {

  const BLOCKBYTES := 64
  const OUTBYTES := 32
  const KEYBYTES := 32
  const WORD := 0x1_0000_0000

  // -------------------------------------------------------------------------
  // Words

  function Rotr(w: bv32, c: bv6): bv32
  {
    (w >> (c & 31)) | (w << ((32 - c) & 31))
  }

  function Plus(x: bv32, y: bv32): bv32
  {
    x + y
  }

  function Xor(x: bv32, y: bv32): bv32
  {
    x ^ y
  }

  lemma XorTwice(x: bv32, y: bv32)
    ensures Xor(Xor(x, y), y) == x
  {
  }

  function WordOf(n: nat): bv32
    requires n < WORD
  {
    n as bv32
  }

  /** Little-endian words. */
  function Load32(a: bv8, b: bv8, c: bv8, d: bv8): bv32
  {
    (a as bv32) | ((b as bv32) << 8) | ((c as bv32) << 16) | ((d as bv32) << 24)
  }

  function Store32(w: bv32): (s: seq<bv8>)
    ensures |s| == 4
  {
    [(w & 0xff) as bv8, ((w >> 8) & 0xff) as bv8, ((w >> 16) & 0xff) as bv8, ((w >> 24) & 0xff) as bv8]
  }

  lemma StoreLoad(a: bv8, b: bv8, c: bv8, d: bv8)
    ensures Store32(Load32(a, b, c, d)) == [a, b, c, d]
  {
  }

  function WordAt(s: seq<bv8>, i: nat): bv32
    requires 4 * i + 4 <= |s|
  {
    Load32(s[4 * i], s[4 * i + 1], s[4 * i + 2], s[4 * i + 3])
  }

  /** The first n words of s. */
  function Words(s: seq<bv8>, n: nat): (w: seq<bv32>)
    requires 4 * n <= |s|
    ensures |w| == n && forall i :: 0 <= i < n ==> w[i] == WordAt(s, i)
  {
    if n == 0 then [] else Words(s, n - 1) + [WordAt(s, n - 1)]
  }

  /** The words of w as bytes. */
  function Bytes(w: seq<bv32>): (s: seq<bv8>)
    ensures |s| == 4 * |w|
  {
    if w == [] then [] else Bytes(w[..|w| - 1]) + Store32(w[|w| - 1])
  }

  lemma {:induction false} BytesPrefix(w: seq<bv32>, n: nat)
    requires n <= |w|
    ensures Bytes(w)[..4 * n] == Bytes(w[..n])
    decreases |w|
  {
    hide Store32;
    if n < |w| {
      BytesPrefix(w[..|w| - 1], n);
      assert w[..|w| - 1][..n] == w[..n];
      assert Bytes(w)[..4 * n] == Bytes(w[..|w| - 1])[..4 * n];
    } else {
      assert w[..n] == w;
    }
  }

  // -------------------------------------------------------------------------
  // Sections 2.6 and 2.7: the initialisation vector and the message schedule

  const IV: seq<bv32> := [
    0x6a09e667, 0xbb67ae85, 0x3c6ef372, 0xa54ff53a, 0x510e527f, 0x9b05688c, 0x1f83d9ab, 0x5be0cd19
  ]

  type Index = i: nat | i < 16
  type Schedule = s: seq<Index> | |s| == 16 witness seq(16, _ => 0)

  function Sigma(r: nat): Schedule
    requires r < 10
  {
    if r < 5 then FirstRows(r) else LastRows(r - 5)
  }

  function FirstRows(r: nat): Schedule
    requires r < 5
  {
    match r
    case 0 => [0, 1, 2, 3, 4, 5, 6, 7, 8, 9, 10, 11, 12, 13, 14, 15]
    case 1 => [14, 10, 4, 8, 9, 15, 13, 6, 1, 12, 0, 2, 11, 7, 5, 3]
    case 2 => [11, 8, 12, 0, 5, 2, 15, 13, 10, 14, 3, 6, 7, 1, 9, 4]
    case 3 => [7, 9, 3, 1, 13, 12, 11, 14, 2, 6, 5, 10, 4, 0, 15, 8]
    case _ => [9, 0, 5, 7, 2, 4, 10, 15, 14, 1, 11, 12, 6, 8, 3, 13]
  }

  function LastRows(r: nat): Schedule
    requires r < 5
  {
    match r
    case 0 => [2, 12, 6, 10, 0, 11, 8, 3, 4, 13, 7, 5, 15, 14, 1, 9]
    case 1 => [12, 5, 1, 15, 14, 13, 4, 10, 0, 7, 6, 3, 9, 2, 8, 11]
    case 2 => [13, 11, 7, 14, 12, 1, 3, 9, 5, 0, 15, 4, 8, 6, 2, 10]
    case 3 => [6, 15, 14, 9, 11, 3, 0, 8, 12, 2, 13, 7, 1, 4, 10, 5]
    case _ => [10, 2, 8, 4, 7, 6, 1, 5, 15, 11, 9, 14, 3, 12, 13, 0]
  }

  /** Every row uses every message word once. */
  lemma SigmaPermutes(r: nat, k: Index)
    requires r < 10
    ensures k in Sigma(r)
  {
    if r < 5 {
      FirstRowsPermute(r, k);
    } else {
      LastRowsPermute(r - 5, k);
    }
  }

  lemma FirstRowsPermute(r: nat, k: Index)
    requires r < 5
    ensures k in FirstRows(r)
  {
  }

  lemma LastRowsPermute(r: nat, k: Index)
    requires r < 5
    ensures k in LastRows(r)
  {
  }

  const PRIMES := [2, 3, 5, 7, 11, 13, 17, 19]
  const ROOTS := [
    0x1_6a09e667, 0x1_bb67ae85, 0x2_3c6ef372, 0x2_a54ff53a, 0x3_510e527f, 0x3_9b05688c, 0x4_1f83d9ab, 0x4_5be0cd19
  ]

  /** The initialisation vector is the first 32 bits of the fractional parts of the square roots of the first
      eight primes. */
  lemma IvFromPrimes(i: nat)
    requires i < 8
    ensures ROOTS[i] * ROOTS[i] <= PRIMES[i] * WORD * WORD < (ROOTS[i] + 1) * (ROOTS[i] + 1)
  {
    match i
    case 0 => assert 0x1_6a09e667 * 0x1_6a09e667 <= 2 * WORD * WORD < 0x1_6a09e668 * 0x1_6a09e668;
    case 1 => assert 0x1_bb67ae85 * 0x1_bb67ae85 <= 3 * WORD * WORD < 0x1_bb67ae86 * 0x1_bb67ae86;
    case 2 => assert 0x2_3c6ef372 * 0x2_3c6ef372 <= 5 * WORD * WORD < 0x2_3c6ef373 * 0x2_3c6ef373;
    case 3 => assert 0x2_a54ff53a * 0x2_a54ff53a <= 7 * WORD * WORD < 0x2_a54ff53b * 0x2_a54ff53b;
    case 4 => assert 0x3_510e527f * 0x3_510e527f <= 11 * WORD * WORD < 0x3_510e5280 * 0x3_510e5280;
    case 5 => assert 0x3_9b05688c * 0x3_9b05688c <= 13 * WORD * WORD < 0x3_9b05688d * 0x3_9b05688d;
    case 6 => assert 0x4_1f83d9ab * 0x4_1f83d9ab <= 17 * WORD * WORD < 0x4_1f83d9ac * 0x4_1f83d9ac;
    case _ => assert 0x4_5be0cd19 * 0x4_5be0cd19 <= 19 * WORD * WORD < 0x4_5be0cd1a * 0x4_5be0cd1a;
  }

  lemma IvIsRoots(i: nat)
    requires i < 8
    ensures IV[i] == WordOf(ROOTS[i] % WORD)
  {
    IvAsNumbers();
    hide WordOf;
  }

  lemma IvAsNumbers()
    ensures IV[0] == WordOf(0x6a09e667) && IV[1] == WordOf(0xbb67ae85) && IV[2] == WordOf(0x3c6ef372)
    ensures IV[3] == WordOf(0xa54ff53a) && IV[4] == WordOf(0x510e527f) && IV[5] == WordOf(0x9b05688c)
    ensures IV[6] == WordOf(0x1f83d9ab) && IV[7] == WordOf(0x5be0cd19)
  {
  }

  // -------------------------------------------------------------------------
  // Section 3.1: the mixing function

  datatype Quad = Quad(a: bv32, b: bv32, c: bv32, d: bv32)

  function HalfMix(q: Quad, x: bv32, r1: bv6, r2: bv6): Quad
  {
    var a := Plus(Plus(q.a, q.b), x);
    var d := Rotr(Xor(q.d, a), r1);
    var c := Plus(q.c, d);
    Quad(a, Rotr(Xor(q.b, c), r2), c, d)
  }

  function Mix(q: Quad, x: bv32, y: bv32): Quad
  {
    HalfMix(HalfMix(q, x, 16, 12), y, 8, 7)
  }

  type Vec = v: seq<bv32> | |v| == 16 witness seq(16, _ => 0)

  ghost predicate Distinct(a: nat, b: nat, c: nat, d: nat)
  {
    a < 16 && b < 16 && c < 16 && d < 16 && a != b && a != c && a != d && b != c && b != d && c != d
  }

  function Take(v: Vec, a: nat, b: nat, c: nat, d: nat): Quad
    requires Distinct(a, b, c, d)
  {
    Quad(v[a], v[b], v[c], v[d])
  }

  function Put(v: Vec, a: nat, b: nat, c: nat, d: nat, q: Quad): Vec
    requires Distinct(a, b, c, d)
  {
    v[a := q.a][b := q.b][c := q.c][d := q.d]
  }

  /** What is put is what is taken, and putting again forgets what was put before. */
  lemma PutAgain(v: Vec, a: nat, b: nat, c: nat, d: nat, q: Quad, q': Quad)
    requires Distinct(a, b, c, d)
    ensures Take(Put(v, a, b, c, d, q), a, b, c, d) == q
    ensures Put(Put(v, a, b, c, d, q), a, b, c, d, q') == Put(v, a, b, c, d, q')
  {
  }

  function G(v: Vec, a: nat, b: nat, c: nat, d: nat, x: bv32, y: bv32): Vec
    requires Distinct(a, b, c, d)
  {
    Put(v, a, b, c, d, Mix(Take(v, a, b, c, d), x, y))
  }

  // -------------------------------------------------------------------------
  // Section 3.2: the compression function

  function Columns(v: Vec, m: Vec, s: Schedule): Vec
  {
    var v := G(v, 0, 4, 8, 12, m[s[0]], m[s[1]]);
    var v := G(v, 1, 5, 9, 13, m[s[2]], m[s[3]]);
    var v := G(v, 2, 6, 10, 14, m[s[4]], m[s[5]]);
    G(v, 3, 7, 11, 15, m[s[6]], m[s[7]])
  }

  function Diagonals(v: Vec, m: Vec, s: Schedule): Vec
  {
    var v := G(v, 0, 5, 10, 15, m[s[8]], m[s[9]]);
    var v := G(v, 1, 6, 11, 12, m[s[10]], m[s[11]]);
    var v := G(v, 2, 7, 8, 13, m[s[12]], m[s[13]]);
    G(v, 3, 4, 9, 14, m[s[14]], m[s[15]])
  }

  function Rounds(v: Vec, m: Vec, n: nat): Vec
    requires n <= 10
  {
    if n == 0 then v
    else Diagonals(Columns(Rounds(v, m, n - 1), m, Sigma(n - 1)), m, Sigma(n - 1))
  }

  type Chain = h: seq<bv32> | |h| == 8 witness seq(8, _ => 0)

  function Start(h: Chain, t: nat, last: bool): Vec
  {
    h + [IV[0], IV[1], IV[2], IV[3],
         Xor(IV[4], WordOf(t % WORD)), Xor(IV[5], WordOf(t / WORD % WORD)),
         if last then Xor(IV[6], 0xffff_ffff) else IV[6], IV[7]]
  }

  function Fold(h: Chain, v: Vec): (r: Chain)
    ensures forall i :: 0 <= i < 8 ==> r[i] == FoldWord(h, v, i)
  {
    seq(8, i requires 0 <= i < 8 => FoldWord(h, v, i))
  }

  function FoldWord(h: Chain, v: Vec, i: nat): bv32
    requires i < 8
  {
    Xor(Xor(h[i], v[i]), v[i + 8])
  }

  function F(h: Chain, block: seq<bv8>, t: nat, last: bool): Chain
    requires |block| == BLOCKBYTES
  {
    Fold(h, Rounds(Start(h, t, last), Words(block, 16), 10))
  }

  // -------------------------------------------------------------------------
  // Section 3.3: hashing

  function Zeros(n: nat): (z: seq<bv8>)
    ensures |z| == n
  {
    seq(n, _ => 0)
  }

  /** The number of blocks: at least one, the last possibly partial. */
  function Blocks(len: nat): nat
  {
    if len == 0 then 1 else (len - 1) / BLOCKBYTES + 1
  }

  lemma BlocksFit(len: nat)
    ensures BLOCKBYTES * (Blocks(len) - 1) <= len <= BLOCKBYTES * Blocks(len)
    ensures len > 0 ==> BLOCKBYTES * (Blocks(len) - 1) < len
  {
  }

  /** The chain after the first n blocks of data, none of them the last. */
  function ChainAfter(h: Chain, data: seq<bv8>, n: nat): Chain
    requires BLOCKBYTES * n <= |data|
  {
    if n == 0 then h
    else F(ChainAfter(h, data, n - 1), data[BLOCKBYTES * (n - 1)..BLOCKBYTES * n], BLOCKBYTES * n, false)
  }

  /** The chain after all of data, the last block padded with zeros. */
  function Hashed(h: Chain, data: seq<bv8>): Chain
  {
    BlocksFit(|data|);
    var n := Blocks(|data|) - 1;
    var tail := data[BLOCKBYTES * n..];
    F(ChainAfter(h, data, n), tail + Zeros(BLOCKBYTES - |tail|), |data|, true)
  }

  function ByteOf(n: nat): bv8
    requires n < 256
  {
    n as bv8
  }

  function KeyedWord(nn: bv8, kk: bv8): bv32
  {
    0x0101_0000 ^ ((kk as bv32) << 8) ^ (nn as bv32)
  }

  /** The start of the chain for a digest of nn bytes under a key of kk bytes. */
  function KeyedStart(nn: nat, kk: nat): Chain
    requires nn < 256 && kk < 256
  {
    IV[0 := Xor(IV[0], KeyedWord(ByteOf(nn), ByteOf(kk)))]
  }

  /** The key, if there is one, is a block of its own before the message. */
  function KeyBlock(key: seq<bv8>): seq<bv8>
    requires |key| <= KEYBYTES
  {
    if key == [] then [] else key + Zeros(BLOCKBYTES - |key|)
  }

  function Digest(message: seq<bv8>, key: seq<bv8>, nn: nat): (d: seq<bv8>)
    requires 1 <= nn <= OUTBYTES && |key| <= KEYBYTES
    ensures |d| == nn
  {
    Bytes(Hashed(KeyedStart(nn, |key|), KeyBlock(key) + message))[..nn]
  }
}
