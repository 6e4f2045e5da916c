/** The BLAKE2Xs output of crypto/random_pool.c on values, and the node offsets its blocks use. */
module RngSpec {
  import opened Blake2sSpec
  import opened Blake2sStream
  import opened Blake2s

  const UINT32_MAX := WORD - 1
  const MIN_SEED_NEW_ENTROPY_WORDS := 128
  const MAX_SEED_NEW_ENTROPY_WORDS := 1024

  // -------------------------------------------------------------------------
  // The root and the output blocks

  function RootParam(): (p: Param)
    ensures ValidParam(p)
  {
    Param(OUTBYTES, 0, 1, 1, 0, 0, 0xffff, 0, 0, Zeros(8), Zeros(8))
  }

  function OutParam(size: nat, offset: nat): (p: Param)
    requires size <= OUTBYTES && offset < WORD
    ensures ValidParam(p)
  {
    Param(size, 0, 0, 1, OUTBYTES, offset, 0xffff, 0, OUTBYTES, Zeros(8), Zeros(8))
  }

  /** The parameter block of a root, byte by byte. */
  lemma RootLayout()
    ensures Layout(RootParam()) == [32, 0, 1, 1] + Zeros(8) + [0xff, 0xff, 0, 0] + Zeros(16)
  {
    assert ByteOf(32) == 32 && ByteOf(1) == 1 && ByteOf(0) == 0;
    assert Store32(WordOf(0)) == [0, 0, 0, 0] && Store16(0xffff) == [0xff, 0xff];
    hide ByteOf, WordOf, Store32, Store16;
  }

  /** And of an output block: fanout 0, leaves and inner nodes of 32 bytes, and the node offset that tells
      the blocks of a root apart. */
  lemma OutLayout(size: nat, offset: nat)
    requires size <= OUTBYTES && offset < WORD
    ensures Layout(OutParam(size, offset)) ==
            [ByteOf(size), 0, 0, 1, 32, 0, 0, 0] + Store32(WordOf(offset)) + [0xff, 0xff, 0, 32] + Zeros(16)
  {
    assert ByteOf(32) == 32 && ByteOf(1) == 1 && ByteOf(0) == 0;
    assert Store32(WordOf(32)) == [32, 0, 0, 0] && Store16(0xffff) == [0xff, 0xff];
    hide ByteOf, WordOf, Store32, Store16;
  }

  /** A new root from the bytes of the pool and the previous root. */
  function Root(pool: seq<bv8>, previous: seq<bv8>): (r: seq<bv8>)
    ensures |r| == OUTBYTES
  {
    Bytes(Hashed(ParamStart(RootParam()), pool + previous))[..OUTBYTES]
  }

  /** The hash runs over the pool first, then over the previous root. */
  lemma RootInput(data: seq<bv8>, k: nat)
    requires k <= |data|
    ensures Root(data[..k], data[k..]) == Bytes(Hashed(ParamStart(RootParam()), data))[..OUTBYTES]
  {
    hide Hashed, ParamStart, Bytes;
    assert data[..k] + data[k..] == data;
  }

  /** The output block of a root at a node offset. */
  function Block(root: seq<bv8>, offset: nat, size: nat): (b: seq<bv8>)
    requires size <= OUTBYTES && offset < WORD
    ensures |b| == size
  {
    Bytes(Hashed(ParamStart(OutParam(size, offset)), root))[..size]
  }

  function Size(n: nat): nat
  {
    if n < OUTBYTES then n else OUTBYTES
  }

  /** n bytes of output, the first block at a node offset. */
  function Output(root: seq<bv8>, offset: nat, n: nat): (s: seq<bv8>)
    requires offset < WORD
    ensures |s| == n
    decreases n
  {
    if n == 0 then []
    else Block(root, offset, Size(n)) + Output(root, (offset + 1) % WORD, n - Size(n))
  }

  lemma OutputNothing(root: seq<bv8>, offset: nat)
    requires offset < WORD
    ensures Output(root, offset, 0) == []
  {
    hide Block;
  }

  /** How many blocks n bytes take: full ones, and a shorter one for the rest. */
  function BlockCount(n: nat): nat
  {
    (n + OUTBYTES - 1) / OUTBYTES
  }

  /** Block k of the output is the hash of the root at node offset start + k. */
  lemma {:induction false} OutputBlock(root: seq<bv8>, offset: nat, n: nat, k: nat)
    requires offset < WORD && k < BlockCount(n)
    ensures OUTBYTES * k < n
    ensures Output(root, offset, n)[OUTBYTES * k..][..Size(n - OUTBYTES * k)]
            == Block(root, (offset + k) % WORD, Size(n - OUTBYTES * k))
    decreases n
  {
    hide Block;
    var first, rest := Block(root, offset, Size(n)), Output(root, (offset + 1) % WORD, n - Size(n));
    var out := Output(root, offset, n);
    assert out == first + rest;
    if k == 0 {
      assert (offset + k) % WORD == offset;
      assert out[OUTBYTES * k..] == out;
    } else {
      OutputBlock(root, (offset + 1) % WORD, n - Size(n), k - 1);
      PastFirst(first, rest, k);
      NextOffset(offset, k);
    }
  }

  lemma PastFirst(first: seq<bv8>, rest: seq<bv8>, k: nat)
    requires |first| == OUTBYTES && k > 0 && OUTBYTES * (k - 1) <= |rest|
    ensures (first + rest)[OUTBYTES * k..] == rest[OUTBYTES * (k - 1)..]
  {
  }

  lemma NextOffset(offset: nat, k: nat)
    requires k > 0
    ensures ((offset + 1) % WORD + (k - 1)) % WORD == (offset + k) % WORD
  {
  }

  // -------------------------------------------------------------------------
  // Node offsets over runs

  /** log: the node offsets of the blocks emitted since the last reseed. */
  datatype Gen = Gen(initialized: bool, offset: nat, log: seq<nat>)

  datatype Call = Forced | Ask(newEntropy: bool, blocks: nat)

  function Offsets(start: nat, n: nat): (s: seq<nat>)
    ensures |s| == n && forall k :: 0 <= k < n ==> s[k] == (start + k) % WORD
  {
    seq(n, k requires 0 <= k < n => (start + k) % WORD)
  }

  predicate MustReseed(g: Gen, newEntropy: bool)
  {
    !g.initialized || newEntropy || g.offset == UINT32_MAX
  }

  /** The state in which the output phase of a call starts. */
  function Begun(g: Gen, newEntropy: bool): Gen
  {
    if MustReseed(g, newEntropy) then Gen(true, 0, []) else g
  }

  function Emitted(g: Gen, n: nat): Gen
  {
    g.(offset := (g.offset + n) % WORD, log := g.log + Offsets(g.offset, n))
  }

  lemma EmittedNothing(g: Gen)
    requires g.offset < WORD
    ensures Emitted(g, 0) == g
  {
    assert g.log + Offsets(g.offset, 0) == g.log;
  }

  lemma EmittedOneMore(g: Gen, k: nat)
    requires g.offset < WORD
    ensures Emitted(Emitted(g, k), 1) == Emitted(g, k + 1)
  {
    assert ((g.offset + k) % WORD + 1) % WORD == (g.offset + (k + 1)) % WORD;
    assert Offsets(g.offset, k + 1) == Offsets(g.offset, k) + Offsets((g.offset + k) % WORD, 1);
  }

  function After(g: Gen, call: Call): Gen
  {
    match call
    case Forced => Gen(true, 0, [])
    case Ask(newEntropy, blocks) => Emitted(Begun(g, newEntropy), blocks)
  }

  function AfterAll(g: Gen, calls: seq<Call>): Gen
    decreases |calls|
  {
    if calls == [] then g else AfterAll(After(g, calls[0]), calls[1..])
  }

  /** The offsets since the last reseed count up from zero. */
  ghost predicate Counting(g: Gen)
  {
    g.log == Offsets(0, |g.log|) && g.offset == |g.log| % WORD
  }

  lemma SameRemainder(m: nat, d: nat)
    ensures (m % WORD + d) % WORD == (m + d) % WORD
  {
  }

  lemma EmittedCounts(g: Gen, n: nat)
    requires Counting(g)
    ensures Counting(Emitted(g, n))
  {
    var m := |g.log|;
    SameRemainder(m, n);
    forall k | 0 <= k < m + n ensures Emitted(g, n).log[k] == k % WORD {
      if k >= m {
        SameRemainder(m, k - m);
      }
    }
  }

  lemma {:induction false} AlwaysCounting(g: Gen, calls: seq<Call>)
    requires Counting(g)
    ensures Counting(AfterAll(g, calls))
    decreases |calls|
  {
    hide Counting, Emitted;
    if calls != [] {
      AfterCounts(g, calls[0]);
      AlwaysCounting(After(g, calls[0]), calls[1..]);
    }
  }

  lemma AfterCounts(g: Gen, call: Call)
    requires Counting(g)
    ensures Counting(After(g, call))
  {
    match call
    case Forced =>
    case Ask(newEntropy, blocks) => EmittedCounts(Begun(g, newEntropy), blocks);
  }

  ghost predicate NoRepeats(s: seq<nat>)
  {
    forall i, j :: 0 <= i < j < |s| ==> s[i] != s[j]
  }

  /** In every run, no two blocks since the last reseed share a node offset exactly when there are at most
      2^32 of them. */
  lemma NoRepeatsExactlyWhen(g: Gen, calls: seq<Call>)
    requires Counting(g)
    ensures NoRepeats(AfterAll(g, calls).log) <==> |AfterAll(g, calls).log| <= WORD
  {
    AlwaysCounting(g, calls);
    CountingRepeats(AfterAll(g, calls));
  }

  /** No call runs past the last node offset. */
  ghost predicate InTime(g: Gen, calls: seq<Call>)
    decreases |calls|
  {
    calls == [] ||
    (&& (calls[0].Ask? ==> Begun(g, calls[0].newEntropy).offset + calls[0].blocks <= UINT32_MAX)
     && InTime(After(g, calls[0]), calls[1..]))
  }

  /** If each call ends by the last node offset, the reseed in the next call comes in time: no repetition, ever. */
  lemma {:induction false} ReseededInTime(g: Gen, calls: seq<Call>)
    requires Counting(g) && |g.log| <= UINT32_MAX && InTime(g, calls)
    ensures |AfterAll(g, calls).log| <= UINT32_MAX && NoRepeats(AfterAll(g, calls).log)
    decreases |calls|
  {
    if calls != [] {
      AfterCounts(g, calls[0]);
      ReseededInTime(After(g, calls[0]), calls[1..]);
    }
  }

  lemma CountingRepeats(g: Gen)
    requires Counting(g)
    ensures NoRepeats(g.log) <==> |g.log| <= WORD
  {
    if |g.log| > WORD {
      assert g.log[0] == 0 && g.log[WORD] == WORD % WORD == 0;
    }
  }

  /** Before a call: it repeats no offset exactly when the blocks since the last reseed and its own are at most
      2^32 in all. */
  lemma OneCallExactlyWhen(g: Gen, newEntropy: bool, n: nat)
    requires Counting(g)
    ensures NoRepeats(After(g, Ask(newEntropy, n)).log) <==> |Begun(g, newEntropy).log| + n <= WORD
  {
    AfterCounts(g, Ask(newEntropy, n));
    CountingRepeats(After(g, Ask(newEntropy, n)));
  }

  /** Every call finds room for its blocks among the 2^32 offsets of the current root. */
  ghost predicate Room(g: Gen, calls: seq<Call>)
    decreases |calls|
  {
    calls == [] ||
    (&& (calls[0].Ask? ==> |Begun(g, calls[0].newEntropy).log| + calls[0].blocks <= WORD)
     && Room(After(g, calls[0]), calls[1..]))
  }

  ghost predicate NeverRepeats(g: Gen, calls: seq<Call>)
  {
    forall n :: 0 <= n <= |calls| ==> NoRepeats(AfterAll(g, calls[..n]).log)
  }

  /** Over every run: at no time do two blocks of one root share an offset, exactly when every call finds room. */
  lemma {:induction false} NeverRepeatsExactlyWhen(g: Gen, calls: seq<Call>)
    requires Counting(g) && NoRepeats(g.log)
    ensures NeverRepeats(g, calls) <==> Room(g, calls)
    decreases |calls|
  {
    hide Counting, NoRepeats;
    if calls == [] {
      assert calls[..0] == [];
    } else {
      var g1, rest := After(g, calls[0]), calls[1..];
      AfterCounts(g, calls[0]);
      FirstCall(g, calls[0]);
      LaterRepeats(g, calls);
      if NoRepeats(g1.log) {
        NeverRepeatsExactlyWhen(g1, rest);
      } else {
        assert AfterAll(g1, rest[..0]) == g1;
      }
    }
  }

  lemma FirstCall(g: Gen, call: Call)
    requires Counting(g)
    ensures NoRepeats(After(g, call).log) <==> (call.Ask? ==> |Begun(g, call.newEntropy).log| + call.blocks <= WORD)
  {
    match call
    case Forced =>
    case Ask(newEntropy, blocks) => OneCallExactlyWhen(g, newEntropy, blocks);
  }

  lemma LaterRepeats(g: Gen, calls: seq<Call>)
    requires calls != [] && NoRepeats(g.log)
    ensures NeverRepeats(g, calls) <==> NeverRepeats(After(g, calls[0]), calls[1..])
  {
    hide NoRepeats;
    var g1, rest := After(g, calls[0]), calls[1..];
    forall n | 0 <= n <= |rest| ensures AfterAll(g, calls[..n + 1]) == AfterAll(g1, rest[..n]) {
      assert calls[..n + 1][0] == calls[0] && calls[..n + 1][1..] == rest[..n];
    }
    if NeverRepeats(g1, rest) {
      forall n | 0 <= n <= |calls| ensures NoRepeats(AfterAll(g, calls[..n]).log) {
        if n == 0 {
          assert calls[..0] == [];
        } else {
          assert AfterAll(g, calls[..(n - 1) + 1]) == AfterAll(g1, rest[..n - 1]);
        }
      }
    }
  }

  /** The blocks of a call for 2^32 - 1 bytes. */
  const LARGE := 0x800_0000

  lemma {:induction false} LargeCalls(g: Gen, j: nat, k: nat)
    requires Counting(g) && |g.log| == j * LARGE && j + k <= 32 && (g.initialized || j == 0)
    ensures var e := AfterAll(g, seq(k, _ => Ask(false, LARGE)));
            Counting(e) && |e.log| == (j + k) * LARGE && (k > 0 ==> e.initialized)
    decreases k
  {
    if k > 0 {
      var call := Ask(false, LARGE);
      assert seq(k, _ => call)[1..] == seq(k - 1, _ => call);
      AfterCounts(g, call);
      LargeCalls(After(g, call), j + 1, k - 1);
    }
  }

  /** Calls that together use up all 2^32 offsets leave offset 0 without a reseed: the next block repeats it,
      although the offset alone leaves plenty of room. */
  lemma WrapRepeats()
    ensures BlockCount(WORD - 1) == LARGE
    ensures var g := AfterAll(Gen(false, 0, []), seq(32, _ => Ask(false, LARGE)));
            && NoRepeats(g.log) && !MustReseed(g, false) && g.offset + 1 <= WORD
            && !NoRepeats(After(g, Ask(false, 1)).log)
  {
    hide AfterAll;
    var g := AfterAll(Gen(false, 0, []), seq(32, _ => Ask(false, LARGE)));
    LargeCalls(Gen(false, 0, []), 0, 32);
    CountingRepeats(g);
    OneCallExactlyWhen(g, false, 1);
  }
}
