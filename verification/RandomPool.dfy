/** crypto/random_pool.c: the pool mixed in place, and the generator seeded from it. */
module RandomPool {
  import opened Blake2sSpec
  import opened Blake2sStream
  import opened Blake2s
  import opened Memory
  import P = PoolSpec
  import opened RngSpec

  lemma XorAssociative(x: bv32, y: bv32, z: bv32)
    ensures Xor(Xor(x, y), z) == Xor(x, Xor(y, z))
  {
  }

  /** The taps can be added to the word one after the other. */
  lemma TapByTap(r: bv32, a: bv32, b: bv32, c: bv32, d: bv32, e: bv32)
    ensures Xor(Xor(Xor(Xor(Xor(r, a), b), c), d), e) == Xor(r, Xor(Xor(Xor(Xor(a, b), c), d), e))
  {
    hide Xor;
    XorAssociative(r, a, b);
    XorAssociative(r, Xor(a, b), c);
    XorAssociative(r, Xor(Xor(a, b), c), d);
    XorAssociative(r, Xor(Xor(Xor(a, b), c), d), e);
  }

  lemma AddedNext(p: P.Pool, buf: seq<bv32>, n: nat)
    requires P.Valid(p) && n < |buf|
    ensures P.Added(p, buf[n..]) == P.Added(P.Step(p, buf[n]), buf[n + 1..])
  {
    hide P.Step;
    assert buf[n..][1..] == buf[n + 1..];
  }

  lemma AddedNothing(p: P.Pool)
    requires P.Valid(p)
    ensures P.Added(p, []) == p
  {
  }

  class Rng {
    const pool: array<bv32>
    var addptr: nat
    var rotate: bv8
    var newentr: nat
    var outputInitialized: bool
    var outNodeOffset: nat
    var param: Param
    const ctx: State
    const outRoot: array<bv8>
    ghost var log: seq<nat>  // the node offsets used since the last reseed

    /** rng_init. */
    constructor (size: nat)
      requires size > P.LARGEST_TAP
      ensures Valid() && fresh(pool) && fresh(ctx) && fresh(ctx.h) && fresh(ctx.buf) && fresh(outRoot)
      ensures pool.Length == size && addptr == 0 && rotate == 0 && newentr == 0
      ensures Generator() == Gen(false, 0, [])
    {
      pool := new bv32[size](_ => 0);
      addptr, rotate, newentr := 0, 0, 0;
      outputInitialized, outNodeOffset := false, 0;
      param := RootParam();
      ctx := new State();
      outRoot := new bv8[OUTBYTES](_ => 0);
      log := [];
    }

    ghost predicate Shape()
      reads this, ctx
    {
      && pool.Length > P.LARGEST_TAP && addptr < pool.Length && rotate < 32 && newentr < WORD
      && ctx.Shape() && outRoot.Length == OUTBYTES && outRoot != ctx.buf && pool != ctx.h
      && outNodeOffset < WORD
    }

    ghost function Generator(): Gen
      reads this
    {
      Gen(outputInitialized, outNodeOffset, log)
    }

    ghost predicate Valid()
      reads this, ctx
    {
      && Shape() && Counting(Generator())
      && (outputInitialized ==>
            && param.digestLength <= OUTBYTES && param.nodeOffset < WORD
            && param == OutParam(param.digestLength, param.nodeOffset))
    }

    ghost function Contents(): (p: P.Pool)
      requires Shape()
      reads this, ctx, pool
      ensures P.Valid(p)
    {
      P.Pool(pool[..], addptr, rotate)
    }

    /** The word as addentropy collects it, tap by tap. */
    method Stir(x: bv32, i: nat) returns (w: bv32)
      requires Shape() && i < pool.Length
      ensures w == Xor(Xor(P.Rotl(x, rotate), P.Taps(pool[..], i)), pool[i])
    {
      hide Xor, P.Rotl;
      var n, r := pool.Length, P.Rotl(x, rotate);
      var a, b, c := pool[P.Up(i, 104, n)], pool[P.Up(i, 76, n)], pool[P.Up(i, 51, n)];
      var d, e := pool[P.Up(i, 25, n)], pool[P.Up(i, 1, n)];
      w := Xor(r, a);
      w := Xor(w, b);
      w := Xor(w, c);
      w := Xor(w, d);
      w := Xor(w, e);
      TapByTap(r, a, b, c, d, e);
      w := Xor(w, pool[i]);
    }

    /** One turn of the loop of addentropy. */
    method AddWord(x: bv32)
      requires Shape()
      modifies this`addptr, this`rotate, pool
      ensures Shape() && Contents() == P.Step(old(Contents()), x)
    {
      hide Xor, P.Rotl, P.Twist, P.Taps, P.NextRotate;
      addptr := P.Down(addptr, pool.Length);
      var w := Stir(x, addptr);
      rotate := P.NextRotate(rotate, addptr);
      pool[addptr] := P.Twist(w);
    }

    /** addentropy. */
    method AddEntropy(buf: seq<bv32>, incNew: bool)
      requires Shape()
      modifies this`addptr, this`rotate, this`newentr, pool
      ensures Shape() && Contents() == P.Added(old(Contents()), buf)
      ensures newentr == (old(newentr) + if incNew then |buf| else 0) % WORD
    {
      hide P.Step, P.Added;
      var n := 0;
      assert buf[0..] == buf;
      while n < |buf|
        invariant 0 <= n <= |buf| && Shape()
        invariant P.Added(Contents(), buf[n..]) == P.Added(old(Contents()), buf)
        invariant newentr == (old(newentr) + if incNew then n else 0) % WORD
      {
        ghost var before := Contents();
        AddWord(buf[n]);
        AddedNext(before, buf, n);
        if incNew {
          newentr := (newentr + 1) % WORD;
        }
        n := n + 1;
      }
      assert buf[n..] == [];
      AddedNothing(Contents());
    }

    /** getentropy; the clock words that up_rngaddentropy mixes in are w1 and w2. */
    method GetEntropy(w1: bv32, w2: bv32)
      requires Shape()
      modifies this`addptr, this`rotate, this`newentr, pool, ctx, ctx.h, ctx.buf
      ensures Shape() && newentr == 0
      ensures Contents() == P.Added(old(Contents()), Seeding(w1, old(newentr), w2))
      ensures ctx.Now() == Updated(old(ctx.Now()), SeedBytes(old(Contents()), w1, old(newentr)))
    {
      hide P.Added, Updated, Bytes, Xor, WordOf;
      ghost var before, x1 := Contents(), Xor(w1, WordOf(newentr));
      AddEntropy([Xor(w1, WordOf(newentr))], true);
      ctx.Update(Bytes(pool[..]));
      AddEntropy([w2], true);
      P.AddedConcat(before, [x1], [w2]);
      assert [x1] + [w2] == [x1, w2];
      newentr := 0;
    }

    /** The hashing part of rng_reseed. */
    method NewRoot(w1: bv32, w2: bv32)
      requires Shape() && ctx.Now() == Fresh(ParamStart(RootParam()), OUTBYTES)
      modifies this`addptr, this`rotate, this`newentr, pool, ctx, ctx.h, ctx.buf, outRoot
      ensures Shape() && newentr == 0
      ensures Contents() == P.Added(old(Contents()), Seeding(w1, old(newentr), w2))
      ensures outRoot[..] == Root(SeedBytes(old(Contents()), w1, old(newentr)), old(outRoot[..]))
    {
      hide P.Added, P.Valid, Updated, Finished, Hashed, Bytes, ParamStart, Seeding, SeedBytes;
      ghost var s0, seed, root := ctx.Now(), SeedBytes(Contents(), w1, newentr), outRoot[..];
      GetEntropy(w1, w2);
      UpdatedFrame(s0, seed);
      UpdatedFrame(Updated(s0, seed), root);
      TwoPieces(s0.h, seed, root, OUTBYTES);
      ctx.Update(outRoot[..]);
      var r := ctx.Final(outRoot, OUTBYTES);
    }

    /** rng_reseed. */
    method Reseed(w1: bv32, w2: bv32)
      requires Valid()
      modifies this, pool, ctx, ctx.h, ctx.buf, outRoot
      ensures Valid() && newentr == 0 && Generator() == Gen(true, 0, [])
      ensures Contents() == P.Added(old(Contents()), Seeding(w1, old(newentr), w2))
      ensures outRoot[..] == Root(SeedBytes(old(Contents()), w1, old(newentr)), old(outRoot[..]))
    {
      hide P.Added, Root, ParamStart, Seeding, SeedBytes;
      outNodeOffset := 0;
      param := RootParam();
      ctx.InitParam(param);
      NewRoot(w1, w2);
      param := param.(keyLength := 0, fanout := 0, leafLength := OUTBYTES, innerLength := OUTBYTES, nodeDepth := 0);
      outputInitialized := true;
      log := [];
    }

    /** up_rngreseed: only with enough new entropy. */
    method ForceReseed(w1: bv32, w2: bv32)
      requires Valid()
      modifies this, pool, ctx, ctx.h, ctx.buf, outRoot
      ensures Valid()
      ensures var due := old(newentr) >= 128;
              && Generator() == (if due then After(old(Generator()), Forced) else old(Generator()))
              && outRoot[..] == (if due then Root(SeedBytes(old(Contents()), w1, old(newentr)), old(outRoot[..]))
                                 else old(outRoot[..]))
    {
      hide Counting, Root, SeedBytes;
      if newentr >= MIN_SEED_NEW_ENTROPY_WORDS {
        Reseed(w1, w2);
      }
    }

    /** The hash of the root under the current parameters. */
    method HashRoot(size: nat) returns (block: array<bv8>)
      requires Shape() && size <= OUTBYTES && param == OutParam(size, outNodeOffset)
      modifies ctx, ctx.h, ctx.buf
      ensures Shape() && fresh(block) && block[..] == Block(outRoot[..], outNodeOffset, size)
    {
      hide Updated, Finished, Hashed, Bytes, ParamStart;
      ctx.InitParam(param);
      ghost var s0, root := ctx.Now(), outRoot[..];
      UpdatedFrame(s0, root);
      UpdatedNothing(s0);
      TwoPieces(s0.h, [], root, size);
      assert [] + root == root;
      ctx.Update(outRoot[..]);
      block := new bv8[size];
      var r := ctx.Final(block, size);
    }

    /** One turn of the output loop of rng_buf_internal. */
    method EmitBlock(bytes: array<bv8>, at: nat, size: nat)
      requires Valid() && outputInitialized && size <= OUTBYTES && at + size <= bytes.Length
      requires bytes != ctx.buf && bytes != outRoot
      modifies this`param, this`outNodeOffset, this`log, ctx, ctx.h, ctx.buf, bytes
      ensures Valid() && Generator() == Emitted(old(Generator()), 1)
      ensures outputInitialized && outNodeOffset == (old(outNodeOffset) + 1) % WORD
      ensures bytes[..] ==
              old(bytes[..])[..at] + Block(outRoot[..], old(outNodeOffset), size) + old(bytes[..])[at + size..]
    {
      hide Block, Counting, Offsets;
      param := param.(digestLength := size, nodeOffset := outNodeOffset);
      var block := HashRoot(size);
      Memcpy(bytes, at, block[..]);
      EmittedCounts(Generator(), 1);
      log := log + Offsets(outNodeOffset, 1);
      outNodeOffset := (outNodeOffset + 1) % WORD;
    }

    /** The output loop of rng_buf_internal. */
    method Emit(bytes: array<bv8>, nbytes: nat)
      requires Valid() && outputInitialized && nbytes <= bytes.Length
      requires bytes != ctx.buf && bytes != outRoot
      modifies this`param, this`outNodeOffset, this`log, ctx, ctx.h, ctx.buf, bytes
      ensures Valid() && Generator() == Emitted(old(Generator()), BlockCount(nbytes))
      ensures bytes[..] == Output(outRoot[..], old(outNodeOffset), nbytes) + old(bytes[nbytes..])
    {
      hide Block, Counting, Emitted, Continues, Output;
      ghost var g, o, root := Generator(), bytes[..], outRoot[..];
      ghost var k := 0;
      var at, left := 0, nbytes;
      EmittedNothing(g);
      ContinuesAtFirst(o, root, g.offset, nbytes);
      while left > 0
        invariant Valid() && outputInitialized && at + left == nbytes
        invariant Generator() == Emitted(g, k) && k + BlockCount(left) == BlockCount(nbytes)
        invariant Continues(bytes[..], o, root, g.offset, nbytes, at, outNodeOffset)
      {
        ghost var before, offset := bytes[..], outNodeOffset;
        var size := Size(left);
        EmitBlock(bytes, at, size);
        ContinuesOneMore(before, bytes[..], o, root, g.offset, nbytes, at, offset);
        EmittedOneMore(g, k);
        at, left, k := at + size, left - size, k + 1;
      }
      ContinuesAtLast(bytes[..], o, root, g.offset, nbytes, outNodeOffset);
      assert o[nbytes..] == old(bytes[nbytes..]);
    }

    /** rng_buf_internal: reseed if it is due, then nbytes bytes of output. */
    method BufInternal(bytes: array<bv8>, nbytes: nat, w1: bv32, w2: bv32)
      requires Valid() && nbytes <= bytes.Length && bytes != ctx.buf && bytes != outRoot
      modifies this, pool, ctx, ctx.h, ctx.buf, outRoot, bytes
      ensures Valid()
      ensures Generator() ==
              After(old(Generator()), Ask(old(newentr) >= MAX_SEED_NEW_ENTROPY_WORDS, BlockCount(nbytes)))
      ensures var due := !old(outputInitialized) || old(newentr) >= 1024 || old(outNodeOffset) == 0xffff_ffff;
              && Generator() == Emitted(if due then Gen(true, 0, []) else old(Generator()), BlockCount(nbytes))
              && outRoot[..] == (if due then Root(SeedBytes(old(Contents()), w1, old(newentr)), old(outRoot[..]))
                                 else old(outRoot[..]))
              && Contents() == (if due then P.Added(old(Contents()), Seeding(w1, old(newentr), w2))
                                else old(Contents()))
              && newentr == (if due then 0 else old(newentr))
              && bytes[..] == Output(outRoot[..], if due then 0 else old(outNodeOffset), nbytes) + old(bytes[nbytes..])
    {
      hide Counting, Emitted, Output, Root, P.Added, Seeding, SeedBytes;
      if !outputInitialized {
        Reseed(w1, w2);
      } else if newentr >= MAX_SEED_NEW_ENTROPY_WORDS {
        Reseed(w1, w2);
      } else if outNodeOffset == UINT32_MAX {
        Reseed(w1, w2);
      }
      Emit(bytes, nbytes);
    }
  }

  /** After at bytes the output continues at a node offset, and the rest of the buffer is as it was. */
  ghost predicate Continues(bytes: seq<bv8>, was: seq<bv8>, root: seq<bv8>, start: nat, n: nat, at: nat, offset: nat)
  {
    && start < WORD && offset < WORD && at <= n <= |was| == |bytes|
    && Output(root, start, n) == bytes[..at] + Output(root, offset, n - at)
    && bytes[at..] == was[at..]
  }

  lemma ContinuesAtFirst(bytes: seq<bv8>, root: seq<bv8>, start: nat, n: nat)
    requires start < WORD && n <= |bytes|
    ensures Continues(bytes, bytes, root, start, n, 0, start)
  {
  }

  lemma ContinuesAtLast(bytes: seq<bv8>, was: seq<bv8>, root: seq<bv8>, start: nat, n: nat, offset: nat)
    requires Continues(bytes, was, root, start, n, n, offset)
    ensures start < WORD && n <= |was| && bytes == Output(root, start, n) + was[n..]
  {
    hide Output;
    OutputNothing(root, offset);
    assert bytes[..n] + [] == bytes[..n] && bytes == bytes[..n] + bytes[n..];
  }

  lemma ContinuesOneMore(bytes: seq<bv8>, bytes': seq<bv8>, was: seq<bv8>, root: seq<bv8>,
                         start: nat, n: nat, at: nat, offset: nat)
    requires Continues(bytes, was, root, start, n, at, offset) && at < n
    requires bytes' == bytes[..at] + Block(root, offset, Size(n - at)) + bytes[at + Size(n - at)..]
    ensures Continues(bytes', was, root, start, n, at + Size(n - at), (offset + 1) % WORD)
  {
    hide Block;
    var at' := at + Size(n - at);
    assert bytes'[..at'] == bytes[..at] + Block(root, offset, Size(n - at));
    assert bytes'[at'..] == bytes[at'..] == bytes[at..][at' - at..] == was[at..][at' - at..] == was[at'..];
  }

  /** The words rng_reseed adds to the pool: one before hashing it, one after. */
  function Seeding(w1: bv32, newentr: nat, w2: bv32): seq<bv32>
    requires newentr < WORD
  {
    [Xor(w1, WordOf(newentr)), w2]
  }

  /** The first of them comes before the hash, the second after it: the hash sees the pool with one word more. */
  lemma SeedsWithOneWord(p: P.Pool, w1: bv32, newentr: nat, w2: bv32)
    requires P.Valid(p) && newentr < WORD
    ensures var q := P.Step(p, Xor(w1, WordOf(newentr)));
            SeedBytes(p, w1, newentr) == Bytes(q.words) && P.Added(p, Seeding(w1, newentr, w2)) == P.Step(q, w2)
  {
    hide Xor, WordOf, P.Step, P.Added, P.Valid, Bytes;
    var x := Xor(w1, WordOf(newentr));
    OneWord(p, x);
    OneWord(P.Step(p, x), w2);
    P.AddedConcat(p, [x], [w2]);
    assert [x] + [w2] == [x, w2];
  }

  lemma OneWord(p: P.Pool, x: bv32)
    requires P.Valid(p)
    ensures P.Added(p, [x]) == P.Step(p, x)
  {
    hide P.Step;
    assert [x][1..] == [];
  }

  /** The bytes of the pool that rng_reseed hashes. */
  function SeedBytes(p: P.Pool, w1: bv32, newentr: nat): seq<bv8>
    requires P.Valid(p) && newentr < WORD
  {
    Bytes(P.Added(p, [Xor(w1, WordOf(newentr))]).words)
  }
}
