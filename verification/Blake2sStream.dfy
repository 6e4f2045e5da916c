/** The lazy streaming form of crypto/blake2s.c on values, and why it computes the digest of RFC 7693. */
module Blake2sStream {
  import opened Blake2sSpec

  /** blake2s_state, with only the live part of the buffer. */
  datatype Hash = Hash(h: Chain, t0: nat, t1: nat, f0: bv32, f1: bv32, buf: seq<bv8>, outlen: nat)

  ghost predicate Valid(s: Hash)
  {
    s.t0 < WORD && s.t1 < WORD && |s.buf| <= BLOCKBYTES
  }

  /** blake2s_increment_counter: two 32-bit words and a carry. */
  function Incremented(s: Hash, inc: nat): Hash
  {
    var t0 := (s.t0 + inc) % WORD;
    s.(t0 := t0, t1 := (s.t1 + if t0 < inc then 1 else 0) % WORD)
  }

  /** The working vector as blake2s_compress fills it. */
  function Filled(s: Hash): Vec
    requires Valid(s)
  {
    s.h + [IV[0], IV[1], IV[2], IV[3],
           Xor(WordOf(s.t0), IV[4]), Xor(WordOf(s.t1), IV[5]), Xor(s.f0, IV[6]), Xor(s.f1, IV[7])]
  }

  function Compressed(s: Hash, block: seq<bv8>): Hash
    requires Valid(s) && |block| == BLOCKBYTES
  {
    s.(h := Fold(s.h, Rounds(Filled(s), Words(block, 16), 10)))
  }

  function Absorbed(s: Hash, block: seq<bv8>): (s': Hash)
    requires Valid(s) && |block| == BLOCKBYTES
    ensures Valid(s') && s'.buf == s.buf && s'.f0 == s.f0 && s'.f1 == s.f1 && s'.outlen == s.outlen
  {
    Compressed(Incremented(s, BLOCKBYTES), block)
  }

  /** Compress block after block, but keep the last one, even a full one, in the buffer. */
  function Drained(s: Hash, data: seq<bv8>): (s': Hash)
    requires Valid(s)
    ensures Valid(s')
    decreases |data|
  {
    if |data| <= BLOCKBYTES then s.(buf := data)
    else Drained(Absorbed(s, data[..BLOCKBYTES]), data[BLOCKBYTES..])
  }

  /** blake2s_update. */
  function Updated(s: Hash, input: seq<bv8>): (s': Hash)
    requires Valid(s)
    ensures Valid(s')
  {
    if input == [] then s else Drained(s, s.buf + input)
  }

  /** The part of blake2s_final that changes the state. */
  function Finished(s: Hash): Hash
    requires Valid(s)
  {
    var s' := Incremented(s, |s.buf|).(f0 := 0xffff_ffff);
    Compressed(s', s.buf + Zeros(BLOCKBYTES - |s.buf|))
  }

  // -------------------------------------------------------------------------
  // The pieces do not matter

  lemma DrainedBuffer(s: Hash)
    requires Valid(s)
    ensures Drained(s, s.buf) == s
  {
  }

  lemma IgnoresBuffer(s: Hash, block: seq<bv8>, buf: seq<bv8>)
    requires Valid(s) && |block| == BLOCKBYTES && |buf| <= BLOCKBYTES
    ensures Absorbed(s.(buf := buf), block) == Absorbed(s, block).(buf := buf)
  {
    hide Fold, Rounds, Words, Xor, WordOf;
    assert Filled(Incremented(s.(buf := buf), BLOCKBYTES)) == Filled(Incremented(s, BLOCKBYTES));
  }

  lemma {:induction false} DrainedIgnoresBuffer(s: Hash, data: seq<bv8>, buf: seq<bv8>)
    requires Valid(s) && |buf| <= BLOCKBYTES
    ensures Drained(s.(buf := buf), data) == Drained(s, data)
    decreases |data|
  {
    hide Absorbed;
    if |data| > BLOCKBYTES {
      IgnoresBuffer(s, data[..BLOCKBYTES], buf);
      DrainedIgnoresBuffer(Absorbed(s, data[..BLOCKBYTES]), data[BLOCKBYTES..], buf);
    }
  }

  lemma {:induction false} DrainedTwice(s: Hash, x: seq<bv8>, y: seq<bv8>)
    requires Valid(s)
    ensures Drained(Drained(s, x), Drained(s, x).buf + y) == Drained(s, x + y)
    decreases |x|
  {
    hide Absorbed;
    if |x| <= BLOCKBYTES {
      DrainedIgnoresBuffer(s, x + y, x);
    } else {
      assert (x + y)[..BLOCKBYTES] == x[..BLOCKBYTES] && (x + y)[BLOCKBYTES..] == x[BLOCKBYTES..] + y;
      DrainedTwice(Absorbed(s, x[..BLOCKBYTES]), x[BLOCKBYTES..], y);
    }
  }

  lemma UpdatedTwice(s: Hash, x: seq<bv8>, y: seq<bv8>)
    requires Valid(s)
    ensures Updated(Updated(s, x), y) == Updated(s, x + y)
  {
    hide Drained;
    if x == [] {
      assert x + y == y;
    } else if y == [] {
      assert x + y == x;
    } else {
      DrainedTwice(s, s.buf + x, y);
      assert s.buf + x + y == s.buf + (x + y);
    }
  }

  lemma {:induction false} DrainedFrame(s: Hash, data: seq<bv8>)
    requires Valid(s)
    ensures Drained(s, data).f0 == s.f0 && Drained(s, data).outlen == s.outlen
    decreases |data|
  {
    hide Absorbed;
    if |data| > BLOCKBYTES {
      DrainedFrame(Absorbed(s, data[..BLOCKBYTES]), data[BLOCKBYTES..]);
    }
  }

  /** No update marks the last block or changes the digest length. */
  lemma UpdatedFrame(s: Hash, input: seq<bv8>)
    requires Valid(s)
    ensures Updated(s, input).f0 == s.f0 && Updated(s, input).outlen == s.outlen
  {
    DrainedFrame(s, s.buf + input);
  }

  function UpdatedBy(s: Hash, pieces: seq<seq<bv8>>): (s': Hash)
    requires Valid(s)
    ensures Valid(s')
    decreases |pieces|
  {
    if pieces == [] then s else UpdatedBy(Updated(s, pieces[0]), pieces[1..])
  }

  function Joined(pieces: seq<seq<bv8>>): seq<bv8>
  {
    if pieces == [] then [] else pieces[0] + Joined(pieces[1..])
  }

  /** Feeding a message in any pieces leaves the state that feeding it at once leaves. */
  lemma {:induction false} PiecesDoNotMatter(s: Hash, pieces: seq<seq<bv8>>)
    requires Valid(s)
    ensures UpdatedBy(s, pieces) == Updated(s, Joined(pieces))
    decreases |pieces|
  {
    hide Updated;
    if pieces == [] {
      UpdatedNothing(s);
    } else {
      PiecesDoNotMatter(Updated(s, pieces[0]), pieces[1..]);
      UpdatedTwice(s, pieces[0], Joined(pieces[1..]));
    }
  }

  lemma UpdatedNothing(s: Hash)
    requires Valid(s)
    ensures Updated(s, []) == s
  {
  }

  // -------------------------------------------------------------------------
  // The two-word counter and the two flag words

  /** The counter words stand for one number, kept modulo 2^64. */
  lemma CountsModulo(s: Hash, t: nat, inc: nat)
    requires s.t0 == t % WORD && s.t1 == t / WORD % WORD && inc < WORD
    ensures Incremented(s, inc).t0 == (t + inc) % WORD
    ensures Incremented(s, inc).t1 == (t + inc) / WORD % WORD
  {
    var q, r := t / WORD, t % WORD;
    assert t + inc == q * WORD + (r + inc);
    if r + inc < WORD {
      assert (t + inc) / WORD == q && (t + inc) % WORD == r + inc;
    } else {
      assert (t + inc) / WORD == q + 1 && (t + inc) % WORD == r + inc - WORD;
    }
  }

  lemma XorCommutes(x: bv32, y: bv32)
    ensures Xor(x, y) == Xor(y, x)
  {
  }

  lemma XorZero(x: bv32)
    ensures Xor(0, x) == x
  {
  }

  lemma FilledIsStart(s: Hash, t: nat, last: bool)
    requires Valid(s) && s.t0 == t % WORD && s.t1 == t / WORD % WORD
    requires s.f0 == (if last then 0xffff_ffff else 0) && s.f1 == 0
    ensures Filled(s) == Start(s.h, t, last)
  {
    hide Xor, WordOf;
    XorCommutes(WordOf(s.t0), IV[4]);
    XorCommutes(WordOf(s.t1), IV[5]);
    XorCommutes(0xffff_ffff, IV[6]);
    XorZero(IV[6]);
    XorZero(IV[7]);
  }

  /** One call of blake2s_compress is the compression function of the standard. */
  lemma CompressedIsF(s: Hash, block: seq<bv8>, t: nat, last: bool)
    requires Valid(s) && |block| == BLOCKBYTES && s.t0 == t % WORD && s.t1 == t / WORD % WORD
    requires s.f0 == (if last then 0xffff_ffff else 0) && s.f1 == 0
    ensures Compressed(s, block).h == F(s.h, block, t, last)
  {
    hide Fold, Rounds, Words, Start, Filled;
    FilledIsStart(s, t, last);
  }

  // -------------------------------------------------------------------------
  // The canonical form, and the digest

  /** What the state is after data in all: every block strictly before the last is in the chain, the counter
      counts them, and the rest is in the buffer. */
  function Canonical(h: Chain, data: seq<bv8>, outlen: nat): (s: Hash)
    ensures Valid(s)
  {
    BlocksFit(|data|);
    At(h, data, Blocks(|data|) - 1, outlen)
  }

  function At(h: Chain, data: seq<bv8>, n: nat, outlen: nat): Hash
    requires BLOCKBYTES * n <= |data|
  {
    var t := BLOCKBYTES * n;
    Hash(ChainAfter(h, data, n), t % WORD, t / WORD % WORD, 0, 0, data[t..], outlen)
  }

  lemma AbsorbedAt(h: Chain, data: seq<bv8>, n: nat, outlen: nat, s: Hash)
    requires BLOCKBYTES * (n + 1) <= |data| && Valid(s) && s == At(h, data, n, outlen).(buf := s.buf)
    ensures Absorbed(s, data[BLOCKBYTES * n..][..BLOCKBYTES]) == At(h, data, n + 1, outlen).(buf := s.buf)
  {
    hide F, Compressed, Incremented;
    var t := BLOCKBYTES * n;
    var block := data[t..][..BLOCKBYTES];
    assert block == data[BLOCKBYTES * n..BLOCKBYTES * (n + 1)];
    IncrementedFrame(s, BLOCKBYTES);
    var s' := Incremented(s, BLOCKBYTES);
    CountsModulo(s, t, BLOCKBYTES);
    CompressedIsF(s', block, t + BLOCKBYTES, false);
    CompressedFrame(s', block);
  }

  lemma IncrementedFrame(s: Hash, inc: nat)
    ensures Incremented(s, inc) == s.(t0 := Incremented(s, inc).t0, t1 := Incremented(s, inc).t1)
  {
  }

  lemma CompressedFrame(s: Hash, block: seq<bv8>)
    requires Valid(s) && |block| == BLOCKBYTES
    ensures Compressed(s, block) == s.(h := Compressed(s, block).h)
  {
    hide Fold, Rounds, Words, Filled;
  }

  lemma {:induction false} DrainedAt(h: Chain, data: seq<bv8>, n: nat, outlen: nat, s: Hash)
    requires n <= Blocks(|data|) - 1 && BLOCKBYTES * n <= |data|
    requires Valid(s) && s == At(h, data, n, outlen).(buf := s.buf)
    ensures Drained(s, data[BLOCKBYTES * n..]) == Canonical(h, data, outlen)
    decreases |data| - BLOCKBYTES * n
  {
    hide Absorbed, ChainAfter;
    BlocksFit(|data|);
    var rest := data[BLOCKBYTES * n..];
    if |rest| > BLOCKBYTES {
      AbsorbedAt(h, data, n, outlen, s);
      assert rest[BLOCKBYTES..] == data[BLOCKBYTES * (n + 1)..];
      DrainedAt(h, data, n + 1, outlen, Absorbed(s, rest[..BLOCKBYTES]));
    }
  }

  /** A state just initialised with chain h. */
  function Fresh(h: Chain, outlen: nat): (s: Hash)
    ensures Valid(s)
  {
    Hash(h, 0, 0, 0, 0, [], outlen)
  }

  lemma CanonicalForm(h: Chain, data: seq<bv8>, outlen: nat)
    ensures Updated(Fresh(h, outlen), data) == Canonical(h, data, outlen)
  {
    var s := Fresh(h, outlen);
    assert data[BLOCKBYTES * 0..] == data && [] + data == data;
    DrainedAt(h, data, 0, outlen, s);
    if data == [] {
      DrainedBuffer(s);
    }
  }

  lemma FinishedIsHashed(h: Chain, data: seq<bv8>, outlen: nat)
    ensures Finished(Canonical(h, data, outlen)).h == Hashed(h, data)
  {
    hide F, Compressed, Incremented, ChainAfter;
    BlocksFit(|data|);
    var s := Canonical(h, data, outlen);
    var t := BLOCKBYTES * (Blocks(|data|) - 1);
    assert |s.buf| == |data| - t;
    CountsModulo(s, t, |s.buf|);
    IncrementedFrame(s, |s.buf|);
    var s' := Incremented(s, |s.buf|).(f0 := 0xffff_ffff);
    CompressedIsF(s', s.buf + Zeros(BLOCKBYTES - |s.buf|), |data|, true);
  }

  /** However a message is fed, finishing yields the chain of section 3.3 of RFC 7693. */
  lemma StreamedHash(h: Chain, pieces: seq<seq<bv8>>, outlen: nat)
    ensures Finished(UpdatedBy(Fresh(h, outlen), pieces)).h == Hashed(h, Joined(pieces))
  {
    PiecesDoNotMatter(Fresh(h, outlen), pieces);
    CanonicalForm(h, Joined(pieces), outlen);
    FinishedIsHashed(h, Joined(pieces), outlen);
  }

  lemma TwoPieces(h: Chain, x: seq<bv8>, y: seq<bv8>, outlen: nat)
    ensures Finished(Updated(Updated(Fresh(h, outlen), x), y)).h == Hashed(h, x + y)
  {
    hide Updated, Finished, Hashed;
    UpdatedTwice(Fresh(h, outlen), x, y);
    CanonicalForm(h, x + y, outlen);
    FinishedIsHashed(h, x + y, outlen);
  }

  /** A key block and then the message in pieces give the digest, cut to its length. */
  lemma StreamedDigest(message: seq<seq<bv8>>, key: seq<bv8>, nn: nat)
    requires 1 <= nn <= OUTBYTES && |key| <= KEYBYTES
    ensures Bytes(Finished(UpdatedBy(Updated(Fresh(KeyedStart(nn, |key|), nn), KeyBlock(key)), message)).h)[..nn]
            == Digest(Joined(message), key, nn)
  {
    hide Updated, Finished, Hashed, KeyedStart, Bytes;
    var h := KeyedStart(nn, |key|);
    StreamedHash(h, [KeyBlock(key)] + message, nn);
    assert ([KeyBlock(key)] + message)[1..] == message;
  }
}
