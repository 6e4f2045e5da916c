/** crypto/blake2s.c: the state it updates in place, and the one-call form. */
module Blake2s {
  import opened Blake2sSpec
  import opened Blake2sStream
  import opened Memory

  // -------------------------------------------------------------------------
  // The working vector in place

  method HalfG(v: array<bv32>, a: nat, b: nat, c: nat, d: nat, x: bv32, r1: bv6, r2: bv6)
    requires v.Length == 16 && Distinct(a, b, c, d)
    modifies v
    ensures v[..] == Put(old(v[..]), a, b, c, d, HalfMix(Take(old(v[..]), a, b, c, d), x, r1, r2))
  {
    hide Rotr, Xor, Plus;
    v[a] := Plus(Plus(v[a], v[b]), x);
    v[d] := Rotr(Xor(v[d], v[a]), r1);
    v[c] := Plus(v[c], v[d]);
    v[b] := Rotr(Xor(v[b], v[c]), r2);
  }

  /** The macro G. */
  method MixInPlace(v: array<bv32>, a: nat, b: nat, c: nat, d: nat, x: bv32, y: bv32)
    requires v.Length == 16 && Distinct(a, b, c, d)
    modifies v
    ensures v[..] == G(old(v[..]), a, b, c, d, x, y)
  {
    hide HalfMix, Put, Take, Distinct;
    ghost var v0 := v[..];
    ghost var q := HalfMix(Take(v0, a, b, c, d), x, 16, 12);
    HalfG(v, a, b, c, d, x, 16, 12);
    HalfG(v, a, b, c, d, y, 8, 7);
    PutAgain(v0, a, b, c, d, q, HalfMix(q, y, 8, 7));
  }

  method ColumnsInPlace(v: array<bv32>, m: array<bv32>, s: Schedule)
    requires v.Length == 16 && m.Length == 16 && v != m
    modifies v
    ensures v[..] == Columns(old(v[..]), m[..], s)
  {
    hide G;
    MixInPlace(v, 0, 4, 8, 12, m[s[0]], m[s[1]]);
    MixInPlace(v, 1, 5, 9, 13, m[s[2]], m[s[3]]);
    MixInPlace(v, 2, 6, 10, 14, m[s[4]], m[s[5]]);
    MixInPlace(v, 3, 7, 11, 15, m[s[6]], m[s[7]]);
  }

  method DiagonalsInPlace(v: array<bv32>, m: array<bv32>, s: Schedule)
    requires v.Length == 16 && m.Length == 16 && v != m
    modifies v
    ensures v[..] == Diagonals(old(v[..]), m[..], s)
  {
    hide G;
    MixInPlace(v, 0, 5, 10, 15, m[s[8]], m[s[9]]);
    MixInPlace(v, 1, 6, 11, 12, m[s[10]], m[s[11]]);
    MixInPlace(v, 2, 7, 8, 13, m[s[12]], m[s[13]]);
    MixInPlace(v, 3, 4, 9, 14, m[s[14]], m[s[15]]);
  }

  method RoundsInPlace(v: array<bv32>, m: array<bv32>)
    requires v.Length == 16 && m.Length == 16 && v != m
    modifies v
    ensures v[..] == Rounds(old(v[..]), m[..], 10)
  {
    hide Columns, Diagonals, Sigma;
    for round := 0 to 10
      invariant v[..] == Rounds(old(v[..]), m[..], round)
    {
      ColumnsInPlace(v, m, Sigma(round));
      DiagonalsInPlace(v, m, Sigma(round));
    }
  }

  method LoadWords(block: seq<bv8>) returns (m: array<bv32>)
    requires |block| == BLOCKBYTES
    ensures fresh(m) && m.Length == 16 && m[..] == Words(block, 16)
  {
    hide Load32;
    m := new bv32[16];
    for i := 0 to 16
      invariant m[..i] == Words(block, i)
    {
      m[i] := WordAt(block, i);
    }
  }

  // -------------------------------------------------------------------------
  // The state

  /** blake2s_param; the lengths and offsets are stored in little-endian order. */
  datatype Param = Param(digestLength: nat, keyLength: nat, fanout: nat, depth: nat, leafLength: nat, nodeOffset: nat,
                         xofLength: bv16, nodeDepth: nat, innerLength: nat, salt: seq<bv8>, personal: seq<bv8>)

  ghost predicate ValidParam(p: Param)
  {
    && p.digestLength < 256 && p.keyLength < 256 && p.fanout < 256 && p.depth < 256
    && p.leafLength < WORD && p.nodeOffset < WORD && p.nodeDepth < 256 && p.innerLength < 256
    && |p.salt| == 8 && |p.personal| == 8
  }

  function Store16(w: bv16): (s: seq<bv8>)
    ensures |s| == 2
  {
    [(w & 0xff) as bv8, ((w >> 8) & 0xff) as bv8]
  }

  /** The parameter block as bytes. */
  function Layout(p: Param): (s: seq<bv8>)
    requires ValidParam(p)
    ensures |s| == 32
  {
    [ByteOf(p.digestLength), ByteOf(p.keyLength), ByteOf(p.fanout), ByteOf(p.depth)]
    + Store32(WordOf(p.leafLength)) + Store32(WordOf(p.nodeOffset)) + Store16(p.xofLength)
    + [ByteOf(p.nodeDepth), ByteOf(p.innerLength)] + p.salt + p.personal
  }

  /** The initialisation vector under the parameter block. */
  function ParamStart(p: Param): (h: Chain)
    requires ValidParam(p)
    ensures forall i :: 0 <= i < 8 ==> h[i] == ParamWord(p, i)
  {
    seq(8, i requires 0 <= i < 8 => ParamWord(p, i))
  }

  function ParamWord(p: Param, i: nat): bv32
    requires ValidParam(p) && i < 8
  {
    Xor(IV[i], WordAt(Layout(p), i))
  }

  /** The parameters of blake2s_init and blake2s_init_key. */
  function Sequential(outlen: nat, keylen: nat): (p: Param)
    requires outlen < 256 && keylen < 256
    ensures ValidParam(p)
  {
    Param(outlen, keylen, 1, 1, 0, 0, 0, 0, 0, Zeros(8), Zeros(8))
  }

  lemma LoadStore(w: bv32)
    ensures var s := Store32(w); Load32(s[0], s[1], s[2], s[3]) == w
  {
  }

  /** Where blake2s_param keeps each field, word by word. */
  lemma LayoutWords(p: Param)
    requires ValidParam(p)
    ensures var s := Layout(p);
            && WordAt(s, 0) == Load32(ByteOf(p.digestLength), ByteOf(p.keyLength), ByteOf(p.fanout), ByteOf(p.depth))
            && WordAt(s, 1) == WordOf(p.leafLength) && WordAt(s, 2) == WordOf(p.nodeOffset)
            && WordAt(s, 3) == Load32((p.xofLength & 0xff) as bv8, (p.xofLength >> 8) as bv8,
                                      ByteOf(p.nodeDepth), ByteOf(p.innerLength))
            && s[16..24] == p.salt && s[24..] == p.personal
  {
    var first, leaf, offset := [ByteOf(p.digestLength), ByteOf(p.keyLength), ByteOf(p.fanout), ByteOf(p.depth)],
                               Store32(WordOf(p.leafLength)), Store32(WordOf(p.nodeOffset));
    LoadStore(WordOf(p.leafLength));
    LoadStore(WordOf(p.nodeOffset));
    Store16Bytes(p.xofLength);
    hide Load32, Store32, Store16, WordOf, ByteOf;
    Fields(first, leaf, offset, Store16(p.xofLength), [ByteOf(p.nodeDepth), ByteOf(p.innerLength)], p.salt, p.personal);
  }

  lemma Store16Bytes(w: bv16)
    ensures Store16(w) == [(w & 0xff) as bv8, (w >> 8) as bv8]
  {
  }

  lemma Fields<T>(a: seq<T>, b: seq<T>, c: seq<T>, d: seq<T>, e: seq<T>, f: seq<T>, g: seq<T>)
    requires |a| == |b| == |c| == 4 && |d| == |e| == 2 && |f| == |g| == 8
    ensures var s := a + b + c + d + e + f + g;
            && s[0] == a[0] && s[1] == a[1] && s[2] == a[2] && s[3] == a[3]
            && s[4] == b[0] && s[5] == b[1] && s[6] == b[2] && s[7] == b[3]
            && s[8] == c[0] && s[9] == c[1] && s[10] == c[2] && s[11] == c[3]
            && s[12] == d[0] && s[13] == d[1] && s[14] == e[0] && s[15] == e[1] && s[16..24] == f && s[24..] == g
  {
  }

  lemma FirstWord(nn: bv8, kk: bv8)
    ensures Load32(nn, kk, 1, 1) == KeyedWord(nn, kk)
  {
  }

  lemma SequentialLayout(nn: nat, kk: nat)
    requires nn < 256 && kk < 256
    ensures Layout(Sequential(nn, kk)) == [ByteOf(nn), ByteOf(kk), 1, 1] + Zeros(28)
  {
    assert ByteOf(1) == 1 && ByteOf(0) == 0;
    assert Store32(WordOf(0)) == [0, 0, 0, 0] && Store16(0) == [0, 0];
  }

  lemma ZeroWord(x: bv32)
    ensures Xor(x, Load32(0, 0, 0, 0)) == x
  {
    assert Load32(0, 0, 0, 0) == 0;
  }

  /** The parameter block of a sequential hash is the start of section 3.3 of RFC 7693. */
  lemma SequentialStart(nn: nat, kk: nat)
    requires nn < 256 && kk < 256
    ensures ParamStart(Sequential(nn, kk)) == KeyedStart(nn, kk)
  {
    hide Load32, Xor, Layout, ByteOf, WordAt, KeyedWord;
    SequentialLayout(nn, kk);
    FirstWord(ByteOf(nn), ByteOf(kk));
    var layout := Layout(Sequential(nn, kk));
    forall i | 0 <= i < 8 ensures ParamStart(Sequential(nn, kk))[i] == KeyedStart(nn, kk)[i] {
      LayoutWord(layout, ByteOf(nn), ByteOf(kk), i);
      ZeroWord(IV[i]);
    }
  }

  lemma LayoutWord(layout: seq<bv8>, nn: bv8, kk: bv8, i: nat)
    requires layout == [nn, kk, 1, 1] + Zeros(28) && i < 8
    ensures WordAt(layout, i) == if i == 0 then Load32(nn, kk, 1, 1) else Load32(0, 0, 0, 0)
  {
    hide Load32;
  }

  /** The first k bytes of out are those of b, and the rest is as it was. */
  ghost predicate Written(out: seq<bv8>, b: seq<bv8>, was: seq<bv8>, k: nat)
  {
    k <= |b| && k <= |was| && out == b[..k] + was[k..]
  }

  class State {
    const h: array<bv32>
    var t0: nat
    var t1: nat
    var f0: bv32
    var f1: bv32
    var buflen: nat
    var outlen: nat
    const buf: array<bv8>

    /** Storage for a state, holding nothing in particular. */
    constructor ()
      ensures Shape() && fresh(h) && fresh(buf)
    {
      h := new bv32[8];
      buf := new bv8[BLOCKBYTES];
      t0, t1, f0, f1, buflen, outlen := 0, 0, 0, 0, 0, 0;
    }

    ghost predicate Shape()
      reads this
    {
      h.Length == 8 && buf.Length == BLOCKBYTES && buflen <= BLOCKBYTES && t0 < WORD && t1 < WORD
    }

    ghost function Now(): (s: Hash)
      requires Shape()
      reads this, h, buf
      ensures Valid(s)
    {
      Hash(h[..], t0, t1, f0, f1, buf[..buflen], outlen)
    }

    /** blake2s_increment_counter. */
    method IncrementCounter(inc: nat)
      requires Shape() && inc < WORD
      modifies this`t0, this`t1
      ensures Shape() && Now() == Incremented(old(Now()), inc)
    {
      t0 := (t0 + inc) % WORD;
      t1 := (t1 + if t0 < inc then 1 else 0) % WORD;
    }

    method FillVector() returns (v: array<bv32>)
      requires Shape()
      ensures fresh(v) && v.Length == 16 && v[..] == Filled(Now())
    {
      hide Xor, WordOf;
      v := new bv32[16];
      for i := 0 to 8
        invariant v[..i] == h[..i]
      {
        v[i] := h[i];
      }
      PutFour(v, 8, IV[0], IV[1], IV[2], IV[3]);
      PutFour(v, 12, Xor(WordOf(t0), IV[4]), Xor(WordOf(t1), IV[5]), Xor(f0, IV[6]), Xor(f1, IV[7]));
      assert v[..16] == v[..] && h[..8] == h[..];
    }

    method FoldInto(v: array<bv32>)
      requires Shape() && v.Length == 16 && v != h
      modifies h
      ensures h[..] == Fold(old(h[..]), v[..])
    {
      hide Xor;
      ghost var h0: Chain := h[..];
      for i := 0 to 8
        invariant forall k :: 0 <= k < i ==> h[k] == FoldWord(h0, v[..], k)
        invariant forall k :: i <= k < 8 ==> h[k] == h0[k]
      {
        h[i] := Xor(Xor(h[i], v[i]), v[i + 8]);
      }
    }

    /** blake2s_compress. */
    method Compress(block: seq<bv8>)
      requires Shape() && |block| == BLOCKBYTES
      modifies h
      ensures Shape() && Now() == Compressed(old(Now()), block)
    {
      hide Words, Rounds, Fold, Filled;
      var m := LoadWords(block);
      var v := FillVector();
      RoundsInPlace(v, m);
      FoldInto(v);
    }

    method AbsorbBlock(block: seq<bv8>)
      requires Shape() && |block| == BLOCKBYTES
      modifies this`t0, this`t1, h
      ensures Shape() && Now() == Absorbed(old(Now()), block)
    {
      hide Incremented, Compressed;
      IncrementCounter(BLOCKBYTES);
      Compress(block);
    }

    /** The loop of blake2s_update. */
    method AbsorbBlocks(input: seq<bv8>) returns (rest: seq<bv8>)
      requires Shape()
      modifies this`t0, this`t1, h
      ensures Shape() && |rest| <= BLOCKBYTES && Now().(buf := rest) == Drained(old(Now()), input)
    {
      hide Absorbed;
      rest := input;
      while |rest| > BLOCKBYTES
        invariant Shape() && Drained(Now(), rest) == Drained(old(Now()), input)
      {
        AbsorbBlock(rest[..BLOCKBYTES]);
        rest := rest[BLOCKBYTES..];
      }
    }

    /** blake2s_update. */
    method Update(input: seq<bv8>)
      requires Shape()
      modifies this, h, buf
      ensures Shape() && Now() == Updated(old(Now()), input)
    {
      hide Absorbed;
      if input == [] {
        return;
      }
      ghost var s0 := Now();
      var rest := input;
      var left, fill := buflen, BLOCKBYTES - buflen;
      if |rest| > fill {
        buflen := 0;
        Memcpy(buf, left, rest[..fill]);
        assert buf[..] == (s0.buf + input)[..BLOCKBYTES];
        AbsorbBlock(buf[..]);
        rest := rest[fill..];
        assert rest == (s0.buf + input)[BLOCKBYTES..];
        rest := AbsorbBlocks(rest);
        DrainedIgnoresBuffer(s0, s0.buf + input, []);
      }
      Append(rest);
    }

    /** blake2s_init_param. */
    method InitParam(p: Param)
      requires Shape() && ValidParam(p)
      modifies this, h
      ensures Shape() && Now() == Fresh(ParamStart(p), p.digestLength)
    {
      hide ParamStart;
      Init0();
      XorParam(p);
      outlen := p.digestLength;
    }

    /** blake2s_init0. */
    method Init0()
      requires Shape()
      modifies this, h
      ensures Shape() && Now() == Fresh(IV, 0)
    {
      t0, t1, f0, f1, buflen, outlen := 0, 0, 0, 0, 0, 0;
      for i := 0 to 8
        modifies h
        invariant h[..i] == IV[..i]
      {
        h[i] := IV[i];
      }
      assert h[..8] == h[..] && IV[..8] == IV;
    }

    method XorParam(p: Param)
      requires Shape() && ValidParam(p) && h[..] == IV
      modifies h
      ensures h[..] == ParamStart(p)
    {
      hide Layout, WordAt, Xor;
      for i := 0 to 8
        invariant forall k :: 0 <= k < i ==> h[k] == ParamWord(p, k)
        invariant forall k :: i <= k < 8 ==> h[k] == IV[k]
      {
        h[i] := Xor(h[i], WordAt(Layout(p), i));
      }
    }

    /** blake2s_init. */
    method Init(n: nat) returns (ret: int)
      requires Shape()
      modifies this, h
      ensures Shape() && ret == if 1 <= n <= OUTBYTES then 0 else -1
      ensures ret == 0 ==> Now() == Fresh(KeyedStart(n, 0), n)
      ensures ret == -1 ==> Now() == old(Now())
    {
      hide ParamStart, KeyedStart;
      if n == 0 || n > OUTBYTES {
        return -1;
      }
      InitParam(Sequential(n, 0));
      SequentialStart(n, 0);
      return 0;
    }

    /** blake2s_init_key. */
    method InitKey(n: nat, key: array?<bv8>, keylen: nat) returns (ret: int)
      requires Shape() && (key != null ==> keylen <= key.Length && key != buf)
      modifies this, h, buf
      ensures Shape()
      ensures ret == if 1 <= n <= OUTBYTES && key != null && 1 <= keylen <= KEYBYTES then 0 else -1
      ensures ret == 0 ==>
                Now() == Updated(Fresh(KeyedStart(n, keylen), n), KeyBlock(key[..keylen]))
      ensures ret == -1 ==> Now() == old(Now())
    {
      hide ParamStart, KeyedStart, Updated;
      if n == 0 || n > OUTBYTES {
        return -1;
      }
      if key == null || keylen == 0 || keylen > KEYBYTES {
        return -1;
      }
      InitParam(Sequential(n, keylen));
      SequentialStart(n, keylen);
      var block := new bv8[BLOCKBYTES](_ => 0);
      Memcpy(block, 0, key[..keylen]);
      assert block[..] == KeyBlock(key[..keylen]);
      Update(block[..]);
      return 0;
    }

    /** The padding in blake2s_final. */
    method Pad()
      requires Shape()
      modifies buf
      ensures Shape() && Now() == old(Now()) && buf[..] == Now().buf + Zeros(BLOCKBYTES - buflen)
    {
      Memcpy(buf, buflen, Zeros(BLOCKBYTES - buflen));
      assert buf[..BLOCKBYTES] == buf[..];
    }

    /** One word, or the first bytes of one, of the output of blake2s_final. */
    method WriteWord(out: array<bv8>, i: nat, n: nat, ghost o: seq<bv8>)
      requires Shape() && i < 8 && n <= 4 && 4 * i + n <= out.Length == |o|
      requires Written(out[..], Bytes(h[..]), o, 4 * i)
      modifies out
      ensures Written(out[..], Bytes(h[..]), o, 4 * i + n)
    {
      hide Bytes, Store32;
      NextWord(h[..], i, n);
      Splice(Bytes(h[..])[..4 * i], o, 4 * i, Store32(h[i])[..n]);
      Memcpy(out, 4 * i, Store32(h[i])[..n]);
    }

    /** The output loop of blake2s_final. */
    method WriteOut(out: array<bv8>, n: nat)
      requires Shape() && n <= out.Length
      modifies out
      ensures Written(out[..], Bytes(h[..]), old(out[..]), if n < OUTBYTES then n else OUTBYTES)
    {
      hide Bytes;
      var outwords := if n / 4 < 8 then n / 4 else 8;
      ghost var o := out[..];
      for i := 0 to outwords
        invariant Written(out[..], Bytes(h[..]), o, 4 * i)
      {
        WriteWord(out, i, 4, o);
      }
      var left := n - 4 * outwords;
      if outwords < 8 && 0 < left < 4 {
        WriteWord(out, outwords, left, o);
      }
    }

    /** blake2s_final. */
    method Final(out: array?<bv8>, n: nat) returns (ret: int)
      requires Shape() && (out != null ==> n <= out.Length && out != buf)
      modifies this, h, buf, out
      ensures Shape()
      ensures ret == if out == null || n < old(outlen) || old(f0) != 0 then -1 else 0
      ensures ret == -1 ==> Now() == old(Now()) && (out != null ==> out[..] == old(out[..]))
      ensures ret == 0 ==>
                var k := if n < OUTBYTES then n else OUTBYTES;
                && Now() == Finished(old(Now()))
                && Written(out[..], Bytes(Now().h), old(out[..]), k)
    {
      hide Bytes, Finished;
      if out == null || n < outlen {
        return -1;
      }
      if f0 != 0 {
        return -1;
      }
      Finish();
      WriteOut(out, n);
      return 0;
    }

    method Finish()
      requires Shape()
      modifies this, h, buf
      ensures Shape() && Now() == Finished(old(Now()))
    {
      hide Compressed, Incremented;
      IncrementedFrame(Now(), buflen);
      IncrementCounter(buflen);
      f0 := 0xffff_ffff;
      Pad();
      Compress(buf[..]);
    }

    /** The copy at the end of blake2s_update. */
    method Append(input: seq<bv8>)
      requires Shape() && buflen + |input| <= BLOCKBYTES
      modifies this`buflen, buf
      ensures Shape() && Now() == old(Now()).(buf := old(Now()).buf + input)
    {
      Memcpy(buf, buflen, input);
      buflen := buflen + |input|;
    }
  }

  /** blake2s: every way to fail, and otherwise the digest of section 3.3 of RFC 7693. */
  method HashMessage(out: array?<bv8>, outlen: nat, input: array?<bv8>, inlen: nat, key: array?<bv8>, keylen: nat)
    returns (ret: int)
    requires out != null ==> outlen <= out.Length
    requires input != null ==> inlen <= input.Length
    requires key != null ==> keylen <= key.Length
    modifies out
    ensures ret == -1 || ret == 0
    ensures ret == -1 <==>
            || (input == null && inlen > 0) || out == null || (key == null && keylen > 0)
            || outlen == 0 || outlen > OUTBYTES || keylen > KEYBYTES
    ensures ret == -1 && out != null ==> out[..] == old(out[..])
    ensures ret == 0 ==>
              out[..] == Digest(old(Contents(input, inlen)), old(Contents(key, keylen)), outlen) + old(out[outlen..])
  {
    if input == null && inlen > 0 {
      return -1;
    }
    if out == null {
      return -1;
    }
    if key == null && keylen > 0 {
      return -1;
    }
    if outlen == 0 || outlen > OUTBYTES {
      return -1;
    }
    if keylen > KEYBYTES {
      return -1;
    }
    hide Digest;
    ret := Compute(out, outlen, if input == null then [] else input[..inlen], key, keylen);
  }

  method Compute(out: array<bv8>, outlen: nat, message: seq<bv8>, key: array?<bv8>, keylen: nat) returns (ret: int)
    requires 1 <= outlen <= OUTBYTES && keylen <= KEYBYTES && outlen <= out.Length
    requires if key == null then keylen == 0 else keylen <= key.Length
    modifies out
    ensures ret == 0 && out[..] == Digest(message, old(Contents(key, keylen)), outlen) + old(out[outlen..])
  {
    hide Updated, UpdatedBy, Finished, KeyedStart, Bytes, Digest, KeyBlock, Contents;
    ghost var k := Contents(key, keylen);
    var s := new State();
    ret := Begin(s, outlen, key, keylen);
    if ret < 0 {
      return -1;
    }
    ghost var begun := s.Now();
    s.Update(message);
    UpdatedFrame(begun, message);
    OnePiece(begun, message);
    StreamedDigest([message], k, outlen);
    ret := s.Final(out, outlen);
  }

  method Begin(s: State, outlen: nat, key: array?<bv8>, keylen: nat) returns (ret: int)
    requires s.Shape() && 1 <= outlen <= OUTBYTES && keylen <= KEYBYTES
    requires key != null ==> keylen <= key.Length && key != s.buf
    requires key == null ==> keylen == 0
    modifies s, s.h, s.buf
    ensures ret == 0 && s.Shape() && s.outlen == outlen && s.f0 == 0
    ensures s.Now() == Updated(Fresh(KeyedStart(outlen, keylen), outlen), KeyBlock(Contents(key, keylen)))
  {
    hide Updated, KeyedStart;
    UpdatedFrame(Fresh(KeyedStart(outlen, keylen), outlen), KeyBlock(Contents(key, keylen)));
    if keylen > 0 {
      ret := s.InitKey(outlen, key, keylen);
    } else {
      ret := s.Init(outlen);
      UpdatedNothing(s.Now());
    }
  }

  lemma OnePiece(s: Hash, message: seq<bv8>)
    requires Valid(s)
    ensures UpdatedBy(s, [message]) == Updated(s, message) && Joined([message]) == message
  {
    hide Updated;
    assert [message][1..] == [];
    assert message + [] == message;
  }

  ghost function Contents(a: array?<bv8>, n: nat): (s: seq<bv8>)
    requires a != null ==> n <= a.Length
    reads a
    ensures |s| == if a == null then 0 else n
  {
    if a == null then [] else a[..n]
  }

  method PutFour(v: array<bv32>, at: nat, a: bv32, b: bv32, c: bv32, d: bv32)
    requires at + 4 <= v.Length
    modifies v
    ensures v[..at + 4] == old(v[..at]) + [a, b, c, d]
  {
    v[at], v[at + 1], v[at + 2], v[at + 3] := a, b, c, d;
  }

  lemma Splice(x: seq<bv8>, o: seq<bv8>, at: nat, src: seq<bv8>)
    requires |x| == at && at + |src| <= |o|
    ensures (x + o[at..])[..at] + src + (x + o[at..])[at + |src|..] == x + src + o[at + |src|..]
  {
  }

  lemma BytesNext(w: seq<bv32>, i: nat)
    requires i < |w|
    ensures Bytes(w[..i + 1]) == Bytes(w[..i]) + Store32(w[i])
  {
    hide Store32;
    assert w[..i + 1][..i] == w[..i];
  }

  lemma NextWord(w: seq<bv32>, i: nat, n: nat)
    requires i < |w|
    requires n <= 4
    ensures Bytes(w)[..4 * i + n] == Bytes(w)[..4 * i] + Store32(w[i])[..n]
    ensures Store32(w[i])[..4] == Store32(w[i])
  {
    hide Store32, Bytes;
    BytesPrefix(w, i);
    BytesPrefix(w, i + 1);
    BytesNext(w, i);
    var b := Bytes(w);
    assert b[..4 * i + n] == b[..4 * (i + 1)][..4 * i + n];
  }
}
