/** crypto/aes.c: the fused, in-place rounds on a sixteen-byte array. */
module Aes {
  import opened AesField
  import opened AesSpec
  import opened AesInverse

  type Expanded = w: seq<bv8> | |w| == 176 witness seq(176, _ => 0)

  function RoundKey(w: Expanded, r: nat): State
    requires r <= 10
  {
    Load(w[16 * r..16 * r + 16])
  }

  function RoundKeys(w: Expanded): Schedule { seq(11, r requires 0 <= r < 11 => RoundKey(w, r)) }

  // -------------------------------------------------------------------------
  // "addroundkey, sbox and shiftrows" of aes_encr, row by row.

  /** The state with row r replaced. */
  function SetRow(s: State, r: nat, x0: bv8, x1: bv8, x2: bv8, x3: bv8): State
    requires r < 4
  {
    if r == 0 then State(s.c0.(r0 := x0), s.c1.(r0 := x1), s.c2.(r0 := x2), s.c3.(r0 := x3))
    else if r == 1 then State(s.c0.(r1 := x0), s.c1.(r1 := x1), s.c2.(r1 := x2), s.c3.(r1 := x3))
    else if r == 2 then State(s.c0.(r2 := x0), s.c1.(r2 := x1), s.c2.(r2 := x2), s.c3.(r2 := x3))
    else State(s.c0.(r3 := x0), s.c1.(r3 := x1), s.c2.(r3 := x2), s.c3.(r3 := x3))
  }

  // Row 0 stays in place.
  method Row0(state: array<bv8>, expandedKey: array<bv8>, at: nat)
    requires state.Length == 16 && expandedKey.Length == 176 && state != expandedKey && at <= 160
    modifies state
    ensures Load(state[..]) == SetRow(Load(old(state[..])), 0,
              Sub(Add(old(state[0]), expandedKey[at + 0])), Sub(Add(old(state[4]), expandedKey[at + 4])),
              Sub(Add(old(state[8]), expandedKey[at + 8])), Sub(Add(old(state[12]), expandedKey[at + 12])))
  {
    hide Sub, InvSub, Add;
    state[0] := Sub(Add(state[0], expandedKey[at + 0]));
    state[4] := Sub(Add(state[4], expandedKey[at + 4]));
    state[8] := Sub(Add(state[8], expandedKey[at + 8]));
    state[12] := Sub(Add(state[12], expandedKey[at + 12]));
  }

  // Row 1 moves left by one, through one temporary.
  method Row1(state: array<bv8>, expandedKey: array<bv8>, at: nat)
    requires state.Length == 16 && expandedKey.Length == 176 && state != expandedKey && at <= 160
    modifies state
    ensures Load(state[..]) == SetRow(Load(old(state[..])), 1,
              Sub(Add(old(state[5]), expandedKey[at + 5])), Sub(Add(old(state[9]), expandedKey[at + 9])),
              Sub(Add(old(state[13]), expandedKey[at + 13])), Sub(Add(old(state[1]), expandedKey[at + 1])))
  {
    hide Sub, InvSub, Add;
    var buf1 := Add(state[1], expandedKey[at + 1]);
    state[1] := Sub(Add(state[5], expandedKey[at + 5]));
    state[5] := Sub(Add(state[9], expandedKey[at + 9]));
    state[9] := Sub(Add(state[13], expandedKey[at + 13]));
    state[13] := Sub(buf1);
  }

  // Row 2 moves by two, through two temporaries.
  method Row2(state: array<bv8>, expandedKey: array<bv8>, at: nat)
    requires state.Length == 16 && expandedKey.Length == 176 && state != expandedKey && at <= 160
    modifies state
    ensures Load(state[..]) == SetRow(Load(old(state[..])), 2,
              Sub(Add(old(state[10]), expandedKey[at + 10])), Sub(Add(old(state[14]), expandedKey[at + 14])),
              Sub(Add(old(state[2]), expandedKey[at + 2])), Sub(Add(old(state[6]), expandedKey[at + 6])))
  {
    hide Sub, InvSub, Add;
    var buf1 := Add(state[2], expandedKey[at + 2]);
    var buf2 := Add(state[6], expandedKey[at + 6]);
    state[2] := Sub(Add(state[10], expandedKey[at + 10]));
    state[6] := Sub(Add(state[14], expandedKey[at + 14]));
    state[10] := Sub(buf1);
    state[14] := Sub(buf2);
  }

  // Row 3 moves left by three, written as right by one.
  method Row3(state: array<bv8>, expandedKey: array<bv8>, at: nat)
    requires state.Length == 16 && expandedKey.Length == 176 && state != expandedKey && at <= 160
    modifies state
    ensures Load(state[..]) == SetRow(Load(old(state[..])), 3,
              Sub(Add(old(state[15]), expandedKey[at + 15])), Sub(Add(old(state[3]), expandedKey[at + 3])),
              Sub(Add(old(state[7]), expandedKey[at + 7])), Sub(Add(old(state[11]), expandedKey[at + 11])))
  {
    hide Sub, InvSub, Add;
    var buf1 := Add(state[15], expandedKey[at + 15]);
    state[15] := Sub(Add(state[11], expandedKey[at + 11]));
    state[11] := Sub(Add(state[7], expandedKey[at + 7]));
    state[7] := Sub(Add(state[3], expandedKey[at + 3]));
    state[3] := Sub(buf1);
  }

  method AddSubShift(state: array<bv8>, expandedKey: array<bv8>, round: nat)
    requires state.Length == 16 && expandedKey.Length == 176 && state != expandedKey
    requires round <= 9
    modifies state
    ensures Load(state[..]) == ShiftRows(SubBytes(AddRoundKey(Load(old(state[..])), RoundKey(expandedKey[..], round))))
  {
    hide Sub, Add;
    Row0(state, expandedKey, round * 16);
    Row1(state, expandedKey, round * 16);
    Row2(state, expandedKey, round * 16);
    Row3(state, expandedKey, round * 16);
  }

  // -------------------------------------------------------------------------
  // "mixcolums" and "barreto", in place on the column that starts at byte c.

  function ColumnAt(s: Block, c: nat): Column
    requires c <= 12
  {
    Column(s[c], s[c + 1], s[c + 2], s[c + 3])
  }

  method MixColumnInPlace(state: array<bv8>, c: nat)
    requires state.Length == 16 && c <= 12
    modifies state
    ensures ColumnAt(state[..], c) == MixColumn(ColumnAt(old(state[..]), c))
    ensures forall i | 0 <= i < 16 && !(c <= i < c + 4) :: state[i] == old(state[i])
  {
    hide Add, Mul2, MixRow, Sum;
    ghost var x0, x1, x2, x3 := state[c], state[c + 1], state[c + 2], state[c + 3];
    var buf1 := Sum(state[c], state[c + 1], state[c + 2], state[c + 3]);
    var buf2 := state[c];
    var buf3 := Mul2(Add(state[c], state[c + 1]));
    state[c] := Add(Add(state[c], buf3), buf1);
    buf3 := Mul2(Add(state[c + 1], state[c + 2]));
    state[c + 1] := Add(Add(state[c + 1], buf3), buf1);
    buf3 := Mul2(Add(state[c + 2], state[c + 3]));
    state[c + 2] := Add(Add(state[c + 2], buf3), buf1);
    buf3 := Mul2(Add(state[c + 3], buf2));
    state[c + 3] := Add(Add(state[c + 3], buf3), buf1);
    SumRotates(x0, x1, x2, x3); SumRotates(x1, x2, x3, x0); SumRotates(x2, x3, x0, x1);
    FastRowIsMixRow(x0, x1, x2, x3); FastRowIsMixRow(x1, x2, x3, x0);
    FastRowIsMixRow(x2, x3, x0, x1); FastRowIsMixRow(x3, x0, x1, x2);
  }

  method BarretoInPlace(state: array<bv8>, c: nat)
    requires state.Length == 16 && c <= 12
    modifies state
    ensures ColumnAt(state[..], c) == BarretoColumn(ColumnAt(old(state[..]), c))
    ensures forall i | 0 <= i < 16 && !(c <= i < c + 4) :: state[i] == old(state[i])
  {
    hide Add, Mul2;
    Cancel(state[c], state[c + 2], 0);
    Cancel(state[c + 1], state[c + 3], 0);
    var buf1 := Mul2(Mul2(Add(state[c], state[c + 2])));
    var buf2 := Mul2(Mul2(Add(state[c + 1], state[c + 3])));
    state[c] := Add(state[c], buf1);
    state[c + 1] := Add(state[c + 1], buf2);
    state[c + 2] := Add(state[c + 2], buf1);
    state[c + 3] := Add(state[c + 3], buf2);
  }

  method MixColumnsInPlace(state: array<bv8>)
    requires state.Length == 16
    modifies state
    ensures Load(state[..]) == MixColumns(Load(old(state[..])))
  {
    hide MixColumn;
    MixColumnInPlace(state, 0);
    MixColumnInPlace(state, 4);
    MixColumnInPlace(state, 8);
    MixColumnInPlace(state, 12);
  }

  method InvMixColumnsInPlace(state: array<bv8>)
    requires state.Length == 16
    modifies state
    ensures Load(state[..]) == InvMixColumns(Load(old(state[..])))
  {
    hide MixColumn, InvMixColumn, BarretoColumn;
    ghost var s := Load(state[..]);
    BarretoInPlace(state, 0);
    BarretoInPlace(state, 4);
    BarretoInPlace(state, 8);
    BarretoInPlace(state, 12);
    MixColumnsInPlace(state);
    MixAfterBarreto(s.c0); MixAfterBarreto(s.c1); MixAfterBarreto(s.c2); MixAfterBarreto(s.c3);
  }

  // -------------------------------------------------------------------------
  // "addroundkey, rsbox and shiftrows" of aes_decr, row by row.

  // Row 0 stays in place.
  method InvRow0(state: array<bv8>, expandedKey: array<bv8>, at: nat)
    requires state.Length == 16 && expandedKey.Length == 176 && state != expandedKey && at <= 160
    modifies state
    ensures Load(state[..]) == SetRow(Load(old(state[..])), 0,
              Add(InvSub(old(state[0])), expandedKey[at + 0]), Add(InvSub(old(state[4])), expandedKey[at + 4]),
              Add(InvSub(old(state[8])), expandedKey[at + 8]), Add(InvSub(old(state[12])), expandedKey[at + 12]))
  {
    hide Sub, InvSub, Add;
    state[0] := Add(InvSub(state[0]), expandedKey[at + 0]);
    state[4] := Add(InvSub(state[4]), expandedKey[at + 4]);
    state[8] := Add(InvSub(state[8]), expandedKey[at + 8]);
    state[12] := Add(InvSub(state[12]), expandedKey[at + 12]);
  }

  // Row 1 moves right by one.
  method InvRow1(state: array<bv8>, expandedKey: array<bv8>, at: nat)
    requires state.Length == 16 && expandedKey.Length == 176 && state != expandedKey && at <= 160
    modifies state
    ensures Load(state[..]) == SetRow(Load(old(state[..])), 1,
              Add(InvSub(old(state[13])), expandedKey[at + 1]), Add(InvSub(old(state[1])), expandedKey[at + 5]),
              Add(InvSub(old(state[5])), expandedKey[at + 9]), Add(InvSub(old(state[9])), expandedKey[at + 13]))
  {
    hide Sub, InvSub, Add;
    var buf1 := Add(InvSub(state[13]), expandedKey[at + 1]);
    state[13] := Add(InvSub(state[9]), expandedKey[at + 13]);
    state[9] := Add(InvSub(state[5]), expandedKey[at + 9]);
    state[5] := Add(InvSub(state[1]), expandedKey[at + 5]);
    state[1] := buf1;
  }

  // Row 2 moves by two.
  method InvRow2(state: array<bv8>, expandedKey: array<bv8>, at: nat)
    requires state.Length == 16 && expandedKey.Length == 176 && state != expandedKey && at <= 160
    modifies state
    ensures Load(state[..]) == SetRow(Load(old(state[..])), 2,
              Add(InvSub(old(state[10])), expandedKey[at + 2]), Add(InvSub(old(state[14])), expandedKey[at + 6]),
              Add(InvSub(old(state[2])), expandedKey[at + 10]), Add(InvSub(old(state[6])), expandedKey[at + 14]))
  {
    hide Sub, InvSub, Add;
    var buf1 := Add(InvSub(state[2]), expandedKey[at + 10]);
    var buf2 := Add(InvSub(state[6]), expandedKey[at + 14]);
    state[2] := Add(InvSub(state[10]), expandedKey[at + 2]);
    state[6] := Add(InvSub(state[14]), expandedKey[at + 6]);
    state[10] := buf1;
    state[14] := buf2;
  }

  // Row 3 moves right by three, written as left by one.
  method InvRow3(state: array<bv8>, expandedKey: array<bv8>, at: nat)
    requires state.Length == 16 && expandedKey.Length == 176 && state != expandedKey && at <= 160
    modifies state
    ensures Load(state[..]) == SetRow(Load(old(state[..])), 3,
              Add(InvSub(old(state[7])), expandedKey[at + 3]), Add(InvSub(old(state[11])), expandedKey[at + 7]),
              Add(InvSub(old(state[15])), expandedKey[at + 11]), Add(InvSub(old(state[3])), expandedKey[at + 15]))
  {
    hide Sub, InvSub, Add;
    var buf1 := Add(InvSub(state[3]), expandedKey[at + 15]);
    state[3] := Add(InvSub(state[7]), expandedKey[at + 3]);
    state[7] := Add(InvSub(state[11]), expandedKey[at + 7]);
    state[11] := Add(InvSub(state[15]), expandedKey[at + 11]);
    state[15] := buf1;
  }

  method InvSubShiftAdd(state: array<bv8>, expandedKey: array<bv8>, round: nat)
    requires state.Length == 16 && expandedKey.Length == 176 && state != expandedKey
    requires round <= 9
    modifies state
    ensures Load(state[..]) ==
            AddRoundKey(InvSubBytes(InvShiftRows(Load(old(state[..])))), RoundKey(expandedKey[..], round))
  {
    hide InvSub, Add;
    InvRow0(state, expandedKey, round * 16);
    InvRow1(state, expandedKey, round * 16);
    InvRow2(state, expandedKey, round * 16);
    InvRow3(state, expandedKey, round * 16);
  }

  // -------------------------------------------------------------------------
  // The rounds

  /** Last addroundkey of aes_encr and initial addroundkey of aes_decr. */
  method AddLastKey(state: array<bv8>, expandedKey: array<bv8>)
    requires state.Length == 16 && expandedKey.Length == 176 && state != expandedKey
    modifies state
    ensures Load(state[..]) == AddRoundKey(Load(old(state[..])), RoundKey(expandedKey[..], 10))
  {
    hide Add;
    for i := 0 to 16
      invariant forall j | 0 <= j < i :: state[j] == Add(old(state[j]), expandedKey[160 + j])
      invariant forall j | i <= j < 16 :: state[j] == old(state[j])
    {
      state[i] := Add(state[i], expandedKey[160 + i]);
    }
  }

  /** aes_encr computes the cipher of section 5.1 in place, for every schedule. */
  method EncryptRounds(state: array<bv8>, expandedKey: array<bv8>)
    requires state.Length == 16 && expandedKey.Length == 176 && state != expandedKey
    modifies state
    ensures Load(state[..]) == Cipher(Load(old(state[..])), RoundKeys(expandedKey[..]))
  {
    hide Load, SubBytes, ShiftRows, MixColumns, AddRoundKey, RoundKey;
    ghost var s, w := Load(state[..]), RoundKeys(expandedKey[..]);
    var round := 0;
    while round < 9
      invariant 0 <= round <= 9
      invariant AddRoundKey(Load(state[..]), w[round]) == Rounds(s, w, round)
    {
      AddSubShift(state, expandedKey, round);
      MixColumnsInPlace(state);
      round := round + 1;
    }
    AddSubShift(state, expandedKey, round);
    AddLastKey(state, expandedKey);
  }

  /** aes_decr computes the inverse cipher of section 5.3 in place. */
  method DecryptRounds(state: array<bv8>, expandedKey: array<bv8>)
    requires state.Length == 16 && expandedKey.Length == 176 && state != expandedKey
    modifies state
    ensures Load(state[..]) == InvCipher(Load(old(state[..])), RoundKeys(expandedKey[..]))
  {
    hide Load, InvSubBytes, InvShiftRows, InvMixColumns, AddRoundKey, RoundKey;
    ghost var s, w := Load(state[..]), RoundKeys(expandedKey[..]);
    AddLastKey(state, expandedKey);
    InvSubShiftAdd(state, expandedKey, 9);
    var round := 8;
    while round >= 0
      invariant -1 <= round <= 8
      invariant Load(state[..]) == InvRounds(s, w, round + 1)
    {
      InvMixColumnsInPlace(state);
      InvSubShiftAdd(state, expandedKey, round);
      round := round - 1;
    }
  }

  // -------------------------------------------------------------------------
  // expand_key

  /** g_rcon */
  const RCON: seq<bv8> := [0x8d, 0x01, 0x02, 0x04, 0x08, 0x10, 0x20, 0x40, 0x80, 0x1b, 0x36]

  lemma RconIsPower(i: nat)
    requires 1 <= i <= 10
    ensures RCON[i] == Power(i)
  {
    if i > 1 {
      RconIsPower(i - 1);
    }
  }

  /** The four bytes of the expanded key from byte at on. */
  function WordAt(w: Expanded, at: nat): Column
    requires at <= 172
  {
    Column(w[at], w[at + 1], w[at + 2], w[at + 3])
  }

  lemma FirstByte(x: bv8, y: bv8, r: bv8)
    ensures Add(Add(x, y), r) == Add(y, Add(x, r))
    ensures Add(x, y) == Add(y, Add(x, 0))
  {
    hide Bit;
    assert Add(x, 0) == x;
    Cancel(x, y, 0);
    Interchange(x, y, r, 0);
    Interchange(y, x, r, 0);
    assert Add(r, 0) == r;
    assert Add(Add(y, 0), Add(x, r)) == Add(y, Add(x, r)) by { assert Add(y, 0) == y; }
    Interchange(y, 0, x, r);
  }

  method ExpandFirstWord(expandedKey: array<bv8>, ii: nat)
    requires expandedKey.Length == 176 && 1 <= ii <= 10
    modifies expandedKey
    ensures WordAt(expandedKey[..], 16 * ii) ==
            AddColumn(WordAt(old(expandedKey[..]), 16 * ii - 16),
                      AddColumn(SubColumn(RotWord(WordAt(old(expandedKey[..]), 16 * ii - 4))), Rcon(ii)))
    ensures expandedKey[..16 * ii] == old(expandedKey[..16 * ii])
  {
    hide Sub, Add;
    RconIsPower(ii);
    FirstByte(Sub(expandedKey[ii * 16 - 3]), expandedKey[(ii - 1) * 16 + 0], RCON[ii]);
    FirstByte(Sub(expandedKey[ii * 16 - 2]), expandedKey[(ii - 1) * 16 + 1], 0);
    FirstByte(Sub(expandedKey[ii * 16 - 1]), expandedKey[(ii - 1) * 16 + 2], 0);
    FirstByte(Sub(expandedKey[ii * 16 - 4]), expandedKey[(ii - 1) * 16 + 3], 0);
    var buf1 := expandedKey[ii * 16 - 4];
    expandedKey[ii * 16 + 0] := Add(Add(Sub(expandedKey[ii * 16 - 3]), expandedKey[(ii - 1) * 16 + 0]), RCON[ii]);
    expandedKey[ii * 16 + 1] := Add(Sub(expandedKey[ii * 16 - 2]), expandedKey[(ii - 1) * 16 + 1]);
    expandedKey[ii * 16 + 2] := Add(Sub(expandedKey[ii * 16 - 1]), expandedKey[(ii - 1) * 16 + 2]);
    expandedKey[ii * 16 + 3] := Add(Sub(buf1), expandedKey[(ii - 1) * 16 + 3]);
  }

  method ExpandNextWord(expandedKey: array<bv8>, at: nat)
    requires expandedKey.Length == 176 && 16 <= at <= 172
    modifies expandedKey
    ensures WordAt(expandedKey[..], at) ==
            AddColumn(WordAt(old(expandedKey[..]), at - 16), WordAt(old(expandedKey[..]), at - 4))
    ensures expandedKey[..at] == old(expandedKey[..at])
  {
    hide Add;
    expandedKey[at + 0] := Add(expandedKey[at - 16], expandedKey[at - 4]);
    expandedKey[at + 1] := Add(expandedKey[at - 15], expandedKey[at - 3]);
    expandedKey[at + 2] := Add(expandedKey[at - 14], expandedKey[at - 2]);
    expandedKey[at + 3] := Add(expandedKey[at - 13], expandedKey[at - 1]);
  }

  lemma KeyWordStep(key: State, r: nat)
    requires r >= 1
    ensures KeyWord(key, 4 * r) == AddColumn(KeyWord(key, 4 * r - 4),
              AddColumn(SubColumn(RotWord(KeyWord(key, 4 * r - 1))), Rcon(r)))
    ensures KeyWord(key, 4 * r + 1) == AddColumn(KeyWord(key, 4 * r - 3), KeyWord(key, 4 * r))
    ensures KeyWord(key, 4 * r + 2) == AddColumn(KeyWord(key, 4 * r - 2), KeyWord(key, 4 * r + 1))
    ensures KeyWord(key, 4 * r + 3) == AddColumn(KeyWord(key, 4 * r - 1), KeyWord(key, 4 * r + 2))
  {
    hide AddColumn, SubColumn, RotWord, Rcon;
    assert (4 * r) % 4 == 0 && (4 * r) / 4 == r && (4 * r + 1) % 4 == 1 && (4 * r + 2) % 4 == 2 && (4 * r + 3) % 4 == 3;
  }

  /** The first word of a round, byte by byte: the word before it turns left by one byte, goes through the table, and
      takes x^(r-1) in its first byte only. */
  lemma FirstWordOfRound(key: State, r: nat)
    requires r >= 1
    ensures var w, t, u := KeyWord(key, 4 * r - 4), KeyWord(key, 4 * r - 1), KeyWord(key, 4 * r);
            && u.r0 == Add(Add(w.r0, Sub(t.r1)), Power(r)) && u.r1 == Add(w.r1, Sub(t.r2))
            && u.r2 == Add(w.r2, Sub(t.r3)) && u.r3 == Add(w.r3, Sub(t.r0))
  {
    hide KeyWord, Sub, Power;
    KeyWordStep(key, r);
  }

  /** The first n words are those of the recurrence. */
  ghost predicate Agrees(w: Expanded, key: State, n: nat)
    requires n <= 44
  {
    forall j {:trigger KeyWord(key, j)} | 0 <= j < n :: WordAt(w, 4 * j) == KeyWord(key, j)
  }

  /** One more word, written above the first n. */
  lemma AgreesOneMore(w: Expanded, w': Expanded, key: State, n: nat)
    requires n < 44 && Agrees(w, key, n)
    requires w'[..4 * n] == w[..4 * n]
    requires WordAt(w', 4 * n) == KeyWord(key, n)
    ensures Agrees(w', key, n + 1)
  {
    forall j | 0 <= j < n ensures WordAt(w', 4 * j) == KeyWord(key, j) {
      assert WordAt(w, 4 * j) == KeyWord(key, j);
      assert forall m | 0 <= m < 4 * n :: w'[m] == w'[..4 * n][m] && w[m] == w[..4 * n][m];
    }
  }

  /** One pass of the loop of expand_key. */
  method ExpandRound(expandedKey: array<bv8>, ghost k: State, ii: nat)
    requires expandedKey.Length == 176 && 1 <= ii <= 10
    requires Agrees(expandedKey[..], k, 4 * ii)
    modifies expandedKey
    ensures Agrees(expandedKey[..], k, 4 * ii + 4)
  {
    hide AddColumn, SubColumn, RotWord, Rcon, KeyWord, WordAt;
    KeyWordStep(k, ii);
    ghost var w0 := expandedKey[..];
    ExpandFirstWord(expandedKey, ii);
    ghost var w1 := expandedKey[..];
    AgreesOneMore(w0, w1, k, 4 * ii);
    ExpandNextWord(expandedKey, 16 * ii + 4);
    ghost var w2 := expandedKey[..];
    AgreesOneMore(w1, w2, k, 4 * ii + 1);
    ExpandNextWord(expandedKey, 16 * ii + 8);
    ghost var w3 := expandedKey[..];
    AgreesOneMore(w2, w3, k, 4 * ii + 2);
    ExpandNextWord(expandedKey, 16 * ii + 12);
    AgreesOneMore(w3, expandedKey[..], k, 4 * ii + 3);
  }

  /** expand_key yields the 44-word recurrence of section 5.2, for every key. */
  method ExpandKey(expandedKey: array<bv8>, key: array<bv8>)
    requires expandedKey.Length == 176 && key.Length == 16 && key != expandedKey
    modifies expandedKey
    ensures RoundKeys(expandedKey[..]) == KeyExpansion(Load(key[..]))
  {
    ghost var k := Load(key[..]);
    for ii := 0 to 16
      invariant forall j | 0 <= j < ii :: expandedKey[j] == key[j]
    {
      expandedKey[ii] := key[ii];
    }
    assert Agrees(expandedKey[..], k, 4);
    for ii := 1 to 11
      invariant Agrees(expandedKey[..], k, 4 * ii)
    {
      ExpandRound(expandedKey, k, ii);
    }
    AgreesAll(expandedKey[..], k);
  }

  lemma RoundKeyWords(w: Expanded, r: nat)
    requires r <= 10
    ensures RoundKey(w, r) ==
            State(WordAt(w, 4 * (4 * r)), WordAt(w, 4 * (4 * r + 1)),
                  WordAt(w, 4 * (4 * r + 2)), WordAt(w, 4 * (4 * r + 3)))
  {
  }

  lemma AgreesAll(w: Expanded, key: State)
    requires Agrees(w, key, 44)
    ensures RoundKeys(w) == KeyExpansion(key)
  {
    hide KeyWord, WordAt, RoundKey;
    forall r | 0 <= r < 11 ensures RoundKey(w, r) == KeyRound(key, r) {
      RoundKeyWords(w, r);
    }
  }

  // -------------------------------------------------------------------------
  // The whole schedule is determined by any one round key.

  /** Round key r from round key r - 1, and back. */
  function NextKey(k: State, r: nat): State
    requires 1 <= r
  {
    var w0 := AddColumn(k.c0, AddColumn(SubColumn(RotWord(k.c3)), Rcon(r)));
    var w1 := AddColumn(k.c1, w0);
    var w2 := AddColumn(k.c2, w1);
    State(w0, w1, w2, AddColumn(k.c3, w2))
  }

  function PreviousKey(k: State, r: nat): State
    requires 1 <= r
  {
    var w3 := AddColumn(k.c3, k.c2);
    State(AddColumn(k.c0, AddColumn(SubColumn(RotWord(w3)), Rcon(r))), AddColumn(k.c1, k.c0), AddColumn(k.c2, k.c1), w3)
  }

  lemma PreviousKeyInverse(k: State, r: nat)
    requires 1 <= r
    ensures PreviousKey(NextKey(k, r), r) == k
    ensures NextKey(PreviousKey(k, r), r) == k
  {
    hide AddColumn, SubColumn, RotWord, Rcon;
    var n := NextKey(k, r);
    AddColumnTwice(k.c3, n.c2); AddColumnTwice(k.c2, n.c1); AddColumnTwice(k.c1, n.c0);
    AddColumnTwice(k.c0, AddColumn(SubColumn(RotWord(k.c3)), Rcon(r)));
    var p := PreviousKey(k, r);
    AddColumnTwice(k.c3, k.c2); AddColumnTwice(k.c2, k.c1); AddColumnTwice(k.c1, k.c0);
    AddColumnTwice(k.c0, AddColumn(SubColumn(RotWord(p.c3)), Rcon(r)));
  }

  lemma KeyRoundStep(key: State, r: nat)
    requires 1 <= r
    ensures KeyRound(key, r) == NextKey(KeyRound(key, r - 1), r)
  {
    hide AddColumn, SubColumn, RotWord, Rcon, KeyWord;
    KeyWordStep(key, r);
    assert 4 * (r - 1) == 4 * r - 4;
  }

  /** Two keys that agree on one round key are the same key. */
  lemma {:induction false} RoundKeyDeterminesKey(key: State, key': State, r: nat)
    requires KeyRound(key, r) == KeyRound(key', r)
    ensures key == key'
  {
    hide NextKey, PreviousKey;
    if r > 0 {
      KeyRoundStep(key, r);
      KeyRoundStep(key', r);
      PreviousKeyInverse(KeyRound(key, r - 1), r);
      PreviousKeyInverse(KeyRound(key', r - 1), r);
      RoundKeyDeterminesKey(key, key', r - 1);
    }
  }

  /** And every state is round key r of some key. */
  lemma {:induction false} EveryStateIsARoundKey(k: State, r: nat) returns (key: State)
    ensures KeyRound(key, r) == k
    decreases r
  {
    hide NextKey, PreviousKey;
    if r == 0 {
      key := k;
    } else {
      key := EveryStateIsARoundKey(PreviousKey(k, r), r - 1);
      KeyRoundStep(key, r);
      PreviousKeyInverse(k, r);
    }
  }

  // -------------------------------------------------------------------------
  // The public entry points, over the shared buffer g_expanded_key.

  class Aes128 {
    const expandedKey: array<bv8>

    constructor ()
      ensures expandedKey.Length == 176 && fresh(expandedKey)
    {
      expandedKey := new bv8[176](_ => 0);
    }

    /** aes_encrypt */
    method EncryptBlock(state: array<bv8>, key: array<bv8>)
      requires expandedKey.Length == 176 && state.Length == 16 && key.Length == 16
      requires state != expandedKey && key != expandedKey
      modifies state, expandedKey
      ensures Load(state[..]) == Encrypt(Load(old(state[..])), Load(old(key[..])))
    {
      hide Load, Cipher, RoundKeys;
      ExpandKey(expandedKey, key);
      EncryptRounds(state, expandedKey);
    }

    /** aes_decrypt */
    method DecryptBlock(state: array<bv8>, key: array<bv8>)
      requires expandedKey.Length == 176 && state.Length == 16 && key.Length == 16
      requires state != expandedKey && key != expandedKey
      modifies state, expandedKey
      ensures Load(state[..]) == Decrypt(Load(old(state[..])), Load(old(key[..])))
    {
      hide Load, InvCipher, RoundKeys;
      ExpandKey(expandedKey, key);
      DecryptRounds(state, expandedKey);
    }
  }

  lemma LoadInjective(a: Block, b: Block)
    requires Load(a) == Load(b)
    ensures a == b
  {
    forall i | 0 <= i < 16 ensures a[i] == b[i] {
      assert i == 0 || i == 1 || i == 2 || i == 3 || i == 4 || i == 5 || i == 6 || i == 7
          || i == 8 || i == 9 || i == 10 || i == 11 || i == 12 || i == 13 || i == 14 || i == 15;
    }
  }

  /** Encrypting and then decrypting in place gives back the sixteen bytes. */
  method EncryptThenDecrypt(aes: Aes128, state: array<bv8>, key: array<bv8>)
    requires aes.expandedKey.Length == 176 && state.Length == 16 && key.Length == 16
    requires state != aes.expandedKey && key != aes.expandedKey && state != key
    modifies state, aes.expandedKey
    ensures state[..] == old(state[..])
  {
    hide Load, Encrypt, Decrypt;
    aes.EncryptBlock(state, key);
    aes.DecryptBlock(state, key);
    DecryptEncrypt(Load(old(state[..])), Load(key[..]));
    LoadInjective(state[..], old(state[..]));
  }
}
