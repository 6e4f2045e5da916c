/** AES-128 as FIPS 197 states it: sections 5.1 (Cipher), 5.2 (KeyExpansion) and 5.3 (InvCipher). */
module AesSpec {
  import opened AesField

  /** A column of the state, and a four-byte word of the key schedule. */
  datatype Column = Column(r0: bv8, r1: bv8, r2: bv8, r3: bv8)

  datatype State = State(c0: Column, c1: Column, c2: Column, c3: Column)

  type Block = s: seq<bv8> | |s| == 16 witness [0, 0, 0, 0, 0, 0, 0, 0, 0, 0, 0, 0, 0, 0, 0, 0]

  /** The state is filled column by column. */
  function Load(b: Block): State
  {
    State(Column(b[0], b[1], b[2], b[3]), Column(b[4], b[5], b[6], b[7]),
          Column(b[8], b[9], b[10], b[11]), Column(b[12], b[13], b[14], b[15]))
  }

  function SubColumn(c: Column): Column { Column(Sub(c.r0), Sub(c.r1), Sub(c.r2), Sub(c.r3)) }

  function InvSubColumn(c: Column): Column { Column(InvSub(c.r0), InvSub(c.r1), InvSub(c.r2), InvSub(c.r3)) }

  function AddColumn(c: Column, k: Column): Column
  {
    Column(Add(c.r0, k.r0), Add(c.r1, k.r1), Add(c.r2, k.r2), Add(c.r3, k.r3))
  }

  function MixColumn(c: Column): Column
  {
    Column(MixRow(c.r0, c.r1, c.r2, c.r3), MixRow(c.r1, c.r2, c.r3, c.r0),
           MixRow(c.r2, c.r3, c.r0, c.r1), MixRow(c.r3, c.r0, c.r1, c.r2))
  }

  function InvMixColumn(c: Column): Column
  {
    Column(InvMixRow(c.r0, c.r1, c.r2, c.r3), InvMixRow(c.r1, c.r2, c.r3, c.r0),
           InvMixRow(c.r2, c.r3, c.r0, c.r1), InvMixRow(c.r3, c.r0, c.r1, c.r2))
  }

  function SubBytes(s: State): State { State(SubColumn(s.c0), SubColumn(s.c1), SubColumn(s.c2), SubColumn(s.c3)) }

  function InvSubBytes(s: State): State
  {
    State(InvSubColumn(s.c0), InvSubColumn(s.c1), InvSubColumn(s.c2), InvSubColumn(s.c3))
  }

  /** Row r moves left by r columns. */
  function ShiftRows(s: State): State
  {
    State(Column(s.c0.r0, s.c1.r1, s.c2.r2, s.c3.r3), Column(s.c1.r0, s.c2.r1, s.c3.r2, s.c0.r3),
          Column(s.c2.r0, s.c3.r1, s.c0.r2, s.c1.r3), Column(s.c3.r0, s.c0.r1, s.c1.r2, s.c2.r3))
  }

  /** Row r moves right by r columns. */
  function InvShiftRows(s: State): State
  {
    State(Column(s.c0.r0, s.c3.r1, s.c2.r2, s.c1.r3), Column(s.c1.r0, s.c0.r1, s.c3.r2, s.c2.r3),
          Column(s.c2.r0, s.c1.r1, s.c0.r2, s.c3.r3), Column(s.c3.r0, s.c2.r1, s.c1.r2, s.c0.r3))
  }

  function MixColumns(s: State): State { State(MixColumn(s.c0), MixColumn(s.c1), MixColumn(s.c2), MixColumn(s.c3)) }

  function InvMixColumns(s: State): State
  {
    State(InvMixColumn(s.c0), InvMixColumn(s.c1), InvMixColumn(s.c2), InvMixColumn(s.c3))
  }

  function AddRoundKey(s: State, k: State): State
  {
    State(AddColumn(s.c0, k.c0), AddColumn(s.c1, k.c1), AddColumn(s.c2, k.c2), AddColumn(s.c3, k.c3))
  }

  // -------------------------------------------------------------------------
  // Sections 5.1 and 5.3, over any eleven round keys.

  type Schedule = w: seq<State> | |w| == 11 witness seq(11, _ => ZERO)

  const ZERO := State(Column(0, 0, 0, 0), Column(0, 0, 0, 0), Column(0, 0, 0, 0), Column(0, 0, 0, 0))

  /** The state after the initial key addition and r of the nine full rounds. */
  function Rounds(s: State, w: Schedule, r: nat): State
    requires r <= 9
  {
    if r == 0 then AddRoundKey(s, w[0])
    else AddRoundKey(MixColumns(ShiftRows(SubBytes(Rounds(s, w, r - 1)))), w[r])
  }

  function Cipher(s: State, w: Schedule): State { AddRoundKey(ShiftRows(SubBytes(Rounds(s, w, 9))), w[10]) }

  /** The state of the inverse cipher after adding round key r on the way down. */
  function InvRounds(s: State, w: Schedule, r: nat): State
    requires r <= 9
    decreases 9 - r
  {
    var before := if r == 9 then AddRoundKey(s, w[10]) else InvMixColumns(InvRounds(s, w, r + 1));
    AddRoundKey(InvSubBytes(InvShiftRows(before)), w[r])
  }

  function InvCipher(s: State, w: Schedule): State { InvRounds(s, w, 0) }

  // -------------------------------------------------------------------------
  // Section 5.2.

  function RotWord(x: Column): Column { Column(x.r1, x.r2, x.r3, x.r0) }

  /** x^(i-1) in GF(2^8). */
  function Power(i: nat): bv8
    requires 1 <= i
  {
    if i == 1 then 1 else Mul2(Power(i - 1))
  }

  function Rcon(i: nat): Column
    requires 1 <= i
  {
    Column(Power(i), 0, 0, 0)
  }

  /** Word i of the expanded key. */
  function KeyWord(key: State, i: nat): Column
  {
    if i == 0 then key.c0 else if i == 1 then key.c1 else if i == 2 then key.c2 else if i == 3 then key.c3
    else
      var temp := KeyWord(key, i - 1);
      AddColumn(KeyWord(key, i - 4), if i % 4 == 0 then AddColumn(SubColumn(RotWord(temp)), Rcon(i / 4)) else temp)
  }

  function KeyRound(key: State, r: nat): State
  {
    State(KeyWord(key, 4 * r), KeyWord(key, 4 * r + 1), KeyWord(key, 4 * r + 2), KeyWord(key, 4 * r + 3))
  }

  function KeyExpansion(key: State): Schedule { seq(11, r requires 0 <= r < 11 => KeyRound(key, r)) }

  function Encrypt(s: State, key: State): State { Cipher(s, KeyExpansion(key)) }

  function Decrypt(s: State, key: State): State { InvCipher(s, KeyExpansion(key)) }
}

/** The inverse cipher undoes the cipher and the cipher undoes the inverse cipher. */
module AesInverse {
  import opened AesField
  import opened AesSpec

  lemma SubColumnInverse(c: Column)
    ensures InvSubColumn(SubColumn(c)) == c
    ensures SubColumn(InvSubColumn(c)) == c
  {
    hide Sub, InvSub;
    TablesInverse(c.r0); TablesInverse(c.r1); TablesInverse(c.r2); TablesInverse(c.r3);
  }

  lemma SubBytesInverse(s: State)
    ensures InvSubBytes(SubBytes(s)) == s
    ensures SubBytes(InvSubBytes(s)) == s
  {
    hide SubColumn, InvSubColumn;
    SubColumnInverse(s.c0); SubColumnInverse(s.c1); SubColumnInverse(s.c2); SubColumnInverse(s.c3);
  }

  lemma ShiftRowsInverse(s: State)
    ensures InvShiftRows(ShiftRows(s)) == s
    ensures ShiftRows(InvShiftRows(s)) == s
  {
  }

  lemma AddColumnTwice(c: Column, k: Column)
    ensures AddColumn(AddColumn(c, k), k) == c
  {
    hide Add;
    Cancel(c.r0, 0, k.r0); Cancel(c.r1, 0, k.r1); Cancel(c.r2, 0, k.r2); Cancel(c.r3, 0, k.r3);
  }

  lemma AddRoundKeyTwice(s: State, k: State)
    ensures AddRoundKey(AddRoundKey(s, k), k) == s
  {
    hide AddColumn;
    AddColumnTwice(s.c0, k.c0); AddColumnTwice(s.c1, k.c1); AddColumnTwice(s.c2, k.c2); AddColumnTwice(s.c3, k.c3);
  }

  // -------------------------------------------------------------------------
  // MixColumns

  /** The "barreto" step on a column. */
  function BarretoColumn(c: Column): Column
  {
    Column(Barreto(c.r0, c.r2), Barreto(c.r1, c.r3), Barreto(c.r2, c.r0), Barreto(c.r3, c.r1))
  }

  lemma SumRotates(a: bv8, b: bv8, c: bv8, d: bv8)
    ensures Sum(a, b, c, d) == Sum(b, c, d, a)
  {
    hide Add, Sum;
    Interchange(a, b, c, d);
    Interchange(b, c, d, a);
    Cancel(Add(a, c), Add(b, d), a);
    Cancel(c, a, a);
  }

  lemma MixRowTwice(a: bv8, b: bv8, c: bv8, d: bv8)
    ensures MixRow(MixRow(a, b, c, d), MixRow(b, c, d, a), MixRow(c, d, a, b), MixRow(d, a, b, c)) == Barreto(a, c)
  {
    hide MixRow, FastRow, Sum, Add, Mul2;
    var t := Sum(a, b, c, d);
    SumRotates(a, b, c, d); SumRotates(b, c, d, a); SumRotates(c, d, a, b);
    FastRowIsMixRow(a, b, c, d); FastRowIsMixRow(b, c, d, a);
    FastRowIsMixRow(c, d, a, b); FastRowIsMixRow(d, a, b, c);
    MixKeepsSum(a, b, c, d);
    FastRowIsMixRow(FastRow(a, b, t), FastRow(b, c, t), FastRow(c, d, t), FastRow(d, a, t));
    MixTwice(a, b, c, d);
  }

  lemma MixColumnTwice(c: Column)
    ensures MixColumn(MixColumn(c)) == BarretoColumn(c)
  {
    hide MixRow, Barreto;
    MixRowTwice(c.r0, c.r1, c.r2, c.r3); MixRowTwice(c.r1, c.r2, c.r3, c.r0);
    MixRowTwice(c.r2, c.r3, c.r0, c.r1); MixRowTwice(c.r3, c.r0, c.r1, c.r2);
  }

  lemma BarretoColumnTwice(c: Column)
    ensures BarretoColumn(BarretoColumn(c)) == c
  {
    hide Barreto;
    BarretoTwice(c.r0, c.r2); BarretoTwice(c.r1, c.r3); BarretoTwice(c.r2, c.r0); BarretoTwice(c.r3, c.r1);
  }

  /** "invMixColumns = barreto + mixColumns" */
  lemma MixAfterBarreto(c: Column)
    ensures MixColumn(BarretoColumn(c)) == InvMixColumn(c)
  {
    hide MixRow, InvMixRow, Barreto;
    BarretoThenMix(c.r0, c.r1, c.r2, c.r3); BarretoThenMix(c.r1, c.r2, c.r3, c.r0);
    BarretoThenMix(c.r2, c.r3, c.r0, c.r1); BarretoThenMix(c.r3, c.r0, c.r1, c.r2);
  }

  /** The matrix has order four, so its cube, which is barreto followed by
      mixing, inverts it on both sides. */
  lemma MixColumnInverse(c: Column)
    ensures InvMixColumn(MixColumn(c)) == c
    ensures MixColumn(InvMixColumn(c)) == c
  {
    hide MixColumn, InvMixColumn, BarretoColumn;
    MixAfterBarreto(MixColumn(c));
    MixColumnTwice(MixColumn(c));
    MixColumnTwice(c);
    MixColumnTwice(BarretoColumn(c));
    MixAfterBarreto(c);
    BarretoColumnTwice(c);
  }

  lemma MixColumnsInverse(s: State)
    ensures InvMixColumns(MixColumns(s)) == s
    ensures MixColumns(InvMixColumns(s)) == s
  {
    hide MixColumn, InvMixColumn;
    MixColumnInverse(s.c0); MixColumnInverse(s.c1); MixColumnInverse(s.c2); MixColumnInverse(s.c3);
  }

  // -------------------------------------------------------------------------
  // The round trips

  lemma {:induction false} InvRoundsOfCipher(s: State, w: Schedule, r: nat)
    requires r <= 9
    ensures InvRounds(Cipher(s, w), w, r) == AddRoundKey(Rounds(s, w, r), w[r])
    decreases 9 - r
  {
    hide SubBytes, InvSubBytes, ShiftRows, InvShiftRows, MixColumns, InvMixColumns, AddRoundKey;
    var e := Rounds(s, w, r);
    SubBytesInverse(e);
    ShiftRowsInverse(SubBytes(e));
    if r == 9 {
      AddRoundKeyTwice(ShiftRows(SubBytes(e)), w[10]);
    } else {
      InvRoundsOfCipher(s, w, r + 1);
      AddRoundKeyTwice(MixColumns(ShiftRows(SubBytes(e))), w[r + 1]);
      MixColumnsInverse(ShiftRows(SubBytes(e)));
    }
  }

  lemma {:induction false} RoundsOfInvCipher(s: State, w: Schedule, r: nat)
    requires r <= 9
    ensures Rounds(InvCipher(s, w), w, r) == AddRoundKey(InvRounds(s, w, r), w[r])
  {
    hide SubBytes, InvSubBytes, ShiftRows, InvShiftRows, MixColumns, InvMixColumns, AddRoundKey;
    if r > 0 {
      RoundsOfInvCipher(s, w, r - 1);
      var d := InvMixColumns(InvRounds(s, w, r));
      AddRoundKeyTwice(InvSubBytes(InvShiftRows(d)), w[r - 1]);
      SubBytesInverse(InvShiftRows(d));
      ShiftRowsInverse(d);
      MixColumnsInverse(InvRounds(s, w, r));
    }
  }

  /** For every schedule the two ciphers are inverse to each other. */
  lemma CipherInverse(s: State, w: Schedule)
    ensures InvCipher(Cipher(s, w), w) == s
    ensures Cipher(InvCipher(s, w), w) == s
  {
    hide SubBytes, InvSubBytes, ShiftRows, InvShiftRows, MixColumns, InvMixColumns, AddRoundKey;
    InvRoundsOfCipher(s, w, 0);
    AddRoundKeyTwice(s, w[0]);
    RoundsOfInvCipher(s, w, 9);
    var e := AddRoundKey(s, w[10]);
    AddRoundKeyTwice(InvSubBytes(InvShiftRows(e)), w[9]);
    SubBytesInverse(InvShiftRows(e));
    ShiftRowsInverse(e);
    AddRoundKeyTwice(s, w[10]);
  }

  /** For every key, decryption undoes encryption and the other way round. */
  lemma DecryptEncrypt(s: State, key: State)
    ensures Decrypt(Encrypt(s, key), key) == s
    ensures Encrypt(Decrypt(s, key), key) == s
  {
    hide Cipher, InvCipher, KeyExpansion;
    CipherInverse(s, KeyExpansion(key));
  }
}
