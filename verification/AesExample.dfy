/** The worked example of FIPS 197: the key schedule of appendix A.1, word by word, and the cipher of appendix B,
    round by round.  It fixes the direction of every rotation and the place of every byte. */
module AesExample {
  import opened AesField
  import opened AesSpec
  import opened Aes

  /** A word or column as FIPS 197 prints it, first byte leftmost. */
  function Word(x: bv32): Column
  {
    Column((x >> 24) as bv8, ((x >> 16) & 0xff) as bv8, ((x >> 8) & 0xff) as bv8, (x & 0xff) as bv8)
  }

  function Words(a: bv32, b: bv32, c: bv32, d: bv32): State { State(Word(a), Word(b), Word(c), Word(d)) }

  function Key(): State { Words(0x2b7e1516, 0x28aed2a6, 0xabf71588, 0x09cf4f3c) }

  function Input(): State { Words(0x3243f6a8, 0x885a308d, 0x313198a2, 0xe0370734) }

  // -------------------------------------------------------------------------
  // Appendix A.1

  lemma Key0()
    ensures KeyRound(Key(), 0) == Words(0x2b7e1516, 0x28aed2a6, 0xabf71588, 0x09cf4f3c)
  {
    hide Word;
  }

  lemma Key1()
    ensures KeyRound(Key(), 1) == Words(0xa0fafe17, 0x88542cb1, 0x23a33939, 0x2a6c7605)
  {
    assert SubColumn(RotWord(Word(0x09cf4f3c))) == Word(0x8a84eb01);
    assert NextKey(Words(0x2b7e1516, 0x28aed2a6, 0xabf71588, 0x09cf4f3c), 1) ==
           Words(0xa0fafe17, 0x88542cb1, 0x23a33939, 0x2a6c7605) by { hide SubColumn; }
    hide NextKey, KeyRound, Words;
    Key0();
    KeyRoundStep(Key(), 1);
  }

  lemma Key2()
    ensures KeyRound(Key(), 2) == Words(0xf2c295f2, 0x7a96b943, 0x5935807a, 0x7359f67f)
  {
    assert SubColumn(RotWord(Word(0x2a6c7605))) == Word(0x50386be5);
    assert NextKey(Words(0xa0fafe17, 0x88542cb1, 0x23a33939, 0x2a6c7605), 2) ==
           Words(0xf2c295f2, 0x7a96b943, 0x5935807a, 0x7359f67f) by { hide SubColumn; }
    hide NextKey, KeyRound, Words;
    Key1();
    KeyRoundStep(Key(), 2);
  }

  lemma Key3()
    ensures KeyRound(Key(), 3) == Words(0x3d80477d, 0x4716fe3e, 0x1e237e44, 0x6d7a883b)
  {
    assert SubColumn(RotWord(Word(0x7359f67f))) == Word(0xcb42d28f);
    assert NextKey(Words(0xf2c295f2, 0x7a96b943, 0x5935807a, 0x7359f67f), 3) ==
           Words(0x3d80477d, 0x4716fe3e, 0x1e237e44, 0x6d7a883b) by { hide SubColumn; }
    hide NextKey, KeyRound, Words;
    Key2();
    KeyRoundStep(Key(), 3);
  }

  lemma Key4()
    ensures KeyRound(Key(), 4) == Words(0xef44a541, 0xa8525b7f, 0xb671253b, 0xdb0bad00)
  {
    assert SubColumn(RotWord(Word(0x6d7a883b))) == Word(0xdac4e23c);
    assert NextKey(Words(0x3d80477d, 0x4716fe3e, 0x1e237e44, 0x6d7a883b), 4) ==
           Words(0xef44a541, 0xa8525b7f, 0xb671253b, 0xdb0bad00) by { hide SubColumn; }
    hide NextKey, KeyRound, Words;
    Key3();
    KeyRoundStep(Key(), 4);
  }

  lemma Key5()
    ensures KeyRound(Key(), 5) == Words(0xd4d1c6f8, 0x7c839d87, 0xcaf2b8bc, 0x11f915bc)
  {
    assert SubColumn(RotWord(Word(0xdb0bad00))) == Word(0x2b9563b9);
    assert NextKey(Words(0xef44a541, 0xa8525b7f, 0xb671253b, 0xdb0bad00), 5) ==
           Words(0xd4d1c6f8, 0x7c839d87, 0xcaf2b8bc, 0x11f915bc) by { hide SubColumn; }
    hide NextKey, KeyRound, Words;
    Key4();
    KeyRoundStep(Key(), 5);
  }

  lemma Key6()
    ensures KeyRound(Key(), 6) == Words(0x6d88a37a, 0x110b3efd, 0xdbf98641, 0xca0093fd)
  {
    assert SubColumn(RotWord(Word(0x11f915bc))) == Word(0x99596582);
    assert NextKey(Words(0xd4d1c6f8, 0x7c839d87, 0xcaf2b8bc, 0x11f915bc), 6) ==
           Words(0x6d88a37a, 0x110b3efd, 0xdbf98641, 0xca0093fd) by { hide SubColumn; }
    hide NextKey, KeyRound, Words;
    Key5();
    KeyRoundStep(Key(), 6);
  }

  lemma Key7()
    ensures KeyRound(Key(), 7) == Words(0x4e54f70e, 0x5f5fc9f3, 0x84a64fb2, 0x4ea6dc4f)
  {
    assert SubColumn(RotWord(Word(0xca0093fd))) == Word(0x63dc5474);
    assert NextKey(Words(0x6d88a37a, 0x110b3efd, 0xdbf98641, 0xca0093fd), 7) ==
           Words(0x4e54f70e, 0x5f5fc9f3, 0x84a64fb2, 0x4ea6dc4f) by { hide SubColumn; }
    hide NextKey, KeyRound, Words;
    Key6();
    KeyRoundStep(Key(), 7);
  }

  lemma Key8()
    ensures KeyRound(Key(), 8) == Words(0xead27321, 0xb58dbad2, 0x312bf560, 0x7f8d292f)
  {
    assert SubColumn(RotWord(Word(0x4ea6dc4f))) == Word(0x2486842f);
    assert NextKey(Words(0x4e54f70e, 0x5f5fc9f3, 0x84a64fb2, 0x4ea6dc4f), 8) ==
           Words(0xead27321, 0xb58dbad2, 0x312bf560, 0x7f8d292f) by { hide SubColumn; }
    hide NextKey, KeyRound, Words;
    Key7();
    KeyRoundStep(Key(), 8);
  }

  lemma Key9()
    ensures KeyRound(Key(), 9) == Words(0xac7766f3, 0x19fadc21, 0x28d12941, 0x575c006e)
  {
    assert SubColumn(RotWord(Word(0x7f8d292f))) == Word(0x5da515d2);
    assert NextKey(Words(0xead27321, 0xb58dbad2, 0x312bf560, 0x7f8d292f), 9) ==
           Words(0xac7766f3, 0x19fadc21, 0x28d12941, 0x575c006e) by { hide SubColumn; }
    hide NextKey, KeyRound, Words;
    Key8();
    KeyRoundStep(Key(), 9);
  }

  lemma Key10()
    ensures KeyRound(Key(), 10) == Words(0xd014f9a8, 0xc9ee2589, 0xe13f0cc8, 0xb6630ca6)
  {
    assert SubColumn(RotWord(Word(0x575c006e))) == Word(0x4a639f5b);
    assert NextKey(Words(0xac7766f3, 0x19fadc21, 0x28d12941, 0x575c006e), 10) ==
           Words(0xd014f9a8, 0xc9ee2589, 0xe13f0cc8, 0xb6630ca6) by { hide SubColumn; }
    hide NextKey, KeyRound, Words;
    Key9();
    KeyRoundStep(Key(), 10);
  }

  // -------------------------------------------------------------------------
  // Appendix B

  /** The state at the start of round r + 1. */
  function After(r: nat): State
    requires r <= 9
  {
    Rounds(Input(), KeyExpansion(Key()), r)
  }

  /** A column after SubBytes and ShiftRows, from four columns. */
  function Shifted(a: bv32, b: bv32, c: bv32, d: bv32): Column
  {
    SubColumn(Column(Word(a).r0, Word(b).r1, Word(c).r2, Word(d).r3))
  }

  /** The same column after MixColumns and AddRoundKey. */
  function Mixed(x: Column, k: bv32): Column { AddColumn(MixColumn(x), Word(k)) }

  lemma NextState(r: nat, a: bv32, b: bv32, c: bv32, d: bv32, k0: bv32, k1: bv32, k2: bv32, k3: bv32)
    requires 1 <= r <= 9 && After(r - 1) == Words(a, b, c, d) && KeyRound(Key(), r) == Words(k0, k1, k2, k3)
    ensures After(r) == State(Mixed(Shifted(a, b, c, d), k0), Mixed(Shifted(b, c, d, a), k1),
                              Mixed(Shifted(c, d, a, b), k2), Mixed(Shifted(d, a, b, c), k3))
  {
    hide KeyRound, Word, AddColumn, MixColumn, Sub;
  }

  lemma Round0()
    ensures After(0) == Words(0x193de3be, 0xa0f4e22b, 0x9ac68d2a, 0xe9f84808)
  {
    hide KeyRound;
    Key0();
  }

  lemma Shifted10() ensures Shifted(0x193de3be, 0xa0f4e22b, 0x9ac68d2a, 0xe9f84808) == Word(0xd4bf5d30) {}
  lemma Shifted11() ensures Shifted(0xa0f4e22b, 0x9ac68d2a, 0xe9f84808, 0x193de3be) == Word(0xe0b452ae) {}
  lemma Shifted12() ensures Shifted(0x9ac68d2a, 0xe9f84808, 0x193de3be, 0xa0f4e22b) == Word(0xb84111f1) {}
  lemma Shifted13() ensures Shifted(0xe9f84808, 0x193de3be, 0xa0f4e22b, 0x9ac68d2a) == Word(0x1e2798e5) {}

  lemma Mixed10() ensures Mixed(Word(0xd4bf5d30), 0xa0fafe17) == Word(0xa49c7ff2) {}
  lemma Mixed11() ensures Mixed(Word(0xe0b452ae), 0x88542cb1) == Word(0x689f352b) {}
  lemma Mixed12() ensures Mixed(Word(0xb84111f1), 0x23a33939) == Word(0x6b5bea43) {}
  lemma Mixed13() ensures Mixed(Word(0x1e2798e5), 0x2a6c7605) == Word(0x026a5049) {}

  lemma Round1()
    ensures After(1) == Words(0xa49c7ff2, 0x689f352b, 0x6b5bea43, 0x026a5049)
  {
    hide After, KeyRound, Word, Shifted, Mixed;
    Round0(); Key1();
    NextState(1, 0x193de3be, 0xa0f4e22b, 0x9ac68d2a, 0xe9f84808,
              0xa0fafe17, 0x88542cb1, 0x23a33939, 0x2a6c7605);
    Shifted10(); Shifted11(); Shifted12(); Shifted13();
    Mixed10(); Mixed11(); Mixed12(); Mixed13();
  }

  lemma Shifted20() ensures Shifted(0xa49c7ff2, 0x689f352b, 0x6b5bea43, 0x026a5049) == Word(0x49db873b) {}
  lemma Shifted21() ensures Shifted(0x689f352b, 0x6b5bea43, 0x026a5049, 0xa49c7ff2) == Word(0x45395389) {}
  lemma Shifted22() ensures Shifted(0x6b5bea43, 0x026a5049, 0xa49c7ff2, 0x689f352b) == Word(0x7f02d2f1) {}
  lemma Shifted23() ensures Shifted(0x026a5049, 0xa49c7ff2, 0x689f352b, 0x6b5bea43) == Word(0x77de961a) {}

  lemma Mixed20() ensures Mixed(Word(0x49db873b), 0xf2c295f2) == Word(0xaa8f5f03) {}
  lemma Mixed21() ensures Mixed(Word(0x45395389), 0x7a96b943) == Word(0x61dde3ef) {}
  lemma Mixed22() ensures Mixed(Word(0x7f02d2f1), 0x5935807a) == Word(0x82d24ad2) {}
  lemma Mixed23() ensures Mixed(Word(0x77de961a), 0x7359f67f) == Word(0x6832469a) {}

  lemma Round2()
    ensures After(2) == Words(0xaa8f5f03, 0x61dde3ef, 0x82d24ad2, 0x6832469a)
  {
    hide After, KeyRound, Word, Shifted, Mixed;
    Round1(); Key2();
    NextState(2, 0xa49c7ff2, 0x689f352b, 0x6b5bea43, 0x026a5049,
              0xf2c295f2, 0x7a96b943, 0x5935807a, 0x7359f67f);
    Shifted20(); Shifted21(); Shifted22(); Shifted23();
    Mixed20(); Mixed21(); Mixed22(); Mixed23();
  }

  lemma Shifted30() ensures Shifted(0xaa8f5f03, 0x61dde3ef, 0x82d24ad2, 0x6832469a) == Word(0xacc1d6b8) {}
  lemma Shifted31() ensures Shifted(0x61dde3ef, 0x82d24ad2, 0x6832469a, 0xaa8f5f03) == Word(0xefb55a7b) {}
  lemma Shifted32() ensures Shifted(0x82d24ad2, 0x6832469a, 0xaa8f5f03, 0x61dde3ef) == Word(0x1323cfdf) {}
  lemma Shifted33() ensures Shifted(0x6832469a, 0xaa8f5f03, 0x61dde3ef, 0x82d24ad2) == Word(0x457311b5) {}

  lemma Mixed30() ensures Mixed(Word(0xacc1d6b8), 0x3d80477d) == Word(0x486c4eee) {}
  lemma Mixed31() ensures Mixed(Word(0xefb55a7b), 0x4716fe3e) == Word(0x671d9d0d) {}
  lemma Mixed32() ensures Mixed(Word(0x1323cfdf), 0x1e237e44) == Word(0x4de3b138) {}
  lemma Mixed33() ensures Mixed(Word(0x457311b5), 0x6d7a883b) == Word(0xd65f58e7) {}

  lemma Round3()
    ensures After(3) == Words(0x486c4eee, 0x671d9d0d, 0x4de3b138, 0xd65f58e7)
  {
    hide After, KeyRound, Word, Shifted, Mixed;
    Round2(); Key3();
    NextState(3, 0xaa8f5f03, 0x61dde3ef, 0x82d24ad2, 0x6832469a,
              0x3d80477d, 0x4716fe3e, 0x1e237e44, 0x6d7a883b);
    Shifted30(); Shifted31(); Shifted32(); Shifted33();
    Mixed30(); Mixed31(); Mixed32(); Mixed33();
  }

  lemma Shifted40() ensures Shifted(0x486c4eee, 0x671d9d0d, 0x4de3b138, 0xd65f58e7) == Word(0x52a4c894) {}
  lemma Shifted41() ensures Shifted(0x671d9d0d, 0x4de3b138, 0xd65f58e7, 0x486c4eee) == Word(0x85116a28) {}
  lemma Shifted42() ensures Shifted(0x4de3b138, 0xd65f58e7, 0x486c4eee, 0x671d9d0d) == Word(0xe3cf2fd7) {}
  lemma Shifted43() ensures Shifted(0xd65f58e7, 0x486c4eee, 0x671d9d0d, 0x4de3b138) == Word(0xf6505e07) {}

  lemma Mixed40() ensures Mixed(Word(0x52a4c894), 0xef44a541) == Word(0xe0927fe8) {}
  lemma Mixed41() ensures Mixed(Word(0x85116a28), 0xa8525b7f) == Word(0xc86363c0) {}
  lemma Mixed42() ensures Mixed(Word(0xe3cf2fd7), 0xb671253b) == Word(0xd9b13550) {}
  lemma Mixed43() ensures Mixed(Word(0xf6505e07), 0xdb0bad00) == Word(0x85b8be01) {}

  lemma Round4()
    ensures After(4) == Words(0xe0927fe8, 0xc86363c0, 0xd9b13550, 0x85b8be01)
  {
    hide After, KeyRound, Word, Shifted, Mixed;
    Round3(); Key4();
    NextState(4, 0x486c4eee, 0x671d9d0d, 0x4de3b138, 0xd65f58e7,
              0xef44a541, 0xa8525b7f, 0xb671253b, 0xdb0bad00);
    Shifted40(); Shifted41(); Shifted42(); Shifted43();
    Mixed40(); Mixed41(); Mixed42(); Mixed43();
  }

  lemma Shifted50() ensures Shifted(0xe0927fe8, 0xc86363c0, 0xd9b13550, 0x85b8be01) == Word(0xe1fb967c) {}
  lemma Shifted51() ensures Shifted(0xc86363c0, 0xd9b13550, 0x85b8be01, 0xe0927fe8) == Word(0xe8c8ae9b) {}
  lemma Shifted52() ensures Shifted(0xd9b13550, 0x85b8be01, 0xe0927fe8, 0xc86363c0) == Word(0x356cd2ba) {}
  lemma Shifted53() ensures Shifted(0x85b8be01, 0xe0927fe8, 0xc86363c0, 0xd9b13550) == Word(0x974ffb53) {}

  lemma Mixed50() ensures Mixed(Word(0xe1fb967c), 0xd4d1c6f8) == Word(0xf1006f55) {}
  lemma Mixed51() ensures Mixed(Word(0xe8c8ae9b), 0x7c839d87) == Word(0xc1924cef) {}
  lemma Mixed52() ensures Mixed(Word(0x356cd2ba), 0xcaf2b8bc) == Word(0x7cc88b32) {}
  lemma Mixed53() ensures Mixed(Word(0x974ffb53), 0x11f915bc) == Word(0x5db5d50c) {}

  lemma Round5()
    ensures After(5) == Words(0xf1006f55, 0xc1924cef, 0x7cc88b32, 0x5db5d50c)
  {
    hide After, KeyRound, Word, Shifted, Mixed;
    Round4(); Key5();
    NextState(5, 0xe0927fe8, 0xc86363c0, 0xd9b13550, 0x85b8be01,
              0xd4d1c6f8, 0x7c839d87, 0xcaf2b8bc, 0x11f915bc);
    Shifted50(); Shifted51(); Shifted52(); Shifted53();
    Mixed50(); Mixed51(); Mixed52(); Mixed53();
  }

  lemma Shifted60() ensures Shifted(0xf1006f55, 0xc1924cef, 0x7cc88b32, 0x5db5d50c) == Word(0xa14f3dfe) {}
  lemma Shifted61() ensures Shifted(0xc1924cef, 0x7cc88b32, 0x5db5d50c, 0xf1006f55) == Word(0x78e803fc) {}
  lemma Shifted62() ensures Shifted(0x7cc88b32, 0x5db5d50c, 0xf1006f55, 0xc1924cef) == Word(0x10d5a8df) {}
  lemma Shifted63() ensures Shifted(0x5db5d50c, 0xf1006f55, 0xc1924cef, 0x7cc88b32) == Word(0x4c632923) {}

  lemma Mixed60() ensures Mixed(Word(0xa14f3dfe), 0x6d88a37a) == Word(0x260e2e17) {}
  lemma Mixed61() ensures Mixed(Word(0x78e803fc), 0x110b3efd) == Word(0x3d41b77d) {}
  lemma Mixed62() ensures Mixed(Word(0x10d5a8df), 0xdbf98641) == Word(0xe86472a9) {}
  lemma Mixed63() ensures Mixed(Word(0x4c632923), 0xca0093fd) == Word(0xfdd28b25) {}

  lemma Round6()
    ensures After(6) == Words(0x260e2e17, 0x3d41b77d, 0xe86472a9, 0xfdd28b25)
  {
    hide After, KeyRound, Word, Shifted, Mixed;
    Round5(); Key6();
    NextState(6, 0xf1006f55, 0xc1924cef, 0x7cc88b32, 0x5db5d50c,
              0x6d88a37a, 0x110b3efd, 0xdbf98641, 0xca0093fd);
    Shifted60(); Shifted61(); Shifted62(); Shifted63();
    Mixed60(); Mixed61(); Mixed62(); Mixed63();
  }

  lemma Shifted70() ensures Shifted(0x260e2e17, 0x3d41b77d, 0xe86472a9, 0xfdd28b25) == Word(0xf783403f) {}
  lemma Shifted71() ensures Shifted(0x3d41b77d, 0xe86472a9, 0xfdd28b25, 0x260e2e17) == Word(0x27433df0) {}
  lemma Shifted72() ensures Shifted(0xe86472a9, 0xfdd28b25, 0x260e2e17, 0x3d41b77d) == Word(0x9bb531ff) {}
  lemma Shifted73() ensures Shifted(0xfdd28b25, 0x260e2e17, 0x3d41b77d, 0xe86472a9) == Word(0x54aba9d3) {}

  lemma Mixed70() ensures Mixed(Word(0xf783403f), 0x4e54f70e) == Word(0x5a4142b1) {}
  lemma Mixed71() ensures Mixed(Word(0x27433df0), 0x5f5fc9f3) == Word(0x1949dc1f) {}
  lemma Mixed72() ensures Mixed(Word(0x9bb531ff), 0x84a64fb2) == Word(0xa3e01965) {}
  lemma Mixed73() ensures Mixed(Word(0x54aba9d3), 0x4ea6dc4f) == Word(0x7a8c040c) {}

  lemma Round7()
    ensures After(7) == Words(0x5a4142b1, 0x1949dc1f, 0xa3e01965, 0x7a8c040c)
  {
    hide After, KeyRound, Word, Shifted, Mixed;
    Round6(); Key7();
    NextState(7, 0x260e2e17, 0x3d41b77d, 0xe86472a9, 0xfdd28b25,
              0x4e54f70e, 0x5f5fc9f3, 0x84a64fb2, 0x4ea6dc4f);
    Shifted70(); Shifted71(); Shifted72(); Shifted73();
    Mixed70(); Mixed71(); Mixed72(); Mixed73();
  }

  lemma Shifted80() ensures Shifted(0x5a4142b1, 0x1949dc1f, 0xa3e01965, 0x7a8c040c) == Word(0xbe3bd4fe) {}
  lemma Shifted81() ensures Shifted(0x1949dc1f, 0xa3e01965, 0x7a8c040c, 0x5a4142b1) == Word(0xd4e1f2c8) {}
  lemma Shifted82() ensures Shifted(0xa3e01965, 0x7a8c040c, 0x5a4142b1, 0x1949dc1f) == Word(0x0a642cc0) {}
  lemma Shifted83() ensures Shifted(0x7a8c040c, 0x5a4142b1, 0x1949dc1f, 0xa3e01965) == Word(0xda83864d) {}

  lemma Mixed80() ensures Mixed(Word(0xbe3bd4fe), 0xead27321) == Word(0xea835cf0) {}
  lemma Mixed81() ensures Mixed(Word(0xd4e1f2c8), 0xb58dbad2) == Word(0x0445332d) {}
  lemma Mixed82() ensures Mixed(Word(0x0a642cc0), 0x312bf560) == Word(0x655d98ad) {}
  lemma Mixed83() ensures Mixed(Word(0xda83864d), 0x7f8d292f) == Word(0x8596b0c5) {}

  lemma Round8()
    ensures After(8) == Words(0xea835cf0, 0x0445332d, 0x655d98ad, 0x8596b0c5)
  {
    hide After, KeyRound, Word, Shifted, Mixed;
    Round7(); Key8();
    NextState(8, 0x5a4142b1, 0x1949dc1f, 0xa3e01965, 0x7a8c040c,
              0xead27321, 0xb58dbad2, 0x312bf560, 0x7f8d292f);
    Shifted80(); Shifted81(); Shifted82(); Shifted83();
    Mixed80(); Mixed81(); Mixed82(); Mixed83();
  }

  lemma Shifted90() ensures Shifted(0xea835cf0, 0x0445332d, 0x655d98ad, 0x8596b0c5) == Word(0x876e46a6) {}
  lemma Shifted91() ensures Shifted(0x0445332d, 0x655d98ad, 0x8596b0c5, 0xea835cf0) == Word(0xf24ce78c) {}
  lemma Shifted92() ensures Shifted(0x655d98ad, 0x8596b0c5, 0xea835cf0, 0x0445332d) == Word(0x4d904ad8) {}
  lemma Shifted93() ensures Shifted(0x8596b0c5, 0xea835cf0, 0x0445332d, 0x655d98ad) == Word(0x97ecc395) {}

  lemma Mixed90() ensures Mixed(Word(0x876e46a6), 0xac7766f3) == Word(0xeb40f21e) {}
  lemma Mixed91() ensures Mixed(Word(0xf24ce78c), 0x19fadc21) == Word(0x592e3884) {}
  lemma Mixed92() ensures Mixed(Word(0x4d904ad8), 0x28d12941) == Word(0x8ba113e7) {}
  lemma Mixed93() ensures Mixed(Word(0x97ecc395), 0x575c006e) == Word(0x1bc342d2) {}

  lemma Round9()
    ensures After(9) == Words(0xeb40f21e, 0x592e3884, 0x8ba113e7, 0x1bc342d2)
  {
    hide After, KeyRound, Word, Shifted, Mixed;
    Round8(); Key9();
    NextState(9, 0xea835cf0, 0x0445332d, 0x655d98ad, 0x8596b0c5,
              0xac7766f3, 0x19fadc21, 0x28d12941, 0x575c006e);
    Shifted90(); Shifted91(); Shifted92(); Shifted93();
    Mixed90(); Mixed91(); Mixed92(); Mixed93();
  }

  lemma Shifted100() ensures Shifted(0xeb40f21e, 0x592e3884, 0x8ba113e7, 0x1bc342d2) == Word(0xe9317db5) {}
  lemma Shifted101() ensures Shifted(0x592e3884, 0x8ba113e7, 0x1bc342d2, 0xeb40f21e) == Word(0xcb322c72) {}
  lemma Shifted102() ensures Shifted(0x8ba113e7, 0x1bc342d2, 0xeb40f21e, 0x592e3884) == Word(0x3d2e895f) {}
  lemma Shifted103() ensures Shifted(0x1bc342d2, 0xeb40f21e, 0x592e3884, 0x8ba113e7) == Word(0xaf090794) {}

  /** The cipher text of appendix B. */
  lemma CipherExample()
    ensures Encrypt(Input(), Key()) == Words(0x3925841d, 0x02dc09fb, 0xdc118597, 0x196a0b32)
  {
    hide KeyRound, Rounds, Sub;
    Round9(); Key10();
    Shifted100(); Shifted101(); Shifted102(); Shifted103();
  }
}
