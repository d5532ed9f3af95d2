/** Known answers, from the definitions: the check value of CRC-32 and the digest of "abc". */
module KnownAnswers {
  import opened Basics
  import opened Bytes
  import C = Crc32
  import opened Sha256

  // ---- CRC-32 of "123456789" ----

  /** One byte into the register. */
  lemma ByteShifts(c: bv32, b: Byte)
    ensures C.Serial(c, C.BitsOfByte(b)) == C.Shifts(C.Xor(c, C.ByteWord(b)), 8)
  {
    hide C.Serial, C.Shifts, C.Pack, C.ByteWord, C.BitsOfByte, C.Xor;
    C.SerialWord(c, C.BitsOfByte(b));
    C.PackOfByte(b);
  }

  lemma EightShifts(c: bv32)
    ensures C.Shifts(c, 8) == C.Shift(C.Shift(C.Shift(C.Shift(C.Shift(C.Shift(C.Shift(C.Shift(c))))))))
  {
    hide C.Shift;
    var c4 := C.Shift(C.Shift(C.Shift(C.Shift(c))));
    assert C.Shifts(c, 8) == C.Shifts(C.Shift(C.Shift(c)), 6);
    assert C.Shifts(C.Shift(C.Shift(c)), 6) == C.Shifts(c4, 4);
    assert C.Shifts(c4, 4) == C.Shifts(C.Shift(C.Shift(c4)), 2);
  }

  const DIGITS: seq<Byte> := [49, 50, 51, 52, 53, 54, 55, 56, 57]

  /** The register after so many digits. */
  const REGISTERS: seq<bv32> :=
    [0xffff_ffff, 0x7c23_1048, 0xb0ac_bb32, 0x77b7_9c2d, 0x641c_1f5c,
     0x340a_c5e3, 0xf68d_2c9e, 0xaffc_9660, 0x651f_2550, 0x340b_c6d9]

  lemma DigitWord(i: nat)
    requires i < 9
    ensures C.ByteWord(49 + i) == [0x31, 0x32, 0x33, 0x34, 0x35, 0x36, 0x37, 0x38, 0x39][i]
  {
  }

  lemma Digit1()
    ensures C.Serial(0xffff_ffff, C.BitsOfByte(49)) == 0x7c23_1048
  {
    hide C.Serial, C.BitsOfByte;
    ByteShifts(0xffff_ffff, 49);
    DigitWord(0);
    EightShifts(0xffff_ffce);
  }

  lemma Digit2()
    ensures C.Serial(0x7c23_1048, C.BitsOfByte(50)) == 0xb0ac_bb32
  {
    hide C.Serial, C.BitsOfByte;
    ByteShifts(0x7c23_1048, 50);
    DigitWord(1);
    EightShifts(0x7c23_107a);
  }

  lemma Digit3()
    ensures C.Serial(0xb0ac_bb32, C.BitsOfByte(51)) == 0x77b7_9c2d
  {
    hide C.Serial, C.BitsOfByte;
    ByteShifts(0xb0ac_bb32, 51);
    DigitWord(2);
    EightShifts(0xb0ac_bb01);
  }

  lemma Digit4()
    ensures C.Serial(0x77b7_9c2d, C.BitsOfByte(52)) == 0x641c_1f5c
  {
    hide C.Serial, C.BitsOfByte;
    ByteShifts(0x77b7_9c2d, 52);
    DigitWord(3);
    EightShifts(0x77b7_9c19);
  }

  lemma Digit5()
    ensures C.Serial(0x641c_1f5c, C.BitsOfByte(53)) == 0x340a_c5e3
  {
    hide C.Serial, C.BitsOfByte;
    ByteShifts(0x641c_1f5c, 53);
    DigitWord(4);
    EightShifts(0x641c_1f69);
  }

  lemma Digit6()
    ensures C.Serial(0x340a_c5e3, C.BitsOfByte(54)) == 0xf68d_2c9e
  {
    hide C.Serial, C.BitsOfByte;
    ByteShifts(0x340a_c5e3, 54);
    DigitWord(5);
    EightShifts(0x340a_c5d5);
  }

  lemma Digit7()
    ensures C.Serial(0xf68d_2c9e, C.BitsOfByte(55)) == 0xaffc_9660
  {
    hide C.Serial, C.BitsOfByte;
    ByteShifts(0xf68d_2c9e, 55);
    DigitWord(6);
    EightShifts(0xf68d_2ca9);
  }

  lemma Digit8()
    ensures C.Serial(0xaffc_9660, C.BitsOfByte(56)) == 0x651f_2550
  {
    hide C.Serial, C.BitsOfByte;
    ByteShifts(0xaffc_9660, 56);
    DigitWord(7);
    EightShifts(0xaffc_9658);
  }

  lemma Digit9()
    ensures C.Serial(0x651f_2550, C.BitsOfByte(57)) == 0x340b_c6d9
  {
    hide C.Serial, C.BitsOfByte;
    ByteShifts(0x651f_2550, 57);
    DigitWord(8);
    EightShifts(0x651f_2569);
  }

  lemma DigitStep(i: nat)
    requires i < 9
    ensures C.Serial(REGISTERS[i], C.BitsOfByte(DIGITS[i])) == REGISTERS[i + 1]
  {
    hide C.Serial, C.BitsOfByte;
    Digit1();
    Digit2();
    Digit3();
    Digit4();
    Digit5();
    Digit6();
    Digit7();
    Digit8();
    Digit9();
  }

  lemma {:induction false} Digits(i: nat)
    requires i <= 9
    ensures C.Serial(C.SEED, C.BitsOf(DIGITS[..i])) == REGISTERS[i]
    decreases i
  {
    hide C.Serial, C.BitsOf, C.BitsOfByte;
    if i == 0 {
      C.SerialOfNothing(C.SEED);
    } else {
      Digits(i - 1);
      DigitStep(i - 1);
      C.SerialByte(DIGITS[..i - 1], DIGITS[i - 1]);
      assert DIGITS[..i - 1] + [DIGITS[i - 1]] == DIGITS[..i];
    }
  }

  /** The check value of CRC-32. */
  lemma CheckValue()
    ensures C.Checksum(DIGITS) == 0xCBF4_3926
  {
    hide C.Serial, C.BitsOf;
    Digits(9);
    assert DIGITS[..9] == DIGITS;
    CheckWord();
  }

  lemma CheckWord()
    ensures C.Xor(REGISTERS[9], 0xFFFF_FFFF) == 0xcbf4_3926
  {
  }

  // ---- the digest of "abc" ----

  // the table of constants, row by row

  lemma RowOfK0()
    ensures K[0] == 0x428a2f98 && K[1] == 0x71374491 && K[2] == 0xb5c0fbcf && K[3] == 0xe9b5dba5
    ensures K[4] == 0x3956c25b && K[5] == 0x59f111f1 && K[6] == 0x923f82a4 && K[7] == 0xab1c5ed5
  {
  }

  lemma RowOfK8()
    ensures K[8] == 0xd807aa98 && K[9] == 0x12835b01 && K[10] == 0x243185be && K[11] == 0x550c7dc3
    ensures K[12] == 0x72be5d74 && K[13] == 0x80deb1fe && K[14] == 0x9bdc06a7 && K[15] == 0xc19bf174
  {
  }

  lemma RowOfK16()
    ensures K[16] == 0xe49b69c1 && K[17] == 0xefbe4786 && K[18] == 0x0fc19dc6 && K[19] == 0x240ca1cc
    ensures K[20] == 0x2de92c6f && K[21] == 0x4a7484aa && K[22] == 0x5cb0a9dc && K[23] == 0x76f988da
  {
  }

  lemma RowOfK24()
    ensures K[24] == 0x983e5152 && K[25] == 0xa831c66d && K[26] == 0xb00327c8 && K[27] == 0xbf597fc7
    ensures K[28] == 0xc6e00bf3 && K[29] == 0xd5a79147 && K[30] == 0x06ca6351 && K[31] == 0x14292967
  {
  }

  lemma RowOfK32()
    ensures K[32] == 0x27b70a85 && K[33] == 0x2e1b2138 && K[34] == 0x4d2c6dfc && K[35] == 0x53380d13
    ensures K[36] == 0x650a7354 && K[37] == 0x766a0abb && K[38] == 0x81c2c92e && K[39] == 0x92722c85
  {
  }

  lemma RowOfK40()
    ensures K[40] == 0xa2bfe8a1 && K[41] == 0xa81a664b && K[42] == 0xc24b8b70 && K[43] == 0xc76c51a3
    ensures K[44] == 0xd192e819 && K[45] == 0xd6990624 && K[46] == 0xf40e3585 && K[47] == 0x106aa070
  {
  }

  lemma RowOfK48()
    ensures K[48] == 0x19a4c116 && K[49] == 0x1e376c08 && K[50] == 0x2748774c && K[51] == 0x34b0bcb5
    ensures K[52] == 0x391c0cb3 && K[53] == 0x4ed8aa4a && K[54] == 0x5b9cca4f && K[55] == 0x682e6ff3
  {
  }

  lemma RowOfK56()
    ensures K[56] == 0x748f82ee && K[57] == 0x78a5636f && K[58] == 0x84c87814 && K[59] == 0x8cc70208
    ensures K[60] == 0x90befffa && K[61] == 0xa4506ceb && K[62] == 0xbef9a3f7 && K[63] == 0xc67178f2
  {
  }

  const ABC: seq<Byte> := [97, 98, 99]

  /** The padded message is one block: 61 62 63 80, zeros, and the bit length 24. */
  predicate AbcBlock(b: seq<Byte>) {
    && |b| == 64 && b[0] == 0x61 && b[1] == 0x62 && b[2] == 0x63 && b[3] == 0x80 && b[63] == 24
    && forall i :: 4 <= i < 63 ==> b[i] == 0
  }

  lemma LengthOctets()
    ensures PutU64(24, []) == [0, 0, 0, 0, 0, 0, 0, 24]
  {
    hide Put;
    SmallPut(7);
    PutStep0(7);
  }

  /** Leading bytes of a number below 256 are zero. */
  lemma SmallPut(k: nat)
    requires k > 0
    ensures 24 / Pow256(k) == 0
  {
    assert Pow256(k) == 256 * Pow256(k - 1);
    BelowDivisor(Pow256(k));
  }

  lemma BelowDivisor(p: nat)
    requires p > 24
    ensures 24 / p == 0
  {
  }

  lemma PutStep0(k: nat)
    requires k == 7
    ensures Put(24, 8, []) == [0, 0, 0, 0, 0, 0, 0, 24]
  {
    SmallPut(6);
    SmallPut(5);
    SmallPut(4);
    SmallPut(3);
    SmallPut(2);
    SmallPut(1);
    SmallPut(7);
    hide Pow256;
    assert Put(24, 0, []) == [];
    assert Put(24, 1, []) == [24] by {
      assert Pow256(0) == 1 by { OneIs(); }
    }
    assert Put(24, 2, []) == [0, 24];
    assert Put(24, 3, []) == [0, 0, 24];
    assert Put(24, 4, []) == [0, 0, 0, 24];
    assert Put(24, 5, []) == [0, 0, 0, 0, 24];
    assert Put(24, 6, []) == [0, 0, 0, 0, 0, 24];
    assert Put(24, 7, []) == [0, 0, 0, 0, 0, 0, 24];
  }

  lemma OneIs()
    ensures Pow256(0) == 1
  {
  }

  lemma Padded()
    ensures AbcBlock(Pad(ABC))
  {
    hide PutU64;
    LengthOctets();
    assert PadZeros(3) == 52;
    var p := Pad(ABC);
    assert p == ABC + [0x80] + Zeros(52) + PutU64(24, []);
  }

  lemma Expand(b: Block, t: nat)
    requires 16 <= t
    ensures W(b, t) == Plus(Plus(Plus(W(b, t - 16), SmallSigma0(W(b, t - 15))), W(b, t - 7)), SmallSigma1(W(b, t - 2)))
  {
  }

  lemma InputWord(b: Block, t: nat)
    requires AbcBlock(b) && t < 16
    ensures W(b, t) == if t == 0 then 0x61626380 else if t == 15 then 24 else 0
  {
    hide Word;
    if t == 0 {
      FirstWord(b);
    } else if t == 15 {
      LastWord(b);
    } else {
      ZeroWord(b, 4 * t);
    }
  }

  lemma FirstWord(b: Block)
    requires b[0] == 0x61 && b[1] == 0x62 && b[2] == 0x63 && b[3] == 0x80
    ensures Word(b, 0) == 0x61626380
  {
    OctetWords();
    Joined(b[0] as bv32, b[1] as bv32, b[2] as bv32, b[3] as bv32);
  }

  lemma Joined(a: bv32, b: bv32, c: bv32, d: bv32)
    requires a == 0x61 && b == 0x62 && c == 0x63 && d == 0x80
    ensures (a << 24) | (b << 16) | (c << 8) | d == 0x61626380
  {
  }

  lemma LastWord(b: Block)
    requires b[60] == b[61] == b[62] == 0 && b[63] == 24
    ensures Word(b, 60) == 24
  {
    OctetWords();
  }

  lemma ZeroWord(b: Block, i: nat)
    requires i <= 60 && b[i] == b[i + 1] == b[i + 2] == b[i + 3] == 0
    ensures Word(b, i) == 0
  {
    OctetWords();
  }

  lemma OctetWords()
    ensures (0x61 as bv32) == 0x61 && (0x62 as bv32) == 0x62 && (0x63 as bv32) == 0x63
    ensures (0x80 as bv32) == 0x80 && (24 as bv32) == 24 && (0 as bv32) == 0
  {
  }

  lemma Schedule0(b: Block)
    requires AbcBlock(b)
    ensures W(b, 0) == 0x61626380 && W(b, 1) == 0x00000000 && W(b, 2) == 0x00000000 && W(b, 3) == 0x00000000
    ensures W(b, 4) == 0x00000000 && W(b, 5) == 0x00000000 && W(b, 6) == 0x00000000 && W(b, 7) == 0x00000000
  {
    hide W, AbcBlock;
    InputWord(b, 0);
    InputWord(b, 1);
    InputWord(b, 2);
    InputWord(b, 3);
    InputWord(b, 4);
    InputWord(b, 5);
    InputWord(b, 6);
    InputWord(b, 7);
  }

  lemma Schedule8(b: Block)
    requires AbcBlock(b)
    ensures W(b, 8) == 0x00000000 && W(b, 9) == 0x00000000 && W(b, 10) == 0x00000000 && W(b, 11) == 0x00000000
    ensures W(b, 12) == 0x00000000 && W(b, 13) == 0x00000000 && W(b, 14) == 0x00000000 && W(b, 15) == 0x00000018
  {
    hide W, AbcBlock;
    InputWord(b, 8);
    InputWord(b, 9);
    InputWord(b, 10);
    InputWord(b, 11);
    InputWord(b, 12);
    InputWord(b, 13);
    InputWord(b, 14);
    InputWord(b, 15);
  }

  lemma Schedule16(b: Block)
    requires AbcBlock(b)
    ensures W(b, 16) == 0x61626380 && W(b, 17) == 0x000f0000 && W(b, 18) == 0x7da86405 && W(b, 19) == 0x600003c6
    ensures W(b, 20) == 0x3e9d7b78 && W(b, 21) == 0x0183fc00 && W(b, 22) == 0x12dcbfdb && W(b, 23) == 0xe2e2c38e
  {
    hide W, AbcBlock;
    Schedule0(b);
    Schedule8(b);
    Expand(b, 16);
    Expand(b, 17);
    Expand(b, 18);
    Expand(b, 19);
    Expand(b, 20);
    Expand(b, 21);
    Expand(b, 22);
    Expand(b, 23);
  }

  lemma Schedule24(b: Block)
    requires AbcBlock(b)
    ensures W(b, 24) == 0xc8215c1a && W(b, 25) == 0xb73679a2 && W(b, 26) == 0xe5bc3909 && W(b, 27) == 0x32663c5b
    ensures W(b, 28) == 0x9d209d67 && W(b, 29) == 0xec8726cb && W(b, 30) == 0x702138a4 && W(b, 31) == 0xd3b7973b
  {
    hide W, AbcBlock;
    Schedule8(b);
    Schedule16(b);
    Expand(b, 24);
    Expand(b, 25);
    Expand(b, 26);
    Expand(b, 27);
    Expand(b, 28);
    Expand(b, 29);
    Expand(b, 30);
    Expand(b, 31);
  }

  lemma Schedule32(b: Block)
    requires AbcBlock(b)
    ensures W(b, 32) == 0x93f5997f && W(b, 33) == 0x3b68ba73 && W(b, 34) == 0xaff4ffc1 && W(b, 35) == 0xf10a5c62
    ensures W(b, 36) == 0x0a8b3996 && W(b, 37) == 0x72af830a && W(b, 38) == 0x9409e33e && W(b, 39) == 0x24641522
  {
    hide W, AbcBlock;
    Schedule16(b);
    Schedule24(b);
    Expand(b, 32);
    Expand(b, 33);
    Expand(b, 34);
    Expand(b, 35);
    Expand(b, 36);
    Expand(b, 37);
    Expand(b, 38);
    Expand(b, 39);
  }

  lemma Schedule40(b: Block)
    requires AbcBlock(b)
    ensures W(b, 40) == 0x9f47bf94 && W(b, 41) == 0xf0a64f5a && W(b, 42) == 0x3e246a79 && W(b, 43) == 0x27333ba3
    ensures W(b, 44) == 0x0c4763f2 && W(b, 45) == 0x840abf27 && W(b, 46) == 0x7a290d5d && W(b, 47) == 0x065c43da
  {
    hide W, AbcBlock;
    Schedule24(b);
    Schedule32(b);
    Expand(b, 40);
    Expand(b, 41);
    Expand(b, 42);
    Expand(b, 43);
    Expand(b, 44);
    Expand(b, 45);
    Expand(b, 46);
    Expand(b, 47);
  }

  lemma Schedule48(b: Block)
    requires AbcBlock(b)
    ensures W(b, 48) == 0xfb3e89cb && W(b, 49) == 0xcc7617db && W(b, 50) == 0xb9e66c34 && W(b, 51) == 0xa9993667
    ensures W(b, 52) == 0x84badedd && W(b, 53) == 0xc21462bc && W(b, 54) == 0x1487472c && W(b, 55) == 0xb20f7a99
  {
    hide W, AbcBlock;
    Schedule32(b);
    Schedule40(b);
    Expand(b, 48);
    Expand(b, 49);
    Expand(b, 50);
    Expand(b, 51);
    Expand(b, 52);
    Expand(b, 53);
    Expand(b, 54);
    Expand(b, 55);
  }

  lemma Schedule56(b: Block)
    requires AbcBlock(b)
    ensures W(b, 56) == 0xef57b9cd && W(b, 57) == 0xebe6b238 && W(b, 58) == 0x9fe3095e && W(b, 59) == 0x78bc8d4b
    ensures W(b, 60) == 0xa43fcf15 && W(b, 61) == 0x668b2ff8 && W(b, 62) == 0xeeaba2cc && W(b, 63) == 0x12b1edeb
  {
    hide W, AbcBlock;
    Schedule40(b);
    Schedule48(b);
    Expand(b, 56);
    Expand(b, 57);
    Expand(b, 58);
    Expand(b, 59);
    Expand(b, 60);
    Expand(b, 61);
    Expand(b, 62);
    Expand(b, 63);
  }

  lemma RoundStep(b: Block, t: nat)
    requires t < 64
    ensures Rounds(INITIAL, b, t + 1) == Round(Rounds(INITIAL, b, t), K[t], W(b, t))
  {
    hide Round, W;
  }

  lemma Rounds0(b: Block)
    requires AbcBlock(b)
    ensures Rounds(INITIAL, b, 8) == Registers(0x85a07b5f, 0xe5030380, 0x2b4209f5, 0x04409a6a, 0x0c657a79, 0x9b27a401, 0x714260ad, 0x43ada245)
  {
    hide Rounds, W, AbcBlock;
    RowOfK0();
    Schedule0(b);
    NoRounds(b);
    RoundStep(b, 0);
    assert Rounds(INITIAL, b, 1) == Registers(0x5d6aebcd, 0x6a09e667, 0xbb67ae85, 0x3c6ef372, 0xfa2a4622, 0x510e527f, 0x9b05688c, 0x1f83d9ab);
    RoundStep(b, 1);
    assert Rounds(INITIAL, b, 2) == Registers(0x5a6ad9ad, 0x5d6aebcd, 0x6a09e667, 0xbb67ae85, 0x78ce7989, 0xfa2a4622, 0x510e527f, 0x9b05688c);
    RoundStep(b, 2);
    assert Rounds(INITIAL, b, 3) == Registers(0xc8c347a7, 0x5a6ad9ad, 0x5d6aebcd, 0x6a09e667, 0xf92939eb, 0x78ce7989, 0xfa2a4622, 0x510e527f);
    RoundStep(b, 3);
    assert Rounds(INITIAL, b, 4) == Registers(0xd550f666, 0xc8c347a7, 0x5a6ad9ad, 0x5d6aebcd, 0x24e00850, 0xf92939eb, 0x78ce7989, 0xfa2a4622);
    RoundStep(b, 4);
    assert Rounds(INITIAL, b, 5) == Registers(0x04409a6a, 0xd550f666, 0xc8c347a7, 0x5a6ad9ad, 0x43ada245, 0x24e00850, 0xf92939eb, 0x78ce7989);
    RoundStep(b, 5);
    assert Rounds(INITIAL, b, 6) == Registers(0x2b4209f5, 0x04409a6a, 0xd550f666, 0xc8c347a7, 0x714260ad, 0x43ada245, 0x24e00850, 0xf92939eb);
    RoundStep(b, 6);
    assert Rounds(INITIAL, b, 7) == Registers(0xe5030380, 0x2b4209f5, 0x04409a6a, 0xd550f666, 0x9b27a401, 0x714260ad, 0x43ada245, 0x24e00850);
    RoundStep(b, 7);
  }

  lemma Rounds8(b: Block)
    requires AbcBlock(b)
    ensures Rounds(INITIAL, b, 16) == Registers(0xb0fa238e, 0xc0645fde, 0xd932eb16, 0x87912990, 0x07590dcd, 0x0b92f20c, 0x745a48de, 0x1e578218)
  {
    hide Rounds, W, AbcBlock;
    RowOfK8();
    Schedule8(b);
    Rounds0(b);
    RoundStep(b, 8);
    assert Rounds(INITIAL, b, 9) == Registers(0x8e04ecb9, 0x85a07b5f, 0xe5030380, 0x2b4209f5, 0x32ca2d8c, 0x0c657a79, 0x9b27a401, 0x714260ad);
    RoundStep(b, 9);
    assert Rounds(INITIAL, b, 10) == Registers(0x8c87346b, 0x8e04ecb9, 0x85a07b5f, 0xe5030380, 0x1cc92596, 0x32ca2d8c, 0x0c657a79, 0x9b27a401);
    RoundStep(b, 10);
    assert Rounds(INITIAL, b, 11) == Registers(0x4798a3f4, 0x8c87346b, 0x8e04ecb9, 0x85a07b5f, 0x436b23e8, 0x1cc92596, 0x32ca2d8c, 0x0c657a79);
    RoundStep(b, 11);
    assert Rounds(INITIAL, b, 12) == Registers(0xf71fc5a9, 0x4798a3f4, 0x8c87346b, 0x8e04ecb9, 0x816fd6e9, 0x436b23e8, 0x1cc92596, 0x32ca2d8c);
    RoundStep(b, 12);
    assert Rounds(INITIAL, b, 13) == Registers(0x87912990, 0xf71fc5a9, 0x4798a3f4, 0x8c87346b, 0x1e578218, 0x816fd6e9, 0x436b23e8, 0x1cc92596);
    RoundStep(b, 13);
    assert Rounds(INITIAL, b, 14) == Registers(0xd932eb16, 0x87912990, 0xf71fc5a9, 0x4798a3f4, 0x745a48de, 0x1e578218, 0x816fd6e9, 0x436b23e8);
    RoundStep(b, 14);
    assert Rounds(INITIAL, b, 15) == Registers(0xc0645fde, 0xd932eb16, 0x87912990, 0xf71fc5a9, 0x0b92f20c, 0x745a48de, 0x1e578218, 0x816fd6e9);
    RoundStep(b, 15);
  }

  lemma Rounds16(b: Block)
    requires AbcBlock(b)
    ensures Rounds(INITIAL, b, 24) == Registers(0xc5d53d8d, 0xa7a3623f, 0xc2606d6d, 0x9dc68b63, 0xaa47c347, 0x49f5114a, 0xe1257970, 0x8ada8930)
  {
    hide Rounds, W, AbcBlock;
    RowOfK16();
    Schedule16(b);
    Rounds8(b);
    RoundStep(b, 16);
    assert Rounds(INITIAL, b, 17) == Registers(0x21da9a9b, 0xb0fa238e, 0xc0645fde, 0xd932eb16, 0x8034229c, 0x07590dcd, 0x0b92f20c, 0x745a48de);
    RoundStep(b, 17);
    assert Rounds(INITIAL, b, 18) == Registers(0xc2fbd9d1, 0x21da9a9b, 0xb0fa238e, 0xc0645fde, 0x846ee454, 0x8034229c, 0x07590dcd, 0x0b92f20c);
    RoundStep(b, 18);
    assert Rounds(INITIAL, b, 19) == Registers(0xfe777bbf, 0xc2fbd9d1, 0x21da9a9b, 0xb0fa238e, 0xcc899961, 0x846ee454, 0x8034229c, 0x07590dcd);
    RoundStep(b, 19);
    assert Rounds(INITIAL, b, 20) == Registers(0xe1f20c33, 0xfe777bbf, 0xc2fbd9d1, 0x21da9a9b, 0xb0638179, 0xcc899961, 0x846ee454, 0x8034229c);
    RoundStep(b, 20);
    assert Rounds(INITIAL, b, 21) == Registers(0x9dc68b63, 0xe1f20c33, 0xfe777bbf, 0xc2fbd9d1, 0x8ada8930, 0xb0638179, 0xcc899961, 0x846ee454);
    RoundStep(b, 21);
    assert Rounds(INITIAL, b, 22) == Registers(0xc2606d6d, 0x9dc68b63, 0xe1f20c33, 0xfe777bbf, 0xe1257970, 0x8ada8930, 0xb0638179, 0xcc899961);
    RoundStep(b, 22);
    assert Rounds(INITIAL, b, 23) == Registers(0xa7a3623f, 0xc2606d6d, 0x9dc68b63, 0xe1f20c33, 0x49f5114a, 0xe1257970, 0x8ada8930, 0xb0638179);
    RoundStep(b, 23);
  }

  lemma Rounds24(b: Block)
    requires AbcBlock(b)
    ensures Rounds(INITIAL, b, 32) == Registers(0x73b33bf5, 0xea992a22, 0xa0060b30, 0x363482c9, 0xba591112, 0x0109ab3a, 0xade79437, 0x6112a3b7)
  {
    hide Rounds, W, AbcBlock;
    RowOfK24();
    Schedule24(b);
    Rounds16(b);
    RoundStep(b, 24);
    assert Rounds(INITIAL, b, 25) == Registers(0x1c2c2838, 0xc5d53d8d, 0xa7a3623f, 0xc2606d6d, 0x2823ef91, 0xaa47c347, 0x49f5114a, 0xe1257970);
    RoundStep(b, 25);
    assert Rounds(INITIAL, b, 26) == Registers(0xcde8037d, 0x1c2c2838, 0xc5d53d8d, 0xa7a3623f, 0x14383d8e, 0x2823ef91, 0xaa47c347, 0x49f5114a);
    RoundStep(b, 26);
    assert Rounds(INITIAL, b, 27) == Registers(0xb62ec4bc, 0xcde8037d, 0x1c2c2838, 0xc5d53d8d, 0xc74c6516, 0x14383d8e, 0x2823ef91, 0xaa47c347);
    RoundStep(b, 27);
    assert Rounds(INITIAL, b, 28) == Registers(0x77d37528, 0xb62ec4bc, 0xcde8037d, 0x1c2c2838, 0xedffbff8, 0xc74c6516, 0x14383d8e, 0x2823ef91);
    RoundStep(b, 28);
    assert Rounds(INITIAL, b, 29) == Registers(0x363482c9, 0x77d37528, 0xb62ec4bc, 0xcde8037d, 0x6112a3b7, 0xedffbff8, 0xc74c6516, 0x14383d8e);
    RoundStep(b, 29);
    assert Rounds(INITIAL, b, 30) == Registers(0xa0060b30, 0x363482c9, 0x77d37528, 0xb62ec4bc, 0xade79437, 0x6112a3b7, 0xedffbff8, 0xc74c6516);
    RoundStep(b, 30);
    assert Rounds(INITIAL, b, 31) == Registers(0xea992a22, 0xa0060b30, 0x363482c9, 0x77d37528, 0x0109ab3a, 0xade79437, 0x6112a3b7, 0xedffbff8);
    RoundStep(b, 31);
  }

  lemma Rounds32(b: Block)
    requires AbcBlock(b)
    ensures Rounds(INITIAL, b, 40) == Registers(0x79ea687a, 0x6dc57a8a, 0x34df1604, 0x41a65cb1, 0x1efbc0a0, 0xf0781bc8, 0xa507a53d, 0x0772a26b)
  {
    hide Rounds, W, AbcBlock;
    RowOfK32();
    Schedule32(b);
    Rounds24(b);
    RoundStep(b, 32);
    assert Rounds(INITIAL, b, 33) == Registers(0x98e12507, 0x73b33bf5, 0xea992a22, 0xa0060b30, 0x9cd9f5f6, 0xba591112, 0x0109ab3a, 0xade79437);
    RoundStep(b, 33);
    assert Rounds(INITIAL, b, 34) == Registers(0xfe604df5, 0x98e12507, 0x73b33bf5, 0xea992a22, 0x59249dd3, 0x9cd9f5f6, 0xba591112, 0x0109ab3a);
    RoundStep(b, 34);
    assert Rounds(INITIAL, b, 35) == Registers(0xa9a7738c, 0xfe604df5, 0x98e12507, 0x73b33bf5, 0x085f3833, 0x59249dd3, 0x9cd9f5f6, 0xba591112);
    RoundStep(b, 35);
    assert Rounds(INITIAL, b, 36) == Registers(0x65a0cfe4, 0xa9a7738c, 0xfe604df5, 0x98e12507, 0xf4b002d6, 0x085f3833, 0x59249dd3, 0x9cd9f5f6);
    RoundStep(b, 36);
    assert Rounds(INITIAL, b, 37) == Registers(0x41a65cb1, 0x65a0cfe4, 0xa9a7738c, 0xfe604df5, 0x0772a26b, 0xf4b002d6, 0x085f3833, 0x59249dd3);
    RoundStep(b, 37);
    assert Rounds(INITIAL, b, 38) == Registers(0x34df1604, 0x41a65cb1, 0x65a0cfe4, 0xa9a7738c, 0xa507a53d, 0x0772a26b, 0xf4b002d6, 0x085f3833);
    RoundStep(b, 38);
    assert Rounds(INITIAL, b, 39) == Registers(0x6dc57a8a, 0x34df1604, 0x41a65cb1, 0x65a0cfe4, 0xf0781bc8, 0xa507a53d, 0x0772a26b, 0xf4b002d6);
    RoundStep(b, 39);
  }

  lemma Rounds40(b: Block)
    requires AbcBlock(b)
    ensures Rounds(INITIAL, b, 48) == Registers(0x4172328d, 0xa14c14b0, 0x72ab4b91, 0x26628815, 0xfecf0bc6, 0xd57b94a9, 0xb7755da1, 0xa80f11f0)
  {
    hide Rounds, W, AbcBlock;
    RowOfK40();
    Schedule40(b);
    Rounds32(b);
    RoundStep(b, 40);
    assert Rounds(INITIAL, b, 41) == Registers(0xd6670766, 0x79ea687a, 0x6dc57a8a, 0x34df1604, 0x26352d63, 0x1efbc0a0, 0xf0781bc8, 0xa507a53d);
    RoundStep(b, 41);
    assert Rounds(INITIAL, b, 42) == Registers(0xdf46652f, 0xd6670766, 0x79ea687a, 0x6dc57a8a, 0x838b2711, 0x26352d63, 0x1efbc0a0, 0xf0781bc8);
    RoundStep(b, 42);
    assert Rounds(INITIAL, b, 43) == Registers(0x17aa0dfe, 0xdf46652f, 0xd6670766, 0x79ea687a, 0xdecd4715, 0x838b2711, 0x26352d63, 0x1efbc0a0);
    RoundStep(b, 43);
    assert Rounds(INITIAL, b, 44) == Registers(0x9d4baf93, 0x17aa0dfe, 0xdf46652f, 0xd6670766, 0xfda24c2e, 0xdecd4715, 0x838b2711, 0x26352d63);
    RoundStep(b, 44);
    assert Rounds(INITIAL, b, 45) == Registers(0x26628815, 0x9d4baf93, 0x17aa0dfe, 0xdf46652f, 0xa80f11f0, 0xfda24c2e, 0xdecd4715, 0x838b2711);
    RoundStep(b, 45);
    assert Rounds(INITIAL, b, 46) == Registers(0x72ab4b91, 0x26628815, 0x9d4baf93, 0x17aa0dfe, 0xb7755da1, 0xa80f11f0, 0xfda24c2e, 0xdecd4715);
    RoundStep(b, 46);
    assert Rounds(INITIAL, b, 47) == Registers(0xa14c14b0, 0x72ab4b91, 0x26628815, 0x9d4baf93, 0xd57b94a9, 0xb7755da1, 0xa80f11f0, 0xfda24c2e);
    RoundStep(b, 47);
  }

  lemma Rounds48(b: Block)
    requires AbcBlock(b)
    ensures Rounds(INITIAL, b, 56) == Registers(0x38cc9913, 0x3ec45cdb, 0xf5702fdb, 0x101fd28f, 0x54cb266b, 0xe50e1b4f, 0x9f4787c3, 0x529e7d00)
  {
    hide Rounds, W, AbcBlock;
    RowOfK48();
    Schedule48(b);
    Rounds40(b);
    RoundStep(b, 48);
    assert Rounds(INITIAL, b, 49) == Registers(0x05757ceb, 0x4172328d, 0xa14c14b0, 0x72ab4b91, 0xbd714038, 0xfecf0bc6, 0xd57b94a9, 0xb7755da1);
    RoundStep(b, 49);
    assert Rounds(INITIAL, b, 50) == Registers(0xf11bfaa8, 0x05757ceb, 0x4172328d, 0xa14c14b0, 0x6e5c390c, 0xbd714038, 0xfecf0bc6, 0xd57b94a9);
    RoundStep(b, 50);
    assert Rounds(INITIAL, b, 51) == Registers(0x7a0508a1, 0xf11bfaa8, 0x05757ceb, 0x4172328d, 0x52f1ccf7, 0x6e5c390c, 0xbd714038, 0xfecf0bc6);
    RoundStep(b, 51);
    assert Rounds(INITIAL, b, 52) == Registers(0x886e7a22, 0x7a0508a1, 0xf11bfaa8, 0x05757ceb, 0x49231c1e, 0x52f1ccf7, 0x6e5c390c, 0xbd714038);
    RoundStep(b, 52);
    assert Rounds(INITIAL, b, 53) == Registers(0x101fd28f, 0x886e7a22, 0x7a0508a1, 0xf11bfaa8, 0x529e7d00, 0x49231c1e, 0x52f1ccf7, 0x6e5c390c);
    RoundStep(b, 53);
    assert Rounds(INITIAL, b, 54) == Registers(0xf5702fdb, 0x101fd28f, 0x886e7a22, 0x7a0508a1, 0x9f4787c3, 0x529e7d00, 0x49231c1e, 0x52f1ccf7);
    RoundStep(b, 54);
    assert Rounds(INITIAL, b, 55) == Registers(0x3ec45cdb, 0xf5702fdb, 0x101fd28f, 0x886e7a22, 0xe50e1b4f, 0x9f4787c3, 0x529e7d00, 0x49231c1e);
    RoundStep(b, 55);
  }

  lemma Rounds56(b: Block)
    requires AbcBlock(b)
    ensures Rounds(INITIAL, b, 64) == Registers(0x506e3058, 0xd39a2165, 0x04d24d6c, 0xb85e2ce9, 0x5ef50f24, 0xfb121210, 0x948d25b6, 0x961f4894)
  {
    hide Rounds, W, AbcBlock;
    RowOfK56();
    Schedule56(b);
    Rounds48(b);
    RoundStep(b, 56);
    assert Rounds(INITIAL, b, 57) == Registers(0xfcd1887b, 0x38cc9913, 0x3ec45cdb, 0xf5702fdb, 0x9b5e906c, 0x54cb266b, 0xe50e1b4f, 0x9f4787c3);
    RoundStep(b, 57);
    assert Rounds(INITIAL, b, 58) == Registers(0xc062d46f, 0xfcd1887b, 0x38cc9913, 0x3ec45cdb, 0x7e44008e, 0x9b5e906c, 0x54cb266b, 0xe50e1b4f);
    RoundStep(b, 58);
    assert Rounds(INITIAL, b, 59) == Registers(0xffb70472, 0xc062d46f, 0xfcd1887b, 0x38cc9913, 0x6d83bfc6, 0x7e44008e, 0x9b5e906c, 0x54cb266b);
    RoundStep(b, 59);
    assert Rounds(INITIAL, b, 60) == Registers(0xb6ae8fff, 0xffb70472, 0xc062d46f, 0xfcd1887b, 0xb21bad3d, 0x6d83bfc6, 0x7e44008e, 0x9b5e906c);
    RoundStep(b, 60);
    assert Rounds(INITIAL, b, 61) == Registers(0xb85e2ce9, 0xb6ae8fff, 0xffb70472, 0xc062d46f, 0x961f4894, 0xb21bad3d, 0x6d83bfc6, 0x7e44008e);
    RoundStep(b, 61);
    assert Rounds(INITIAL, b, 62) == Registers(0x04d24d6c, 0xb85e2ce9, 0xb6ae8fff, 0xffb70472, 0x948d25b6, 0x961f4894, 0xb21bad3d, 0x6d83bfc6);
    RoundStep(b, 62);
    assert Rounds(INITIAL, b, 63) == Registers(0xd39a2165, 0x04d24d6c, 0xb85e2ce9, 0xb6ae8fff, 0xfb121210, 0x948d25b6, 0x961f4894, 0xb21bad3d);
    RoundStep(b, 63);
  }

  lemma NoRounds(b: Block)
    ensures Rounds(INITIAL, b, 0) == Registers(0x6a09e667, 0xbb67ae85, 0x3c6ef372, 0xa54ff53a, 0x510e527f, 0x9b05688c, 0x1f83d9ab, 0x5be0cd19)
  {
  }

  lemma CompressAbc(b: Block)
    requires AbcBlock(b)
    ensures Compress(INITIAL, b) == [0xba7816bf, 0x8f01cfea, 0x414140de, 0x5dae2223, 0xb00361a3, 0x96177a9c, 0xb410ff61, 0xf20015ad]
  {
    hide Rounds, AbcBlock;
    Rounds56(b);
  }

  /** The digest of "abc" (appendix B.1 of FIPS 180-2). */
  lemma DigestOfAbc()
    ensures Digest(ABC) == [0xba, 0x78, 0x16, 0xbf, 0x8f, 0x01, 0xcf, 0xea, 0x41, 0x41, 0x40, 0xde, 0x5d, 0xae, 0x22, 0x23,
                            0xb0, 0x03, 0x61, 0xa3, 0x96, 0x17, 0x7a, 0x9c, 0xb4, 0x10, 0xff, 0x61, 0xf2, 0x00, 0x15, 0xad]
  {
    hide Pad, Compress, Output;
    Padded();
    var b := Pad(ABC);
    CompressAbc(b);
    assert b[..64] == b && b[64..] == [];
    OneBlock(b);
    OutputAbc();
  }

  lemma OneBlock(b: Block)
    ensures Absorb(INITIAL, b) == Compress(INITIAL, b)
  {
    hide Compress;
    assert b[..64] == b && b[64..] == [];
    assert Absorb(Compress(INITIAL, b), []) == Compress(INITIAL, b);
  }

  lemma OutputAbc()
    ensures Output([0xba7816bf, 0x8f01cfea, 0x414140de, 0x5dae2223, 0xb00361a3, 0x96177a9c, 0xb410ff61, 0xf20015ad]) ==
      [0xba, 0x78, 0x16, 0xbf, 0x8f, 0x01, 0xcf, 0xea, 0x41, 0x41, 0x40, 0xde, 0x5d, 0xae, 0x22, 0x23,
       0xb0, 0x03, 0x61, 0xa3, 0x96, 0x17, 0x7a, 0x9c, 0xb4, 0x10, 0xff, 0x61, 0xf2, 0x00, 0x15, 0xad]
  {
    hide WordBytes;
    Bytes0();
    Bytes1();
    Bytes2();
    Bytes3();
    Bytes4();
    Bytes5();
    Bytes6();
    Bytes7();
  }

  lemma Bytes0()
    ensures WordBytes(0xba7816bf) == [0xba, 0x78, 0x16, 0xbf]
  {
  }

  lemma Bytes1()
    ensures WordBytes(0x8f01cfea) == [0x8f, 0x01, 0xcf, 0xea]
  {
  }

  lemma Bytes2()
    ensures WordBytes(0x414140de) == [0x41, 0x41, 0x40, 0xde]
  {
  }

  lemma Bytes3()
    ensures WordBytes(0x5dae2223) == [0x5d, 0xae, 0x22, 0x23]
  {
  }

  lemma Bytes4()
    ensures WordBytes(0xb00361a3) == [0xb0, 0x03, 0x61, 0xa3]
  {
  }

  lemma Bytes5()
    ensures WordBytes(0x96177a9c) == [0x96, 0x17, 0x7a, 0x9c]
  {
  }

  lemma Bytes6()
    ensures WordBytes(0xb410ff61) == [0xb4, 0x10, 0xff, 0x61]
  {
  }

  lemma Bytes7()
    ensures WordBytes(0xf20015ad) == [0xf2, 0x00, 0x15, 0xad]
  {
  }
}
