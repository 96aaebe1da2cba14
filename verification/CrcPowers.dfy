/**
 Powers x^(2^k) modulo the CRC polynomial: the table of crc32.h, the fact that it closes into a cycle
 of 32 squarings, and x2nmodp, which relies on that when its table index wraps.
 */
module CrcPowers {
  import opened Arith
  import opened CrcField

  // Products of given polynomials, written out so that they can be worked out.

  /** TimesX in one expression. */
  function Down(b: bv32): bv32 {
    if b & 1 == 1 then (b >> 1) ^ 0xedb88320 else b >> 1
  }

  /** Term in one expression. */
  function Pick(a: bv32, m: bv32, b: bv32): bv32 {
    if a & m != 0 then b else 0
  }

  function Down4(b: bv32): bv32 {
    Down(Down(Down(Down(b))))
  }

  /** Four terms of a product. */
  function Four(a: bv32, b: bv32, m: bv32): bv32 {
    Xor(Pick(a, m, b), Xor(Pick(a, m >> 1, Down(b)),
        Xor(Pick(a, m >> 2, Down(Down(b))), Pick(a, m >> 3, Down(Down(Down(b)))))))
  }

  function Sum4(p: bv32, q: bv32, r: bv32, s: bv32): bv32 {
    Xor(p, Xor(q, Xor(r, s)))
  }

  /** w is the square of v; b1 to b7 are v * x^4 to v * x^28. */
  predicate SquareIs(v: bv32, b1: bv32, b2: bv32, b3: bv32, b4: bv32, b5: bv32, b6: bv32, b7: bv32, w: bv32) {
    && b1 == Down4(v) && b2 == Down4(b1) && b3 == Down4(b2) && b4 == Down4(b3)
    && b5 == Down4(b4) && b6 == Down4(b5) && b7 == Down4(b6)
    && w == Xor(Sum4(Four(v, v, 0x8000_0000), Four(v, b1, 0x800_0000), Four(v, b2, 0x80_0000), Four(v, b3, 0x8_0000)),
                Sum4(Four(v, b4, 0x8000), Four(v, b5, 0x800), Four(v, b6, 0x80), Four(v, b7, 8)))
  }

  lemma DownIs(b: bv32)
    ensures TimesX(b) == Down(b)
  {
  }

  lemma PickIs(a: bv32, m: bv32, b: bv32)
    ensures Term(a, m, b) == Pick(a, m, b)
  {
  }

  lemma OneTerm(a: bv32, b: bv32, m: bv32)
    requires m != 0
    ensures MulFrom(a, b, m) == Xor(Pick(a, m, b), MulFrom(a, Down(b), Half(m)))
  {
    DownIs(b);
    PickIs(a, m, b);
  }

  lemma SumRight(p: bv32, q: bv32, r: bv32, s: bv32, rest: bv32)
    ensures Xor(p, Xor(q, Xor(r, Xor(s, rest)))) == Xor(Sum4(p, q, r, s), rest)
  {
    XorAssoc(r, s, rest);
    XorAssoc(q, Xor(r, s), rest);
    XorAssoc(p, Xor(q, Xor(r, s)), rest);
  }

  lemma Halves(m: bv32)
    requires m >= 8
    ensures m != 0 && Half(m) == m >> 1 && Half(m) != 0
    ensures Half(Half(m)) == m >> 2 && Half(Half(m)) != 0
    ensures Half(Half(Half(m))) == m >> 3 && Half(Half(Half(m))) != 0
  {
  }

  function Half4(m: bv32): bv32 {
    Half(Half(Half(Half(m))))
  }

  lemma FourTerms(a: bv32, b: bv32, m: bv32)
    requires m >= 8
    ensures MulFrom(a, b, m) == Xor(Four(a, b, m), MulFrom(a, Down4(b), Half4(m)))
  {
    Halves(m);
    var b1 := Down(b);
    var b2 := Down(b1);
    var b3 := Down(b2);
    var m1 := Half(m);
    var m2 := Half(m1);
    var m3 := Half(m2);
    OneTerm(a, b, m);
    OneTerm(a, b1, m1);
    OneTerm(a, b2, m2);
    OneTerm(a, b3, m3);
    SumRight(Pick(a, m, b), Pick(a, m1, b1), Pick(a, m2, b2), Pick(a, m3, b3), MulFrom(a, Down4(b), Half4(m)));
  }

  lemma SixteenTerms(a: bv32, b: bv32, m: bv32, m1: bv32, m2: bv32, m3: bv32)
    requires m >= 8 && m1 >= 8 && m2 >= 8 && m3 >= 8 && m1 == Half4(m) && m2 == Half4(m1) && m3 == Half4(m2)
    ensures var b1 := Down4(b);
            var b2 := Down4(b1);
            var b3 := Down4(b2);
            MulFrom(a, b, m)
            == Xor(Sum4(Four(a, b, m), Four(a, b1, m1), Four(a, b2, m2), Four(a, b3, m3)), MulFrom(a, Down4(b3), Half4(m3)))
  {
    var b1 := Down4(b);
    var b2 := Down4(b1);
    var b3 := Down4(b2);
    FourTerms(a, b, m);
    FourTerms(a, b1, m1);
    FourTerms(a, b2, m2);
    FourTerms(a, b3, m3);
    SumRight(Four(a, b, m), Four(a, b1, m1), Four(a, b2, m2), Four(a, b3, m3), MulFrom(a, Down4(b3), Half4(m3)));
  }

  lemma Masks()
    ensures Half4(0x8000_0000) == 0x800_0000 && Half4(0x800_0000) == 0x80_0000 && Half4(0x80_0000) == 0x8_0000
    ensures Half4(0x8_0000) == 0x8000 && Half4(0x8000) == 0x800 && Half4(0x800) == 0x80 && Half4(0x80) == 8 && Half4(8) == 0
  {
  }

  lemma MulIsSquare(v: bv32, b1: bv32, b2: bv32, b3: bv32, b4: bv32, b5: bv32, b6: bv32, b7: bv32, w: bv32)
    requires SquareIs(v, b1, b2, b3, b4, b5, b6, b7, w)
    ensures Mul(v, v) == w
  {
    Masks();
    SixteenTerms(v, v, 0x8000_0000, 0x800_0000, 0x80_0000, 0x8_0000);
    SixteenTerms(v, b4, 0x8000, 0x800, 0x80, 8);
    NoTerms(v, Down4(b7));
    XorUnit(Sum4(Four(v, b4, 0x8000), Four(v, b5, 0x800), Four(v, b6, 0x80), Four(v, b7, 8)));
  }

  lemma NoTerms(a: bv32, b: bv32)
    ensures MulFrom(a, b, 0) == 0
  {
  }

  // The table.

  /** v is x^(2^k). */
  ghost predicate Entry(k: nat, v: bv32) {
    v == TimesXn(Pow2(k), ONE)
  }

  lemma NextEntry(k: nat, v: bv32, b1: bv32, b2: bv32, b3: bv32, b4: bv32, b5: bv32, b6: bv32, b7: bv32, w: bv32)
    requires Entry(k, v) && SquareIs(v, b1, b2, b3, b4, b5, b6, b7, w)
    ensures Entry(k + 1, w)
  {
    SquareOfPower(k, v);
    MulIsSquare(v, b1, b2, b3, b4, b5, b6, b7, w);
  }

  lemma Entry0(k: nat)
    requires k == 0
    ensures Entry(k, 0x40000000)
  {
    assert Pow2(0) == 1;
    OneX(ONE);
    OneNonzero();
  }

  lemma Entry1(k: nat)
    requires k == 1
    ensures Entry(k, 0x20000000)
  {
    Entry0(k - 1);
    NextEntry(k - 1, 0x40000000, 0x04000000, 0x00400000, 0x00040000, 0x00004000, 0x00000400, 0x00000040, 0x00000004, 0x20000000);
  }

  lemma Entry2(k: nat)
    requires k == 2
    ensures Entry(k, 0x08000000)
  {
    Entry1(k - 1);
    NextEntry(k - 1, 0x20000000, 0x02000000, 0x00200000, 0x00020000, 0x00002000, 0x00000200, 0x00000020, 0x00000002, 0x08000000);
  }

  lemma Entry3(k: nat)
    requires k == 3
    ensures Entry(k, 0x00800000)
  {
    Entry2(k - 1);
    NextEntry(k - 1, 0x08000000, 0x00800000, 0x00080000, 0x00008000, 0x00000800, 0x00000080, 0x00000008, 0xedb88320, 0x00800000);
  }

  lemma Entry4(k: nat)
    requires k == 4
    ensures Entry(k, 0x00008000)
  {
    Entry3(k - 1);
    NextEntry(k - 1, 0x00800000, 0x00080000, 0x00008000, 0x00000800, 0x00000080, 0x00000008, 0xedb88320, 0x0edb8832, 0x00008000);
  }

  lemma Entry5(k: nat)
    requires k == 5
    ensures Entry(k, 0xedb88320)
  {
    Entry4(k - 1);
    NextEntry(k - 1, 0x00008000, 0x00000800, 0x00000080, 0x00000008, 0xedb88320, 0x0edb8832, 0x3b83984b, 0xc8d98a08, 0xedb88320);
  }

  lemma Entry6(k: nat)
    requires k == 6
    ensures Entry(k, 0xb1e6b092)
  {
    Entry5(k - 1);
    NextEntry(k - 1, 0xedb88320, 0x0edb8832, 0x3b83984b, 0xc8d98a08, 0xe1351b80, 0x0e1351b8, 0xed59b63b, 0xc5b428ef, 0xb1e6b092);
  }

  lemma Entry7(k: nat)
    requires k == 7
    ensures Entry(k, 0xa06a2517)
  {
    Entry6(k - 1);
    NextEntry(k - 1, 0xb1e6b092, 0x30704bc1, 0x1eb014d8, 0xec53826d, 0x8816eaf2, 0x33ef4e67, 0x533b85da, 0xd3e51bb5, 0xa06a2517);
  }

  lemma Entry8(k: nat)
    requires k == 8
    ensures Entry(k, 0xed627dae)
  {
    Entry7(k - 1);
    NextEntry(k - 1, 0xa06a2517, 0x5a03d36d, 0x8373efe2, 0x33591e36, 0x4e87f0bb, 0xcf89cc87, 0x5cfdedf4, 0x73139f4f, 0xed627dae);
  }

  lemma Entry9(k: nat)
    requires k == 9
    ensures Entry(k, 0x88d14467)
  {
    Entry8(k - 1);
    NextEntry(k - 1, 0xed627dae, 0xaedcc5a2, 0x3183ec92, 0x38761e01, 0x1e307184, 0x773f4688, 0xeacb7748, 0xe3143454, 0x88d14467);
  }

  lemma Entry10(k: nat)
    requires k == 10
    ensures Entry(k, 0xd7bbfe6a)
  {
    Entry9(k - 1);
    NextEntry(k - 1, 0x88d14467, 0x5888657a, 0xd35e25bf, 0xb0881047, 0x5b0df038, 0xe8085c23, 0x2859b56e, 0xa28f792e, 0xd7bbfe6a);
  }

  lemma Entry11(k: nat)
    requires k == 11
    ensures Entry(k, 0xec447f11)
  {
    Entry10(k - 1);
    NextEntry(k - 1, 0xd7bbfe6a, 0xdbad1c0e, 0xadb033b8, 0xe763801b, 0xc5178b8d, 0x8a82aa6c, 0x93cce816, 0x448eafd9, 0xec447f11);
  }

  lemma Entry12(k: nat)
    requires k == 12
    ensures Entry(k, 0x8e7ea170)
  {
    Entry11(k - 1);
    NextEntry(k - 1, 0xec447f11, 0x13735795, 0x6a5c648d, 0x8076149c, 0x9363a3f9, 0xf939a97b, 0xc4f2291b, 0xc72e911d, 0x8e7ea170);
  }

  lemma Entry13(k: nat)
    requires k == 13
    ensures Entry(k, 0x6427800e)
  {
    Entry12(k - 1);
    NextEntry(k - 1, 0x8e7ea170, 0x08e7ea17, 0x508b0f9d, 0x83db622d, 0x8eee64f6, 0x455c8717, 0x5450b94d, 0x8396d940, 0x6427800e);
  }

  lemma Entry14(k: nat)
    requires k == 14
    ensures Entry(k, 0x4d47bae0)
  {
    Entry13(k - 1);
    NextEntry(k - 1, 0x6427800e, 0xa6489a78, 0xe7dc0a87, 0x5e78b194, 0x733bca89, 0xf73c2fec, 0x9417004e, 0xa94b927c, 0x4d47bae0);
  }

  lemma Entry15(k: nat)
    requires k == 15
    ensures Entry(k, 0x09fe548f)
  {
    Entry14(k - 1);
    NextEntry(k - 1, 0x4d47bae0, 0x04d47bae, 0xa047a5c2, 0x316a5a94, 0x75cae439, 0xf7533d07, 0x5f7042ec, 0x9e93c69e, 0x09fe548f);
  }

  lemma Entry16(k: nat)
    requires k == 16
    ensures Entry(k, 0x83852d0f)
  {
    Entry15(k - 1);
    NextEntry(k - 1, 0x09fe548f, 0xbd221754, 0x7d0e60e5, 0x6cbbb7fa, 0xd01d1897, 0x5d04a0b5, 0x6ebb1bff, 0xbb5643a3, 0x83852d0f);
  }

  lemma Entry17(k: nat)
    requires k == 17
    ensures Entry(k, 0x30362f1a)
  {
    Entry16(k - 1);
    NextEntry(k - 1, 0x83852d0f, 0xb585a0cc, 0x903c98bc, 0x92670b3b, 0xc247c33f, 0xb1998e2f, 0xb6a46afe, 0xab60a4d7, 0x30362f1a);
  }

  lemma Entry18(k: nat)
    requires k == 18
    ensures Entry(k, 0x7b5a9cc3)
  {
    Entry17(k - 1);
    NextEntry(k - 1, 0x30362f1a, 0xd5d5c119, 0xfd52cf55, 0x64be7d01, 0x1bfcf7b4, 0x77638eeb, 0xcc178b62, 0x37af587e, 0x7b5a9cc3);
  }

  lemma Entry19(k: nat)
    requires k == 19
    ensures Entry(k, 0x31fec169)
  {
    Entry18(k - 1);
    NextEntry(k - 1, 0x7b5a9cc3, 0x216c9960, 0x0216c996, 0x4d930dc1, 0x196e20b8, 0xec2e612b, 0xc5a3559e, 0xac50d721, 0x31fec169);
  }

  lemma Entry20(k: nat)
    requires k == 20
    ensures Entry(k, 0x9fec022a)
  {
    Entry19(k - 1);
    NextEntry(k - 1, 0x31fec169, 0xf3107f52, 0x345f273d, 0x859620a7, 0x585c1336, 0x4837a06b, 0xcfe2c98a, 0xda288f70, 0x9fec022a);
  }

  lemma Entry21(k: nat)
    requires k == 21
    ensures Entry(k, 0x6c8dedc4)
  {
    Entry20(k - 1);
    NextEntry(k - 1, 0x9fec022a, 0xdf2863ca, 0xdb2425d4, 0x7b6e03cd, 0x816532e8, 0xe5aed00e, 0xae500f78, 0xe75d83d7, 0x6c8dedc4);
  }

  lemma Entry22(k: nat)
    requires k == 22
    ensures Entry(k, 0x15d6874d)
  {
    Entry21(k - 1);
    NextEntry(k - 1, 0x6c8dedc4, 0x70149f4c, 0x9c658b44, 0x7f1a1924, 0x712de002, 0x3c7cfec8, 0xee7f4ccc, 0x9583367c, 0x15d6874d);
  }

  lemma Entry23(k: nat)
    requires k == 23
    ensures Entry(k, 0x5fde7a4e)
  {
    Entry22(k - 1);
    NextEntry(k - 1, 0x15d6874d, 0x878ebaa0, 0x0878ebaa, 0xd6512d52, 0x360b321d, 0x85b361f5, 0x633067eb, 0xcd52b5f2, 0x5fde7a4e);
  }

  lemma Entry24(k: nat)
    requires k == 24
    ensures Entry(k, 0xbad90e37)
  {
    Entry23(k - 1);
    NextEntry(k - 1, 0x5fde7a4e, 0xa5f705dc, 0x913bb2ed, 0x8fc069fa, 0xde2aa577, 0x5de7db6b, 0xcebfce3a, 0xda3d5f0b, 0xbad90e37);
  }

  lemma Entry25(k: nat)
    requires k == 25
    ensures Entry(k, 0x2e4e5eef)
  {
    Entry24(k - 1);
    NextEntry(k - 1, 0xbad90e37, 0x5ba8e1df, 0xb8077c01, 0x163767a4, 0x77bf37ea, 0xd1ad5096, 0x40a8b451, 0x19bd9b21, 0x2e4e5eef);
  }

  lemma Entry26(k: nat)
    requires k == 26
    ensures Entry(k, 0x4eaba214)
  {
    Entry25(k - 1);
    NextEntry(k - 1, 0x2e4e5eef, 0xbf5917f2, 0x309bb1b7, 0x530cca27, 0x5535bd9e, 0xa559b9a1, 0x17e28bfe, 0xa174cac7, 0x4eaba214);
  }

  lemma Entry27(k: nat)
    requires k == 27
    ensures Entry(k, 0xa8a472c0)
  {
    Entry26(k - 1);
    NextEntry(k - 1, 0x4eaba214, 0x7236fbb1, 0x1a947fdf, 0xbc14b5e1, 0x16765b3a, 0xd7b1c65b, 0xc61aafe9, 0xfc6e39ba, 0xa8a472c0);
  }

  lemma Entry28(k: nat)
    requires k == 28
    ensures Entry(k, 0x429a969e)
  {
    Entry27(k - 1);
    NextEntry(k - 1, 0xa8a472c0, 0x0a8a472c, 0x9bcc66c2, 0x32d2e6a4, 0x75f16ffa, 0xd189b517, 0x5d1dea6d, 0x83020c72, 0x429a969e);
  }

  lemma Entry29(k: nat)
    requires k == 29
    ensures Entry(k, 0x148d302a)
  {
    Entry28(k - 1);
    NextEntry(k - 1, 0x429a969e, 0xa4234b11, 0x17f524d5, 0x6a1403b9, 0xf6aed37f, 0xb2d71f2b, 0xc04cc27e, 0xac0e2e5f, 0x148d302a);
  }

  lemma Entry30(k: nat)
    requires k == 30
    ensures Entry(k, 0xc40ba6d0)
  {
    Entry29(k - 1);
    NextEntry(k - 1, 0x148d302a, 0xd79e70ea, 0xdbaf44e6, 0x40089516, 0x49b2e809, 0xf494bdc4, 0x79950a4c, 0x9cfd9214, 0xc40ba6d0);
  }

  lemma Entry31(k: nat)
    requires k == 31
    ensures Entry(k, 0xc4e22c3c)
  {
    Entry30(k - 1);
    NextEntry(k - 1, 0xc40ba6d0, 0x0c40ba6d, 0x8617d972, 0x330f5d5f, 0xbe8d07c9, 0xfbe74338, 0xe206f713, 0x28f95fdd, 0xc4e22c3c);
  }

  lemma Entry32(k: nat)
    requires k == 32
    ensures Entry(k, 0x40000000)
  {
    Entry31(k - 1);
    NextEntry(k - 1, 0xc4e22c3c, 0x972ae073, 0x2fab9eab, 0xc99b0a66, 0x412bd1fe, 0xa4185f67, 0x5a44f4ca, 0xd372eca4, 0x40000000);
  }

  /** x2n_table as crc32.h has it. */
  const X2N_TABLE: seq<bv32> := [
    0x40000000, 0x20000000, 0x08000000, 0x00800000, 0x00008000,
    0xedb88320, 0xb1e6b092, 0xa06a2517, 0xed627dae, 0x88d14467,
    0xd7bbfe6a, 0xec447f11, 0x8e7ea170, 0x6427800e, 0x4d47bae0,
    0x09fe548f, 0x83852d0f, 0x30362f1a, 0x7b5a9cc3, 0x31fec169,
    0x9fec022a, 0x6c8dedc4, 0x15d6874d, 0x5fde7a4e, 0xbad90e37,
    0x2e4e5eef, 0x4eaba214, 0xa8a472c0, 0x429a969e, 0x148d302a,
    0xc40ba6d0, 0xc4e22c3c]

  predicate LowerHalfIs(t: seq<bv32>) {
    |t| == 32
    && t[0] == 0x40000000 && t[1] == 0x20000000 && t[2] == 0x08000000 && t[3] == 0x00800000
    && t[4] == 0x00008000 && t[5] == 0xedb88320 && t[6] == 0xb1e6b092 && t[7] == 0xa06a2517
    && t[8] == 0xed627dae && t[9] == 0x88d14467 && t[10] == 0xd7bbfe6a && t[11] == 0xec447f11
    && t[12] == 0x8e7ea170 && t[13] == 0x6427800e && t[14] == 0x4d47bae0 && t[15] == 0x09fe548f
  }

  lemma LowerHalf(t: seq<bv32>, k: nat)
    requires LowerHalfIs(t) && 0 <= k < 16
    ensures Entry(k, t[k])
  {
    match k
    case 0 => Entry0(k);
    case 1 => Entry1(k);
    case 2 => Entry2(k);
    case 3 => Entry3(k);
    case 4 => Entry4(k);
    case 5 => Entry5(k);
    case 6 => Entry6(k);
    case 7 => Entry7(k);
    case 8 => Entry8(k);
    case 9 => Entry9(k);
    case 10 => Entry10(k);
    case 11 => Entry11(k);
    case 12 => Entry12(k);
    case 13 => Entry13(k);
    case 14 => Entry14(k);
    case 15 => Entry15(k);
  }

  predicate UpperHalfIs(t: seq<bv32>) {
    |t| == 32
    && t[16] == 0x83852d0f && t[17] == 0x30362f1a && t[18] == 0x7b5a9cc3 && t[19] == 0x31fec169
    && t[20] == 0x9fec022a && t[21] == 0x6c8dedc4 && t[22] == 0x15d6874d && t[23] == 0x5fde7a4e
    && t[24] == 0xbad90e37 && t[25] == 0x2e4e5eef && t[26] == 0x4eaba214 && t[27] == 0xa8a472c0
    && t[28] == 0x429a969e && t[29] == 0x148d302a && t[30] == 0xc40ba6d0 && t[31] == 0xc4e22c3c
  }

  lemma UpperHalf(t: seq<bv32>, k: nat)
    requires UpperHalfIs(t) && 16 <= k < 32
    ensures Entry(k, t[k])
  {
    match k
    case 16 => Entry16(k);
    case 17 => Entry17(k);
    case 18 => Entry18(k);
    case 19 => Entry19(k);
    case 20 => Entry20(k);
    case 21 => Entry21(k);
    case 22 => Entry22(k);
    case 23 => Entry23(k);
    case 24 => Entry24(k);
    case 25 => Entry25(k);
    case 26 => Entry26(k);
    case 27 => Entry27(k);
    case 28 => Entry28(k);
    case 29 => Entry29(k);
    case 30 => Entry30(k);
    case 31 => Entry31(k);
  }

  /** The entries of crc32.h are those that make_crc_table computes. */
  lemma TableIsRight()
    ensures |X2N_TABLE| == 32 && PowerTable(X2N_TABLE)
  {
    assert LowerHalfIs(X2N_TABLE);
    assert UpperHalfIs(X2N_TABLE);
    var t := X2N_TABLE;
    forall k | 0 <= k < 32
      ensures Entry(k, t[k])
    {
      if k < 16 {
        LowerHalf(t, k);
      } else {
        UpperHalf(t, k);
      }
    }
  }

  /** After 32 squarings x comes back, so the table serves every power. */
  lemma Cycle()
    ensures TimesXn(Pow2(32), ONE) == TimesXn(Pow2(0), ONE)
  {
    Entry0(0);
    Entry32(32);
  }

  lemma SameSquare(j: nat, k: nat, v: bv32)
    requires Entry(j, v) && Entry(k, v)
    ensures TimesXn(Pow2(j + 1), ONE) == TimesXn(Pow2(k + 1), ONE)
  {
    SquareOfPower(j, v);
    SquareOfPower(k, v);
  }

  lemma {:induction false} CycleAgain(k: nat)
    ensures TimesXn(Pow2(k + 32), ONE) == TimesXn(Pow2(k), ONE)
  {
    if k == 0 {
      Cycle();
    } else {
      CycleAgain(k - 1);
      SameSquare(k - 1, k + 31, TimesXn(Pow2(k - 1), ONE));
    }
  }

  lemma {:induction false} EntryOf(table: seq<bv32>, k: nat)
    requires |table| == 32 && PowerTable(table)
    ensures table[k % 32] == TimesXn(Pow2(k), ONE)
    decreases k
  {
    if k >= 32 {
      EntryOf(table, k - 32);
      CycleAgain(k - 32);
      assert k % 32 == (k - 32) % 32;
    }
  }

  // x2nmodp.

  /** n * 2^k. */
  function Scaled(n: nat, k: nat): nat {
    if k == 0 then n else 2 * Scaled(n, k - 1)
  }

  /** Taking the lowest bit off n leaves an exponent that the next table entry can serve. */
  lemma {:induction false} HalveExponent(n: nat, k: nat)
    ensures Scaled(n, k) == Scaled(n / 2, k + 1) + (if n % 2 == 1 then Pow2(k) else 0)
  {
    if k > 0 {
      HalveExponent(n, k - 1);
    }
  }

  /** Multiply x^done by the k-th entry of the table. */
  method TimesEntry(t: bv32, ghost k: nat, p: bv32, ghost done: nat) returns (q: bv32)
    requires t == TimesXn(Pow2(k), ONE) && p == TimesXn(done, ONE)
    ensures q == TimesXn(Pow2(k) + done, ONE)
  {
    MulPower(Pow2(k), p);
    TimesXnAdd(Pow2(k), done, ONE);
    OneNonzero();
    TimesXnNonzero(Pow2(k), ONE);
    q := Multmodp(t, p);
  }

  /** What is in p already, and what the bits of n from k on are still to multiply in. */
  ghost predicate Powered(p: bv32, n: nat, k: nat, goal: nat) {
    Scaled(n, k) <= goal && p == TimesXn(goal - Scaled(n, k), ONE)
  }

  /** One pass of the loop in x2nmodp. */
  method PowerPass(table: seq<bv32>, n: nat, k: nat, p: bv32, ghost goal: nat) returns (q: bv32)
    requires |table| == 32 && PowerTable(table) && 0 < n && Powered(p, n, k, goal)
    ensures Powered(q, n / 2, k + 1, goal) && n / 2 < n
  {
    HalveExponent(n, k);
    q := p;
    if n % 2 == 1 {
      EntryOf(table, k);
      q := TimesEntry(table[k % 32], k, p, goal - Scaled(n, k));
    }
  }

  lemma {:induction false} NothingLeft(k: nat)
    ensures Scaled(0, k) == 0
  {
    if k > 0 {
      NothingLeft(k - 1);
    }
  }

  /** n after k shifts to the right that keep its sign, as the loop of x2nmodp makes them. */
  function Shifted(n: int, k: nat): int {
    if k == 0 then n else Shifted(n, k - 1) / 2
  }

  lemma {:induction false} ShiftedDown(n: int, k: nat)
    ensures n >= 0 ==> 0 <= Shifted(n, k) <= Max(0, n - k)
    ensures n < 0 ==> Shifted(n, k) < 0
  {
    if k > 0 {
      ShiftedDown(n, k - 1);
    }
  }

  /** The loop of x2nmodp comes to an end exactly if n is not negative. */
  lemma ShiftsEnd(n: int)
    ensures (exists k: nat :: Shifted(n, k) == 0) <==> n >= 0
  {
    if n >= 0 {
      ShiftedDown(n, n);
    } else {
      forall k: nat
        ensures Shifted(n, k) != 0
      {
        ShiftedDown(n, k);
      }
    }
  }

  /** x2nmodp: x^(n * 2^k) mod p(x), also when the table index goes past 31 and wraps. */
  method X2nmodp(table: seq<bv32>, n: nat, k: nat) returns (p: bv32)
    requires |table| == 32 && PowerTable(table)
    ensures p == TimesXn(Scaled(n, k), ONE)
  {
    p := ONE;
    var n': nat, k': nat := n, k;
    ghost var goal := Scaled(n, k);
    assert TimesXn(0, ONE) == ONE;
    while n' != 0
      invariant Powered(p, n', k', goal)
      invariant k' >= k && n' == Shifted(n, k' - k)
      decreases n'
    {
      p := PowerPass(table, n', k', p, goal);
      n', k' := n' / 2, k' + 1;
    }
    NothingLeft(k');
  }
}
