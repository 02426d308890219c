/**
 The checksum evaluated: the register that every message leaves when its checksum follows it,
 and the checksum of the chunk that ends a PNG file.
 */
module CrcValues {
  import opened Octets
  import opened Crc32
  import opened CrcDivision

  // ---------- Exclusive or by arithmetic ----------

  /** Bitwise conjunction. */
  function Meet(a: nat, b: nat): nat
    decreases a + b
  {
    if a == 0 || b == 0 then 0 else 2 * Meet(a / 2, b / 2) + (a % 2) * (b % 2)
  }

  lemma {:induction false} XorIsSum(a: nat, b: nat)
    ensures Xor(a, b) + 2 * Meet(a, b) == a + b
    decreases a + b
  {
    hide Xor, Meet;
    if a != 0 && b != 0 {
      XorIsSum(a / 2, b / 2);
      XorDigits(a, b);
      MeetDigits(a, b);
      SumOfDigits(a, b, Xor(a / 2, b / 2), Meet(a / 2, b / 2));
    } else {
      XorZero(a);
      XorCommutes(a, b);
      XorZero(b);
      MeetZero(a, b);
    }
  }

  lemma SumOfDigits(a: nat, b: nat, x: nat, m: nat)
    requires x + 2 * m == a / 2 + b / 2
    ensures 2 * x + (a + b) % 2 + 2 * (2 * m + (a % 2) * (b % 2)) == a + b
  {
    var p, q := a / 2, b / 2;
    if a % 2 == 0 {
      assert a == 2 * p && (a + b) % 2 == b % 2 && (a % 2) * (b % 2) == 0;
    } else if b % 2 == 0 {
      assert b == 2 * q && (a + b) % 2 == 1 && (a % 2) * (b % 2) == 0;
    } else {
      assert a == 2 * p + 1 && b == 2 * q + 1 && a + b == 2 * (p + q + 1);
    }
  }

  lemma MeetZero(a: nat, b: nat)
    requires a == 0 || b == 0
    ensures Meet(a, b) == 0
  {
  }

  lemma {:induction false} MeetAddsBit(n: nat, c: nat, k: nat, power: nat)
    requires power == Power2(k) && c < power
    ensures Meet(n, c + power) == Meet(n, c) + Bit(n, power)
    decreases k
  {
    if k == 0 {
      MeetOne(n);
    } else {
      var half := Power2(k - 1);
      MeetAddsBit(n / 2, c / 2, k - 1, half);
      MeetDigits(n, c);
      MeetDigits(n, c + power);
      assert (c + power) / 2 == c / 2 + half && (c + power) % 2 == c % 2;
      DivideTwice(n, half);
    }
  }

  lemma MeetOne(n: nat)
    ensures Meet(n, 1) == n % 2 && Meet(n, 0) == 0
  {
  }

  lemma MeetDigits(a: nat, b: nat)
    ensures Meet(a, b) == 2 * Meet(a / 2, b / 2) + (a % 2) * (b % 2)
  {
  }

  lemma Quotient(d: nat, q: nat, r: nat)
    requires r < d
    ensures (d * q + r) / d == q
  {
    var n := d * q + r;
    var x := n / d;
    assert d * x <= n < d * x + d;
    if x < q {
      Scaled(d, x + 1, q);
    } else if q < x {
      Scaled(d, q + 1, x);
    }
  }

  lemma Scaled(d: nat, a: nat, b: nat)
    requires a <= b
    ensures d * a <= d * b && d * (a + 1) == d * a + d
  {
  }

  lemma DivideTwice(n: nat, half: nat)
    requires half > 0
    ensures n / 2 / half == n / (2 * half)
  {
    var m, q, r := n / 2, n / 2 / half, n / 2 % half;
    assert m == half * q + r;
    Doubled(half, q);
    Quotient(2 * half, q, 2 * r + n % 2);
  }

  lemma Doubled(half: nat, x: nat)
    ensures 2 * (half * x) == (2 * half) * x
  {
  }

  /** A power of two, if a number has that bit. */
  function Bit(n: nat, power: nat): nat
    requires power > 0
  {
    if n / power % 2 == 0 then 0 else power
  }

  /** The bits a number shares with the generator. */
  function Shared(n: nat): nat {
    Bit(n, 0x0000_0020) + Bit(n, 0x0000_0100) + Bit(n, 0x0000_0200) + Bit(n, 0x0000_8000)
    + Bit(n, 0x0008_0000) + Bit(n, 0x0010_0000) + Bit(n, 0x0020_0000) + Bit(n, 0x0080_0000)
    + Bit(n, 0x0100_0000) + Bit(n, 0x0400_0000) + Bit(n, 0x0800_0000) + Bit(n, 0x2000_0000)
    + Bit(n, 0x4000_0000) + Bit(n, 0x8000_0000)
  }

  lemma PowersOfTwo()
    ensures Power2(5) == 0x20 && Power2(8) == 0x100 && Power2(9) == 0x200 && Power2(15) == 0x8000
    ensures Power2(19) == 0x8_0000 && Power2(20) == 0x10_0000 && Power2(21) == 0x20_0000 && Power2(23) == 0x80_0000
    ensures Power2(24) == 0x100_0000 && Power2(26) == 0x400_0000 && Power2(27) == 0x800_0000
    ensures Power2(29) == 0x2000_0000 && Power2(30) == 0x4000_0000 && Power2(31) == 0x8000_0000
  {
    assert Power2(8) == 256;
    assert Power2(16) == 65536;
    assert Power2(24) == 0x100_0000;
  }

  lemma SharedIsMeet(n: nat)
    ensures Meet(n, POLYNOMIAL) == Shared(n)
  {
    hide Power2, Meet;
    PowersOfTwo();
    MeetOne(n);
    MeetAddsBit(n, 0x0000_0000, 5, 0x0000_0020);
    MeetAddsBit(n, 0x0000_0020, 8, 0x0000_0100);
    MeetAddsBit(n, 0x0000_0120, 9, 0x0000_0200);
    MeetAddsBit(n, 0x0000_0320, 15, 0x0000_8000);
    MeetAddsBit(n, 0x0000_8320, 19, 0x0008_0000);
    MeetAddsBit(n, 0x0008_8320, 20, 0x0010_0000);
    MeetAddsBit(n, 0x0018_8320, 21, 0x0020_0000);
    MeetAddsBit(n, 0x0038_8320, 23, 0x0080_0000);
    MeetAddsBit(n, 0x00B8_8320, 24, 0x0100_0000);
    MeetAddsBit(n, 0x01B8_8320, 26, 0x0400_0000);
    MeetAddsBit(n, 0x05B8_8320, 27, 0x0800_0000);
    MeetAddsBit(n, 0x0DB8_8320, 29, 0x2000_0000);
    MeetAddsBit(n, 0x2DB8_8320, 30, 0x4000_0000);
    MeetAddsBit(n, 0x6DB8_8320, 31, 0x8000_0000);
  }

  lemma StepOdd(half: nat, shared: nat)
    requires Shared(half) == shared <= half
    ensures BitStep(2 * half + 1) == half + POLYNOMIAL - 2 * shared
  {
    hide Xor, Meet, Shared;
    XorIsSum(half, POLYNOMIAL);
    SharedIsMeet(half);
  }

  lemma StepEven(half: nat)
    ensures BitStep(2 * half) == half
  {
    hide Xor;
    XorZero(half);
  }

  lemma FourSteps(c0: nat, c1: nat, c2: nat, c3: nat, c4: nat)
    requires BitStep(c0) == c1 && BitStep(c1) == c2 && BitStep(c2) == c3 && BitStep(c3) == c4
    ensures BitSteps(c0, 4) == c4
  {
    hide BitStep;
    assert BitSteps(c2, 2) == BitSteps(c3, 1) == BitSteps(c4, 0);
    assert BitSteps(c0, 4) == BitSteps(c1, 3) == BitSteps(c2, 2);
  }

  lemma {:induction false} StepsTogether(c: nat, a: nat, b: nat)
    ensures BitSteps(c, a + b) == BitSteps(BitSteps(c, a), b)
    decreases a
  {
    hide BitStep;
    if a > 0 {
      StepsTogether(BitStep(c), a - 1, b);
    }
  }

  // ---------- All ones, bit by bit ----------

  lemma OddStep1()
    ensures BitStep(0xFFFF_FFFF) == 0x9247_7CDF
  {
    hide BitStep;
    StepOdd(0x7FFF_FFFF, 0x6DB8_8320);
  }

  lemma OddStep2()
    ensures BitStep(0x9247_7CDF) == 0xA49B_3D4F
  {
    hide BitStep;
    StepOdd(0x4923_BE6F, 0x4920_8220);
  }

  lemma OddStep3()
    ensures BitStep(0xA49B_3D4F) == 0xBFF5_1D87
  {
    hide BitStep;
    StepOdd(0x524D_9EA7, 0x4008_8220);
  }

  lemma OddStep4()
    ensures BitStep(0xBFF5_1D87) == 0xB242_0DE3
  {
    hide BitStep;
    StepOdd(0x5FFA_8EC3, 0x4DB8_8200);
  }

  lemma OnesSteps1()
    ensures BitSteps(0xFFFF_FFFF, 4) == 0xB242_0DE3
  {
    hide BitStep, BitSteps;
    OddStep1();
    OddStep2();
    OddStep3();
    OddStep4();
    FourSteps(0xFFFF_FFFF, 0x9247_7CDF, 0xA49B_3D4F, 0xBFF5_1D87, 0xB242_0DE3);
  }

  lemma OddStep5()
    ensures BitStep(0xB242_0DE3) == 0xB499_85D1
  {
    hide BitStep;
    StepOdd(0x5921_06F1, 0x4920_0220);
  }

  lemma OddStep6()
    ensures BitStep(0xB499_85D1) == 0xB7F4_41C8
  {
    hide BitStep;
    StepOdd(0x5A4C_C2E8, 0x4808_8220);
  }

  lemma OnesSteps2()
    ensures BitSteps(0xB242_0DE3, 4) == 0x2DFD_1072
  {
    hide BitStep, BitSteps;
    OddStep5();
    OddStep6();
    StepEven(0x5BFA_20E4);
    StepEven(0x2DFD_1072);
    FourSteps(0xB242_0DE3, 0xB499_85D1, 0xB7F4_41C8, 0x5BFA_20E4, 0x2DFD_1072);
  }

  lemma OddStep7()
    ensures BitStep(0x16FE_8839) == 0xE6C7_C73C
  {
    hide BitStep;
    StepOdd(0x0B7F_441C, 0x0938_0000);
  }

  lemma OnesSteps3()
    ensures BitSteps(0x2DFD_1072, 4) == 0x39B1_F1CF
  {
    hide BitStep, BitSteps;
    StepEven(0x16FE_8839);
    OddStep7();
    StepEven(0x7363_E39E);
    StepEven(0x39B1_F1CF);
    FourSteps(0x2DFD_1072, 0x16FE_8839, 0xE6C7_C73C, 0x7363_E39E, 0x39B1_F1CF);
  }

  lemma OddStep8()
    ensures BitStep(0x39B1_F1CF) == 0xF160_7BC7
  {
    hide BitStep;
    StepOdd(0x1CD8_F8E7, 0x0C98_8020);
  }

  lemma OddStep9()
    ensures BitStep(0xF160_7BC7) == 0x9508_BEC3
  {
    hide BitStep;
    StepOdd(0x78B0_3DE3, 0x68B0_0120);
  }

  lemma OddStep10()
    ensures BitStep(0x9508_BEC3) == 0xA73C_DC41
  {
    hide BitStep;
    StepOdd(0x4A84_5F61, 0x4880_0320);
  }

  lemma OddStep11()
    ensures BitStep(0xA73C_DC41) == 0xBE26_ED00
  {
    hide BitStep;
    StepOdd(0x539E_6E20, 0x4198_0220);
  }

  lemma OnesSteps4()
    ensures BitSteps(0x39B1_F1CF, 4) == 0xBE26_ED00
  {
    hide BitStep, BitSteps;
    OddStep8();
    OddStep9();
    OddStep10();
    OddStep11();
    FourSteps(0x39B1_F1CF, 0xF160_7BC7, 0x9508_BEC3, 0xA73C_DC41, 0xBE26_ED00);
  }

  lemma OnesSteps5()
    ensures BitSteps(0xBE26_ED00, 4) == 0x0BE2_6ED0
  {
    hide BitStep, BitSteps;
    StepEven(0x5F13_7680);
    StepEven(0x2F89_BB40);
    StepEven(0x17C4_DDA0);
    StepEven(0x0BE2_6ED0);
    FourSteps(0xBE26_ED00, 0x5F13_7680, 0x2F89_BB40, 0x17C4_DDA0, 0x0BE2_6ED0);
  }

  lemma OnesSteps6()
    ensures BitSteps(0x0BE2_6ED0, 4) == 0x00BE_26ED
  {
    hide BitStep, BitSteps;
    StepEven(0x05F1_3768);
    StepEven(0x02F8_9BB4);
    StepEven(0x017C_4DDA);
    StepEven(0x00BE_26ED);
    FourSteps(0x0BE2_6ED0, 0x05F1_3768, 0x02F8_9BB4, 0x017C_4DDA, 0x00BE_26ED);
  }

  lemma OddStep12()
    ensures BitStep(0x00BE_26ED) == 0xEDE7_9056
  {
    hide BitStep;
    StepOdd(0x005F_1376, 0x0018_0320);
  }

  lemma OddStep13()
    ensures BitStep(0x76F3_C82B) == 0xD6C1_6735
  {
    hide BitStep;
    StepOdd(0x3B79_E415, 0x2938_8000);
  }

  lemma OddStep14()
    ensures BitStep(0xD6C1_6735) == 0x86D8_30BA
  {
    hide BitStep;
    StepOdd(0x6B60_B39A, 0x6920_8300);
  }

  lemma OnesSteps7()
    ensures BitSteps(0x00BE_26ED, 4) == 0x86D8_30BA
  {
    hide BitStep, BitSteps;
    OddStep12();
    StepEven(0x76F3_C82B);
    OddStep13();
    OddStep14();
    FourSteps(0x00BE_26ED, 0xEDE7_9056, 0x76F3_C82B, 0xD6C1_6735, 0x86D8_30BA);
  }

  lemma OddStep15()
    ensures BitStep(0x436C_185D) == 0xCC0E_8F0E
  {
    hide BitStep;
    StepOdd(0x21B6_0C2E, 0x21B0_0020);
  }

  lemma OddStep16()
    ensures BitStep(0x6607_4787) == 0xDEBB_20E3
  {
    hide BitStep;
    StepOdd(0x3303_A3C3, 0x2100_8300);
  }

  lemma OnesSteps8()
    ensures BitSteps(0x86D8_30BA, 4) == 0xDEBB_20E3
  {
    hide BitStep, BitSteps;
    StepEven(0x436C_185D);
    OddStep15();
    StepEven(0x6607_4787);
    OddStep16();
    FourSteps(0x86D8_30BA, 0x436C_185D, 0xCC0E_8F0E, 0x6607_4787, 0xDEBB_20E3);
  }

  /** Thirty-two steps from all ones. */
  lemma StepsOfOnes()
    ensures BitSteps(ONES, 32) == 0xDEBB_20E3
  {
    hide BitSteps;
    OnesSteps1();
    StepsTogether(0xFFFF_FFFF, 4, 28);
    OnesSteps2();
    StepsTogether(0xB242_0DE3, 4, 24);
    OnesSteps3();
    StepsTogether(0x2DFD_1072, 4, 20);
    OnesSteps4();
    StepsTogether(0x39B1_F1CF, 4, 16);
    OnesSteps5();
    StepsTogether(0xBE26_ED00, 4, 12);
    OnesSteps6();
    StepsTogether(0x0BE2_6ED0, 4, 8);
    OnesSteps7();
    StepsTogether(0x00BE_26ED, 4, 4);
    OnesSteps8();
  }

  // ---------- Known values ----------

  /** Every message followed by its own checksum, low byte first, leaves the same register. */
  lemma ResidueIsFixed(data: Bytes)
    ensures Checksum(data) < WORD
    ensures Register(ONES, data + LowFirst(Checksum(data))) == 0xDEBB_20E3
  {
    hide Register, Xor, BitsOf, FeedBits, MessageBits, BitSteps;
    var register, sum := Register(ONES, data), Checksum(data);
    RegisterIsWord(ONES, data);
    XorWord(register, ONES);
    var bits := MessageBits(data);
    RegisterFeeds(ONES, data);
    RegisterFeeds(ONES, data + LowFirst(sum));
    MessageConcat(data, LowFirst(sum));
    LowFirstBits(sum);
    FeedConcat(ONES, bits, BitsOf(sum, 32));
    WordIsPower();
    StepsFeed(register, sum, 32);
    XorCommutes(register, ONES);
    XorUndoes(ONES, register);
    XorCommutes(register, sum);
    StepsOfOnes();
  }

  lemma MixedByte(c: nat, b: Byte, mixed: nat, next: nat)
    requires c + b - 2 * Meet(c, b) == mixed && BitSteps(mixed, 8) == next
    ensures ByteStep(c, b) == next
  {
    hide Xor, Meet, BitSteps;
    XorIsSum(c, b);
  }

  lemma MeetsOfName()
    ensures Meet(0xFFFF_FFFF, 73) == 73 && Meet(0x22FD_E946, 69) == 68
    ensures Meet(0x992B_AC53, 78) == 66 && Meet(0x639F_4775, 68) == 68
  {
    hide Power2, Meet;
    SmallPowers();
    MeetOne(0xFFFF_FFFF);
    MeetAddsBit(0xFFFF_FFFF, 1, 3, 8);
    MeetAddsBit(0xFFFF_FFFF, 9, 6, 64);
    MeetOne(0x22FD_E946);
    MeetAddsBit(0x22FD_E946, 1, 2, 4);
    MeetAddsBit(0x22FD_E946, 5, 6, 64);
    MeetOne(0x992B_AC53);
    MeetAddsBit(0x992B_AC53, 0, 1, 2);
    MeetAddsBit(0x992B_AC53, 2, 2, 4);
    MeetAddsBit(0x992B_AC53, 6, 3, 8);
    MeetAddsBit(0x992B_AC53, 14, 6, 64);
    MeetOne(0x639F_4775);
    MeetAddsBit(0x639F_4775, 0, 2, 4);
    MeetAddsBit(0x639F_4775, 4, 6, 64);
  }

  lemma SmallPowers()
    ensures Power2(1) == 2 && Power2(2) == 4 && Power2(3) == 8 && Power2(6) == 64
  {
  }

  lemma OddStep17()
    ensures BitStep(0x7FFF_FFDB) == 0xD247_7CCD
  {
    hide BitStep;
    StepOdd(0x3FFF_FFED, 0x2DB8_8320);
  }

  lemma OddStep18()
    ensures BitStep(0xD247_7CCD) == 0x849B_3D46
  {
    hide BitStep;
    StepOdd(0x6923_BE66, 0x6920_8220);
  }

  lemma NameSteps1()
    ensures BitSteps(0xFFFF_FFB6, 4) == 0x424D_9EA3
  {
    hide BitStep, BitSteps;
    StepEven(0x7FFF_FFDB);
    OddStep17();
    OddStep18();
    StepEven(0x424D_9EA3);
    FourSteps(0xFFFF_FFB6, 0x7FFF_FFDB, 0xD247_7CCD, 0x849B_3D46, 0x424D_9EA3);
  }

  lemma OddStep19()
    ensures BitStep(0x424D_9EA3) == 0xCC9E_4C71
  {
    hide BitStep;
    StepOdd(0x2126_CF51, 0x2120_8300);
  }

  lemma OddStep20()
    ensures BitStep(0xCC9E_4C71) == 0x8BF7_A518
  {
    hide BitStep;
    StepOdd(0x664F_2638, 0x6408_0220);
  }

  lemma NameSteps2()
    ensures BitSteps(0x424D_9EA3, 4) == 0x22FD_E946
  {
    hide BitStep, BitSteps;
    OddStep19();
    OddStep20();
    StepEven(0x45FB_D28C);
    StepEven(0x22FD_E946);
    FourSteps(0x424D_9EA3, 0xCC9E_4C71, 0x8BF7_A518, 0x45FB_D28C, 0x22FD_E946);
  }

  lemma OddStep21()
    ensures BitStep(0x22FD_E903) == 0xFCC6_77A1
  {
    hide BitStep;
    StepOdd(0x117E_F481, 0x0138_8000);
  }

  lemma OddStep22()
    ensures BitStep(0xFCC6_77A1) == 0x93DB_B8F0
  {
    hide BitStep;
    StepOdd(0x7E63_3BD0, 0x6C20_0300);
  }

  lemma NameSteps3()
    ensures BitSteps(0x22FD_E903, 4) == 0x24F6_EE3C
  {
    hide BitStep, BitSteps;
    OddStep21();
    OddStep22();
    StepEven(0x49ED_DC78);
    StepEven(0x24F6_EE3C);
    FourSteps(0x22FD_E903, 0xFCC6_77A1, 0x93DB_B8F0, 0x49ED_DC78, 0x24F6_EE3C);
  }

  lemma OddStep23()
    ensures BitStep(0x093D_BB8F) == 0xE926_5EE7
  {
    hide BitStep;
    StepOdd(0x049E_DDC7, 0x0498_8100);
  }

  lemma OddStep24()
    ensures BitStep(0xE926_5EE7) == 0x992B_AC53
  {
    hide BitStep;
    StepOdd(0x7493_2F73, 0x6490_0320);
  }

  lemma NameSteps4()
    ensures BitSteps(0x24F6_EE3C, 4) == 0x992B_AC53
  {
    hide BitStep, BitSteps;
    StepEven(0x127B_771E);
    StepEven(0x093D_BB8F);
    OddStep23();
    OddStep24();
    FourSteps(0x24F6_EE3C, 0x127B_771E, 0x093D_BB8F, 0xE926_5EE7, 0x992B_AC53);
  }

  lemma OddStep25()
    ensures BitStep(0x992B_AC1D) == 0xA12D_552E
  {
    hide BitStep;
    StepOdd(0x4C95_D60E, 0x4C90_8200);
  }

  lemma OddStep26()
    ensures BitStep(0x5096_AA97) == 0xC5F3_D66B
  {
    hide BitStep;
    StepOdd(0x284B_554B, 0x2808_0100);
  }

  lemma OddStep27()
    ensures BitStep(0xC5F3_D66B) == 0x8F41_6815
  {
    hide BitStep;
    StepOdd(0x62F9_EB35, 0x60B8_8320);
  }

  lemma NameSteps5()
    ensures BitSteps(0x992B_AC1D, 4) == 0x8F41_6815
  {
    hide BitStep, BitSteps;
    OddStep25();
    StepEven(0x5096_AA97);
    OddStep26();
    OddStep27();
    FourSteps(0x992B_AC1D, 0xA12D_552E, 0x5096_AA97, 0xC5F3_D66B, 0x8F41_6815);
  }

  lemma OddStep28()
    ensures BitStep(0x8F41_6815) == 0xAA18_372A
  {
    hide BitStep;
    StepOdd(0x47A0_B40A, 0x45A0_8000);
  }

  lemma OddStep29()
    ensures BitStep(0x550C_1B95) == 0xC73E_8EEA
  {
    hide BitStep;
    StepOdd(0x2A86_0DCA, 0x2880_0100);
  }

  lemma NameSteps6()
    ensures BitSteps(0x8F41_6815, 4) == 0x639F_4775
  {
    hide BitStep, BitSteps;
    OddStep28();
    StepEven(0x550C_1B95);
    OddStep29();
    StepEven(0x639F_4775);
    FourSteps(0x8F41_6815, 0xAA18_372A, 0x550C_1B95, 0xC73E_8EEA, 0x639F_4775);
  }

  lemma OddStep30()
    ensures BitStep(0x639F_4731) == 0xDC77_20B8
  {
    hide BitStep;
    StepOdd(0x31CF_A398, 0x2188_8300);
  }

  lemma NameSteps7()
    ensures BitSteps(0x639F_4731, 4) == 0x1B8E_E417
  {
    hide BitStep, BitSteps;
    OddStep30();
    StepEven(0x6E3B_905C);
    StepEven(0x371D_C82E);
    StepEven(0x1B8E_E417);
    FourSteps(0x639F_4731, 0xDC77_20B8, 0x6E3B_905C, 0x371D_C82E, 0x1B8E_E417);
  }

  lemma OddStep31()
    ensures BitStep(0x1B8E_E417) == 0xE07F_F12B
  {
    hide BitStep;
    StepOdd(0x0DC7_720B, 0x0D80_0200);
  }

  lemma OddStep32()
    ensures BitStep(0xE07F_F12B) == 0x9D87_7BB5
  {
    hide BitStep;
    StepOdd(0x703F_F895, 0x6038_8000);
  }

  lemma OddStep33()
    ensures BitStep(0x9D87_7BB5) == 0xA37B_3EFA
  {
    hide BitStep;
    StepOdd(0x4EC3_BDDA, 0x4C80_8100);
  }

  lemma NameSteps8()
    ensures BitSteps(0x1B8E_E417, 4) == 0x51BD_9F7D
  {
    hide BitStep, BitSteps;
    OddStep31();
    OddStep32();
    OddStep33();
    StepEven(0x51BD_9F7D);
    FourSteps(0x1B8E_E417, 0xE07F_F12B, 0x9D87_7BB5, 0xA37B_3EFA, 0x51BD_9F7D);
  }

  lemma NextRegister(crc: nat, data: Bytes, b: Byte)
    ensures Register(crc, data + [b]) == ByteStep(Register(crc, data), b)
  {
    assert (data + [b])[..|data|] == data;
  }

  lemma NoRegister(crc: nat)
    ensures Register(crc, []) == crc
  {
  }

  /** The register after the chunk name IEND. */
  lemma RegisterOfName()
    ensures Register(ONES, [73, 69, 78, 68]) == 0x51BD_9F7D
  {
    hide Register, ByteStep, Meet, BitSteps;
    MeetsOfName();
    NameSteps1();
    NameSteps2();
    StepsTogether(0xFFFF_FFB6, 4, 4);
    MixedByte(0xFFFF_FFFF, 73, 0xFFFF_FFB6, 0x22FD_E946);
    NameSteps3();
    NameSteps4();
    StepsTogether(0x22FD_E903, 4, 4);
    MixedByte(0x22FD_E946, 69, 0x22FD_E903, 0x992B_AC53);
    NameSteps5();
    NameSteps6();
    StepsTogether(0x992B_AC1D, 4, 4);
    MixedByte(0x992B_AC53, 78, 0x992B_AC1D, 0x639F_4775);
    NameSteps7();
    NameSteps8();
    StepsTogether(0x639F_4731, 4, 4);
    MixedByte(0x639F_4775, 68, 0x639F_4731, 0x51BD_9F7D);
    NoRegister(ONES);
    NextRegister(ONES, [], 73);
    NextRegister(ONES, [73], 69);
    NextRegister(ONES, [73, 69], 78);
    NextRegister(ONES, [73, 69, 78], 68);
    assert [73] == [] + [73] && [73, 69] == [73] + [69] && [73, 69, 78] == [73, 69] + [78];
    assert [73, 69, 78, 68] == [73, 69, 78] + [68];
  }

  lemma {:induction false} XorOnes(a: nat, k: nat)
    requires a < Power2(k)
    ensures Xor(a, Power2(k) - 1) == Power2(k) - 1 - a
    decreases k
  {
    hide Xor;
    if k == 0 {
      XorZero(a);
    } else {
      var half := Power2(k - 1);
      XorOnes(a / 2, k - 1);
      XorDigits(a, 2 * half - 1);
      OnesDigits(a, half);
    }
  }

  lemma OnesDigits(a: nat, half: nat)
    requires half > 0
    ensures (2 * half - 1) / 2 == half - 1 && (a + (2 * half - 1)) % 2 == 1 - a % 2
  {
    var h := half - 1;
    assert 2 * half - 1 == 2 * h + 1;
    assert a + (2 * half - 1) == 2 * (a / 2 + h) + (a % 2 + 1);
  }

  /** The checksum of the chunk that ends every file: its name is IEND and it has no data. */
  lemma KnownChecksum()
    ensures Checksum([73, 69, 78, 68]) == 0xAE42_6082
  {
    hide Register, Xor, Power2;
    RegisterOfName();
    WordIsPower();
    XorOnes(0x51BD_9F7D, 32);
  }
}
