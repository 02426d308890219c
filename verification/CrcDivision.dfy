/**
 What the checksum is: the remainder of the message, as a polynomial over the integers modulo
 two, on division by the generator of ISO 3309, with the first 32 bits of the message and the
 remainder itself complemented (section 3.4 of RFC 2083).  Bytes go low bit first.
 */
module CrcDivision {
  import opened Octets
  import opened Crc32

  // ---------- Division ----------

  /** The exponents of the generator polynomial. */
  const GENERATOR: set<nat> := {32, 26, 23, 22, 16, 12, 11, 10, 8, 7, 5, 4, 2, 1, 0}

  /** Coefficients modulo two, the highest first. */
  type Poly = seq<bool>

  /** Subtracts the generator from under the leading coefficient. */
  function Subtracted(p: Poly): (q: Poly)
    ensures |q| == |p|
  {
    seq(|p|, i requires 0 <= i < |p| => p[i] != (i <= 32 && (32 - i) in GENERATOR))
  }

  /** Long division: what is left when every coefficient above the 32 lowest has been cleared. */
  function Remainder(p: Poly): Poly
    decreases |p|
  {
    if |p| <= 32 then p
    else Remainder((if p[0] then Subtracted(p) else p)[1..])
  }

  function Complemented(p: Poly): (q: Poly)
    ensures |q| == |p|
  {
    seq(|p|, i requires 0 <= i < |p| => !p[i])
  }

  function Zeros(n: nat): (p: Poly)
    ensures |p| == n
  {
    seq(n, i => false)
  }

  /** The `count` lowest bits of a number, the lowest first. */
  function BitsOf(n: nat, count: nat): (bits: Poly)
    ensures |bits| == count
  {
    if count == 0 then [] else [n % 2 == 1] + BitsOf(n / 2, count - 1)
  }

  function MessageBits(data: Bytes): (bits: Poly)
    ensures |bits| == 8 * |data|
  {
    if data == [] then [] else MessageBits(data[..|data| - 1]) + BitsOf(data[|data| - 1], 8)
  }

  /** The message, shifted by 32 places, its first 32 coefficients complemented. */
  function Dividend(data: Bytes): Poly {
    var shifted := MessageBits(data) + Zeros(32);
    Complemented(shifted[..32]) + shifted[32..]
  }

  // ---------- Bits of exclusive or ----------

  lemma {:induction false} BitsOfXor(a: nat, b: nat, count: nat)
    ensures forall i :: 0 <= i < count ==> BitsOf(Xor(a, b), count)[i] == (BitsOf(a, count)[i] != BitsOf(b, count)[i])
  {
    hide Xor;
    if count > 0 {
      XorDigits(a, b);
      BitsOfXor(a / 2, b / 2, count - 1);
    }
  }

  lemma {:induction false} BitsOfZero(count: nat)
    ensures BitsOf(0, count) == Zeros(count)
  {
    if count > 0 {
      BitsOfZero(count - 1);
    }
  }

  /** Halving shifts the bits down. */
  lemma {:induction false} BitsOfHalf(n: nat, count: nat)
    requires n < Power2(count)
    ensures forall i :: 0 <= i < count ==> BitsOf(n / 2, count)[i] == (i + 1 < count && BitsOf(n, count)[i + 1])
  {
    if count > 0 {
      BitsOfHalf(n / 2, count - 1);
      if count == 1 {
        assert n / 2 == 0;
      }
    }
  }

  lemma {:induction false} XorSwap(a: nat, b: nat, c: nat)
    ensures Xor(Xor(a, b), c) == Xor(Xor(a, c), b)
    decreases a + b + c
  {
    if a != 0 || b != 0 || c != 0 {
      XorSwap(a / 2, b / 2, c / 2);
      XorSwapDigit(a, b, c);
    }
  }

  lemma XorSwapDigit(a: nat, b: nat, c: nat)
    requires Xor(Xor(a / 2, b / 2), c / 2) == Xor(Xor(a / 2, c / 2), b / 2)
    ensures Xor(Xor(a, b), c) == Xor(Xor(a, c), b)
  {
    hide Xor;
    XorDigits(a, b);
    XorDigits(a, c);
    XorDigits(Xor(a, b), c);
    XorDigits(Xor(a, c), b);
    LowBits(Xor(a, b), a + b, c);
    LowBits(Xor(a, c), a + c, b);
    var x, y := Xor(Xor(a, b), c), Xor(Xor(a, c), b);
    assert x == 2 * (x / 2) + x % 2 && y == 2 * (y / 2) + y % 2;
  }

  lemma Halves(low: nat, half: nat, high: nat)
    ensures (low + 2 * half * high) / 2 == low / 2 + half * high && (low + 2 * half * high) % 2 == low % 2
  {
    var product := half * high;
    assert low + 2 * half * high == low + 2 * product;
  }

  lemma {:induction false} BitsOfSum(low: nat, high: nat, k: nat, m: nat)
    requires low < Power2(k)
    ensures BitsOf(low + Power2(k) * high, k + m) == BitsOf(low, k) + BitsOf(high, m)
    decreases k
  {
    if k > 0 {
      Halves(low, Power2(k - 1), high);
      BitsOfSum(low / 2, high, k - 1, m);
    }
  }

  /** The bits of a number byte by byte, the low byte first. */
  lemma BitsOfBytes(a: Byte, rest: nat, m: nat)
    ensures BitsOf(a + 256 * rest, 8 + m) == BitsOf(a, 8) + BitsOf(rest, m)
  {
    assert Power2(8) == 256;
    BitsOfSum(a, rest, 8, m);
  }

  lemma BitsCons(n: nat, count: nat)
    ensures BitsOf(n, count + 1) == [n % 2 == 1] + BitsOf(n / 2, count)
  {
  }

  /** The four bits of half a byte. */
  lemma BitsOfNibble(n: nat)
    ensures BitsOf(n, 4) == [n % 2 == 1, n / 2 % 2 == 1, n / 2 / 2 % 2 == 1, n / 2 / 2 / 2 % 2 == 1]
  {
    hide BitsOf;
    BitsCons(n, 3);
    BitsCons(n / 2, 2);
    BitsCons(n / 2 / 2, 1);
    BitsCons(n / 2 / 2 / 2, 0);
    NoBitsOf(n / 2 / 2 / 2 / 2);
  }

  lemma BitsOfByte(low: nat, high: nat)
    requires low < 16 && high < 16
    ensures BitsOf(low + 16 * high, 8) == BitsOf(low, 4) + BitsOf(high, 4)
  {
    assert Power2(4) == 16;
    BitsOfSum(low, high, 4, 4);
  }

  lemma NoBitsOf(n: nat)
    ensures BitsOf(n, 0) == []
  {
  }

  /** The bits of a word given by its bytes, the low one first. */
  lemma BitsOfWord(a: Byte, b: Byte, c: Byte, d: Byte)
    ensures var n := a as nat + 256 * (b as nat + 256 * (c as nat + 256 * d as nat));
      BitsOf(n, 32) == BitsOf(a, 8) + (BitsOf(b, 8) + (BitsOf(c, 8) + BitsOf(d, 8)))
  {
    hide BitsOf;
    var third: nat := c as nat + 256 * d as nat;
    var second: nat := b as nat + 256 * third;
    BitsOfBytes(a, second, 24);
    BitsOfBytes(b, third, 16);
    BitsOfBytes(c, d, 8);
  }

  /** The generator below its leading coefficient, in the register's order of bits. */
  lemma PolynomialBits()
    ensures forall i :: 0 <= i < 32 ==> BitsOf(POLYNOMIAL, 32)[i] == ((31 - i) in GENERATOR)
  {
    hide BitsOf;
    BitsOfWord(0x20, 0x83, 0xB8, 0xED);
    BitsOfByte(0, 2);
    BitsOfByte(3, 8);
    BitsOfByte(8, 0xB);
    BitsOfByte(0xD, 0xE);
    BitsOfNibble(0);
    BitsOfNibble(2);
    BitsOfNibble(3);
    BitsOfNibble(8);
    BitsOfNibble(0xB);
    BitsOfNibble(0xD);
    BitsOfNibble(0xE);
    assert BitsOf(POLYNOMIAL, 32)[..8] == [false, false, false, false, false, true, false, false];
    assert BitsOf(POLYNOMIAL, 32)[8..16] == [true, true, false, false, false, false, false, true];
    assert BitsOf(POLYNOMIAL, 32)[16..24] == [false, false, false, true, true, true, false, true];
    assert BitsOf(POLYNOMIAL, 32)[24..] == [true, false, true, true, false, true, true, true];
  }

  // ---------- One bit at a time ----------

  /** Feeds one bit of the message into the register. */
  function FeedBit(crc: nat, bit: bool): nat {
    BitStep(Xor(crc, if bit then 1 else 0))
  }

  function FeedBits(crc: nat, bits: Poly): nat
    decreases |bits|
  {
    if bits == [] then crc else FeedBits(FeedBit(crc, bits[0]), bits[1..])
  }

  lemma XorSmall(crc: nat, bit: bool)
    ensures var x := Xor(crc, if bit then 1 else 0);
      x / 2 == crc / 2 && (x % 2 == 1 <==> (crc % 2 == 1) != bit)
  {
    XorDigits(crc, if bit then 1 else 0);
    XorZero(crc / 2);
  }

  lemma FeedBitIs(crc: nat, bit: bool)
    ensures FeedBit(crc, bit) == Xor(crc / 2, if (crc % 2 == 1) != bit then POLYNOMIAL else 0)
  {
    hide Xor;
    XorSmall(crc, bit);
  }

  lemma FeedBitIsWord(crc: nat, bit: bool)
    requires crc < WORD
    ensures FeedBit(crc, bit) < WORD
  {
    hide Xor;
    FeedBitIs(crc, bit);
    XorWord(crc / 2, POLYNOMIAL);
    XorZero(crc / 2);
  }

  /** Mixing all bits in first and stepping afterwards is feeding them one by one. */
  lemma {:induction false} StepsFeed(crc: nat, value: nat, count: nat)
    requires value < Power2(count)
    ensures BitSteps(Xor(crc, value), count) == FeedBits(crc, BitsOf(value, count))
    decreases count
  {
    hide Xor, BitStep, FeedBit;
    if count == 0 {
      XorZero(crc);
    } else {
      var bit := value % 2 == 1;
      MixedStep(crc, value);
      StepsFeed(FeedBit(crc, bit), value / 2, count - 1);
      assert BitsOf(value, count)[1..] == BitsOf(value / 2, count - 1);
    }
  }

  lemma MixedStep(crc: nat, value: nat)
    ensures BitStep(Xor(crc, value)) == Xor(FeedBit(crc, value % 2 == 1), value / 2)
  {
    hide Xor;
    var p := if (crc + value) % 2 == 1 then POLYNOMIAL else 0;
    XorDigits(crc, value);
    FeedBitIs(crc, value % 2 == 1);
    assert (crc % 2 == 1) != (value % 2 == 1) <==> (crc + value) % 2 == 1;
    XorSwap(crc / 2, value / 2, p);
  }

  lemma {:induction false} FeedConcat(crc: nat, a: Poly, b: Poly)
    ensures FeedBits(crc, a + b) == FeedBits(FeedBits(crc, a), b)
    decreases |a|
  {
    if a == [] {
      assert a + b == b;
    } else {
      assert (a + b)[1..] == a[1..] + b;
      FeedConcat(FeedBit(crc, a[0]), a[1..], b);
    }
  }

  lemma ByteFeeds(crc: nat, b: Byte)
    ensures ByteStep(crc, b) == FeedBits(crc, BitsOf(b, 8))
  {
    hide Xor, FeedBits, BitsOf;
    assert Power2(8) == 256;
    StepsFeed(crc, b, 8);
  }

  lemma {:induction false} RegisterFeeds(crc: nat, data: Bytes)
    ensures Register(crc, data) == FeedBits(crc, MessageBits(data))
  {
    hide ByteStep, FeedBit, BitsOf;
    if data != [] {
      var n := |data| - 1;
      RegisterFeeds(crc, data[..n]);
      ByteFeeds(Register(crc, data[..n]), data[n]);
      FeedConcat(crc, MessageBits(data[..n]), BitsOf(data[n], 8));
    }
  }

  // ---------- The register divides ----------

  /** What is still to be divided: the rest of the message with the register over its front. */
  function Mixed(register: Poly, tail: Poly): (p: Poly)
    requires |register| == 32
    ensures |p| == |tail|
  {
    seq(|tail|, i requires 0 <= i < |tail| => tail[i] != (i < 32 && register[i]))
  }

  /** One bit of division in the register. */
  function Divided(register: Poly, bit: bool): (next: Poly)
    requires |register| == 32
    ensures |next| == 32
  {
    seq(32, i requires 0 <= i < 32 =>
      (i < 31 && register[i + 1]) != (register[0] != bit && (31 - i) in GENERATOR))
  }

  lemma DivisionStep(register: Poly, tail: Poly)
    requires |register| == 32 && |tail| > 32
    ensures Remainder(Mixed(register, tail)) == Remainder(Mixed(Divided(register, tail[0]), tail[1..]))
  {
    var p := Mixed(register, tail);
    var next := (if p[0] then Subtracted(p) else p)[1..];
    var other := Mixed(Divided(register, tail[0]), tail[1..]);
    assert |next| == |other|;
    forall k | 0 <= k < |next| ensures next[k] == other[k] {
      assert next[k] == (p[k + 1] != (p[0] && k + 1 <= 32 && (32 - (k + 1)) in GENERATOR));
    }
    assert next == other;
  }

  lemma FirstBit(n: nat, count: nat)
    requires count > 0
    ensures BitsOf(n, count)[0] == (n % 2 == 1)
  {
  }

  lemma FeedDivides(crc: nat, bit: bool)
    requires crc < WORD
    ensures BitsOf(FeedBit(crc, bit), 32) == Divided(BitsOf(crc, 32), bit)
  {
    hide Xor, FeedBit, BitsOf;
    FeedBitIs(crc, bit);
    WordIsPower();
    BitsOfHalf(crc, 32);
    FirstBit(crc, 32);
    PolynomialBits();
    BitsOfXor(crc / 2, POLYNOMIAL, 32);
    XorZero(crc / 2);
    var next, divided := BitsOf(FeedBit(crc, bit), 32), Divided(BitsOf(crc, 32), bit);
    forall i | 0 <= i < 32 ensures next[i] == divided[i] {
    }
    assert next == divided;
  }

  lemma {:induction false} FeedingDivides(crc: nat, bits: Poly)
    requires crc < WORD
    ensures FeedBits(crc, bits) < WORD
    ensures Remainder(Mixed(BitsOf(crc, 32), bits + Zeros(32))) == BitsOf(FeedBits(crc, bits), 32)
    decreases |bits|
  {
    hide Remainder, FeedBit, BitsOf, Divided;
    var register, tail := BitsOf(crc, 32), bits + Zeros(32);
    if bits == [] {
      assert Mixed(register, tail) == register;
      ShortIsRemainder(register);
    } else {
      FeedBitIsWord(crc, bits[0]);
      DivisionStep(register, tail);
      FeedDivides(crc, bits[0]);
      assert tail[0] == bits[0] && tail[1..] == bits[1..] + Zeros(32);
      FeedingDivides(FeedBit(crc, bits[0]), bits[1..]);
    }
  }

  lemma ShortIsRemainder(p: Poly)
    requires |p| <= 32
    ensures Remainder(p) == p
  {
  }

  lemma OnesBits()
    ensures forall i :: 0 <= i < 32 ==> BitsOf(ONES, 32)[i]
  {
    hide BitsOf;
    BitsOfWord(0xFF, 0xFF, 0xFF, 0xFF);
    BitsOfByte(0xF, 0xF);
    BitsOfNibble(0xF);
  }

  /**
   The checksum of any message is the complement of the remainder of the message, shifted by
   32 places and with its first 32 coefficients complemented, on division by the generator.
   */
  lemma ChecksumIsRemainder(data: Bytes)
    ensures Checksum(data) < WORD
    ensures BitsOf(Checksum(data), 32) == Complemented(Remainder(Dividend(data)))
  {
    hide Remainder, Xor, Register, BitsOf, FeedBits;
    var bits := MessageBits(data);
    RegisterFeeds(ONES, data);
    FeedingDivides(ONES, bits);
    OnesBits();
    assert Mixed(BitsOf(ONES, 32), bits + Zeros(32)) == Dividend(data);
    var register := Register(ONES, data);
    XorWord(register, ONES);
    BitsOfXor(register, ONES, 32);
  }

  // ---------- The residue ----------

  /** A word as four bytes, the low one first. */
  function LowFirst(n: nat): (bytes: Bytes)
    requires n < WORD
    ensures |bytes| == 4
  {
    [n % 256, n / 256 % 256, n / 256 / 256 % 256, n / 256 / 256 / 256]
  }

  lemma LowFirstBits(n: nat)
    requires n < WORD
    ensures MessageBits(LowFirst(n)) == BitsOf(n, 32)
  {
    hide BitsOf, MessageBits;
    var bytes := LowFirst(n);
    var a, b, c, d := bytes[0], bytes[1], bytes[2], bytes[3];
    assert n == a as nat + 256 * (b as nat + 256 * (c as nat + 256 * d as nat));
    BitsOfWord(a, b, c, d);
    OneByteMore([], a);
    OneByteMore([a], b);
    OneByteMore([a, b], c);
    OneByteMore([a, b, c], d);
    NoBits();
    assert bytes == [a, b, c] + [d] && [a, b, c] == [a, b] + [c] && [a, b] == [a] + [b] && [a] == [] + [a];
    assert BitsOf(a, 8) + (BitsOf(b, 8) + (BitsOf(c, 8) + BitsOf(d, 8)))
        == ((([] + BitsOf(a, 8)) + BitsOf(b, 8)) + BitsOf(c, 8)) + BitsOf(d, 8);
  }

  lemma NoBits()
    ensures MessageBits([]) == []
  {
  }

  lemma OneByteMore(data: Bytes, b: Byte)
    ensures MessageBits(data + [b]) == MessageBits(data) + BitsOf(b, 8)
  {
    assert (data + [b])[..|data|] == data;
  }

  lemma MessageConcat(a: Bytes, b: Bytes)
    ensures MessageBits(a + b) == MessageBits(a) + MessageBits(b)
    decreases |b|
  {
    hide BitsOf, MessageBits;
    if b == [] {
      assert a + b == a;
      NoBits();
      assert MessageBits(a) + [] == MessageBits(a);
    } else {
      var n := |b| - 1;
      MessageConcat(a, b[..n]);
      OneByteMore(a + b[..n], b[n]);
      OneByteMore(b[..n], b[n]);
      assert a + b == (a + b[..n]) + [b[n]] && b == b[..n] + [b[n]];
      assert MessageBits(a) + (MessageBits(b[..n]) + BitsOf(b[n], 8))
          == (MessageBits(a) + MessageBits(b[..n])) + BitsOf(b[n], 8);
    }
  }
}
