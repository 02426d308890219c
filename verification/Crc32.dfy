/**
 The CRC-32 of section 3.4 of RFC 2083, computed bit by bit, and why it catches every
 change of a single byte.
 */
module Crc32 {
  import opened Octets

  const WORD: nat := 0x1_0000_0000
  const TOP: nat := 0x8000_0000
  const ONES: nat := 0xFFFF_FFFF
  const POLYNOMIAL: nat := 0xEDB8_8320

  // ---------- Exclusive or on natural numbers ----------

  function Xor(a: nat, b: nat): nat
    decreases a + b
  {
    if a == 0 && b == 0 then 0 else 2 * Xor(a / 2, b / 2) + (a + b) % 2
  }

  lemma {:induction false} XorUndoes(a: nat, b: nat)
    ensures Xor(Xor(a, b), b) == a
    decreases a + b
  {
    if a != 0 || b != 0 {
      XorUndoes(a / 2, b / 2);
      XorUndoesDigit(a, b);
    }
  }

  lemma XorUndoesDigit(a: nat, b: nat)
    requires Xor(Xor(a / 2, b / 2), b / 2) == a / 2
    ensures Xor(Xor(a, b), b) == a
  {
    hide Xor;
    var x := Xor(a, b);
    XorDigits(a, b);
    XorDigits(x, b);
    LowBit(a, b);
    LowBits(x, (a + b) % 2, b);
  }

  lemma LowBits(x: nat, y: nat, b: nat)
    requires x % 2 == y % 2
    ensures (x + b) % 2 == (y + b) % 2
  {
  }

  lemma XorDigits(a: nat, b: nat)
    ensures Xor(a, b) / 2 == Xor(a / 2, b / 2) && Xor(a, b) % 2 == (a + b) % 2
  {
  }

  lemma LowBit(a: nat, b: nat)
    ensures ((a + b) % 2 + b) % 2 == a % 2
  {
  }

  lemma {:induction false} XorCommutes(a: nat, b: nat)
    ensures Xor(a, b) == Xor(b, a)
    decreases a + b
  {
    if a != 0 || b != 0 {
      XorCommutes(a / 2, b / 2);
    }
  }

  function Power2(k: nat): nat {
    if k == 0 then 1 else 2 * Power2(k - 1)
  }

  lemma {:induction false} XorBelow(a: nat, b: nat, k: nat)
    requires a < Power2(k) && b < Power2(k)
    ensures Xor(a, b) < Power2(k)
    decreases k
  {
    if k > 0 {
      XorBelow(a / 2, b / 2, k - 1);
    }
  }

  /** Exclusive or keeps the top bit that only one side has. */
  lemma {:induction false} XorKeepsTop(a: nat, b: nat, k: nat)
    requires a < Power2(k) <= b < 2 * Power2(k)
    ensures Power2(k) <= Xor(a, b)
    decreases k
  {
    if k > 0 {
      XorKeepsTop(a / 2, b / 2, k - 1);
    }
  }

  lemma WordIsPower()
    ensures Power2(31) == TOP && Power2(32) == WORD
  {
    assert Power2(8) == 256;
    assert Power2(16) == 65536;
    assert Power2(24) == 0x100_0000;
  }

  lemma XorWord(a: nat, b: nat)
    requires a < WORD && b < WORD
    ensures Xor(a, b) < WORD
  {
    WordIsPower();
    XorBelow(a, b, 32);
  }

  // ---------- The register ----------

  /** One bit: shift right, and subtract the polynomial if a one was shifted out. */
  function BitStep(crc: nat): nat {
    Xor(crc / 2, if crc % 2 == 1 then POLYNOMIAL else 0)
  }

  function BitSteps(crc: nat, count: nat): nat
    decreases count
  {
    if count == 0 then crc else BitSteps(BitStep(crc), count - 1)
  }

  const BITS: nat := 8

  function ByteStep(crc: nat, b: Byte): nat {
    BitSteps(Xor(crc, b), BITS)
  }

  function Register(crc: nat, data: seq<Byte>): nat {
    if data == [] then crc else ByteStep(Register(crc, data[..|data| - 1]), data[|data| - 1])
  }

  function Checksum(data: seq<Byte>): nat {
    Xor(Register(ONES, data), ONES)
  }

  // ---------- Each step is injective ----------

  lemma XorZero(a: nat)
    ensures Xor(a, 0) == a
  {
    XorUndoes(a, 0);
    if a != 0 {
      XorZero(a / 2);
    }
  }

  /** The top bit of the result tells whether the polynomial was subtracted. */
  lemma BitStepTop(crc: nat)
    requires crc < WORD
    ensures BitStep(crc) < WORD
    ensures BitStep(crc) >= TOP <==> crc % 2 == 1
  {
    WordIsPower();
    XorWord(crc / 2, POLYNOMIAL);
    XorKeepsTop(crc / 2, POLYNOMIAL, 31);
    XorZero(crc / 2);
  }

  lemma BitStepInjective(c: nat, d: nat)
    requires c < WORD && d < WORD && BitStep(c) == BitStep(d)
    ensures c == d
  {
    BitStepTop(c);
    BitStepTop(d);
    var p := if c % 2 == 1 then POLYNOMIAL else 0;
    XorUndoes(c / 2, p);
    XorUndoes(d / 2, p);
  }

  lemma {:induction false} BitStepsInjective(c: nat, d: nat, count: nat)
    requires c < WORD && d < WORD
    ensures BitSteps(c, count) < WORD
    ensures BitSteps(c, count) == BitSteps(d, count) ==> c == d
    decreases count
  {
    if count > 0 {
      BitStepTop(c);
      BitStepTop(d);
      BitStepsInjective(BitStep(c), BitStep(d), count - 1);
      if BitStep(c) == BitStep(d) {
        BitStepInjective(c, d);
      }
    }
  }

  lemma ByteStepInjective(c: nat, d: nat, x: Byte, y: Byte)
    requires c < WORD && d < WORD
    ensures ByteStep(c, x) < WORD
    ensures x == y && ByteStep(c, x) == ByteStep(d, y) ==> c == d
    ensures c == d && ByteStep(c, x) == ByteStep(d, y) ==> x == y
  {
    XorWord(c, x);
    XorWord(d, y);
    BitStepsInjective(Xor(c, x), Xor(d, y), BITS);
    XorUndoes(c, x);
    XorUndoes(d, y);
    XorCommutes(c, x);
    XorCommutes(d, y);
    XorUndoes(x, c);
    XorUndoes(y, d);
  }

  lemma {:induction false} RegisterIsWord(crc: nat, data: seq<Byte>)
    requires crc < WORD
    ensures Register(crc, data) < WORD
  {
    if data != [] {
      RegisterIsWord(crc, data[..|data| - 1]);
      var before := Register(crc, data[..|data| - 1]);
      ByteStepInjective(before, before, data[|data| - 1], data[|data| - 1]);
    }
  }

  /** A difference in one byte survives the rest of the data. */
  lemma {:induction false} RegisterSeesChange(crc: nat, a: seq<Byte>, b: seq<Byte>, at: nat)
    requires crc < WORD && |a| == |b| && at < |a| && a[at] != b[at]
    requires forall i :: 0 <= i < |a| && i != at ==> a[i] == b[i]
    ensures Register(crc, a) != Register(crc, b)
  {
    var n := |a| - 1;
    RegisterIsWord(crc, a[..n]);
    RegisterIsWord(crc, b[..n]);
    ByteStepInjective(Register(crc, a[..n]), Register(crc, b[..n]), a[n], b[n]);
    if at == n {
      assert a[..n] == b[..n];
    } else {
      RegisterSeesChange(crc, a[..n], b[..n], at);
    }
  }

  /** Changing one byte of the data, whichever and however, changes the checksum. */
  lemma ChecksumSeesChange(a: seq<Byte>, b: seq<Byte>, at: nat)
    requires |a| == |b| && at < |a| && a[at] != b[at]
    requires forall i :: 0 <= i < |a| && i != at ==> a[i] == b[i]
    ensures Checksum(a) != Checksum(b)
  {
    RegisterSeesChange(ONES, a, b, at);
    XorUndoes(Register(ONES, a), ONES);
    XorUndoes(Register(ONES, b), ONES);
  }

  lemma RegisterExtends(data: seq<Byte>, b: Byte)
    ensures Register(ONES, data + [b]) == ByteStep(Register(ONES, data), b)
  {
    assert (data + [b])[..|data + [b]| - 1] == data;
  }

  lemma NothingFed(crc: nat)
    ensures Register(crc, []) == crc
  {
  }

  /** The inner loop, over the bits of one byte. */
  method FeedByte(crc: nat, b: Byte) returns (next: nat)
    ensures next == ByteStep(crc, b)
  {
    next := Xor(crc, b);
    for bit := 0 to BITS
      invariant BitSteps(next, BITS - bit) == ByteStep(crc, b)
    {
      next := Xor(next / 2, if next % 2 == 1 then POLYNOMIAL else 0);
    }
  }

  /** The outer loop, over the bytes of a range. */
  method ComputeCrc32(bytes: seq<Byte>, start: nat, end: nat) returns (result: nat)
    requires start <= end <= |bytes|
    ensures result == Checksum(bytes[start..end])
  {
    hide Register, ByteStep, Xor;
    NothingFed(ONES);
    assert bytes[start..start] == [];
    var crc := ONES;
    for at := start to end
      invariant crc == Register(ONES, bytes[start..at])
    {
      RegisterExtends(bytes[start..at], bytes[at]);
      assert bytes[start..at + 1] == bytes[start..at] + [bytes[at]];
      crc := FeedByte(crc, bytes[at]);
    }
    return Xor(crc, ONES);
  }
}
