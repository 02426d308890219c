/** Bytes, and the numbers read from them. */
module Octets {
  type Byte = b: int | 0 <= b < 256

  type Bytes = seq<Byte>

  /** The byte at an index; beyond the end there is none, and specifications read zero. */
  function At(bytes: Bytes, i: nat): Byte {
    if i < |bytes| then bytes[i] else 0
  }

  function High(b: Byte): (n: nat)
    ensures n < 16
  {
    b / 16
  }

  function Low(b: Byte): (n: nat)
    ensures n < 16
  {
    b % 16
  }

  /** Two bytes, most significant first. */
  function Big16(bytes: Bytes, at: nat): (n: nat)
    ensures n < 0x1_0000
  {
    var a: int, b: int := At(bytes, at), At(bytes, at + 1);
    a * 256 + b
  }

  /** Two bytes, least significant first. */
  function Little16(bytes: Bytes, at: nat): (n: nat)
    ensures n < 0x1_0000
  {
    var a: int, b: int := At(bytes, at), At(bytes, at + 1);
    a + b * 256
  }

  function Little24(bytes: Bytes, at: nat): (n: nat)
    ensures n < 0x100_0000
  {
    Little16(bytes, at) + 0x1_0000 * At(bytes, at + 2) as int
  }

  function Little32(bytes: Bytes, at: nat): (n: nat)
    ensures n < 0x1_0000_0000
  {
    Little16(bytes, at) + 0x1_0000 * Little16(bytes, at + 2)
  }

  // ---------- Parts ----------

  /** The part stands at an index. */
  ghost predicate Holds(bytes: Bytes, at: nat, part: Bytes) {
    at + |part| <= |bytes| && forall i :: 0 <= i < |part| ==> bytes[at + i] == part[i]
  }

  lemma HoldsParts(bytes: Bytes, at: nat, first: Bytes, rest: Bytes)
    ensures Holds(bytes, at, first + rest) <==> Holds(bytes, at, first) && Holds(bytes, at + |first|, rest)
  {
    var whole := first + rest;
    if Holds(bytes, at, whole) {
      forall i | 0 <= i < |rest| ensures bytes[at + |first| + i] == rest[i] {
        assert whole[|first| + i] == rest[i];
      }
      forall i | 0 <= i < |first| ensures bytes[at + i] == first[i] {
        assert whole[i] == first[i];
      }
    }
    if Holds(bytes, at, first) && Holds(bytes, at + |first|, rest) {
      forall i | 0 <= i < |whole| ensures bytes[at + i] == whole[i] {
        if i >= |first| {
          assert bytes[at + |first| + (i - |first|)] == rest[i - |first|];
        }
      }
    }
  }

  lemma HoldsItself(bytes: Bytes)
    ensures Holds(bytes, 0, bytes)
  {
  }
}
