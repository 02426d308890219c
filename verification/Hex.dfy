/** Hexadecimal text of the Tor control port (server/src/utils/TorControl.cpp, lines 179 to 205). */
module Hex {
  import opened Wrappers
  import opened Octets

  const DIGITS: string := ['0', '1', '2', '3', '4', '5', '6', '7', '8', '9', 'A', 'B', 'C', 'D', 'E', 'F']

  /** The value of a digit of either case. */
  function Nibble(c: char): (value: Option<nat>)
    ensures value.Some? ==> value.value < 16
  {
    if '0' <= c <= '9' then Some(c as nat - '0' as nat)
    else if 'a' <= c <= 'f' then Some(c as nat - 'a' as nat + 10)
    else if 'A' <= c <= 'F' then Some(c as nat - 'A' as nat + 10)
    else None
  }

  lemma DigitRoundTrip(n: nat)
    requires n < 16
    ensures Nibble(DIGITS[n]) == Some(n)
  {
    assert n == 0 || n == 1 || n == 2 || n == 3 || n == 4 || n == 5 || n == 6 || n == 7
        || n == 8 || n == 9 || n == 10 || n == 11 || n == 12 || n == 13 || n == 14 || n == 15;
  }

  /** A digit has its place among the digits of its case, and nothing else is a digit. */
  lemma NibbleIsPlace(c: char, n: nat)
    ensures Nibble(c) == Some(n) <==> n < 16 && (c == "0123456789ABCDEF"[n] || c == "0123456789abcdef"[n])
  {
    assert "0123456789ABCDEF" == ['0', '1', '2', '3', '4', '5', '6', '7', '8', '9', 'A', 'B', 'C', 'D', 'E', 'F'];
    assert "0123456789abcdef" == ['0', '1', '2', '3', '4', '5', '6', '7', '8', '9', 'a', 'b', 'c', 'd', 'e', 'f'];
  }

  /** Two digits for every byte, upper-case. */
  ghost predicate IsHexOf(text: string, data: Bytes) {
    && |text| == 2 * |data|
    && forall i :: 0 <= i < |data| ==> text[2 * i] == DIGITS[data[i] / 16] && text[2 * i + 1] == DIGITS[data[i] % 16]
  }

  ghost predicate IsPair(high: char, low: char, b: Byte) {
    Nibble(high) == Some(b / 16) && Nibble(low) == Some(b % 16)
  }

  /** The text reads as these bytes, in either case. */
  ghost predicate ReadsAs(text: string, data: Bytes) {
    |text| == 2 * |data| && forall i :: 0 <= i < |data| ==> IsPair(text[2 * i], text[2 * i + 1], data[i])
  }

  method HexEncode(data: Bytes) returns (text: string)
    ensures IsHexOf(text, data)
  {
    var encoded := new char[2 * |data|](_ => '0');
    for index := 0 to |data|
      invariant forall i :: 0 <= i < index ==>
                  encoded[2 * i] == DIGITS[data[i] / 16] && encoded[2 * i + 1] == DIGITS[data[i] % 16]
    {
      encoded[2 * index] := DIGITS[data[index] / 16];
      encoded[2 * index + 1] := DIGITS[data[index] % 16];
    }
    return encoded[..];
  }

  lemma PairOf(high: nat, low: nat)
    requires high < 16 && low < 16
    ensures (high * 16 + low) / 16 == high && (high * 16 + low) % 16 == low
  {
  }

  /** Decodes exactly the non-empty texts that read as bytes, to those bytes. */
  method HexDecode(text: string) returns (decoded: Option<Bytes>)
    ensures decoded.Some? ==> text != "" && ReadsAs(text, decoded.value)
    ensures decoded.None? ==> text == "" || forall data :: !ReadsAs(text, data)
  {
    hide Nibble;
    if text == "" || |text| % 2 != 0 {
      return None;
    }
    var bytes := new Byte[|text| / 2](_ => 0);
    for index := 0 to bytes.Length
      invariant forall i :: 0 <= i < index ==> IsPair(text[2 * i], text[2 * i + 1], bytes[i])
    {
      var high, low := Nibble(text[2 * index]), Nibble(text[2 * index + 1]);
      if high.None? || low.None? {
        forall data ensures !ReadsAs(text, data) {
          assert |text| == 2 * |data| ==> !IsPair(text[2 * index], text[2 * index + 1], data[index]);
        }
        return None;
      }
      PairOf(high.value, low.value);
      bytes[index] := high.value * 16 + low.value;
    }
    return Some(bytes[..]);
  }

  lemma ReadingIsUnique(text: string, a: Bytes, b: Bytes)
    requires ReadsAs(text, a) && ReadsAs(text, b)
    ensures a == b
  {
    hide Nibble;
    forall i | 0 <= i < |a| ensures a[i] == b[i] {
      assert IsPair(text[2 * i], text[2 * i + 1], a[i]) && IsPair(text[2 * i], text[2 * i + 1], b[i]);
    }
  }

  /** What the encoder writes reads as what it encoded. */
  lemma HexReads(text: string, data: Bytes)
    requires IsHexOf(text, data)
    ensures ReadsAs(text, data)
  {
    hide Nibble;
    forall i | 0 <= i < |data| ensures IsPair(text[2 * i], text[2 * i + 1], data[i]) {
      DigitRoundTrip(data[i] / 16);
      DigitRoundTrip(data[i] % 16);
    }
  }

  /** Encoding and decoding again gives the data back, unless there is none. */
  method HexRoundTrip(data: Bytes) returns (again: Option<Bytes>)
    ensures again == if data == [] then None else Some(data)
  {
    var text := HexEncode(data);
    HexReads(text, data);
    again := HexDecode(text);
    if again.Some? {
      ReadingIsUnique(text, data, again.value);
    }
  }
}
