/**
 Unpadded base64url (section 5 of RFC 4648), as the server writes its tokens and the browser
 its message ids (server/src/utils/SessionCredentials.hpp, lines 16 to 37, and
 front/chat/reliability.js, lines 5 to 9).
 */
module Base64Url {
  import opened Wrappers
  import opened Alphabets
  import opened Octets
  import opened SessionReliability

  // ---------- What the encoding is ----------

  /** The byte at an index; a group that runs out of bytes is filled with zeros. */
  function Group(data: Bytes): (n: nat)
    ensures n < 0x100_0000
  {
    var a: int, b: int, c: int := At(data, 0), At(data, 1), At(data, 2);
    a * 0x1_0000 + b * 0x100 + c
  }

  /** The four six-bit digits of a 24-bit group, as letters. */
  function Letters(alphabet: string, group: nat): (letters: string)
    requires |alphabet| == 64 && group < 0x100_0000
    ensures |letters| == 4
  {
    [alphabet[group / 0x4_0000], alphabet[group / 0x1000 % 64], alphabet[group / 64 % 64], alphabet[group % 64]]
  }

  /** Groups of three bytes become four letters; one byte left becomes two, two become three. */
  function Encode(alphabet: string, data: Bytes): string
    requires |alphabet| == 64
  {
    if data == [] then ""
    else if |data| < 3 then Letters(alphabet, Group(data))[..|data| + 1]
    else Letters(alphabet, Group(data)) + Encode(alphabet, data[3..])
  }

  function Url(data: Bytes): string {
    Base64Place(0);
    Encode(BASE64_URL, data)
  }

  // ---------- Decoding ----------

  function Digit(text: string, i: nat): nat {
    if i < |text| then Place64(text[i]) else 0
  }

  function Ungroup(text: string): nat {
    Digit(text, 0) * 0x4_0000 + Digit(text, 1) * 0x1000 + Digit(text, 2) * 64 + Digit(text, 3)
  }

  function ThreeBytes(n: nat): (bytes: Bytes)
    ensures |bytes| == 3
  {
    [n / 0x1_0000 % 256, n / 256 % 256, n % 256]
  }

  function Decode(text: string): Bytes {
    if |text| < 2 then []
    else if |text| < 4 then ThreeBytes(Ungroup(text))[..|text| - 1]
    else ThreeBytes(Ungroup(text)) + Decode(text[4..])
  }

  lemma GroupRoundTrip(data: Bytes)
    requires data != []
    ensures ThreeBytes(Group(data)) == [At(data, 0), At(data, 1), At(data, 2)]
  {
    var a: int, b: int, c: int := At(data, 0), At(data, 1), At(data, 2);
    var n := Group(data);
    assert n / 0x1_0000 == a && n / 256 == a * 256 + b;
  }

  lemma Split64(n: nat)
    requires n < 0x100_0000
    ensures n / 0x4_0000 < 64
    ensures n == (n / 0x4_0000) * 0x4_0000 + (n / 0x1000 % 64) * 0x1000 + (n / 64 % 64) * 64 + n % 64
  {
    var q := n / 64;
    var r := q / 64;
    assert n / 0x1000 == r && n / 0x4_0000 == r / 64;
    assert n == 64 * q + n % 64 && q == 64 * r + q % 64 && r == 64 * (r / 64) + r % 64;
  }

  lemma DigitsRoundTrip(group: nat)
    requires group < 0x100_0000
    ensures |BASE64_URL| == 64
    ensures var t := Letters(BASE64_URL, group);
            && Ungroup(t) == group
            && Place64(t[2]) == group / 64 % 64 && Place64(t[3]) == group % 64
  {
    hide BASE64_URL, Place64;
    Split64(group);
    Base64Place(group / 0x4_0000);
    Base64Place(group / 0x1000 % 64);
    Base64Place(group / 64 % 64);
    Base64Place(group % 64);
  }

  lemma NoSecondNoThird(data: Bytes)
    requires 0 < |data| < 3
    ensures Group(data) % 64 == 0
    ensures |data| == 1 ==> Group(data) / 64 % 64 == 0
  {
  }

  /** A short group's missing letters stand for zeros, which is what they would have been. */
  lemma ShortGroup(data: Bytes)
    requires 0 < |data| < 3
    ensures |BASE64_URL| == 64 && Ungroup(Letters(BASE64_URL, Group(data))[..|data| + 1]) == Group(data)
  {
    hide BASE64_URL, Place64, Letters, Group;
    NoSecondNoThird(data);
    DigitsRoundTrip(Group(data));
  }

  /** Decoding inverts encoding, for every number of bytes. */
  lemma {:induction false} DecodeInverts(data: Bytes)
    ensures Decode(Url(data)) == data
  {
    hide Letters, Ungroup, Group, ThreeBytes;
    if data == [] {
    } else if |data| < 3 {
      ShortGroup(data);
      GroupRoundTrip(data);
      assert [At(data, 0), At(data, 1), At(data, 2)][..|data|] == data;
    } else {
      var head, rest := Letters(BASE64_URL, Group(data)), Url(data[3..]);
      DecodeInverts(data[3..]);
      DigitsRoundTrip(Group(data));
      GroupRoundTrip(data);
      UngroupPrefix(head, rest);
      assert (head + rest)[4..] == rest;
      assert data == [data[0], data[1], data[2]] + data[3..];
    }
  }

  lemma UngroupPrefix(head: string, rest: string)
    requires |head| == 4
    ensures Ungroup(head + rest) == Ungroup(head)
  {
  }

  lemma UrlIsInjective(a: Bytes, b: Bytes)
    requires Url(a) == Url(b)
    ensures a == b
  {
    DecodeInverts(a);
    DecodeInverts(b);
  }

  // ---------- Length and alphabet ----------

  lemma {:induction false} EncodeLength(alphabet: string, data: Bytes)
    requires |alphabet| == 64
    ensures |Encode(alphabet, data)| == (4 * |data| + 2) / 3
    ensures forall i :: 0 <= i < |Encode(alphabet, data)| ==> Encode(alphabet, data)[i] in alphabet
  {
    if |data| >= 3 {
      EncodeLength(alphabet, data[3..]);
      assert (4 * |data| + 2) / 3 == 4 + (4 * |data[3..]| + 2) / 3;
    }
  }

  lemma InAlphabet(c: char)
    requires c in BASE64_URL
    ensures IsBase64UrlChar(c) && c != '='
  {
    var d :| 0 <= d < |BASE64_URL| && BASE64_URL[d] == c;
    Base64Place(0);
    Base64Place(d);
  }

  /** The encoding of `n` bytes passes the server's check for an id of `n` bytes. */
  lemma UrlIsValid(data: Bytes)
    ensures ValidBase64UrlId(Url(data), |data|)
    ensures |data| == 16 ==> ValidClientMessageId(Url(data)) && |Url(data)| == 22
  {
    Base64Place(0);
    EncodeLength(BASE64_URL, data);
    forall i | 0 <= i < |Url(data)| ensures IsBase64UrlChar(Url(data)[i]) {
      InAlphabet(Url(data)[i]);
    }
  }

  // ---------- The server's encoder ----------

  /** Shifts and masks on three bytes give the digits of the group. */
  lemma Sextets(rest: Bytes, first: Byte, second: Byte, third: Byte)
    requires first == At(rest, 0) && second == At(rest, 1) && third == At(rest, 2)
    ensures var n := Group(rest);
            && n / 0x4_0000 == first / 4 && n / 0x1000 % 64 == first % 4 * 16 + second / 16
            && n / 64 % 64 == second % 16 * 4 + third / 64 && n % 64 == third % 64
  {
    var a: int, b: int, c: int := first, second, third;
    FromDigits(a / 4, a % 4 * 16 + b / 16, b % 16 * 4 + c / 64, c % 64);
    assert a == a / 4 * 4 + a % 4 && b == b / 16 * 16 + b % 16 && c == c / 64 * 64 + c % 64;
  }

  lemma FromDigits(w: nat, x: nat, y: nat, z: nat)
    requires w < 64 && x < 64 && y < 64 && z < 64
    ensures var n := w * 0x4_0000 + x * 0x1000 + y * 64 + z;
            n / 0x4_0000 == w && n / 0x1000 % 64 == x && n / 64 % 64 == y && n % 64 == z
  {
    var n := w * 0x4_0000 + x * 0x1000 + y * 64 + z;
    assert n / 64 == w * 0x1000 + x * 64 + y && n / 0x1000 == w * 64 + x;
  }

  function Pieces(first: Byte, second: Byte, third: Byte): (letters: string)
    ensures |letters| == 4
  {
    Base64Place(0);
    [BASE64_URL[first / 4], BASE64_URL[first % 4 * 16 + second / 16],
     BASE64_URL[second % 16 * 4 + third / 64], BASE64_URL[third % 64]]
  }

  /** The letters pushed for the bytes at `i` are the encoding's next letters. */
  lemma NextLetters(data: Bytes, i: nat, first: Byte, second: Byte, third: Byte)
    requires i < |data|
    requires first == At(data, i) && second == At(data, i + 1) && third == At(data, i + 2)
    ensures Url(data[i..]) == if i + 3 <= |data| then Pieces(first, second, third) + Url(data[i + 3..])
                              else Pieces(first, second, third)[..|data| - i + 1]
  {
    hide BASE64_URL, Group;
    Base64Place(0);
    var rest := data[i..];
    Sextets(rest, first, second, third);
    assert Letters(BASE64_URL, Group(rest)) == Pieces(first, second, third);
    if i + 3 <= |data| {
      assert rest[3..] == data[i + 3..];
    }
  }

  method EncodeUrl(data: Bytes) returns (result: string)
    ensures result == Url(data)
  {
    hide Encode, Letters, Group, Place64, BASE64_URL, Url;
    Base64Place(0);
    result := "";
    var i, size := 0, |data|;
    assert data[0..] == data;
    while i < size
      invariant if i <= size then result + Url(data[i..]) == Url(data) else result == Url(data)
    {
      var first := data[i];
      var second := if i + 1 < size then data[i + 1] else 0;
      var third := if i + 2 < size then data[i + 2] else 0;
      NextLetters(data, i, first, second, third);
      ghost var before, letters := result, Pieces(first, second, third);
      result := result + [BASE64_URL[first / 4]];
      result := result + [BASE64_URL[first % 4 * 16 + second / 16]];
      assert result == before + letters[..2];
      if i + 1 < size {
        result := result + [BASE64_URL[second % 16 * 4 + third / 64]];
        assert result == before + letters[..3];
      }
      if i + 2 < size {
        result := result + [BASE64_URL[third % 64]];
        assert result == before + letters;
      }
      i := i + 3;
    }
    NothingLeft(data);
  }

  lemma NothingLeft(data: Bytes)
    ensures Url(data[|data|..]) == ""
  {
  }

  /** A resume token, from 32 random bytes if there are any. */
  method MakeResumeToken(random: Option<Bytes>) returns (made: bool, token: string)
    requires random.Some? ==> |random.value| == 32
    ensures made <==> random.Some?
    ensures made ==> ValidBase64UrlId(token, 32) && Decode(token) == random.value
  {
    if random.None? {
      return false, "";
    }
    token := EncodeUrl(random.value);
    UrlIsValid(random.value);
    DecodeInverts(random.value);
    return ValidBase64UrlId(token, 32), token;
  }

  // ---------- The browser's encoder ----------

  function Padding(n: nat): string {
    if n == 0 then "" else Padding(n - 1) + "="
  }

  /** Padded base64 (section 4 of RFC 4648), as the browser's `btoa` writes it. */
  function Btoa(data: Bytes): string {
    Base64Place(0);
    Encode(BASE64, data) + Padding((3 - |data| % 3) % 3)
  }

  function Swap(text: string): string {
    if text == "" then ""
    else
      var c := text[0];
      [if c == '+' then '-' else if c == '/' then '_' else c] + Swap(text[1..])
  }

  function Strip(text: string): string {
    if text != "" && text[|text| - 1] == '=' then Strip(text[..|text| - 1]) else text
  }

  function RandomId(random: Bytes): string {
    Strip(Swap(Btoa(random)))
  }

  lemma {:induction false} SwapConcat(a: string, b: string)
    ensures Swap(a + b) == Swap(a) + Swap(b)
  {
    if a == "" {
      assert a + b == b;
    } else {
      SwapConcat(a[1..], b);
      assert (a + b)[1..] == a[1..] + b;
    }
  }

  lemma SwapLetters(group: nat, k: nat)
    requires group < 0x100_0000 && k <= 4
    ensures |BASE64| == |BASE64_URL| == 64
    ensures Swap(Letters(BASE64, group)[..k]) == Letters(BASE64_URL, group)[..k]
  {
    Base64Place(group / 0x4_0000);
    Base64Place(group / 0x1000 % 64);
    Base64Place(group / 64 % 64);
    Base64Place(group % 64);
    var from, to := Letters(BASE64, group)[..k], Letters(BASE64_URL, group)[..k];
    forall i | 0 <= i < k ensures to[i] == if from[i] == '+' then '-' else if from[i] == '/' then '_' else from[i] {
    }
    SwapAll(from, to);
  }

  lemma {:induction false} SwapAll(from: string, to: string)
    requires |from| == |to|
    requires forall i :: 0 <= i < |from| ==>
               to[i] == if from[i] == '+' then '-' else if from[i] == '/' then '_' else from[i]
    ensures Swap(from) == to
  {
    if from != "" {
      SwapAll(from[1..], to[1..]);
      assert to == [to[0]] + to[1..];
    }
  }

  lemma {:induction false} SwapEncode(data: Bytes)
    ensures |BASE64| == 64 && Swap(Encode(BASE64, data)) == Url(data)
  {
    hide Letters, Group;
    Base64Place(0);
    if data == [] {
    } else if |data| < 3 {
      SwapLetters(Group(data), |data| + 1);
    } else {
      var head := Letters(BASE64, Group(data));
      SwapLetters(Group(data), 4);
      assert head[..4] == head && Letters(BASE64_URL, Group(data))[..4] == Letters(BASE64_URL, Group(data));
      SwapConcat(head, Encode(BASE64, data[3..]));
      SwapEncode(data[3..]);
    }
  }

  lemma {:induction false} SwapPadding(n: nat)
    ensures Swap(Padding(n)) == Padding(n)
  {
    if n > 0 {
      SwapConcat(Padding(n - 1), "=");
      SwapPadding(n - 1);
      assert Swap("=") == ['='] + Swap("=" [1..]);
    }
  }

  lemma StripOne(text: string)
    ensures Strip(text + "=") == Strip(text)
  {
    assert (text + "=")[..|text|] == text;
  }

  lemma {:induction false} StripPadding(text: string, n: nat)
    requires text != "" ==> text[|text| - 1] != '='
    ensures Strip(text + Padding(n)) == text
  {
    if n == 0 {
      assert text + Padding(0) == text;
    } else {
      StripPadding(text, n - 1);
      StripOne(text + Padding(n - 1));
      OnePaddingMore(text, n);
    }
  }

  lemma OnePaddingMore(text: string, n: nat)
    requires n > 0
    ensures text + Padding(n) == (text + Padding(n - 1)) + "="
  {
  }

  lemma LastIsNoPadding(data: Bytes)
    ensures Url(data) != "" ==> Url(data)[|Url(data)| - 1] != '='
  {
    if Url(data) != "" {
      Base64Place(0);
      EncodeLength(BASE64_URL, data);
      InAlphabet(Url(data)[|Url(data)| - 1]);
    }
  }

  lemma SwapBtoa(data: Bytes)
    ensures Swap(Btoa(data)) == Url(data) + Padding((3 - |data| % 3) % 3)
  {
    hide Encode, Swap, Padding, Url;
    Base64Place(0);
    var n := (3 - |data| % 3) % 3;
    SwapConcat(Encode(BASE64, data), Padding(n));
    SwapEncode(data);
    SwapPadding(n);
  }

  /** The browser's id is the server's encoding of the same bytes. */
  lemma RandomIdIsUrl(random: Bytes)
    ensures RandomId(random) == Url(random)
  {
    hide Btoa, Swap, Padding, Url, Strip;
    SwapBtoa(random);
    LastIsNoPadding(random);
    StripPadding(Url(random), (3 - |random| % 3) % 3);
  }

  /** Sixteen random bytes give the browser an id that the server accepts, and no others give it. */
  lemma RandomIdIsAccepted(random: Bytes, other: Bytes)
    requires |random| == 16
    ensures ValidClientMessageId(RandomId(random))
    ensures RandomId(other) == RandomId(random) ==> other == random
  {
    RandomIdIsUrl(random);
    RandomIdIsUrl(other);
    UrlIsValid(random);
    if Url(other) == Url(random) {
      UrlIsInjective(other, random);
    }
  }
}
