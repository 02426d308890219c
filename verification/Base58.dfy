/** Room ids in Base58 (docs/landing-example/room.js, lines 16 to 40). */
module Base58 {
  import opened Alphabets
  import opened Octets

  const ALPHABET: string := BASE58

  const BASE: nat := 58

  type Digit = d: int | 0 <= d < 58

  // ---------- What the encoding is ----------

  /** The bytes as one number, most significant first. */
  ghost function Number(bytes: Bytes): nat {
    if bytes == [] then 0 else Number(bytes[..|bytes| - 1]) * 256 + bytes[|bytes| - 1]
  }

  ghost function LeadingZeros(bytes: Bytes): nat {
    if bytes == [] || bytes[0] != 0 then 0 else 1 + LeadingZeros(bytes[1..])
  }

  /** A number in positional notation, without leading zeros; zero has no digits. */
  ghost function Numeral(n: nat): string {
    if n == 0 then "" else Numeral(n / BASE) + [Letter(n % BASE)]
  }

  function Letter(d: Digit): char {
    Base58Place(d);
    ALPHABET[d]
  }

  ghost function Ones(n: nat): (s: string)
    ensures |s| == n && forall i :: 0 <= i < n ==> s[i] == '1'
  {
    if n == 0 then "" else "1" + Ones(n - 1)
  }

  /** A '1' for each leading zero byte, then the numeral of the number. */
  ghost function Encoding(bytes: Bytes): string {
    Ones(LeadingZeros(bytes)) + Numeral(Number(bytes))
  }

  // ---------- Decoding ----------

  function TextValue(text: string): nat {
    if text == "" then 0 else TextValue(text[..|text| - 1]) * BASE + Place58(text[|text| - 1])
  }

  function LeadingOnes(text: string): (n: nat)
    ensures n <= |text|
  {
    if text == "" || text[0] != '1' then 0 else 1 + LeadingOnes(text[1..])
  }

  function Zeros(n: nat): Bytes {
    if n == 0 then [] else [0] + Zeros(n - 1)
  }

  function BytesOf(n: nat): Bytes {
    if n == 0 then [] else BytesOf(n / 256) + [n % 256]
  }

  /** The decoder of the format: leading '1's are zero bytes, the rest is a number. */
  function Decode(text: string): Bytes {
    var n := LeadingOnes(text);
    Zeros(n) + BytesOf(TextValue(text[n..]))
  }

  // ---------- Decoding inverts encoding ----------

  lemma LetterRoundTrip(d: Digit)
    ensures Place58(Letter(d)) == d
    ensures d > 0 ==> Letter(d) != '1'
  {
    Base58Place(d);
  }

  lemma {:induction false} NumeralRoundTrip(n: nat)
    ensures TextValue(Numeral(n)) == n
    ensures n > 0 ==> Numeral(n) != "" && Numeral(n)[0] != '1'
  {
    if n > 0 {
      var rest, last := Numeral(n / BASE), Letter(n % BASE);
      NumeralRoundTrip(n / BASE);
      LetterRoundTrip(n % BASE);
      assert (rest + [last])[..|rest|] == rest;
      assert n / BASE == 0 ==> n % BASE == n;
    }
  }

  lemma {:induction false} BytesRoundTrip(bytes: Bytes)
    requires bytes != [] ==> bytes[0] != 0
    ensures BytesOf(Number(bytes)) == bytes
    ensures bytes != [] ==> Number(bytes) > 0
  {
    if bytes != [] {
      var n := |bytes| - 1;
      BytesRoundTrip(bytes[..n]);
      var high, low := Number(bytes[..n]), bytes[n] as int;
      assert (high * 256 + low) / 256 == high && (high * 256 + low) % 256 == low;
      assert bytes == bytes[..n] + [bytes[n]];
    }
  }

  lemma {:induction false} StripZeros(bytes: Bytes)
    ensures LeadingZeros(bytes) <= |bytes|
    ensures var rest := bytes[LeadingZeros(bytes)..];
            && bytes == Zeros(LeadingZeros(bytes)) + rest && Number(rest) == Number(bytes)
            && (rest != [] ==> rest[0] != 0)
  {
    hide Number;
    if bytes != [] && bytes[0] == 0 {
      StripZeros(bytes[1..]);
      var n := LeadingZeros(bytes[1..]);
      var rest := bytes[n + 1..];
      assert bytes[1..][n..] == rest;
      assert LeadingZeros(bytes) == n + 1 && Zeros(n + 1) == [0] + Zeros(n);
      assert [0] + (Zeros(n) + rest) == ([0] + Zeros(n)) + rest;
      assert bytes == [0] + bytes[1..];
      ZeroInFront(bytes);
    } else {
      assert bytes[0..] == bytes;
    }
  }

  lemma {:induction false} ZeroInFront(bytes: Bytes)
    requires bytes != [] && bytes[0] == 0
    ensures Number(bytes[1..]) == Number(bytes)
  {
    var n := |bytes| - 1;
    if n > 0 {
      ZeroInFront(bytes[..n]);
      assert bytes[1..][..n - 1] == bytes[..n][1..];
    }
  }

  lemma {:induction false} OnesInFront(n: nat, text: string)
    requires text != "" ==> text[0] != '1'
    ensures LeadingOnes(Ones(n) + text) == n
  {
    if n > 0 {
      OnesInFront(n - 1, text);
      assert (Ones(n) + text)[1..] == Ones(n - 1) + text;
    } else {
      assert Ones(0) + text == text;
    }
  }

  /** Decoding inverts encoding, for every byte string. */
  lemma DecodeInverts(bytes: Bytes)
    ensures Decode(Encoding(bytes)) == bytes
  {
    StripZeros(bytes);
    var n := LeadingZeros(bytes);
    var rest := bytes[n..];
    BytesRoundTrip(rest);
    NumeralRoundTrip(Number(bytes));
    OnesInFront(n, Numeral(Number(bytes)));
    assert Encoding(bytes)[n..] == Numeral(Number(bytes));
  }

  /** So different random bytes give different room ids. */
  lemma EncodingIsInjective(a: Bytes, b: Bytes)
    requires Encoding(a) == Encoding(b)
    ensures a == b
  {
    DecodeInverts(a);
    DecodeInverts(b);
  }

  // ---------- The digit list ----------

  /** The value of a digit list, least significant first; entries may be above the base. */
  ghost function Value(digits: seq<nat>): nat {
    if digits == [] then 0 else digits[0] + BASE * Value(digits[1..])
  }

  ghost function Power(k: nat): nat {
    if k == 0 then 1 else BASE * Power(k - 1)
  }

  ghost predicate AllDigits(digits: seq<nat>) {
    forall i :: 0 <= i < |digits| ==> digits[i] < BASE
  }

  lemma {:induction false} ValueAppend(digits: seq<nat>, d: nat)
    ensures Value(digits + [d]) == Value(digits) + Power(|digits|) * d
  {
    if digits == [] {
      assert [d][1..] == [];
    } else {
      ValueAppend(digits[1..], d);
      assert (digits + [d])[1..] == digits[1..] + [d];
      Distribute(Value(digits[1..]), Power(|digits| - 1), d);
    }
  }

  lemma Distribute(value: nat, power: nat, d: nat)
    ensures BASE * (value + power * d) == BASE * value + (BASE * power) * d
  {
  }

  lemma {:induction false} ValueShift(digits: seq<nat>, shifted: seq<nat>)
    requires |shifted| == |digits| && forall i :: 0 <= i < |digits| ==> shifted[i] == 256 * digits[i]
    ensures Value(shifted) == 256 * Value(digits)
  {
    if digits != [] {
      ValueShift(digits[1..], shifted[1..]);
    }
  }

  lemma CarryOn(done: nat, power: nat, carry: nat, digit: nat, rest: nat)
    ensures done + power * (carry + (digit + BASE * rest))
         == (done + power * ((digit + carry) % BASE)) + (BASE * power) * ((digit + carry) / BASE + rest)
  {
    var d := digit + carry;
    var low, high := d % BASE, d / BASE;
    assert carry + (digit + BASE * rest) == low + BASE * (high + rest);
    Spread(power, low, high + rest);
  }

  lemma Spread(power: nat, low: nat, high: nat)
    ensures power * (low + BASE * high) == power * low + (BASE * power) * high
  {
  }

  // ---------- The encoder ----------

  /** No leading zero, save for the single digit of zero. */
  ghost predicate Canonical(digits: seq<nat>) {
    digits != [] && AllDigits(digits) && (|digits| > 1 ==> digits[|digits| - 1] > 0)
  }

  /** Multiply every digit by 256. */
  method Shift(digits: seq<nat>) returns (shifted: seq<nat>)
    ensures |shifted| == |digits| && forall i :: 0 <= i < |digits| ==> shifted[i] == 256 * digits[i]
    ensures Value(shifted) == 256 * Value(digits)
  {
    shifted := digits;
    for j := 0 to |digits|
      invariant |shifted| == |digits|
      invariant forall i :: 0 <= i < j ==> shifted[i] == 256 * digits[i]
      invariant forall i :: j <= i < |digits| ==> shifted[i] == digits[i]
    {
      shifted := shifted[j := 256 * shifted[j]];
    }
    ValueShift(digits, shifted);
  }

  lemma SplitNext(loaded: seq<nat>, j: nat)
    requires j < |loaded|
    ensures Value(loaded[j..]) == loaded[j] + BASE * Value(loaded[j + 1..])
  {
    assert loaded[j..][1..] == loaded[j + 1..];
  }

  /** One step of the carry keeps the value. */
  lemma CarryStep(digits: seq<nat>, carry: nat, digit: nat, rest: nat)
    requires AllDigits(digits)
    ensures var next := digits + [(digit + carry) % BASE];
      && AllDigits(next)
      && Value(next) + Power(|next|) * ((digit + carry) / BASE + rest)
           == Value(digits) + Power(|digits|) * (carry + (digit + BASE * rest))
  {
    CarryOn(Value(digits), Power(|digits|), carry, digit, rest);
    ValueAppend(digits, (digit + carry) % BASE);
  }

  lemma CarryNothing(value: nat)
    ensures Value([]) + Power(0) * (0 + value) == value
  {
  }

  lemma NothingLeft(loaded: seq<nat>)
    ensures Value(loaded[|loaded|..]) == 0
  {
  }

  /** Bring every entry below the base, carrying upwards, and append what is carried out. */
  method Carry(loaded: seq<nat>) returns (digits: seq<nat>)
    requires loaded != [] && (|loaded| > 1 ==> loaded[|loaded| - 1] >= BASE)
    ensures Canonical(digits) && Value(digits) == Value(loaded)
  {
    hide Value, Power;
    digits := [];
    var carry: nat := 0;
    assert loaded[0..] == loaded;
    CarryNothing(Value(loaded));
    for j := 0 to |loaded|
      invariant |digits| == j && AllDigits(digits)
      invariant Value(digits) + Power(j) * (carry + Value(loaded[j..])) == Value(loaded)
      invariant j > 0 ==> carry >= loaded[j - 1] / BASE
    {
      SplitNext(loaded, j);
      CarryStep(digits, carry, loaded[j], Value(loaded[j + 1..]));
      var digit := loaded[j] + carry;
      digits, carry := digits + [digit % BASE], digit / BASE;
    }
    NothingLeft(loaded);
    assert carry == 0 ==> |digits| == 1;
    while carry != 0
      invariant digits != [] && AllDigits(digits)
      invariant Value(digits) + Power(|digits|) * carry == Value(loaded)
      invariant carry == 0 ==> Canonical(digits)
      decreases carry
    {
      CarryStep(digits, carry, 0, 0);
      digits, carry := digits + [carry % BASE], carry / BASE;
    }
    assert Power(|digits|) * 0 == 0;
  }

  ghost function Written(digits: seq<nat>): string
    requires AllDigits(digits)
  {
    if digits == [] then "" else Written(digits[1..]) + [Letter(digits[0])]
  }

  lemma LetterOfZero()
    ensures Letter(0) == '1'
  {
    Base58Place(0);
  }

  lemma {:induction false} WrittenIsNumeral(digits: seq<nat>)
    requires Canonical(digits)
    ensures Written(digits) == if Value(digits) == 0 then "1" else Numeral(Value(digits))
    ensures |digits| > 1 ==> Value(digits) > 0
  {
    var n, d := Value(digits), digits[0];
    assert n == d + BASE * Value(digits[1..]);
    if |digits| == 1 {
      assert digits[1..] == [] && n == d;
      assert Written(digits) == Written([]) + [Letter(d)];
      LetterOfZero();
      assert n > 0 ==> Numeral(n) == Numeral(0) + [Letter(d)];
    } else {
      var rest := digits[1..];
      assert rest[|rest| - 1] == digits[|digits| - 1];
      WrittenIsNumeral(rest);
      assert |rest| == 1 ==> Value(rest) == rest[0] + BASE * Value([]);
      assert n / BASE == Value(rest) && n % BASE == d;
    }
  }

  lemma ZeroNumber(bytes: Bytes)
    ensures Number(bytes) == 0 <==> LeadingZeros(bytes) == |bytes|
  {
    StripZeros(bytes);
    BytesRoundTrip(bytes[LeadingZeros(bytes)..]);
  }

  lemma {:induction false} ZerosCounted(bytes: Bytes, k: nat)
    requires k <= |bytes| && forall i :: 0 <= i < k ==> bytes[i] == 0
    ensures LeadingZeros(bytes) >= k && (k < |bytes| && bytes[k] != 0 ==> LeadingZeros(bytes) == k)
  {
    if k > 0 {
      ZerosCounted(bytes[1..], k - 1);
    }
  }

  lemma OneMore(k: nat)
    ensures Ones(k) + "1" == Ones(k + 1)
  {
  }

  /** Zeros before the last byte become ones; a number that is zero is itself written '1'. */
  lemma OnesThenDigits(buffer: Bytes, k: nat, text: string)
    requires k < |buffer| && (forall i :: 0 <= i < k ==> buffer[i] == 0)
    requires k == |buffer| - 1 || buffer[k] != 0
    requires text == if Number(buffer) == 0 then "1" else Numeral(Number(buffer))
    ensures Ones(k) + text == Encoding(buffer)
  {
    hide Ones, Number, LeadingZeros;
    ZerosCounted(buffer, k);
    ZeroNumber(buffer);
    if buffer[k] == 0 {
      ZerosCounted(buffer, k + 1);
      StripZeros(buffer);
      OneMore(k);
      assert Ones(k + 1) + "" == Ones(k + 1);
    }
  }

  /** The digits of the whole buffer's number. */
  method DigitsOf(buffer: Bytes) returns (digits: seq<nat>)
    ensures Canonical(digits) && Value(digits) == Number(buffer)
  {
    digits := [0];
    assert buffer[..0] == [] && Value([0]) == 0 + BASE * Value([]);
    for i := 0 to |buffer|
      invariant Canonical(digits) && Value(digits) == Number(buffer[..i])
    {
      assert buffer[..i + 1][..i] == buffer[..i];
      var shifted := Shift(digits);
      var loaded := shifted[0 := shifted[0] + buffer[i]];
      assert loaded[1..] == shifted[1..];
      digits := Carry(loaded);
    }
    assert buffer[..|buffer|] == buffer;
  }

  /** The digits as letters, most significant first. */
  method Spell(digits: seq<nat>) returns (str: string)
    requires AllDigits(digits)
    ensures str == Written(digits)
  {
    Base58Place(0);
    str := "";
    var k := |digits|;
    assert digits[k..] == [];
    while k > 0
      invariant k <= |digits| && str == Written(digits[k..])
    {
      k := k - 1;
      assert digits[k..][1..] == digits[k + 1..];
      str := str + [ALPHABET[digits[k]]];
    }
    assert digits[0..] == digits;
  }

  /** The encoder computes the encoding. */
  method EncodeBase58(buffer: Bytes) returns (str: string)
    ensures str == Encoding(buffer)
  {
    hide Value, Number, Numeral, Written, Ones, Encoding;
    if |buffer| == 0 {
      NothingEncoded();
      return "";
    }
    var digits := DigitsOf(buffer);
    str := Spell(digits);
    WrittenIsNumeral(digits);
    ghost var text := str;
    var i := 0;
    NoOnes(text);
    while i < |buffer| - 1 && buffer[i] == 0
      invariant i <= |buffer| - 1 && str == Ones(i) + text
      invariant forall j :: 0 <= j < i ==> buffer[j] == 0
    {
      OneInFront(i, text);
      str := "1" + str;
      i := i + 1;
    }
    OnesThenDigits(buffer, i, text);
  }

  lemma NoOnes(text: string)
    ensures Ones(0) + text == text
  {
  }

  lemma OneInFront(k: nat, text: string)
    ensures "1" + (Ones(k) + text) == Ones(k + 1) + text
  {
    assert Ones(k + 1) == "1" + Ones(k);
  }

  lemma NothingEncoded()
    ensures Encoding([]) == ""
  {
  }
}
