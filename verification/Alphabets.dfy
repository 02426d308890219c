/** Alphabets of text encodings, put together from runs of consecutive characters. */
module Alphabets {
  /** The characters from one to another. */
  function Run(first: char, last: char): (run: string)
    requires first <= last < '\U{7f}'
    ensures |run| == last as int - first as int + 1
    ensures forall i :: 0 <= i < |run| ==> run[i] as int == first as int + i
  {
    seq(last as int - first as int + 1, i requires 0 <= i <= last as int - first as int => (first as int + i) as char)
  }

  /** "1" to "z" without 0, I, O and l, which are easily confused. */
  const BASE58: string :=
    Run('1', '9') + Run('A', 'H') + Run('J', 'N') + Run('P', 'Z') + Run('a', 'k') + Run('m', 'z')

  /** The place of a character in `BASE58`. */
  function Place58(c: char): nat {
    if '1' <= c <= '9' then c as nat - '1' as nat
    else if 'A' <= c <= 'H' then c as nat - 'A' as nat + 9
    else if 'J' <= c <= 'N' then c as nat - 'J' as nat + 17
    else if 'P' <= c <= 'Z' then c as nat - 'P' as nat + 22
    else if 'a' <= c <= 'k' then c as nat - 'a' as nat + 33
    else if 'm' <= c <= 'z' then c as nat - 'm' as nat + 44
    else 58
  }

  lemma Base58Place(d: nat)
    requires d < 58
    ensures |BASE58| == 58 && Place58(BASE58[d]) == d
  {
  }

  /** The alphabet of section 4 of RFC 4648, and the URL-safe one of its section 5. */
  const BASE64: string := Run('A', 'Z') + Run('a', 'z') + Run('0', '9') + "+/"

  const BASE64_URL: string := Run('A', 'Z') + Run('a', 'z') + Run('0', '9') + "-_"

  /** The place of a character in `BASE64_URL`. */
  function Place64(c: char): nat {
    if 'A' <= c <= 'Z' then c as nat - 'A' as nat
    else if 'a' <= c <= 'z' then c as nat - 'a' as nat + 26
    else if '0' <= c <= '9' then c as nat - '0' as nat + 52
    else if c == '-' then 62
    else if c == '_' then 63
    else 64
  }

  lemma Base64Place(d: nat)
    requires d < 64
    ensures |BASE64| == |BASE64_URL| == 64 && Place64(BASE64_URL[d]) == d
    ensures BASE64_URL[d] == if BASE64[d] == '+' then '-' else if BASE64[d] == '/' then '_' else BASE64[d]
    ensures BASE64[d] != '=' && BASE64_URL[d] != '='
  {
  }
}
