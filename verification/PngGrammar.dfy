/**
 The PNG files a preview accepts, as a grammar over chunks (sections 3.2 to 3.4 and 4.1
 of RFC 2083), and the serialization that ties chunks to bytes.
 */
module PngGrammar {
  import opened Crc32
  import opened Octets
  import opened Preview

  const SIGNATURE: Bytes := [137, 80, 78, 71, 13, 10, 26, 10]

  /** The four letters of a chunk's name. */
  datatype Kind = Kind(first: Byte, second: Byte, third: Byte, fourth: Byte) {
    function Letters(): (letters: Bytes)
      ensures |letters| == 4
    {
      [first, second, third, fourth]
    }
  }

  const IHDR := Kind(73, 72, 68, 82)
  const PLTE := Kind(80, 76, 84, 69)
  const IDAT := Kind(73, 68, 65, 84)
  const IEND := Kind(73, 69, 78, 68)
  const ITXT := Kind(105, 84, 88, 116)
  const ICCP := Kind(105, 67, 67, 80)
  const ZTXT := Kind(122, 84, 88, 116)
  const ACTL := Kind(97, 99, 84, 76)
  const FCTL := Kind(102, 99, 84, 76)
  const FDAT := Kind(102, 100, 65, 84)

  // ---------- Big-endian words ----------

  function Word(bytes: Bytes, at: nat): (n: nat)
    requires at + 4 <= |bytes|
    ensures n < WORD
  {
    var a: int, b: int, c: int, d: int := bytes[at], bytes[at + 1], bytes[at + 2], bytes[at + 3];
    a * 0x100_0000 + b * 0x1_0000 + c * 256 + d
  }

  function WordBytes(n: nat): (bytes: Bytes)
    requires n < WORD
    ensures |bytes| == 4
  {
    [n / 0x100_0000, n / 0x1_0000 % 256, n / 256 % 256, n % 256]
  }

  /** Shifting out one byte at a time. */
  lemma Shifts(n: nat)
    ensures n / 0x1_0000 == n / 256 / 256 && n / 0x100_0000 == n / 256 / 256 / 256
  {
  }

  lemma LowByte(q: int, r: Byte)
    ensures (q * 256 + r) / 256 == q && (q * 256 + r) % 256 == r
  {
  }

  lemma WordRoundTrip(n: nat)
    requires n < WORD
    ensures Word(WordBytes(n), 0) == n
  {
    Shifts(n);
    var q := n / 256;
    assert n == q * 256 + n % 256 && q == q / 256 * 256 + q % 256;
  }

  lemma WordBytesRoundTrip(bytes: Bytes, at: nat)
    requires at + 4 <= |bytes|
    ensures WordBytes(Word(bytes, at)) == bytes[at..at + 4]
  {
    var a: int, b: int, c: int, d: int := bytes[at], bytes[at + 1], bytes[at + 2], bytes[at + 3];
    var n := Word(bytes, at);
    assert n == ((a * 256 + b) * 256 + c) * 256 + d;
    LowByte((a * 256 + b) * 256 + c, d);
    LowByte(a * 256 + b, c);
    LowByte(a, b);
    Shifts(n);
    assert WordBytes(n) == [a, b, c, d];
  }

  // ---------- Chunks ----------

  /** A chunk's stored checksum may be wrong; the grammar demands that it is not. */
  datatype Chunk = Chunk(kind: Kind, data: Bytes, crc: nat)

  ghost predicate Storable(c: Chunk) {
    |c.data| < WORD && c.crc < WORD
  }

  function Serialize(c: Chunk): (bytes: Bytes)
    requires Storable(c)
    ensures |bytes| == 12 + |c.data|
  {
    WordBytes(|c.data|) + c.kind.Letters() + c.data + WordBytes(c.crc)
  }

  ghost predicate AllStorable(chunks: seq<Chunk>) {
    forall i :: 0 <= i < |chunks| ==> Storable(chunks[i])
  }

  function SerializeAll(chunks: seq<Chunk>): Bytes
    requires AllStorable(chunks)
  {
    if chunks == [] then [] else Serialize(chunks[0]) + SerializeAll(chunks[1..])
  }

  function KindAt(bytes: Bytes, at: nat): Kind
    requires at + 4 <= |bytes|
  {
    Kind(bytes[at], bytes[at + 1], bytes[at + 2], bytes[at + 3])
  }

  /** The chunk stored at `at`. */
  function ChunkAt(bytes: Bytes, at: nat): Chunk
    requires at + 12 <= |bytes| && at + 12 + Word(bytes, at) <= |bytes|
  {
    var end := at + 8 + Word(bytes, at);
    Chunk(KindAt(bytes, at + 4), bytes[at + 8..end], Word(bytes, end))
  }

  lemma ChunkAtSerializes(bytes: Bytes, at: nat)
    requires at + 12 <= |bytes| && at + 12 + Word(bytes, at) <= |bytes|
    ensures Storable(ChunkAt(bytes, at))
    ensures Serialize(ChunkAt(bytes, at)) == bytes[at..at + 12 + Word(bytes, at)]
  {
    var length := Word(bytes, at);
    var end := at + 8 + length;
    WordBytesRoundTrip(bytes, at);
    WordBytesRoundTrip(bytes, end);
    assert bytes[at..end + 4] == bytes[at..at + 4] + bytes[at + 4..at + 8] + bytes[at + 8..end] + bytes[end..end + 4];
  }

  /** Bytes that begin with a serialized chunk hold that chunk, and no other. */
  lemma SerializedIsAt(c: Chunk, bytes: Bytes, at: nat, rest: Bytes)
    requires Storable(c) && at <= |bytes| && bytes[at..] == Serialize(c) + rest
    ensures at + 12 + |c.data| + |rest| == |bytes|
    ensures Word(bytes, at) == |c.data| && ChunkAt(bytes, at) == c
    ensures bytes[at + 12 + |c.data|..] == rest
  {
    var tail := bytes[at..];
    var s := Serialize(c);
    assert |tail| == 12 + |c.data| + |rest|;
    WordRoundTrip(|c.data|);
    WordRoundTrip(c.crc);
    assert s[..4] == WordBytes(|c.data|) && s[4..8] == c.kind.Letters() && s[8..8 + |c.data|] == c.data;
    assert s[8 + |c.data|..] == WordBytes(c.crc);
    forall i | 0 <= i < |s| ensures bytes[at + i] == s[i] {
      assert tail[i] == (s + rest)[i];
    }
    forall i | 0 <= i < 4 ensures bytes[at + 4 + i] == c.kind.Letters()[i] {
      assert s[4 + i] == s[4..8][i];
    }
    assert bytes[at + 8..at + 8 + |c.data|] == c.data;
    forall i | 0 <= i < 4 ensures bytes[at + i] == WordBytes(|c.data|)[i] {
      assert s[i] == s[..4][i];
    }
    forall i | 0 <= i < 4 ensures bytes[at + 8 + |c.data| + i] == WordBytes(c.crc)[i] {
      assert s[8 + |c.data| + i] == s[8 + |c.data|..][i];
    }
    assert bytes[at + 12 + |c.data|..] == tail[12 + |c.data|..] == (s + rest)[|s|..] == rest;
  }

  lemma {:induction false} SerializeAllAppend(chunks: seq<Chunk>, c: Chunk)
    requires AllStorable(chunks) && Storable(c)
    ensures AllStorable(chunks + [c])
    ensures SerializeAll(chunks + [c]) == SerializeAll(chunks) + Serialize(c)
  {
    if chunks == [] {
      assert chunks + [c] == [c];
      assert SerializeAll([c]) == Serialize(c) + SerializeAll([]);
    } else {
      var more := chunks + [c];
      var first, rest, last := Serialize(chunks[0]), SerializeAll(chunks[1..]), Serialize(c);
      SerializeAllAppend(chunks[1..], c);
      assert more[0] == chunks[0] && more[1..] == chunks[1..] + [c];
      assert SerializeAll(more) == first + (rest + last);
      assert first + (rest + last) == (first + rest) + last;
    }
  }

  /** A serialization can be read in one way only: chunks read from its front are its own. */
  lemma {:induction false} ReadingIsUnique(read: seq<Chunk>, all: seq<Chunk>, rest: Bytes)
    requires AllStorable(read) && AllStorable(all)
    requires SerializeAll(all) == SerializeAll(read) + rest
    ensures |read| <= |all| && read == all[..|read|]
    ensures SerializeAll(all[|read|..]) == rest
  {
    hide Word, WordBytes;
    if read == [] {
      assert all[0..] == all;
    } else {
      var whole := SerializeAll(all);
      var tail := SerializeAll(read[1..]) + rest;
      assert whole == Serialize(read[0]) + tail;
      assert all != [];
      assert whole[0..] == whole;
      SerializedIsAt(read[0], whole, 0, tail);
      SerializedIsAt(all[0], whole, 0, SerializeAll(all[1..]));
      assert SerializeAll(all[1..]) == tail;
      ReadingIsUnique(read[1..], all[1..], rest);
      assert all[1..][|read| - 1..] == all[|read|..];
      assert read == [read[0]] + read[1..];
    }
  }

  // ---------- The grammar ----------

  predicate IsLetter(b: Byte) {
    65 <= b <= 90 || 97 <= b <= 122
  }

  /** Bit 5 of a letter of the chunk name is its lower-case bit. */
  predicate LowerCase(b: Byte) {
    b / 32 % 2 == 1
  }

  predicate Forbidden(kind: Kind) {
    kind == ACTL || kind == FCTL || kind == FDAT || kind == ICCP || kind == ZTXT
  }

  ghost predicate NoZero(data: Bytes, from: nat, to: nat) {
    forall i :: from <= i < to && i < |data| ==> data[i] != 0
  }

  /** International text: keyword, uncompressed, language, translated keyword, text. */
  ghost predicate TextAt(data: Bytes, keyword: nat, language: nat, translated: nat) {
    && 0 < keyword <= 79 && keyword + 3 <= language < translated < |data|
    && NoZero(data, 0, keyword)
    && data[keyword] == 0 && data[keyword + 1] == 0 && data[keyword + 2] == 0
    && data[language] == 0 && data[translated] == 0
  }

  ghost predicate PlainText(data: Bytes) {
    exists keyword, language, translated :: TextAt(data, keyword, language, translated)
  }

  function HeaderWidth(data: Bytes): nat
    requires |data| == 13
  {
    Word(data, 0)
  }

  function HeaderHeight(data: Bytes): nat
    requires |data| == 13
  {
    Word(data, 4)
  }

  predicate ValidDepth(colorType: Byte, bitDepth: Byte) {
    || (colorType == 0 && bitDepth in [1, 2, 4, 8, 16])
    || (colorType == 3 && bitDepth in [1, 2, 4, 8])
    || (colorType in [2, 4, 6] && bitDepth in [8, 16])
  }

  ghost predicate ValidHeader(c: Chunk) {
    && c.kind == IHDR && |c.data| == 13
    && Fits(HeaderWidth(c.data), HeaderHeight(c.data))
    && ValidDepth(c.data[9], c.data[8])
    && c.data[10] == 0 && c.data[11] == 0 && c.data[12] in [0, 1]
  }

  ghost predicate Has(chunks: seq<Chunk>, kind: Kind) {
    exists i :: 0 <= i < |chunks| && chunks[i].kind == kind
  }

  function DataBytes(chunks: seq<Chunk>): nat {
    if chunks == [] then 0
    else
      var last := chunks[|chunks| - 1];
      DataBytes(chunks[..|chunks| - 1]) + (if last.kind == IDAT then |last.data| else 0)
  }

  /** Four letters, the third of them upper-case. */
  predicate ValidKind(kind: Kind) {
    && IsLetter(kind.first) && IsLetter(kind.second) && IsLetter(kind.third) && IsLetter(kind.fourth)
    && !LowerCase(kind.third)
  }

  ghost predicate RightSum(c: Chunk) {
    c.crc == Checksum(c.kind.Letters() + c.data)
  }

  /** What every chunk must satisfy, wherever it stands. */
  ghost predicate WellFormed(c: Chunk) {
    && Storable(c)
    && ValidKind(c.kind)
    && RightSum(c)
    && !Forbidden(c.kind)
    && (c.kind == ITXT ==> PlainText(c.data))
  }

  function Power(exponent: nat): nat {
    if exponent == 0 then 1 else 2 * Power(exponent - 1)
  }

  /** A palette comes once, before the data, and fits the colour type and depth. */
  ghost predicate ValidPalette(before: seq<Chunk>, c: Chunk)
    requires before != [] && |before[0].data| == 13
  {
    var bitDepth, colorType := before[0].data[8], before[0].data[9];
    && !Has(before, PLTE) && !Has(before, IDAT)
    && colorType != 0 && colorType != 4
    && 0 < |c.data| <= 768 && |c.data| % 3 == 0
    && (colorType == 3 ==> |c.data| / 3 <= Power(bitDepth))
  }

  /** The data is one uninterrupted run, after the palette if there must be one. */
  ghost predicate ValidData(before: seq<Chunk>)
    requires before != [] && |before[0].data| == 13
  {
    && (Has(before, IDAT) ==> before[|before| - 1].kind == IDAT)
    && (before[0].data[9] == 3 ==> Has(before, PLTE))
  }

  /** Whether a chunk may follow the chunks before it. */
  ghost predicate MayFollow(before: seq<Chunk>, c: Chunk) {
    && WellFormed(c)
    && if before == [] then ValidHeader(c)
       else
         && |before[0].data| == 13
         && c.kind != IHDR
         && (c.kind == PLTE ==> ValidPalette(before, c))
         && (c.kind == IDAT ==> ValidData(before))
         && (c.kind == IEND ==> c.data == [] && DataBytes(before) > 0)
         && (c.kind != PLTE && c.kind != IDAT && c.kind != IEND ==> LowerCase(c.kind.first))
  }

  /** IHDR first; IEND last and only there; every chunk allowed after those before it. */
  ghost predicate ValidChunks(chunks: seq<Chunk>) {
    && chunks != []
    && (forall k {:trigger chunks[..k]} :: 0 <= k < |chunks| ==> MayFollow(chunks[..k], chunks[k]))
    && (forall k :: 0 <= k < |chunks| ==> (chunks[k].kind == IEND <==> k == |chunks| - 1))
  }

  ghost predicate Encodes(chunks: seq<Chunk>, bytes: Bytes) {
    AllStorable(chunks) && bytes == SIGNATURE + SerializeAll(chunks)
  }

  ghost predicate IsPng(bytes: Bytes) {
    exists chunks :: ValidChunks(chunks) && Encodes(chunks, bytes)
  }

  // ---------- What the grammar says about whole files ----------

  lemma HasPrefix(chunks: seq<Chunk>, i: nat, k: nat)
    requires i < k <= |chunks|
    ensures Has(chunks[..k], chunks[i].kind)
  {
    assert chunks[..k][i] == chunks[i];
  }

  /** Data chunks are contiguous. */
  lemma {:induction false} DataIsOneRun(chunks: seq<Chunk>, i: nat, j: nat, k: nat)
    requires ValidChunks(chunks) && i <= j <= k < |chunks|
    requires chunks[i].kind == IDAT && chunks[k].kind == IDAT
    ensures chunks[j].kind == IDAT
    decreases k - j
  {
    hide Checksum, WellFormed, ValidPalette;
    if i < j < k {
      DataIsOneRun(chunks, i, j + 1, k);
      HasPrefix(chunks, i, j + 1);
      DataFollowsData(chunks[..j + 1], chunks[j + 1]);
      assert chunks[..j + 1][j] == chunks[j];
    }
  }

  lemma DataFollowsData(before: seq<Chunk>, c: Chunk)
    requires MayFollow(before, c) && c.kind == IDAT && Has(before, IDAT)
    ensures before != [] && before[|before| - 1].kind == IDAT
  {
  }

  /** There is data. */
  lemma SomeData(chunks: seq<Chunk>)
    requires ValidChunks(chunks)
    ensures DataBytes(chunks) > 0 && Has(chunks, IDAT)
  {
    var last := |chunks| - 1;
    assert MayFollow(chunks[..last], chunks[last]);
    DataNeedsChunk(chunks[..last]);
    var i :| 0 <= i < last && chunks[..last][i].kind == IDAT;
    assert chunks[i].kind == IDAT;
  }

  lemma {:induction false} DataNeedsChunk(chunks: seq<Chunk>)
    requires DataBytes(chunks) > 0
    ensures Has(chunks, IDAT)
  {
    var last := |chunks| - 1;
    if chunks[last].kind != IDAT {
      DataNeedsChunk(chunks[..last]);
      var i :| 0 <= i < last && chunks[..last][i].kind == IDAT;
      assert chunks[i].kind == IDAT;
    }
  }

  // ---------- Single-byte corruption ----------

  /** The bytes outside the chunks' length fields. */
  ghost predicate Guarded(chunks: seq<Chunk>, at: nat)
    requires AllStorable(chunks)
  {
    || at < |SIGNATURE|
    || exists k :: 0 <= k < |chunks| && InBody(chunks, k, at)
  }

  ghost predicate InBody(chunks: seq<Chunk>, k: nat, at: nat)
    requires AllStorable(chunks) && k < |chunks|
  {
    var start := |SIGNATURE| + |SerializeAll(chunks[..k])|;
    start + 4 <= at < start + 12 + |chunks[k].data|
  }

  lemma {:induction false} SplitAt(chunks: seq<Chunk>, k: nat)
    requires AllStorable(chunks) && k < |chunks|
    ensures SerializeAll(chunks)
         == SerializeAll(chunks[..k]) + (Serialize(chunks[k]) + SerializeAll(chunks[k + 1..]))
  {
    hide Serialize;
    if k > 0 {
      SplitAt(chunks[1..], k - 1);
      assert chunks[1..][..k - 1] == chunks[1..k] && chunks[1..][k..] == chunks[k + 1..];
      assert chunks[..k][1..] == chunks[1..k];
    }
  }

  /** Two chunks of one length, the same but for one byte after the length field. */
  ghost predicate OneApart(a: Chunk, b: Chunk, at: nat)
    requires Storable(a) && Storable(b)
  {
    && |a.data| == |b.data| && 4 <= at < 12 + |a.data|
    && Serialize(a)[at] != Serialize(b)[at]
    && forall i :: 0 <= i < 12 + |a.data| && i != at ==> Serialize(a)[i] == Serialize(b)[i]
  }

  lemma BodyAt(c: Chunk, i: nat)
    requires Storable(c) && i < 4 + |c.data|
    ensures (c.kind.Letters() + c.data)[i] == Serialize(c)[i + 4]
  {
  }

  lemma CrcAt(c: Chunk, i: nat)
    requires Storable(c) && i < 4
    ensures WordBytes(c.crc)[i] == Serialize(c)[8 + |c.data| + i]
  {
  }

  lemma ApartInBody(a: Chunk, b: Chunk, at: nat)
    requires Storable(a) && Storable(b) && OneApart(a, b, at) && at < 8 + |a.data|
    ensures a.crc == b.crc && Checksum(a.kind.Letters() + a.data) != Checksum(b.kind.Letters() + b.data)
  {
    var body, other := a.kind.Letters() + a.data, b.kind.Letters() + b.data;
    forall i | 0 <= i < |body| ensures (body[i] == other[i]) <==> i + 4 != at {
      BodyAt(a, i);
      BodyAt(b, i);
    }
    ChecksumSeesChange(body, other, at - 4);
    forall i | 0 <= i < 4 ensures WordBytes(a.crc)[i] == WordBytes(b.crc)[i] {
      CrcAt(a, i);
      CrcAt(b, i);
    }
    assert WordBytes(a.crc) == WordBytes(b.crc);
    WordRoundTrip(a.crc);
    WordRoundTrip(b.crc);
  }

  lemma ApartInCrc(a: Chunk, b: Chunk, at: nat)
    requires Storable(a) && Storable(b) && OneApart(a, b, at) && at >= 8 + |a.data|
    ensures a.crc != b.crc && Checksum(a.kind.Letters() + a.data) == Checksum(b.kind.Letters() + b.data)
  {
    var body, other := a.kind.Letters() + a.data, b.kind.Letters() + b.data;
    forall i | 0 <= i < |body| ensures body[i] == other[i] {
      BodyAt(a, i);
      BodyAt(b, i);
    }
    assert body == other;
    CrcAt(a, at - 8 - |a.data|);
    CrcAt(b, at - 8 - |a.data|);
  }

  /** They cannot both have a right checksum. */
  lemma OneByteApart(a: Chunk, b: Chunk, at: nat)
    requires Storable(a) && Storable(b) && OneApart(a, b, at)
    ensures !RightSum(a) || !RightSum(b)
  {
    if at < 8 + |a.data| {
      ApartInBody(a, b, at);
    } else {
      ApartInCrc(a, b, at);
    }
  }

  /**
   Changing any one byte of an accepted file, outside the chunks' length fields, makes it
   a file that is not accepted: the chunks up to the change are read as before, and the
   changed chunk's checksum no longer matches.
   */
  lemma CorruptionIsCaught(chunks: seq<Chunk>, bytes: Bytes, at: nat, b: Byte)
    requires ValidChunks(chunks) && Encodes(chunks, bytes)
    requires at < |bytes| && bytes[at] != b && Guarded(chunks, at)
    ensures !IsPng(bytes[at := b])
  {
    forall others | Encodes(others, bytes[at := b]) ensures !ValidChunks(others) {
      StartsWithSignature(chunks, bytes, at);
      StartsWithSignature(others, bytes[at := b], at);
      if at >= |SIGNATURE| {
        var k :| 0 <= k < |chunks| && InBody(chunks, k, at);
        CorruptChunk(chunks, bytes, at, b, k, others);
      }
    }
  }

  lemma StartsWithSignature(chunks: seq<Chunk>, bytes: Bytes, at: nat)
    requires Encodes(chunks, bytes)
    ensures at < |SIGNATURE| ==> |bytes| > at && bytes[at] == SIGNATURE[at]
  {
  }

  lemma CorruptChunk(chunks: seq<Chunk>, bytes: Bytes, at: nat, b: Byte, k: nat, others: seq<Chunk>)
    requires ValidChunks(chunks) && Encodes(chunks, bytes)
    requires k < |chunks| && InBody(chunks, k, at) && at < |bytes| && bytes[at] != b
    requires Encodes(others, bytes[at := b])
    ensures !ValidChunks(others)
  {
    hide Checksum, MayFollow;
    var c := chunks[k];
    var part := ChangedPart(chunks, bytes, at, b, k, others);
    var rest := SerializeAll(chunks[k + 1..]);
    ReadingIsUnique(chunks[..k], others, part + rest);
    assert others[k..] != [];
    var d := others[k];
    assert d == others[k..][0];
    var more := SerializeAll(others[k..][1..]);
    assert SerializeAll(others[k..]) == Serialize(d) + more;
    var offset := at - |SIGNATURE| - |SerializeAll(chunks[..k])|;
    SameLength(c, d, part, rest, more, offset);
    OneByteApart(c, d, offset);
    ValidSums(chunks, k);
    if ValidChunks(others) {
      ValidSums(others, k);
    }
  }

  lemma ValidSums(chunks: seq<Chunk>, k: nat)
    requires ValidChunks(chunks) && k < |chunks|
    ensures RightSum(chunks[k])
  {
    assert MayFollow(chunks[..k], chunks[k]);
  }

  /** The changed bytes: the same chunks, a part in place of the k-th, the same rest. */
  lemma ChangedPart(chunks: seq<Chunk>, bytes: Bytes, at: nat, b: Byte, k: nat, others: seq<Chunk>)
    returns (part: Bytes)
    requires Encodes(chunks, bytes) && at < |bytes| && bytes[at] != b
    requires k < |chunks| && InBody(chunks, k, at) && Encodes(others, bytes[at := b])
    ensures |part| == 12 + |chunks[k].data|
    ensures SerializeAll(others) == SerializeAll(chunks[..k]) + (part + SerializeAll(chunks[k + 1..]))
    ensures var offset := at - |SIGNATURE| - |SerializeAll(chunks[..k])|;
            forall i :: 0 <= i < |part| ==> (part[i] == Serialize(chunks[k])[i] <==> i != offset)
  {
    hide Checksum, SerializeAll, Serialize;
    var head, s, rest := SerializeAll(chunks[..k]), Serialize(chunks[k]), SerializeAll(chunks[k + 1..]);
    var start := |SIGNATURE| + |head|;
    SplitAt(chunks, k);
    part := s[at - start := b];
    UpdateInside(SIGNATURE, head, s, rest, at, b);
    assert SIGNATURE + SerializeAll(others) == SIGNATURE + (head + (part + rest));
    assert (SIGNATURE + SerializeAll(others))[|SIGNATURE|..] == SerializeAll(others);
    assert (SIGNATURE + (head + (part + rest)))[|SIGNATURE|..] == head + (part + rest);
  }

  lemma UpdateInside(front: Bytes, head: Bytes, s: Bytes, rest: Bytes, at: nat, b: Byte)
    requires |front| + |head| <= at < |front| + |head| + |s|
    ensures (front + (head + (s + rest)))[at := b]
         == front + (head + (s[at - |front| - |head| := b] + rest))
  {
  }

  /** The change is not in the length field, so the chunk read has the length it had. */
  lemma SameLength(c: Chunk, d: Chunk, part: Bytes, rest: Bytes, more: Bytes, at: nat)
    requires Storable(c) && Storable(d) && |part| == 12 + |c.data| && 4 <= at < |part|
    requires part + rest == Serialize(d) + more
    requires forall i :: 0 <= i < |part| ==> (part[i] == Serialize(c)[i] <==> i != at)
    ensures |d.data| == |c.data| && OneApart(c, d, at)
  {
    var both := part + rest;
    WordRoundTrip(|c.data|);
    WordRoundTrip(|d.data|);
    assert both[..4] == part[..4] == Serialize(c)[..4] == WordBytes(|c.data|);
    assert both[..4] == Serialize(d)[..4] == WordBytes(|d.data|);
    assert Serialize(d) == both[..|part|] == part;
  }
}
