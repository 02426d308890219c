/**
 The PNG inspector: one pass over the bytes, deciding the grammar of `PngGrammar`
 (front/chat/image-preview.js, lines 30 to 86).
 */
module Png {
  import opened Wrappers
  import opened Octets
  import opened Crc32
  import opened Preview
  import opened PngGrammar

  const VALID_DEPTHS: map<int, seq<int>> := map[
    0 := [1, 2, 4, 8, 16], 2 := [8, 16], 3 := [1, 2, 4, 8], 4 := [8, 16], 6 := [8, 16]
  ]

  // ---------- What has been read so far ----------

  ghost predicate Reading(bytes: Bytes, at: nat, parsed: seq<Chunk>) {
    at <= |bytes| && AllStorable(parsed) && bytes[..at] == SIGNATURE + SerializeAll(parsed)
  }

  /** Every chunk read was allowed where it stood, and the file has not ended. */
  ghost predicate Going(parsed: seq<Chunk>) {
    && (forall k {:trigger parsed[..k]} :: 0 <= k < |parsed| ==> MayFollow(parsed[..k], parsed[k]))
    && (forall k :: 0 <= k < |parsed| ==> parsed[k].kind != IEND)
  }

  ghost predicate InBounds(bytes: Bytes, at: nat) {
    at + 12 <= |bytes| && at + 12 + Word(bytes, at) <= |bytes|
  }

  /** The chunk at `at` may follow; if it is the end chunk, it ends the file. */
  ghost predicate Continues(bytes: Bytes, at: nat, parsed: seq<Chunk>) {
    && InBounds(bytes, at)
    && var c := ChunkAt(bytes, at);
       MayFollow(parsed, c) && (c.kind == IEND ==> at + 12 + |c.data| == |bytes|)
  }

  /** The scan's variables say about the chunks what the grammar asks of them. */
  ghost predicate Summary(parsed: seq<Chunk>, sawPalette: bool, sawData: bool, dataEnded: bool, dataBytes: nat) {
    && (sawPalette <==> Has(parsed, PLTE))
    && (sawData <==> Has(parsed, IDAT))
    && (dataEnded <==> sawData && parsed[|parsed| - 1].kind != IDAT)
    && dataBytes == DataBytes(parsed)
  }

  ghost predicate Header(parsed: seq<Chunk>, width: nat, height: nat, bitDepth: Byte, colorType: Byte) {
    parsed != [] ==>
      && |parsed[0].data| == 13
      && width == HeaderWidth(parsed[0].data) && height == HeaderHeight(parsed[0].data)
      && bitDepth == parsed[0].data[8] && colorType == parsed[0].data[9]
  }

  // ---------- Why the scan is right ----------

  lemma ReadIsPrefix(bytes: Bytes, at: nat, parsed: seq<Chunk>, chunks: seq<Chunk>)
    requires Reading(bytes, at, parsed) && Encodes(chunks, bytes)
    ensures |parsed| <= |chunks| && parsed == chunks[..|parsed|]
    ensures SerializeAll(chunks[|parsed|..]) == bytes[at..]
  {
    var rest := bytes[at..];
    assert bytes == (SIGNATURE + SerializeAll(parsed)) + rest;
    assert SerializeAll(chunks) == bytes[|SIGNATURE|..] == SerializeAll(parsed) + rest;
    ReadingIsUnique(parsed, chunks, rest);
  }

  lemma NextChunk(bytes: Bytes, at: nat, chunks: seq<Chunk>, n: nat)
    requires AllStorable(chunks) && n < |chunks| && at <= |bytes| && SerializeAll(chunks[n..]) == bytes[at..]
    ensures InBounds(bytes, at) && ChunkAt(bytes, at) == chunks[n]
    ensures n == |chunks| - 1 ==> at + 12 + |chunks[n].data| == |bytes|
  {
    var tail := chunks[n..];
    assert SerializeAll(tail) == Serialize(tail[0]) + SerializeAll(tail[1..]);
    SerializedIsAt(tail[0], bytes, at, SerializeAll(tail[1..]));
  }

  /** Whatever chunks the bytes encode, they begin with those read and go on with the next. */
  lemma NextIsForced(bytes: Bytes, at: nat, parsed: seq<Chunk>, chunks: seq<Chunk>)
    requires Reading(bytes, at, parsed) && Going(parsed)
    requires ValidChunks(chunks) && Encodes(chunks, bytes)
    ensures |parsed| < |chunks| && parsed == chunks[..|parsed|]
    ensures Continues(bytes, at, parsed)
  {
    hide Checksum;
    ReadIsPrefix(bytes, at, parsed, chunks);
    var n := |parsed|;
    assert n > 0 ==> parsed[n - 1] == chunks[n - 1];
    NextChunk(bytes, at, chunks, n);
    assert MayFollow(chunks[..n], chunks[n]);
  }

  lemma NotPng(bytes: Bytes, at: nat, parsed: seq<Chunk>)
    requires Reading(bytes, at, parsed) && Going(parsed) && !Continues(bytes, at, parsed)
    ensures !IsPng(bytes)
  {
    forall chunks: seq<Chunk> | Encodes(chunks, bytes) ensures !ValidChunks(chunks) {
      if ValidChunks(chunks) {
        NextIsForced(bytes, at, parsed, chunks);
      }
    }
  }

  lemma ReadOn(bytes: Bytes, at: nat, parsed: seq<Chunk>)
    requires Reading(bytes, at, parsed) && InBounds(bytes, at)
    ensures Reading(bytes, at + 12 + Word(bytes, at), parsed + [ChunkAt(bytes, at)])
  {
    hide Serialize, WordBytes, SerializeAll;
    var c, end := ChunkAt(bytes, at), at + 12 + Word(bytes, at);
    ChunkAtSerializes(bytes, at);
    SerializeAllAppend(parsed, c);
    assert bytes[..end] == bytes[..at] + bytes[at..end];
    assert SIGNATURE + (SerializeAll(parsed) + Serialize(c)) == (SIGNATURE + SerializeAll(parsed)) + Serialize(c);
  }

  lemma MayFollowAll(parsed: seq<Chunk>, c: Chunk)
    requires Going(parsed) && MayFollow(parsed, c)
    ensures forall k {:trigger (parsed + [c])[..k]} :: 0 <= k <= |parsed| ==>
              MayFollow((parsed + [c])[..k], (parsed + [c])[k])
  {
    forall k | 0 <= k <= |parsed| ensures MayFollow((parsed + [c])[..k], (parsed + [c])[k]) {
      assert (parsed + [c])[..k] == parsed[..k];
      if k == |parsed| {
        assert parsed[..k] == parsed;
      }
    }
  }

  lemma GoOn(parsed: seq<Chunk>, c: Chunk)
    requires Going(parsed) && MayFollow(parsed, c) && c.kind != IEND
    ensures Going(parsed + [c])
  {
    MayFollowAll(parsed, c);
  }

  lemma Finish(bytes: Bytes, at: nat, parsed: seq<Chunk>)
    requires Reading(bytes, at, parsed) && Going(parsed)
    requires Continues(bytes, at, parsed) && ChunkAt(bytes, at).kind == IEND
    ensures IsPng(bytes)
  {
    hide Checksum;
    var c := ChunkAt(bytes, at);
    var chunks := parsed + [c];
    MayFollowAll(parsed, c);
    ReadOn(bytes, at, parsed);
    assert bytes[..|bytes|] == bytes;
    assert ValidChunks(chunks) && Encodes(chunks, bytes);
  }

  lemma HasMore(parsed: seq<Chunk>, c: Chunk, kind: Kind)
    ensures Has(parsed + [c], kind) <==> Has(parsed, kind) || c.kind == kind
  {
    var more := parsed + [c];
    assert more[|parsed|] == c;
    if Has(parsed, kind) {
      var i :| 0 <= i < |parsed| && parsed[i].kind == kind;
      assert more[i] == parsed[i];
    }
    if Has(more, kind) && c.kind != kind {
      var i :| 0 <= i < |more| && more[i].kind == kind;
      assert more[i] == parsed[i];
    }
  }

  lemma SummaryGrows(parsed: seq<Chunk>, c: Chunk, sawPalette: bool, sawData: bool, dataEnded: bool, dataBytes: nat)
    requires Summary(parsed, sawPalette, sawData, dataEnded, dataBytes)
    ensures Summary(parsed + [c],
                    sawPalette || c.kind == PLTE,
                    sawData || c.kind == IDAT,
                    (sawData || c.kind == IDAT) && c.kind != IDAT,
                    dataBytes + if c.kind == IDAT then |c.data| else 0)
  {
    var more := parsed + [c];
    HasMore(parsed, c, PLTE);
    HasMore(parsed, c, IDAT);
    assert more[..|more| - 1] == parsed && more[|more| - 1] == c;
  }

  // ---------- Inspecting one chunk ----------

  method FindZero(bytes: Bytes, from: nat, to: nat) returns (at: nat)
    requires to <= |bytes|
    ensures from <= at && (at <= to || at == from)
    ensures at < to ==> bytes[at] == 0
    ensures forall i :: from <= i < at ==> bytes[i] != 0
  {
    at := from;
    while at < to && bytes[at] != 0
      invariant from <= at && (at <= to || at == from)
      invariant forall i :: from <= i < at ==> bytes[i] != 0
    {
      at := at + 1;
    }
  }

  /** International text must be uncompressed and complete. */
  method JudgeText(bytes: Bytes, dataStart: nat, dataEnd: nat) returns (reason: Option<Reason>)
    requires dataStart <= dataEnd <= |bytes|
    ensures reason.None? <==> PlainText(bytes[dataStart..dataEnd])
    ensures reason != Some(TooLarge)
  {
    ghost var data := bytes[dataStart..dataEnd];
    var keywordEnd := FindZero(bytes, dataStart, dataEnd);
    assert forall k, l, t :: TextAt(data, k, l, t) ==> dataStart + k == keywordEnd by {
      forall k, l, t | TextAt(data, k, l, t) ensures dataStart + k == keywordEnd {
        KeywordIsFirst(bytes, dataStart, dataEnd, keywordEnd, k, l, t);
      }
    }
    if keywordEnd == dataStart || keywordEnd - dataStart > 79 || keywordEnd + 3 > dataEnd {
      return Some(Invalid);
    }
    var compressed, compression := bytes[keywordEnd + 1], bytes[keywordEnd + 2];
    ghost var keyword := keywordEnd - dataStart;
    assert data[keyword + 1] == compressed && data[keyword + 2] == compression;
    if compressed > 1 || compression != 0 {
      return Some(Invalid);
    }
    var languageEnd := FindZero(bytes, keywordEnd + 3, dataEnd);
    var translatedEnd := FindZero(bytes, languageEnd + 1, dataEnd);
    if languageEnd >= dataEnd || translatedEnd >= dataEnd {
      forall k, l, t ensures !TextAt(data, k, l, t) {
        TwoZeros(bytes, dataStart, dataEnd, keywordEnd, languageEnd, translatedEnd, k, l, t);
      }
      return Some(Invalid);
    }
    if compressed == 1 {
      return Some(Unsupported);
    }
    assert TextAt(data, keyword, languageEnd - dataStart, translatedEnd - dataStart);
    return None;
  }

  lemma KeywordIsFirst(bytes: Bytes, dataStart: nat, dataEnd: nat, keywordEnd: nat, k: nat, l: nat, t: nat)
    requires dataStart <= keywordEnd <= dataEnd <= |bytes|
    requires keywordEnd < dataEnd ==> bytes[keywordEnd] == 0
    requires forall i :: dataStart <= i < keywordEnd ==> bytes[i] != 0
    requires TextAt(bytes[dataStart..dataEnd], k, l, t)
    ensures dataStart + k == keywordEnd
  {
    var data := bytes[dataStart..dataEnd];
    assert data[k] == bytes[dataStart + k];
    assert keywordEnd < dataEnd ==> data[keywordEnd - dataStart] == 0;
  }

  lemma TwoZeros(bytes: Bytes, dataStart: nat, dataEnd: nat, keywordEnd: nat, languageEnd: nat, translatedEnd: nat,
                 k: nat, l: nat, t: nat)
    requires dataStart <= keywordEnd && keywordEnd + 3 <= languageEnd < translatedEnd && dataEnd <= |bytes|
    requires dataStart <= dataEnd <= translatedEnd
    requires TextAt(bytes[dataStart..dataEnd], k, l, t) ==> dataStart + k == keywordEnd
    requires forall i :: keywordEnd + 3 <= i < languageEnd && i < |bytes| ==> bytes[i] != 0
    requires forall i :: languageEnd + 1 <= i < translatedEnd && i < |bytes| ==> bytes[i] != 0
    ensures !TextAt(bytes[dataStart..dataEnd], k, l, t)
  {
    var data := bytes[dataStart..dataEnd];
    forall i | keywordEnd + 3 <= dataStart + i && i < |data| && data[i] == 0 ensures dataStart + i == languageEnd {
      assert data[i] == bytes[dataStart + i];
    }
  }

  method JudgeKind(bytes: Bytes, at: nat) returns (valid: bool)
    requires at + 4 <= |bytes|
    ensures valid <==> ValidKind(KindAt(bytes, at))
  {
    for index := at to at + 4
      invariant forall i :: at <= i < index ==> IsLetter(bytes[i])
    {
      if !IsLetter(bytes[index]) {
        return false;
      }
    }
    return !LowerCase(bytes[at + 2]);
  }

  lemma SumOf(body: Bytes, c: Chunk)
    requires body == c.kind.Letters() + c.data
    ensures RightSum(c) <==> c.crc == Checksum(body)
  {
  }

  lemma BodyIsSlice(bytes: Bytes, at: nat, dataEnd: nat)
    requires InBounds(bytes, at) && dataEnd == at + 8 + Word(bytes, at)
    ensures bytes[at + 4..dataEnd] == ChunkAt(bytes, at).kind.Letters() + ChunkAt(bytes, at).data
    ensures ChunkAt(bytes, at).crc == Word(bytes, dataEnd)
  {
  }

  lemma SumAt(bytes: Bytes, at: nat, dataEnd: nat)
    requires InBounds(bytes, at) && dataEnd == at + 8 + Word(bytes, at)
    ensures RightSum(ChunkAt(bytes, at)) <==> Checksum(bytes[at + 4..dataEnd]) == Word(bytes, dataEnd)
  {
    BodyIsSlice(bytes, at, dataEnd);
    SumOf(bytes[at + 4..dataEnd], ChunkAt(bytes, at));
  }

  method JudgeSum(bytes: Bytes, at: nat) returns (right: bool)
    requires InBounds(bytes, at)
    ensures right <==> RightSum(ChunkAt(bytes, at))
  {
    hide Checksum;
    var dataEnd := at + 8 + Word(bytes, at);
    SumAt(bytes, at, dataEnd);
    var crc := ComputeCrc32(bytes, at + 4, dataEnd);
    return crc == Word(bytes, dataEnd);
  }

  /** The checks made on every chunk: extent, name, checksum, support, text. */
  method JudgeFrame(bytes: Bytes, at: nat) returns (reason: Option<Reason>)
    requires at + 12 <= |bytes|
    ensures reason.None? <==> InBounds(bytes, at) && WellFormed(ChunkAt(bytes, at))
    ensures reason != Some(TooLarge)
  {
    hide Checksum;
    var length := Word(bytes, at);
    var dataEnd := at + 8 + length;
    if dataEnd + 4 > |bytes| {
      return Some(Invalid);
    }
    ghost var c := ChunkAt(bytes, at);
    var kind := KindAt(bytes, at + 4);
    var letters := JudgeKind(bytes, at + 4);
    if !letters {
      return Some(Invalid);
    }
    var right := JudgeSum(bytes, at);
    if !right {
      return Some(Invalid);
    }
    if Forbidden(kind) {
      return Some(Unsupported);
    }
    reason := None;
    if kind == ITXT {
      reason := JudgeText(bytes, at + 8, dataEnd);
    }
  }

  /** The first chunk must be a header. */
  method JudgeHeader(bytes: Bytes, at: nat) returns (reason: Option<Reason>)
    requires InBounds(bytes, at) && WellFormed(ChunkAt(bytes, at))
    ensures reason.None? <==> Continues(bytes, at, [])
    ensures reason.None? ==>
              Header([ChunkAt(bytes, at)], Word(bytes, at + 8), Word(bytes, at + 12), bytes[at + 16], bytes[at + 17])
    ensures reason.None? ==> KindAt(bytes, at + 4) == IHDR
    ensures reason == Some(TooLarge) ==>
      var c := ChunkAt(bytes, at);
      c.kind == IHDR && |c.data| == 13 && !Fits(HeaderWidth(c.data), HeaderHeight(c.data))
  {
    hide Checksum;
    var length, dataStart := Word(bytes, at), at + 8;
    if KindAt(bytes, at + 4) != IHDR || length != 13 {
      return Some(Invalid);
    }
    ghost var data := ChunkAt(bytes, at).data;
    assert forall i :: 0 <= i < 13 ==> data[i] == bytes[dataStart + i];
    var dimensions := PreviewDimensions(Word(bytes, dataStart), Word(bytes, dataStart + 4));
    if dimensions.None? {
      return Some(TooLarge);
    }
    var bitDepth: int, colorType: int := bytes[dataStart + 8], bytes[dataStart + 9];
    var supported := if colorType in VALID_DEPTHS then bitDepth in VALID_DEPTHS[colorType] else false;
    assert supported == ValidDepth(bytes[dataStart + 9], bytes[dataStart + 8]);
    if !supported || bytes[dataStart + 10] != 0 || bytes[dataStart + 11] != 0 || bytes[dataStart + 12] !in [0, 1] {
      return Some(Unsupported);
    }
    return None;
  }

  /** The rules for a chunk after the first. */
  method JudgeNext(bytes: Bytes, at: nat, bitDepth: Byte, colorType: Byte,
                   sawPalette: bool, sawData: bool, dataEnded: bool, dataBytes: nat, ghost parsed: seq<Chunk>)
    returns (reason: Option<Reason>)
    requires parsed != [] && InBounds(bytes, at) && WellFormed(ChunkAt(bytes, at))
    requires Summary(parsed, sawPalette, sawData, dataEnded, dataBytes)
    requires |parsed[0].data| == 13 && bitDepth == parsed[0].data[8] && colorType == parsed[0].data[9]
    ensures reason.None? <==> Continues(bytes, at, parsed)
    ensures reason != Some(TooLarge)
  {
    hide Checksum;
    var length, kind := Word(bytes, at), KindAt(bytes, at + 4);
    var end := at + 12 + length;
    reason := None;
    if dataBytes > 0 {
      DataNeedsChunk(parsed);
    }
    if kind == IHDR {
      reason := Some(Invalid);
    } else if kind == PLTE {
      if sawPalette || sawData || colorType == 0 || colorType == 4 || length == 0 || length > 768
         || length % 3 != 0 || (colorType == 3 && length / 3 > Power(bitDepth)) {
        reason := Some(Invalid);
      }
    } else if kind == IDAT {
      if dataEnded || (colorType == 3 && !sawPalette) {
        reason := Some(Invalid);
      }
    } else if kind == IEND {
      if length != 0 || !sawData || dataBytes == 0 || end != |bytes| {
        reason := Some(Invalid);
      }
    } else if !LowerCase(bytes[at + 4]) {
      reason := Some(Unsupported);
    }
  }

  lemma Start(bytes: Bytes)
    requires |bytes| >= 8 && bytes[..8] == SIGNATURE
    ensures Reading(bytes, 8, []) && Going([]) && Summary([], false, false, false, 0)
  {
  }

  lemma HeaderStays(parsed: seq<Chunk>, c: Chunk, width: nat, height: nat, bitDepth: Byte, colorType: Byte)
    requires Header(if parsed == [] then [c] else parsed, width, height, bitDepth, colorType)
    ensures Header(parsed + [c], width, height, bitDepth, colorType)
  {
  }

  lemma SameDimensions(bytes: Bytes, at: nat, parsed: seq<Chunk>,
                       width: nat, height: nat, bitDepth: Byte, colorType: Byte)
    requires Reading(bytes, at, parsed) && Going(parsed) && parsed != []
    requires Header(parsed, width, height, bitDepth, colorType)
    ensures forall chunks: seq<Chunk> :: ValidChunks(chunks) && Encodes(chunks, bytes) ==>
              |chunks[0].data| == 13 && width == HeaderWidth(chunks[0].data) && height == HeaderHeight(chunks[0].data)
  {
    hide Checksum;
    forall chunks: seq<Chunk> | ValidChunks(chunks) && Encodes(chunks, bytes) ensures chunks[0] == parsed[0] {
      NextIsForced(bytes, at, parsed, chunks);
    }
  }

  // ---------- The inspector ----------

  /**
   The inspector accepts exactly the files of the grammar, with the dimensions their header
   states, whatever chunks one reads them as.
   */
  method InspectPng(bytes: Bytes) returns (r: Verdict)
    ensures r.Accepted? <==> IsPng(bytes)
    ensures forall chunks: seq<Chunk> :: ValidChunks(chunks) && Encodes(chunks, bytes) ==>
              |chunks[0].data| == 13 && r == Accepted(HeaderWidth(chunks[0].data), HeaderHeight(chunks[0].data))
    ensures r == Rejected(TooLarge) ==> |bytes| >= 24 && !Fits(Word(bytes, 16), Word(bytes, 20))
  {
    hide Checksum, SerializeAll, Going, Reading, Has, DataBytes, PlainText, ValidHeader;
    if |bytes| < 57 || bytes[..8] != SIGNATURE {
      TooShort(bytes);
      return Rejected(Invalid);
    }
    Start(bytes);
    var at, chunks := 8, 0;
    var width, height := 0, 0;
    var bitDepth: Byte, colorType: Byte := 0, 0;
    var sawPalette, sawData, dataEnded, dataBytes: nat := false, false, false, 0;
    ghost var parsed: seq<Chunk> := [];
    while at + 12 <= |bytes|
      invariant Reading(bytes, at, parsed) && Going(parsed) && chunks == |parsed| && (chunks == 0 ==> at == 8)
      invariant Summary(parsed, sawPalette, sawData, dataEnded, dataBytes)
      invariant Header(parsed, width, height, bitDepth, colorType)
      decreases |bytes| - at
    {
      var reason := JudgeFrame(bytes, at);
      if reason.Some? {
        NotPng(bytes, at, parsed);
        return Rejected(reason.value);
      }
      var length := Word(bytes, at);
      var kind := KindAt(bytes, at + 4);
      var end := at + 12 + length;
      ghost var c := ChunkAt(bytes, at);
      if chunks == 0 {
        reason := JudgeHeader(bytes, at);
        width, height := Word(bytes, at + 8), Word(bytes, at + 12);
        bitDepth, colorType := bytes[at + 16], bytes[at + 17];
      } else {
        reason := JudgeNext(bytes, at, bitDepth, colorType, sawPalette, sawData, dataEnded, dataBytes, parsed);
      }
      assert reason.None? <==> Continues(bytes, at, parsed);
      if reason.Some? {
        NotPng(bytes, at, parsed);
        return Rejected(reason.value);
      }
      if kind == IEND {
        Finish(bytes, at, parsed);
        SameDimensions(bytes, at, parsed, width, height, bitDepth, colorType);
        return Accepted(width, height);
      }
      ReadOn(bytes, at, parsed);
      GoOn(parsed, c);
      HeaderStays(parsed, c, width, height, bitDepth, colorType);
      SummaryGrows(parsed, c, sawPalette, sawData, dataEnded, dataBytes);
      if kind == PLTE {
        sawPalette := true;
      } else if kind == IDAT {
        sawData, dataBytes := true, dataBytes + length;
      } else if sawData {
        dataEnded := true;
      }
      parsed := parsed + [c];
      chunks, at := chunks + 1, end;
    }
    NotPng(bytes, at, parsed);
    return Rejected(Invalid);
  }

  /** A file needs its signature, a header, data and an end: never fewer than 57 bytes. */
  lemma TooShort(bytes: Bytes)
    requires |bytes| < 57 || bytes[..8] != SIGNATURE
    ensures !IsPng(bytes)
  {
    forall chunks: seq<Chunk> | Encodes(chunks, bytes) ensures !ValidChunks(chunks) {
      if ValidChunks(chunks) {
        assert bytes[..8] == SIGNATURE;
        SomeData(chunks);
        var i :| 0 <= i < |chunks| && chunks[i].kind == IDAT;
        ThreeChunks(chunks, i);
        assert false;
      }
    }
  }

  lemma ThreeChunks(chunks: seq<Chunk>, i: nat)
    requires AllStorable(chunks) && ValidChunks(chunks) && i < |chunks| && chunks[i].kind == IDAT
    ensures |SerializeAll(chunks)| >= 49
  {
    hide WellFormed;
    hide Checksum;
    assert MayFollow(chunks[..0], chunks[0]);
    SplitAt(chunks, 0);
    SplitAt(chunks, i);
    SplitAt(chunks, |chunks| - 1);
    LengthGrows(chunks, 1, i);
    LengthGrows(chunks, i + 1, |chunks| - 1);
    OneMore(chunks, 0);
    OneMore(chunks, i);
    OneMore(chunks, |chunks| - 1);
    assert chunks[..|chunks|] == chunks;
  }

  lemma OneMore(chunks: seq<Chunk>, k: nat)
    requires AllStorable(chunks) && k < |chunks|
    ensures |SerializeAll(chunks[..k + 1])| == |SerializeAll(chunks[..k])| + 12 + |chunks[k].data|
  {
    assert chunks[..k + 1] == chunks[..k] + [chunks[k]];
    SerializeAllAppend(chunks[..k], chunks[k]);
  }

  lemma {:induction false} LengthGrows(chunks: seq<Chunk>, i: nat, k: nat)
    requires AllStorable(chunks) && i <= k <= |chunks|
    ensures |SerializeAll(chunks[..i])| <= |SerializeAll(chunks[..k])|
    decreases k
  {
    if i < k {
      LengthGrows(chunks, i, k - 1);
      OneMore(chunks, k - 1);
    }
  }
}
