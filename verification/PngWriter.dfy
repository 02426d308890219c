/**
 Writing PNG files: the inspector's grammar accepts what a plain encoder writes, for every
 size a preview may have and for no other, and every accepted file ends in the same chunk.
 */
module PngWriter {
  import opened CrcDivision
  import opened CrcValues
  import opened Crc32
  import opened Octets
  import opened Preview
  import opened PngGrammar

  function Written(kind: Kind, data: Bytes): Chunk {
    Chunk(kind, data, Checksum(kind.Letters() + data))
  }

  /** An image of 8-bit grey samples, not interlaced. */
  function HeaderData(width: nat, height: nat): (data: Bytes)
    requires width < WORD && height < WORD
    ensures |data| == 13
  {
    WordBytes(width) + WordBytes(height) + [8, 0, 0, 0, 0]
  }

  function GreyImage(width: nat, height: nat, samples: Bytes): seq<Chunk>
    requires width < WORD && height < WORD
  {
    [Written(IHDR, HeaderData(width, height)), Written(IDAT, samples), Written(IEND, [])]
  }

  lemma WrittenIsStorable(kind: Kind, data: Bytes)
    requires |data| < WORD
    ensures Storable(Written(kind, data)) && RightSum(Written(kind, data))
  {
    hide Checksum;
    ChecksumIsRemainder(kind.Letters() + data);
  }

  lemma GreyIsStorable(width: nat, height: nat, samples: Bytes)
    requires width < WORD && height < WORD && |samples| < WORD
    ensures AllStorable(GreyImage(width, height, samples))
  {
    hide Checksum;
    WrittenIsStorable(IHDR, HeaderData(width, height));
    WrittenIsStorable(IDAT, samples);
    WrittenIsStorable(IEND, []);
  }

  lemma HeaderReadsBack(width: nat, height: nat)
    requires width < WORD && height < WORD
    ensures var data := HeaderData(width, height);
      && HeaderWidth(data) == width && HeaderHeight(data) == height
      && data[8..] == [8, 0, 0, 0, 0]
  {
    hide WordBytes;
    WordRoundTrip(width);
    WordRoundTrip(height);
    var data, a, b := HeaderData(width, height), WordBytes(width), WordBytes(height);
    assert data[0] == a[0] && data[1] == a[1] && data[2] == a[2] && data[3] == a[3];
    assert data[4] == b[0] && data[5] == b[1] && data[6] == b[2] && data[7] == b[3];
  }

  lemma GreyFollows(width: nat, height: nat, samples: Bytes)
    requires 0 < width <= 8192 && 0 < height <= 8192 && width * height <= 16_777_216
    requires 0 < |samples| < WORD
    ensures ValidChunks(GreyImage(width, height, samples))
  {
    hide Checksum, HeaderData, HeaderWidth, HeaderHeight, WordBytes, RightSum;
    var chunks := GreyImage(width, height, samples);
    GreyIsStorable(width, height, samples);
    HeaderReadsBack(width, height);
    WrittenIsStorable(IHDR, HeaderData(width, height));
    WrittenIsStorable(IDAT, samples);
    WrittenIsStorable(IEND, []);
    var data := HeaderData(width, height);
    assert data[8] == data[8..][0] && data[9] == data[8..][1] && data[10] == data[8..][2];
    assert data[11] == data[8..][3] && data[12] == data[8..][4];
    assert chunks[..0] == [] && chunks[..1] == [chunks[0]] && chunks[..2] == [chunks[0], chunks[1]];
    assert MayFollow(chunks[..0], chunks[0]);
    assert MayFollow(chunks[..1], chunks[1]);
    SamplesCount(chunks[0], chunks[1]);
    assert MayFollow(chunks[..2], chunks[2]);
  }

  lemma SamplesCount(header: Chunk, samples: Chunk)
    requires header.kind == IHDR && samples.kind == IDAT
    ensures DataBytes([header, samples]) == |samples.data|
  {
    assert [header, samples][..1] == [header] && [header][..0] == [];
    assert DataBytes([header]) == 0;
  }

  /**
   A grey image written out is accepted exactly when its size is one a preview may have, and
   then with that size.
   */
  lemma WrittenIsAccepted(width: nat, height: nat, samples: Bytes)
    requires width < WORD && height < WORD && 0 < |samples| < WORD
    ensures AllStorable(GreyImage(width, height, samples))
    ensures var bytes := SIGNATURE + SerializeAll(GreyImage(width, height, samples));
      && (IsPng(bytes) <==> 0 < width <= 8192 && 0 < height <= 8192 && width * height <= 16_777_216)
      && forall chunks: seq<Chunk> :: ValidChunks(chunks) && Encodes(chunks, bytes) ==>
           |chunks[0].data| == 13 && HeaderWidth(chunks[0].data) == width && HeaderHeight(chunks[0].data) == height
  {
    hide GreyImage, HeaderWidth, HeaderHeight, ValidChunks, SerializeAll;
    GreyIsStorable(width, height, samples);
    var all := GreyImage(width, height, samples);
    var bytes := SIGNATURE + SerializeAll(all);
    if 0 < width <= 8192 && 0 < height <= 8192 && width * height <= 16_777_216 {
      GreyFollows(width, height, samples);
      assert Encodes(all, bytes);
    }
    forall chunks: seq<Chunk> | ValidChunks(chunks) && Encodes(chunks, bytes)
      ensures chunks != [] && |chunks[0].data| == 13
      ensures HeaderWidth(chunks[0].data) == width && HeaderHeight(chunks[0].data) == height
      ensures Fits(width, height)
    {
      SameChunks(chunks, all, bytes);
      HeaderIsFirst(chunks, width, height, samples);
    }
  }

  lemma SameChunks(chunks: seq<Chunk>, all: seq<Chunk>, bytes: Bytes)
    requires Encodes(chunks, bytes) && Encodes(all, bytes)
    ensures chunks == all
  {
    hide SerializeAll, Storable;
    assert bytes[|SIGNATURE|..] == SerializeAll(chunks) == SerializeAll(all);
    ReadingIsUnique(chunks, all, []);
    ReadingIsUnique(all, chunks, []);
  }

  lemma HeaderIsFirst(chunks: seq<Chunk>, width: nat, height: nat, samples: Bytes)
    requires width < WORD && height < WORD && chunks == GreyImage(width, height, samples) && ValidChunks(chunks)
    ensures chunks != [] && |chunks[0].data| == 13 && HeaderWidth(chunks[0].data) == width && HeaderHeight(chunks[0].data) == height
    ensures Fits(width, height)
  {
    hide Checksum, HeaderData, HeaderWidth, HeaderHeight;
    HeaderReadsBack(width, height);
    assert MayFollow(chunks[..0], chunks[0]);
  }

  /** Every accepted file ends with the same twelve bytes, the chunk IEND and its checksum. */
  lemma EndsAlike(bytes: Bytes)
    requires IsPng(bytes)
    ensures |bytes| >= 12
    ensures bytes[|bytes| - 12..] == [0, 0, 0, 0, 73, 69, 78, 68, 0xAE, 0x42, 0x60, 0x82]
  {
    hide Checksum, SerializeAll, ValidChunks, Storable;
    var chunks :| ValidChunks(chunks) && Encodes(chunks, bytes);
    var n := |chunks| - 1;
    LastChunk(chunks);
    assert chunks == chunks[..n] + [chunks[n]];
    SerializeAllAppend(chunks[..n], chunks[n]);
    EndSerialized(chunks[n]);
    var front := SIGNATURE + SerializeAll(chunks[..n]);
    assert bytes == front + Serialize(chunks[n]);
    assert bytes[|front|..] == Serialize(chunks[n]);
  }

  lemma LastChunk(chunks: seq<Chunk>)
    requires ValidChunks(chunks)
    ensures var c := chunks[|chunks| - 1]; c.kind == IEND && c.data == [] && RightSum(c) && |chunks| > 1
  {
    hide Checksum, RightSum;
    var n := |chunks| - 1;
    assert MayFollow(chunks[..n], chunks[n]);
  }

  lemma EndSerialized(c: Chunk)
    requires Storable(c) && c.kind == IEND && c.data == [] && RightSum(c)
    ensures Serialize(c) == [0, 0, 0, 0, 73, 69, 78, 68, 0xAE, 0x42, 0x60, 0x82]
  {
    hide Checksum;
    KnownChecksum();
    assert c.kind.Letters() + c.data == [73, 69, 78, 68];
    assert WordBytes(0) == [0, 0, 0, 0] && WordBytes(0xAE42_6082) == [0xAE, 0x42, 0x60, 0x82];
  }
}
