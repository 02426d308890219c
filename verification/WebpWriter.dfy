/**
 Writing WebP files: the inspector's grammar accepts what a plain encoder writes, for every
 size a preview may have and for no other, lossless, lossy and with a canvas.
 */
module WebpWriter {
  import opened Wrappers
  import opened Octets
  import opened Preview
  import opened WebpGrammar

  // ---------- Bytes ----------

  /** Numbers of two, three and four bytes, the low one first. */
  function Two(n: nat): (bytes: Bytes)
    requires n < 0x1_0000
    ensures |bytes| == 2
  {
    [n % 256, n / 256]
  }

  function Three(n: nat): (bytes: Bytes)
    requires n < 0x100_0000
    ensures |bytes| == 3
  {
    Two(n % 0x1_0000) + [n / 0x1_0000]
  }

  function Four(n: nat): (bytes: Bytes)
    requires n < 0x1_0000_0000
    ensures |bytes| == 4
  {
    Two(n % 0x1_0000) + Two(n / 0x1_0000)
  }

  lemma TwoReadsBack(bytes: Bytes, at: nat, n: nat)
    requires n < 0x1_0000 && Holds(bytes, at, Two(n))
    ensures Little16(bytes, at) == n
  {
    assert bytes[at + 0] == Two(n)[0] && bytes[at + 1] == Two(n)[1];
  }

  lemma ThreeReadsBack(bytes: Bytes, at: nat, n: nat)
    requires n < 0x100_0000 && Holds(bytes, at, Three(n))
    ensures Little24(bytes, at) == n
  {
    hide Little16;
    var high := [n / 0x1_0000];
    HoldsParts(bytes, at, Two(n % 0x1_0000), high);
    TwoReadsBack(bytes, at, n % 0x1_0000);
    assert bytes[at + 2 + 0] == high[0];
  }

  lemma FourReadsBack(bytes: Bytes, at: nat, n: nat)
    requires n < 0x1_0000_0000 && Holds(bytes, at, Four(n))
    ensures Little32(bytes, at) == n
  {
    hide Little16;
    HoldsParts(bytes, at, Two(n % 0x1_0000), Two(n / 0x1_0000));
    TwoReadsBack(bytes, at, n % 0x1_0000);
    TwoReadsBack(bytes, at + 2, n / 0x1_0000);
  }

  // ---------- Chunks and files ----------

  function Letter4(a: char, b: char, c: char, d: char): (bytes: Bytes)
    requires a < 256 as char && b < 256 as char && c < 256 as char && d < 256 as char
    ensures |bytes| == 4
  {
    [a as int, b as int, c as int, d as int]
  }

  lemma LettersAt(bytes: Bytes, at: nat, a: char, b: char, c: char, d: char)
    requires a < 256 as char && b < 256 as char && c < 256 as char && d < 256 as char
    requires Holds(bytes, at, Letter4(a, b, c, d))
    ensures Letters(bytes, at, a, b, c, d)
  {
    var part := Letter4(a, b, c, d);
    assert bytes[at + 0] == part[0] && bytes[at + 1] == part[1] && bytes[at + 2] == part[2] && bytes[at + 3] == part[3];
  }

  /** A chunk: its name, its length, its payload and a zero if that is odd. */
  function ChunkBytes(name: Bytes, payload: Bytes): (bytes: Bytes)
    requires |name| == 4 && |payload| < 0x1_0000_0000
    ensures |bytes| == 8 + |payload| + |payload| % 2
  {
    name + (Four(|payload|) + (payload + Padding(|payload|)))
  }

  function Padding(length: nat): (zeros: Bytes)
    ensures |zeros| == length % 2
  {
    if length % 2 == 1 then [0] else []
  }

  function Riff(chunks: Bytes): (bytes: Bytes)
    requires |chunks| < 0xFFFF_FFF0
    ensures |bytes| == 12 + |chunks|
  {
    Letter4('R', 'I', 'F', 'F') + (Four(4 + |chunks|) + (Letter4('W', 'E', 'B', 'P') + chunks))
  }

  lemma RiffReadsBack(chunks: Bytes)
    requires 4 <= |chunks| < 0xFFFF_FFF0
    ensures StartsRiff(Riff(chunks)) && Holds(Riff(chunks), 12, chunks)
  {
    hide Four, Holds, Letters, Letter4;
    var bytes := Riff(chunks);
    HoldsItself(bytes);
    var webp := Letter4('W', 'E', 'B', 'P');
    HoldsParts(bytes, 0, Letter4('R', 'I', 'F', 'F'), Four(4 + |chunks|) + (webp + chunks));
    HoldsParts(bytes, 4, Four(4 + |chunks|), webp + chunks);
    HoldsParts(bytes, 8, webp, chunks);
    LettersAt(bytes, 0, 'R', 'I', 'F', 'F');
    LettersAt(bytes, 8, 'W', 'E', 'B', 'P');
    FourReadsBack(bytes, 4, 4 + |chunks|);
  }

  lemma ChunkReadsBack(bytes: Bytes, at: nat, name: Bytes, payload: Bytes)
    requires |name| == 4 && |payload| < 0x1_0000_0000 && Holds(bytes, at, ChunkBytes(name, payload))
    ensures Holds(bytes, at, name) && Holds(bytes, at + 8, payload)
    ensures ChunkAt(bytes, at, Chunk(TagAt(bytes, at), at, |payload|, at + 8 + |payload| + |payload| % 2))
  {
    hide Four, TagAt, Little32;
    var n := |payload|;
    var padding := Padding(n);
    HoldsParts(bytes, at, name, Four(n) + (payload + padding));
    HoldsParts(bytes, at + 4, Four(n), payload + padding);
    HoldsParts(bytes, at + 8, payload, padding);
    FourReadsBack(bytes, at + 4, n);
    if n % 2 == 1 {
      assert bytes[at + 8 + n + 0] == padding[0];
    }
  }

  // ---------- Lossless images ----------

  function PackedSize(width: nat, height: nat, alpha: bool): (packed: nat)
    requires 0 < width <= 0x4000 && 0 < height <= 0x4000
    ensures packed < 0x2000_0000
  {
    width - 1 + (height - 1) * 0x4000 + if alpha then 0x1000_0000 else 0
  }

  /** A lossless frame: its signature, its size, and the coded samples. */
  function Lossless(width: nat, height: nat, alpha: bool, coded: Bytes): (payload: Bytes)
    requires 0 < width <= 0x4000 && 0 < height <= 0x4000
    ensures |payload| == 5 + |coded|
  {
    [0x2F] + (Four(PackedSize(width, height, alpha)) + coded)
  }

  lemma Unpacks(width: nat, height: nat, alpha: bool)
    requires 0 < width <= 0x4000 && 0 < height <= 0x4000
    ensures var packed := PackedSize(width, height, alpha);
      && packed % 0x4000 + 1 == width && packed / 0x4000 % 0x4000 + 1 == height
      && (Bit(packed, 0x1000_0000) <==> alpha)
  {
    var packed := PackedSize(width, height, alpha);
    var high := height - 1 + if alpha then 0x4000 else 0;
    assert packed == high * 0x4000 + (width - 1);
    assert packed / 0x4000 == high;
  }

  lemma LosslessReadsBack(bytes: Bytes, c: Chunk, width: nat, height: nat, alpha: bool, coded: Bytes)
    requires 0 < width <= 0x4000 && 0 < height <= 0x4000 && coded != []
    requires c.tag == Vp8l && c.length == 5 + |coded| && Holds(bytes, c.at + 8, Lossless(width, height, alpha, coded))
    ensures PrimaryWidth(bytes, c) == width && PrimaryHeight(bytes, c) == height
    ensures PrimaryHasAlpha(bytes, c) <==> alpha
    ensures ValidPrimary(bytes, c) <==> Fits(width, height)
  {
    hide Four, PackedSize, Little32, Bit, Fits;
    var packed := PackedSize(width, height, alpha);
    var signature := [0x2F];
    HoldsParts(bytes, c.at + 8, signature, Four(packed) + coded);
    HoldsParts(bytes, c.at + 9, Four(packed), coded);
    FourReadsBack(bytes, c.at + 9, packed);
    Unpacks(width, height, alpha);
    assert bytes[c.at + 8 + 0] == signature[0];
  }

  // ---------- Lossy images ----------

  /** The tag of a shown key frame, of version 0, with the length of its first partition. */
  function FrameTag(first: nat): (tag: nat)
    requires first < 0x8_0000
    ensures tag < 0x100_0000
  {
    16 + 32 * first
  }

  /** A lossy frame: its tag and start code, its size, and its partitions. */
  function Lossy(width: nat, height: nat, first: Bytes, others: Bytes): (payload: Bytes)
    requires width < 0x4000 && height < 0x4000 && |first| < 0x8_0000
    ensures |payload| == 10 + |first| + |others|
  {
    Three(FrameTag(|first|)) + ([0x9D, 0x01, 0x2A] + (Two(width) + (Two(height) + (first + others))))
  }

  lemma TagUnpacks(first: nat)
    requires first < 0x8_0000
    ensures var tag := FrameTag(first);
      !Bit(tag, 1) && tag / 2 % 8 <= 3 && Bit(tag, 16) && tag / 32 == first
  {
    var tag := FrameTag(first);
    assert tag / 2 == 8 + 16 * first && tag / 16 == 1 + 2 * first;
  }

  lemma LossyReadsBack(bytes: Bytes, c: Chunk, width: nat, height: nat, first: Bytes, others: Bytes)
    requires width < 0x4000 && height < 0x4000 && 0 < |first| < 0x8_0000
    requires c.tag == Vp8 && c.length == 10 + |first| + |others|
    requires Holds(bytes, c.at + 8, Lossy(width, height, first, others))
    ensures PrimaryWidth(bytes, c) == width && PrimaryHeight(bytes, c) == height
    ensures ValidPrimary(bytes, c) <==> Fits(width, height)
  {
    hide Two, Three, FrameTag, Little16, Little24, Bit, Fits;
    var start := [0x9D, 0x01, 0x2A];
    var rest := first + others;
    HoldsParts(bytes, c.at + 8, Three(FrameTag(|first|)), start + (Two(width) + (Two(height) + rest)));
    HoldsParts(bytes, c.at + 11, start, Two(width) + (Two(height) + rest));
    HoldsParts(bytes, c.at + 14, Two(width), Two(height) + rest);
    HoldsParts(bytes, c.at + 16, Two(height), rest);
    ThreeReadsBack(bytes, c.at + 8, FrameTag(|first|));
    TwoReadsBack(bytes, c.at + 14, width);
    TwoReadsBack(bytes, c.at + 16, height);
    TagUnpacks(|first|);
    assert bytes[c.at + 11 + 0] == start[0] && bytes[c.at + 11 + 1] == start[1] && bytes[c.at + 11 + 2] == start[2];
  }

  // ---------- Canvases ----------

  /** A canvas for a still image without metadata. */
  function Canvas(width: nat, height: nat, alpha: bool): (payload: Bytes)
    requires 0 < width <= 0x100_0000 && 0 < height <= 0x100_0000
    ensures |payload| == 10
  {
    [if alpha then 0x10 else 0, 0, 0, 0] + (Three(width - 1) + Three(height - 1))
  }

  lemma CanvasReadsBack(bytes: Bytes, c: Chunk, width: nat, height: nat, alpha: bool)
    requires 0 < width <= 0x100_0000 && 0 < height <= 0x100_0000
    requires c.tag == Vp8x && c.length == 10 && Holds(bytes, c.at + 8, Canvas(width, height, alpha))
    ensures CanvasWidth(bytes, c) == width && CanvasHeight(bytes, c) == height
    ensures Flags(bytes, c) == if alpha then 0x10 else 0
    ensures ValidCanvas(bytes, c) <==> Fits(width, height)
  {
    hide Three, Little24, Fits;
    var start: Bytes := [if alpha then 0x10 else 0, 0, 0, 0];
    HoldsParts(bytes, c.at + 8, start, Three(width - 1) + Three(height - 1));
    HoldsParts(bytes, c.at + 12, Three(width - 1), Three(height - 1));
    ThreeReadsBack(bytes, c.at + 12, width - 1);
    ThreeReadsBack(bytes, c.at + 15, height - 1);
    assert bytes[c.at + 8 + 0] == start[0] && bytes[c.at + 8 + 1] == start[1];
    assert bytes[c.at + 8 + 2] == start[2] && bytes[c.at + 8 + 3] == start[3];
  }

  // ---------- Whole files ----------

  /** The only way to read a file that is tiled by the chunks given. */
  lemma Tiles(bytes: Bytes, chunks: seq<Chunk>)
    requires Chained(bytes, chunks) && StartOf(chunks, |chunks|) == |bytes| && StartsRiff(bytes)
    ensures IsWebp(bytes) <==> ValidChunks(bytes, chunks)
    ensures forall others :: ValidChunks(bytes, others) ==> others == chunks
  {
    hide Allowed, Complete, ChunkAt;
    forall others | ValidChunks(bytes, others) ensures others == chunks {
      ReadingIsUnique(bytes, others, chunks, |others|);
      ReadingIsUnique(bytes, chunks, others, |chunks|);
    }
  }

  lemma OneFrame(bytes: Bytes, c: Chunk)
    requires IsPrimary(c.tag) && ChunkAt(bytes, 12, c) && c.end == |bytes| && StartsRiff(bytes)
    ensures IsWebp(bytes) <==> ValidPrimary(bytes, c)
    ensures forall chunks :: ValidChunks(bytes, chunks) ==> chunks == [c]
  {
    hide ValidPrimary, ChunkAt, StartsRiff;
    var chunks := [c];
    assert StartOf(chunks, 0) == 12 && chunks[..0] == [];
    Tiles(bytes, chunks);
    assert PrimaryOf(chunks) == Some(c);
    assert Allowed(bytes, chunks) <==> MayFollow(bytes, chunks[..0], c);
  }

  const LOSSLESS_NAME: Bytes := Letter4('V', 'P', '8', 'L')
  const LOSSY_NAME: Bytes := Letter4('V', 'P', '8', ' ')
  const CANVAS_NAME: Bytes := Letter4('V', 'P', '8', 'X')

  /** The file has one frame in whatever way it is read, with these dimensions. */
  ghost predicate ReadsAs(bytes: Bytes, width: nat, height: nat) {
    forall chunks :: ValidChunks(bytes, chunks) ==>
      PrimaryOf(chunks).Some? && PrimaryWidth(bytes, PrimaryOf(chunks).value) == width
      && PrimaryHeight(bytes, PrimaryOf(chunks).value) == height
  }

  /** A lossless image written out is accepted exactly when its size is one a preview may have. */
  lemma LosslessIsAccepted(width: nat, height: nat, alpha: bool, coded: Bytes)
    requires 0 < width <= 0x4000 && 0 < height <= 0x4000 && 0 < |coded| < 0xFFFF_FF00
    ensures var bytes := Riff(ChunkBytes(LOSSLESS_NAME, Lossless(width, height, alpha, coded)));
      && (IsWebp(bytes) <==> width <= 8192 && height <= 8192 && width * height <= 16_777_216)
      && ReadsAs(bytes, width, height)
  {
    hide ChunkBytes, Riff, Lossless, ValidPrimary, PrimaryWidth, PrimaryHeight, StartsRiff, ChunkAt, IsWebp, ValidChunks;
    var payload := Lossless(width, height, alpha, coded);
    var bytes := Riff(ChunkBytes(LOSSLESS_NAME, payload));
    RiffReadsBack(ChunkBytes(LOSSLESS_NAME, payload));
    ChunkReadsBack(bytes, 12, LOSSLESS_NAME, payload);
    LettersAt(bytes, 12, 'V', 'P', '8', 'L');
    var c := Chunk(Vp8l, 12, |payload|, |bytes|);
    LosslessReadsBack(bytes, c, width, height, alpha, coded);
    OneFrame(bytes, c);
  }

  /** And so is a lossy one. */
  lemma LossyIsAccepted(width: nat, height: nat, first: Bytes, others: Bytes)
    requires width < 0x4000 && height < 0x4000 && 0 < |first| < 0x8_0000 && |others| < 0x8000_0000
    ensures var bytes := Riff(ChunkBytes(LOSSY_NAME, Lossy(width, height, first, others)));
      && (IsWebp(bytes) <==> 0 < width <= 8192 && 0 < height <= 8192 && width * height <= 16_777_216)
      && ReadsAs(bytes, width, height)
  {
    hide ChunkBytes, Riff, Lossy, ValidPrimary, PrimaryWidth, PrimaryHeight, StartsRiff, ChunkAt, IsWebp, ValidChunks;
    var payload := Lossy(width, height, first, others);
    var bytes := Riff(ChunkBytes(LOSSY_NAME, payload));
    RiffReadsBack(ChunkBytes(LOSSY_NAME, payload));
    ChunkReadsBack(bytes, 12, LOSSY_NAME, payload);
    LettersAt(bytes, 12, 'V', 'P', '8', ' ');
    var c := Chunk(Vp8, 12, |payload|, |bytes|);
    LossyReadsBack(bytes, c, width, height, first, others);
    OneFrame(bytes, c);
  }

  /** With a canvas in front of it, exactly when the canvas has the frame's size as well. */
  lemma ExtendedIsAccepted(canvasWidth: nat, canvasHeight: nat, width: nat, height: nat, alpha: bool, coded: Bytes)
    requires 0 < canvasWidth <= 0x100_0000 && 0 < canvasHeight <= 0x100_0000
    requires 0 < width <= 0x4000 && 0 < height <= 0x4000 && 0 < |coded| < 0xFFFF_FF00
    ensures var bytes := Riff(ChunkBytes(CANVAS_NAME, Canvas(canvasWidth, canvasHeight, alpha))
                              + ChunkBytes(LOSSLESS_NAME, Lossless(width, height, alpha, coded)));
      && (IsWebp(bytes) <==> && canvasWidth == width && canvasHeight == height
                             && width <= 8192 && height <= 8192 && width * height <= 16_777_216)
      && ReadsAs(bytes, width, height)
  {
    hide ChunkBytes, Riff, Canvas, Lossless, Flags, ValidPrimary, ValidCanvas, PrimaryWidth, PrimaryHeight,
      CanvasWidth, CanvasHeight, PrimaryHasAlpha, StartsRiff, ChunkAt, IsWebp, ValidChunks;
    var canvas, frame := Canvas(canvasWidth, canvasHeight, alpha), Lossless(width, height, alpha, coded);
    var all := ChunkBytes(CANVAS_NAME, canvas) + ChunkBytes(LOSSLESS_NAME, frame);
    var bytes := Riff(all);
    RiffReadsBack(all);
    HoldsParts(bytes, 12, ChunkBytes(CANVAS_NAME, canvas), ChunkBytes(LOSSLESS_NAME, frame));
    ChunkReadsBack(bytes, 12, CANVAS_NAME, canvas);
    ChunkReadsBack(bytes, 30, LOSSLESS_NAME, frame);
    LettersAt(bytes, 12, 'V', 'P', '8', 'X');
    LettersAt(bytes, 30, 'V', 'P', '8', 'L');
    var c, d := Chunk(Vp8x, 12, 10, 30), Chunk(Vp8l, 30, |frame|, |bytes|);
    CanvasReadsBack(bytes, c, canvasWidth, canvasHeight, alpha);
    LosslessReadsBack(bytes, d, width, height, alpha, coded);
    CanvasAndFrame(bytes, c, d);
    FlagsAgree(alpha);
  }

  lemma FlagsAgree(alpha: bool)
    ensures var flags := if alpha then 0x10 else 0;
      !Bit(flags, 0x20) && !Bit(flags, 0x08) && !Bit(flags, 0x04) && (Bit(flags, 0x10) <==> alpha)
  {
  }

  lemma CanvasAndFrame(bytes: Bytes, c: Chunk, d: Chunk)
    requires c.tag == Vp8x && d.tag == Vp8l && StartsRiff(bytes)
    requires ChunkAt(bytes, 12, c) && ChunkAt(bytes, c.end, d) && d.end == |bytes|
    ensures var flags := Flags(bytes, c);
      IsWebp(bytes) <==>
        && ValidCanvas(bytes, c) && ValidPrimary(bytes, d)
        && CanvasWidth(bytes, c) == PrimaryWidth(bytes, d) && CanvasHeight(bytes, c) == PrimaryHeight(bytes, d)
        && !Bit(flags, 0x20) && !Bit(flags, 0x08) && !Bit(flags, 0x04)
        && (Bit(flags, 0x10) <==> PrimaryHasAlpha(bytes, d))
    ensures forall chunks :: ValidChunks(bytes, chunks) ==> PrimaryOf(chunks) == Some(d)
  {
    hide ValidPrimary, ValidCanvas, ChunkAt, StartsRiff, Bit, Flags, CanvasWidth, CanvasHeight, PrimaryWidth,
      PrimaryHeight, PrimaryHasAlpha;
    var chunks := [c, d];
    assert StartOf(chunks, 0) == 12 && StartOf(chunks, 1) == c.end;
    assert chunks[..0] == [] && chunks[..1] == [c];
    Tiles(bytes, chunks);
    assert PrimaryOf(chunks) == Some(d);
    assert MayFollow(bytes, [], c) <==> ValidCanvas(bytes, c);
    assert MayFollow(bytes, [c], d) <==> ValidPrimary(bytes, d);
    assert Allowed(bytes, chunks) <==> MayFollow(bytes, chunks[..0], c) && MayFollow(bytes, chunks[..1], d);
    assert !Has(chunks, Iccp) && !Has(chunks, Exif) && !Has(chunks, Xmp) && !Has(chunks, Alph);
  }
}
