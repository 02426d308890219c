/**
 The WebP files a preview accepts, as a grammar over RIFF chunks (sections 2.3 to 2.7 of
 RFC 9649).
 */
module WebpGrammar {
  import opened Wrappers
  import opened Octets
  import opened Preview

  datatype Tag = Vp8x | Vp8 | Vp8l | Iccp | Alph | Exif | Xmp | Anim | Anmf | Other

  /** The four letters at an index. */
  predicate Letters(bytes: Bytes, at: nat, a: char, b: char, c: char, d: char) {
    && At(bytes, at) == a as int && At(bytes, at + 1) == b as int
    && At(bytes, at + 2) == c as int && At(bytes, at + 3) == d as int
  }

  function TagAt(bytes: Bytes, at: nat): Tag {
    if Letters(bytes, at, 'V', 'P', '8', 'X') then Vp8x
    else if Letters(bytes, at, 'V', 'P', '8', ' ') then Vp8
    else if Letters(bytes, at, 'V', 'P', '8', 'L') then Vp8l
    else if Letters(bytes, at, 'I', 'C', 'C', 'P') then Iccp
    else if Letters(bytes, at, 'A', 'L', 'P', 'H') then Alph
    else if Letters(bytes, at, 'E', 'X', 'I', 'F') then Exif
    else if Letters(bytes, at, 'X', 'M', 'P', ' ') then Xmp
    else if Letters(bytes, at, 'A', 'N', 'I', 'M') then Anim
    else if Letters(bytes, at, 'A', 'N', 'M', 'F') then Anmf
    else Other
  }

  // ---------- Chunks ----------

  /** A chunk with its header, from `at` to `end`, padding included. */
  datatype Chunk = Chunk(tag: Tag, at: nat, length: nat, end: nat)

  ghost predicate ChunkAt(bytes: Bytes, start: nat, c: Chunk) {
    && c.at == start && start + 8 <= c.end <= |bytes|
    && c.tag == TagAt(bytes, start) && c.length == Little32(bytes, start + 4)
    && c.end == start + 8 + c.length + c.length % 2
    && (c.length % 2 == 1 ==> bytes[c.end - 1] == 0)
  }

  function StartOf(chunks: seq<Chunk>, k: nat): nat
    requires k <= |chunks|
  {
    if k == 0 then 12 else chunks[k - 1].end
  }

  ghost predicate Chained(bytes: Bytes, chunks: seq<Chunk>) {
    forall k {:trigger StartOf(chunks, k)} :: 0 <= k < |chunks| ==> ChunkAt(bytes, StartOf(chunks, k), chunks[k])
  }

  /** The image header: the size it states is the size of the file. */
  ghost predicate StartsRiff(bytes: Bytes) {
    && |bytes| >= 16 && Letters(bytes, 0, 'R', 'I', 'F', 'F') && Letters(bytes, 8, 'W', 'E', 'B', 'P')
    && Little32(bytes, 4) + 8 == |bytes|
  }

  // ---------- The canvas ----------

  function Flags(bytes: Bytes, c: Chunk): nat {
    At(bytes, c.at + 8)
  }

  predicate Bit(n: nat, mask: nat)
    requires mask > 0
  {
    n / mask % 2 == 1
  }

  function CanvasWidth(bytes: Bytes, c: Chunk): nat {
    Little24(bytes, c.at + 12) + 1
  }

  function CanvasHeight(bytes: Bytes, c: Chunk): nat {
    Little24(bytes, c.at + 15) + 1
  }

  /** No animation, no reserved bits or bytes set, and dimensions that fit. */
  ghost predicate ValidCanvas(bytes: Bytes, c: Chunk) {
    var flags := Flags(bytes, c);
    && c.length == 10 && !Bit(flags, 0x80) && !Bit(flags, 0x40) && !Bit(flags, 0x02) && !Bit(flags, 0x01)
    && At(bytes, c.at + 9) == 0 && At(bytes, c.at + 10) == 0 && At(bytes, c.at + 11) == 0
    && Fits(CanvasWidth(bytes, c), CanvasHeight(bytes, c))
  }

  // ---------- Frames ----------

  predicate IsPrimary(tag: Tag) {
    tag == Vp8 || tag == Vp8l
  }

  function Packed(bytes: Bytes, c: Chunk): nat {
    Little32(bytes, c.at + 9)
  }

  function PrimaryWidth(bytes: Bytes, c: Chunk): nat {
    if c.tag == Vp8 then Little16(bytes, c.at + 14) % 0x4000 else Packed(bytes, c) % 0x4000 + 1
  }

  function PrimaryHeight(bytes: Bytes, c: Chunk): nat {
    if c.tag == Vp8 then Little16(bytes, c.at + 16) % 0x4000 else Packed(bytes, c) / 0x4000 % 0x4000 + 1
  }

  /** A lossless frame says whether it has alpha; a lossy one has none of its own. */
  predicate PrimaryHasAlpha(bytes: Bytes, c: Chunk) {
    c.tag == Vp8l && Bit(Packed(bytes, c), 0x1000_0000)
  }

  /** A shown key frame whose first partition lies inside the chunk. */
  ghost predicate ValidLossy(bytes: Bytes, c: Chunk) {
    var frameTag := Little24(bytes, c.at + 8);
    && c.length >= 11 && !Bit(frameTag, 1) && frameTag / 2 % 8 <= 3 && Bit(frameTag, 16)
    && 0 < frameTag / 32 <= c.length - 10
    && At(bytes, c.at + 11) == 0x9d && At(bytes, c.at + 12) == 0x01 && At(bytes, c.at + 13) == 0x2a
  }

  ghost predicate ValidLossless(bytes: Bytes, c: Chunk) {
    c.length >= 6 && At(bytes, c.at + 8) == 0x2f && Packed(bytes, c) < 0x2000_0000
  }

  ghost predicate ValidPrimary(bytes: Bytes, c: Chunk) {
    && (if c.tag == Vp8 then ValidLossy(bytes, c) else ValidLossless(bytes, c))
    && Fits(PrimaryWidth(bytes, c), PrimaryHeight(bytes, c))
  }

  // ---------- Features ----------

  predicate IsFeature(tag: Tag) {
    tag in {Iccp, Alph, Exif, Xmp}
  }

  ghost predicate Has(before: seq<Chunk>, tag: Tag) {
    exists i :: 0 <= i < |before| && before[i].tag == tag
  }

  ghost predicate HasPrimary(before: seq<Chunk>) {
    Has(before, Vp8) || Has(before, Vp8l)
  }

  /** Alpha data: no reserved bits, known pre-processing and compression. */
  ghost predicate ValidAlpha(bytes: Bytes, c: Chunk) {
    c.length >= 2 && At(bytes, c.at + 8) < 32 && At(bytes, c.at + 8) % 4 <= 1
  }

  /** A feature comes once, in an extended file, before or after the frame as its kind demands. */
  ghost predicate ValidFeature(bytes: Bytes, before: seq<Chunk>, c: Chunk) {
    && Has(before, Vp8x) && !Has(before, c.tag)
    && (c.tag == Iccp || c.tag == Alph <==> !HasPrimary(before))
    && (c.tag == Alph ==> ValidAlpha(bytes, c))
  }

  // ---------- Files ----------

  ghost predicate MayFollow(bytes: Bytes, before: seq<Chunk>, c: Chunk) {
    if c.tag == Anim || c.tag == Anmf then false
    else if c.tag == Vp8x then before == [] && ValidCanvas(bytes, c)
    else if IsPrimary(c.tag) then !HasPrimary(before) && ValidPrimary(bytes, c)
    else if IsFeature(c.tag) then ValidFeature(bytes, before, c)
    else Has(before, Vp8x) || HasPrimary(before)
  }

  ghost predicate Allowed(bytes: Bytes, chunks: seq<Chunk>) {
    forall k {:trigger chunks[..k]} :: 0 <= k < |chunks| ==> MayFollow(bytes, chunks[..k], chunks[k])
  }

  ghost function PrimaryOf(chunks: seq<Chunk>): Option<Chunk> {
    if chunks == [] then None
    else if IsPrimary(chunks[|chunks| - 1].tag) then Some(chunks[|chunks| - 1])
    else PrimaryOf(chunks[..|chunks| - 1])
  }

  /** An extended file's header agrees with its frame and with the features that are there. */
  ghost predicate HeaderAgrees(bytes: Bytes, chunks: seq<Chunk>, canvas: Chunk, primary: Chunk) {
    var flags := Flags(bytes, canvas);
    && CanvasWidth(bytes, canvas) == PrimaryWidth(bytes, primary)
    && CanvasHeight(bytes, canvas) == PrimaryHeight(bytes, primary)
    && (Bit(flags, 0x20) <==> Has(chunks, Iccp))
    && (Bit(flags, 0x08) <==> Has(chunks, Exif))
    && (Bit(flags, 0x04) <==> Has(chunks, Xmp))
    && (Bit(flags, 0x10) <==> Has(chunks, Alph) || PrimaryHasAlpha(bytes, primary))
    && (Has(chunks, Alph) ==> primary.tag == Vp8)
  }

  ghost predicate Complete(bytes: Bytes, chunks: seq<Chunk>) {
    && PrimaryOf(chunks).Some? && chunks != []
    && if chunks[0].tag == Vp8x then HeaderAgrees(bytes, chunks, chunks[0], PrimaryOf(chunks).value)
       else |chunks| == 1
  }

  ghost predicate ValidChunks(bytes: Bytes, chunks: seq<Chunk>) {
    && Chained(bytes, chunks) && StartOf(chunks, |chunks|) == |bytes|
    && Allowed(bytes, chunks) && Complete(bytes, chunks)
  }

  ghost predicate IsWebp(bytes: Bytes) {
    StartsRiff(bytes) && exists chunks :: ValidChunks(bytes, chunks)
  }

  // ---------- What the grammar says about whole files ----------

  lemma HasPrefix(chunks: seq<Chunk>, i: nat, k: nat)
    requires i < k <= |chunks|
    ensures Has(chunks[..k], chunks[i].tag)
  {
    assert chunks[..k][i] == chunks[i];
  }

  lemma {:induction false} PrimaryIsThere(chunks: seq<Chunk>) returns (i: nat)
    requires PrimaryOf(chunks).Some?
    ensures i < |chunks| && PrimaryOf(chunks) == Some(chunks[i]) && IsPrimary(chunks[i].tag)
  {
    i := |chunks| - 1;
    if !IsPrimary(chunks[i].tag) {
      i := PrimaryIsThere(chunks[..i]);
    }
  }

  /** There is exactly one frame, and no canvas but the first chunk. */
  lemma OnePrimary(bytes: Bytes, chunks: seq<Chunk>) returns (i: nat)
    requires ValidChunks(bytes, chunks)
    ensures i < |chunks| && forall k :: 0 <= k < |chunks| ==> (IsPrimary(chunks[k].tag) <==> k == i)
    ensures forall k :: 0 <= k < |chunks| && chunks[k].tag == Vp8x ==> k == 0
  {
    hide ValidPrimary, ValidFeature, ValidCanvas, HeaderAgrees, ChunkAt;
    i := PrimaryIsThere(chunks);
    forall k | 0 <= k < |chunks| ensures chunks[k].tag == Vp8x ==> k == 0
                                 ensures IsPrimary(chunks[k].tag) ==> k == i
    {
      assert MayFollow(bytes, chunks[..k], chunks[k]) && MayFollow(bytes, chunks[..i], chunks[i]);
      if i < k {
        HasPrefix(chunks, i, k);
      } else if k < i {
        HasPrefix(chunks, k, i);
      }
    }
  }

  // ---------- A file can be read in one way only ----------

  lemma ChunkIsUnique(bytes: Bytes, start: nat, c: Chunk, d: Chunk)
    requires ChunkAt(bytes, start, c) && ChunkAt(bytes, start, d)
    ensures c == d
  {
  }

  lemma ChunkIsInside(bytes: Bytes, start: nat, c: Chunk)
    requires ChunkAt(bytes, start, c)
    ensures start < |bytes|
  {
  }

  /** Chunks read from the front of a file are the front of every way to read it. */
  lemma {:induction false} ReadingIsUnique(bytes: Bytes, read: seq<Chunk>, all: seq<Chunk>, k: nat)
    requires Chained(bytes, read) && Chained(bytes, all) && StartOf(all, |all|) == |bytes| && k <= |read|
    ensures k <= |all| && read[..k] == all[..k]
  {
    hide ChunkAt;
    if k > 0 {
      ReadingIsUnique(bytes, read, all, k - 1);
      assert k > 1 ==> read[..k - 1][k - 2] == all[..k - 1][k - 2];
      assert StartOf(read, k - 1) == StartOf(all, k - 1);
      ChunkIsInside(bytes, StartOf(read, k - 1), read[k - 1]);
      assert k <= |all|;
      ChunkIsUnique(bytes, StartOf(read, k - 1), read[k - 1], all[k - 1]);
      assert read[..k] == read[..k - 1] + [read[k - 1]];
      assert all[..k] == all[..k - 1] + [all[k - 1]];
    }
  }
}
