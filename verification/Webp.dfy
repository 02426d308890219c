/**
 The WebP inspector: one pass over the RIFF chunks, deciding the grammar of `WebpGrammar`
 (front/chat/image-preview.js, lines 208 to 261).
 */
module Webp {
  import opened Wrappers
  import opened Octets
  import opened Preview
  import opened WebpGrammar

  datatype Canvas = Canvas(flags: nat, width: nat, height: nat)

  datatype Primary = Primary(tag: Tag, width: nat, height: nat, hasAlpha: bool)

  /** What the chunks read so far have defined. */
  datatype Known = Known(canvas: Option<Canvas>, primary: Option<Primary>, features: set<Tag>, chunks: nat)

  // ---------- What has been read so far ----------

  ghost predicate Going(bytes: Bytes, parsed: seq<Chunk>) {
    Chained(bytes, parsed) && Allowed(bytes, parsed)
  }

  ghost predicate Continues(bytes: Bytes, parsed: seq<Chunk>, c: Chunk) {
    ChunkAt(bytes, StartOf(parsed, |parsed|), c) && MayFollow(bytes, parsed, c)
  }

  ghost function CanvasAt(bytes: Bytes, c: Chunk): Canvas {
    Canvas(Flags(bytes, c), CanvasWidth(bytes, c), CanvasHeight(bytes, c))
  }

  ghost function PrimaryAt(bytes: Bytes, c: Chunk): Primary {
    Primary(c.tag, PrimaryWidth(bytes, c), PrimaryHeight(bytes, c), PrimaryHasAlpha(bytes, c))
  }

  /** The variables of the scan say what the chunks say. */
  ghost predicate Knows(bytes: Bytes, parsed: seq<Chunk>, known: Known) {
    && known.chunks == |parsed|
    && (known.canvas.Some? <==> Has(parsed, Vp8x))
    && (known.canvas.Some? ==> parsed != [] && parsed[0].tag == Vp8x && known.canvas.value == CanvasAt(bytes, parsed[0]))
    && (known.primary.Some? <==> HasPrimary(parsed))
    && (known.primary.Some? <==> PrimaryOf(parsed).Some?)
    && (known.primary.Some? ==> known.primary.value == PrimaryAt(bytes, PrimaryOf(parsed).value))
    && (forall tag :: tag in known.features <==> IsFeature(tag) && Has(parsed, tag))
  }

  // ---------- Why the scan is right ----------

  lemma NextIsForced(bytes: Bytes, parsed: seq<Chunk>, chunks: seq<Chunk>)
    requires Going(bytes, parsed) && ValidChunks(bytes, chunks)
    ensures |parsed| <= |chunks| && parsed == chunks[..|parsed|]
    ensures if |parsed| == |chunks| then StartOf(parsed, |parsed|) == |bytes|
            else Continues(bytes, parsed, chunks[|parsed|])
  {
    hide MayFollow, ChunkAt, Complete;
    var n := |parsed|;
    ReadingIsUnique(bytes, parsed, chunks, n);
    assert parsed[..n] == parsed;
    assert n > 0 ==> parsed[n - 1] == chunks[..n][n - 1];
    assert StartOf(chunks, n) == StartOf(parsed, n);
    assert n < |chunks| ==> MayFollow(bytes, chunks[..n], chunks[n]);
  }

  lemma NotWebp(bytes: Bytes, parsed: seq<Chunk>)
    requires Going(bytes, parsed) && StartOf(parsed, |parsed|) != |bytes|
    requires forall c :: !Continues(bytes, parsed, c)
    ensures !IsWebp(bytes)
  {
    hide Continues;
    forall chunks ensures !ValidChunks(bytes, chunks) {
      if ValidChunks(bytes, chunks) {
        NextIsForced(bytes, parsed, chunks);
      }
    }
  }

  lemma BadExtent(bytes: Bytes, parsed: seq<Chunk>, at: nat)
    requires Going(bytes, parsed) && at == StartOf(parsed, |parsed|) != |bytes|
    requires forall c :: !ChunkAt(bytes, at, c)
    ensures !IsWebp(bytes)
  {
    hide MayFollow, ChunkAt;
    NotWebp(bytes, parsed);
  }

  lemma BadChunk(bytes: Bytes, parsed: seq<Chunk>, c: Chunk)
    requires Going(bytes, parsed) && ChunkAt(bytes, StartOf(parsed, |parsed|), c) && !MayFollow(bytes, parsed, c)
    ensures !IsWebp(bytes)
  {
    hide MayFollow;
    forall d ensures !Continues(bytes, parsed, d) {
      if ChunkAt(bytes, c.at, d) {
        ChunkIsUnique(bytes, c.at, c, d);
      }
    }
    NotWebp(bytes, parsed);
  }

  lemma GoOn(bytes: Bytes, parsed: seq<Chunk>, c: Chunk)
    requires Going(bytes, parsed) && Continues(bytes, parsed, c)
    ensures Going(bytes, parsed + [c])
  {
    hide MayFollow, ChunkAt;
    var more := parsed + [c];
    forall k | 0 <= k <= |parsed|
      ensures ChunkAt(bytes, StartOf(more, k), more[k]) && MayFollow(bytes, more[..k], more[k])
    {
      assert more[..k] == parsed[..k] && StartOf(more, k) == StartOf(parsed, k);
      assert parsed[..|parsed|] == parsed;
    }
  }

  /** At the end of the bytes, the chunks read are the only way to read them. */
  lemma Finish(bytes: Bytes, parsed: seq<Chunk>)
    requires StartsRiff(bytes) && Going(bytes, parsed) && StartOf(parsed, |parsed|) == |bytes|
    ensures IsWebp(bytes) <==> Complete(bytes, parsed)
    ensures forall chunks :: ValidChunks(bytes, chunks) ==> chunks == parsed && Complete(bytes, parsed)
  {
    hide MayFollow, ChunkAt, Complete;
    assert Complete(bytes, parsed) ==> ValidChunks(bytes, parsed);
    forall chunks | ValidChunks(bytes, chunks) ensures chunks == parsed {
      NextIsForced(bytes, parsed, chunks);
      forall c ensures !Continues(bytes, parsed, c) {
        if ChunkAt(bytes, |bytes|, c) {
          ChunkIsInside(bytes, |bytes|, c);
        }
      }
      assert chunks == chunks[..|parsed|];
    }
  }

  // ---------- Knowing one chunk more ----------

  lemma HasMore(parsed: seq<Chunk>, c: Chunk, tag: Tag)
    ensures Has(parsed + [c], tag) <==> Has(parsed, tag) || c.tag == tag
  {
    var more := parsed + [c];
    assert more[|parsed|] == c;
    if Has(parsed, tag) {
      var i :| 0 <= i < |parsed| && parsed[i].tag == tag;
      assert more[i] == parsed[i];
    }
  }

  /** What one chunk adds to what is known. */
  ghost predicate Learns(bytes: Bytes, known: Known, c: Chunk, next: Known) {
    && next.chunks == known.chunks + 1
    && next.canvas == (if c.tag == Vp8x then Some(CanvasAt(bytes, c)) else known.canvas)
    && next.primary == (if IsPrimary(c.tag) then Some(PrimaryAt(bytes, c)) else known.primary)
    && next.features == known.features + (if IsFeature(c.tag) then {c.tag} else {})
  }

  lemma KnowsMore(bytes: Bytes, parsed: seq<Chunk>, known: Known, c: Chunk, next: Known)
    requires Knows(bytes, parsed, known) && Learns(bytes, known, c, next) && (c.tag == Vp8x ==> parsed == [])
    ensures Knows(bytes, parsed + [c], next)
  {
    hide Has, CanvasAt, PrimaryAt;
    var more := parsed + [c];
    assert more[..|more| - 1] == parsed && more[|more| - 1] == c;
    forall tag ensures Has(more, tag) <==> Has(parsed, tag) || c.tag == tag {
      HasMore(parsed, c, tag);
    }
    assert parsed != [] ==> more[0] == parsed[0];
  }

  lemma NoChunks(bytes: Bytes)
    ensures Going(bytes, []) && Knows(bytes, [], Known(None, None, {}, 0))
  {
  }

  // ---------- Inspecting one chunk ----------

  method JudgeCanvas(bytes: Bytes, c: Chunk, chunks: nat) returns (reason: Option<Reason>, canvas: Canvas)
    requires c.at + 8 + c.length <= |bytes| && c.tag == Vp8x
    ensures reason.None? <==> chunks == 0 && ValidCanvas(bytes, c)
    ensures reason.None? ==> canvas == CanvasAt(bytes, c)
  {
    var at := c.at;
    canvas := Canvas(0, 0, 0);
    if c.length != 10 || chunks != 0 {
      return Some(Invalid), canvas;
    }
    var flags := bytes[at + 8];
    if Bit(flags, 0x02) || Bit(flags, 0x80) || Bit(flags, 0x40) || Bit(flags, 0x01)
       || bytes[at + 9] != 0 || bytes[at + 10] != 0 || bytes[at + 11] != 0 {
      return Some(Unsupported), canvas;
    }
    var width, height := Little24(bytes, at + 12) + 1, Little24(bytes, at + 15) + 1;
    var dimensions := PreviewDimensions(width, height);
    if dimensions.None? {
      return Some(TooLarge), canvas;
    }
    return None, Canvas(flags, width, height);
  }

  method JudgeLossy(bytes: Bytes, c: Chunk, seen: bool) returns (reason: Option<Reason>, primary: Primary)
    requires c.at + 8 + c.length <= |bytes| && c.tag == Vp8
    ensures reason.None? <==> !seen && ValidPrimary(bytes, c)
    ensures reason.None? ==> primary == PrimaryAt(bytes, c)
  {
    var at := c.at;
    primary := Primary(c.tag, 0, 0, false);
    if c.length < 11 {
      return Some(Invalid), primary;
    }
    var frameTag := Little24(bytes, at + 8);
    var firstPartition := frameTag / 32;
    if Bit(frameTag, 1) || frameTag / 2 % 8 > 3 || !Bit(frameTag, 16)
       || firstPartition == 0 || firstPartition > c.length - 10
       || bytes[at + 11] != 0x9d || bytes[at + 12] != 0x01 || bytes[at + 13] != 0x2a {
      return Some(Invalid), primary;
    }
    if seen {
      return Some(Invalid), primary;
    }
    var width, height := Little16(bytes, at + 14) % 0x4000, Little16(bytes, at + 16) % 0x4000;
    var dimensions := PreviewDimensions(width, height);
    if dimensions.None? {
      return Some(TooLarge), primary;
    }
    return None, Primary(c.tag, width, height, false);
  }

  method JudgeLossless(bytes: Bytes, c: Chunk, seen: bool) returns (reason: Option<Reason>, primary: Primary)
    requires c.at + 8 + c.length <= |bytes| && c.tag == Vp8l
    ensures reason.None? <==> !seen && ValidPrimary(bytes, c)
    ensures reason.None? ==> primary == PrimaryAt(bytes, c)
  {
    var at := c.at;
    primary := Primary(c.tag, 0, 0, false);
    if c.length < 6 || bytes[at + 8] != 0x2f || seen {
      return Some(Invalid), primary;
    }
    var value := Little32(bytes, at + 9);
    if value / 0x2000_0000 != 0 {
      return Some(Unsupported), primary;
    }
    var width, height := value % 0x4000 + 1, value / 0x4000 % 0x4000 + 1;
    var dimensions := PreviewDimensions(width, height);
    if dimensions.None? {
      return Some(TooLarge), primary;
    }
    return None, Primary(c.tag, width, height, Bit(value, 0x1000_0000));
  }

  method JudgeFeature(bytes: Bytes, c: Chunk, known: Known, ghost parsed: seq<Chunk>) returns (reason: Option<Reason>)
    requires c.at + 8 + c.length <= |bytes| && IsFeature(c.tag) && Knows(bytes, parsed, known)
    ensures reason.None? <==> ValidFeature(bytes, parsed, c)
  {
    hide Has;
    if known.canvas.None? || c.tag in known.features || (c.tag == Iccp && known.primary.Some?)
       || (c.tag == Alph && (known.primary.Some? || c.length < 2))
       || (c.tag != Alph && c.tag != Iccp && known.primary.None?) {
      return Some(Invalid);
    }
    if c.tag == Alph {
      var header := bytes[c.at + 8];
      if header / 64 != 0 || header / 16 % 4 > 1 || header % 4 > 1 {
        return Some(Unsupported);
      }
    }
    return None;
  }

  method JudgeChunk(bytes: Bytes, c: Chunk, known: Known, ghost parsed: seq<Chunk>)
    returns (reason: Option<Reason>, next: Known)
    requires c.at + 8 + c.length <= |bytes| && Knows(bytes, parsed, known)
    ensures reason.None? <==> MayFollow(bytes, parsed, c)
    ensures reason.None? ==> Learns(bytes, known, c, next)
  {
    hide Has, ValidFeature, ValidCanvas, ValidPrimary, CanvasAt, PrimaryAt;
    reason, next := None, known.(chunks := known.chunks + 1);
    if c.tag == Anim || c.tag == Anmf {
      reason := Some(Unsupported);
    } else if c.tag == Vp8x {
      var canvas;
      reason, canvas := JudgeCanvas(bytes, c, known.chunks);
      next := next.(canvas := Some(canvas));
    } else if c.tag == Vp8 {
      var primary;
      reason, primary := JudgeLossy(bytes, c, known.primary.Some?);
      next := next.(primary := Some(primary));
    } else if c.tag == Vp8l {
      var primary;
      reason, primary := JudgeLossless(bytes, c, known.primary.Some?);
      next := next.(primary := Some(primary));
    } else if IsFeature(c.tag) {
      reason := JudgeFeature(bytes, c, known, parsed);
      next := next.(features := next.features + {c.tag});
    } else if known.canvas.None? && known.primary.None? {
      reason := Some(Unsupported);
    }
  }

  // ---------- The inspector ----------

  ghost predicate HasDimensions(bytes: Bytes, chunks: seq<Chunk>, width: nat, height: nat) {
    && PrimaryOf(chunks).Some?
    && width == PrimaryWidth(bytes, PrimaryOf(chunks).value)
    && height == PrimaryHeight(bytes, PrimaryOf(chunks).value)
  }

  /** The last checks: the header of an extended file against its frame and features. */
  method JudgeWhole(bytes: Bytes, known: Known, ghost parsed: seq<Chunk>) returns (r: Verdict)
    requires Knows(bytes, parsed, known)
    ensures r.Accepted? <==> Complete(bytes, parsed)
    ensures r.Accepted? ==> HasDimensions(bytes, parsed, r.width, r.height)
  {
    if known.primary.None? {
      return Rejected(Invalid);
    }
    var primary := known.primary.value;
    if known.canvas.None? {
      return if known.chunks == 1 then Accepted(primary.width, primary.height) else Rejected(Invalid);
    }
    var canvas := known.canvas.value;
    if canvas.width != primary.width || canvas.height != primary.height
       || Bit(canvas.flags, 0x20) != (Iccp in known.features)
       || Bit(canvas.flags, 0x08) != (Exif in known.features)
       || Bit(canvas.flags, 0x04) != (Xmp in known.features)
       || Bit(canvas.flags, 0x10) != (Alph in known.features || primary.hasAlpha) {
      return Rejected(Invalid);
    }
    if Alph in known.features && primary.tag != Vp8 {
      return Rejected(Invalid);
    }
    return Accepted(primary.width, primary.height);
  }

  /**
   The inspector accepts exactly the files of the grammar, with the dimensions of their one
   frame, however one reads them.
   */
  method InspectWebp(bytes: Bytes) returns (r: Verdict)
    ensures r.Accepted? <==> IsWebp(bytes)
    ensures StartsRiff(bytes) ==> forall chunks :: ValidChunks(bytes, chunks) ==>
              r.Accepted? && HasDimensions(bytes, chunks, r.width, r.height)
  {
    hide Going, Knows, MayFollow, Learns, Complete, HasDimensions, ValidChunks;
    if |bytes| < 16 || !Letters(bytes, 0, 'R', 'I', 'F', 'F') || !Letters(bytes, 8, 'W', 'E', 'B', 'P')
       || Little32(bytes, 4) + 8 != |bytes| {
      return Rejected(Invalid);
    }
    var at, known := 12, Known(None, None, {}, 0);
    ghost var parsed: seq<Chunk> := [];
    NoChunks(bytes);
    while at + 8 <= |bytes|
      invariant at == StartOf(parsed, |parsed|) <= |bytes|
      invariant Going(bytes, parsed) && Knows(bytes, parsed, known)
    {
      var length := Little32(bytes, at + 4);
      var end := at + 8 + length + length % 2;
      if end > |bytes| || (length % 2 == 1 && bytes[end - 1] != 0) {
        BadExtent(bytes, parsed, at);
        return Rejected(Invalid);
      }
      var c := Chunk(TagAt(bytes, at), at, length, end);
      var reason, next := JudgeChunk(bytes, c, known, parsed);
      if reason.Some? {
        BadChunk(bytes, parsed, c);
        return Rejected(reason.value);
      }
      Extend(bytes, parsed, known, c, next);
      parsed, known, at := parsed + [c], next, end;
    }
    if at != |bytes| {
      BadExtent(bytes, parsed, at);
      return Rejected(Invalid);
    }
    Finish(bytes, parsed);
    r := JudgeWhole(bytes, known, parsed);
  }

  lemma Extend(bytes: Bytes, parsed: seq<Chunk>, known: Known, c: Chunk, next: Known)
    requires Going(bytes, parsed) && Knows(bytes, parsed, known) && ChunkAt(bytes, StartOf(parsed, |parsed|), c)
    requires MayFollow(bytes, parsed, c) && Learns(bytes, known, c, next)
    ensures Going(bytes, parsed + [c]) && Knows(bytes, parsed + [c], next)
  {
    hide Going, Knows, Learns, ValidCanvas, ValidFeature, ValidPrimary;
    GoOn(bytes, parsed, c);
    KnowsMore(bytes, parsed, known, c, next);
  }
}
