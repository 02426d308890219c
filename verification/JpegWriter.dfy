/**
 Writing JPEG files: the inspector's grammar accepts what a plain baseline encoder writes,
 for every size a preview may have and for no other.
 */
module JpegWriter {
  import opened Wrappers
  import opened Octets
  import opened Preview
  import opened JpegGrammar

  /** A number of two bytes, the high one first. */
  function Two(n: nat): (bytes: Bytes)
    requires n < 0x1_0000
    ensures |bytes| == 2
  {
    [n / 256, n % 256]
  }

  lemma TwoReadsBack(bytes: Bytes, at: nat, n: nat)
    requires n < 0x1_0000 && Holds(bytes, at, Two(n))
    ensures Big16(bytes, at) == n
  {
    assert bytes[at + 0] == Two(n)[0] && bytes[at + 1] == Two(n)[1];
  }

  function Repeated(b: Byte, n: nat): (bytes: Bytes)
    ensures |bytes| == n && forall i :: 0 <= i < n ==> bytes[i] == b
  {
    seq(n, i => b)
  }

  // ---------- Segments ----------

  /** A marker, the length of the segment, and its parameters. */
  function SegmentBytes(marker: Byte, parameters: Bytes): (bytes: Bytes)
    requires |parameters| < 0xFFFE
    ensures |bytes| == 4 + |parameters|
  {
    [0xFF, marker] + (Two(2 + |parameters|) + parameters)
  }

  lemma SegmentReadsBack(bytes: Bytes, start: nat, marker: Byte, parameters: Bytes)
    requires |parameters| < 0xFFFE && marker != 0xFF && marker != EOI
    requires Holds(bytes, start, SegmentBytes(marker, parameters))
    ensures Holds(bytes, start + 4, parameters)
    ensures HeadAt(bytes, start, Head(marker, start + 2, start + 4 + |parameters|))
  {
    hide Two, Big16;
    var front := [0xFF, marker];
    HoldsParts(bytes, start, front, Two(2 + |parameters|) + parameters);
    HoldsParts(bytes, start + 2, Two(2 + |parameters|), parameters);
    TwoReadsBack(bytes, start + 2, 2 + |parameters|);
    assert bytes[start + 0] == front[0] && bytes[start + 1] == front[1];
  }

  // ---------- The frame ----------

  /** One component, sampled once, with quantization table 0. */
  function FrameParameters(width: nat, height: nat): (bytes: Bytes)
    requires width < 0x1_0000 && height < 0x1_0000
    ensures |bytes| == 9
  {
    [8] + (Two(height) + (Two(width) + [1, 1, 0x11, 0]))
  }

  lemma FrameReadsBack(bytes: Bytes, s: Head, width: nat, height: nat)
    requires width < 0x1_0000 && height < 0x1_0000
    requires s.end == s.at + 11 && Holds(bytes, s.at + 2, FrameParameters(width, height))
    ensures FrameWidth(bytes, s) == width && FrameHeight(bytes, s) == height
    ensures ComponentCount(bytes, s) == 1 && ComponentId(bytes, s, 0) == 1 && ComponentQuantizer(bytes, s, 0) == 0
    ensures ValidFrame(bytes, s) <==> Fits(width, height)
  {
    hide Two, Big16, Fits;
    var precision, component := [8], [1, 1, 0x11, 0];
    HoldsParts(bytes, s.at + 2, precision, Two(height) + (Two(width) + component));
    HoldsParts(bytes, s.at + 3, Two(height), Two(width) + component);
    HoldsParts(bytes, s.at + 5, Two(width), component);
    TwoReadsBack(bytes, s.at + 3, height);
    TwoReadsBack(bytes, s.at + 5, width);
    assert bytes[s.at + 2 + 0] == precision[0];
    assert bytes[s.at + 7 + 0] == component[0] && bytes[s.at + 7 + 1] == component[1];
    assert bytes[s.at + 7 + 2] == component[2] && bytes[s.at + 7 + 3] == component[3];
  }

  // ---------- Tables ----------

  /** Table 0, of 8-bit values, all of them 1. */
  function QuantizerParameters(): (bytes: Bytes)
    ensures |bytes| == 65
  {
    [0] + Repeated(1, 64)
  }

  lemma QuantizerReadsBack(bytes: Bytes, from: nat)
    requires Holds(bytes, from, QuantizerParameters())
    ensures Quantizers(bytes, from, from + 65) && 0 in QuantizerIds(bytes, from, from + 65)
  {
    var table := QuantizerParameters();
    assert bytes[from + 0] == table[0];
    forall i | 0 <= i < 64 ensures NonZero(bytes, from, i) {
      assert bytes[from + (1 + i)] == table[1 + i];
    }
  }

  /** Table 0 of a class: one code, of one bit. */
  function HuffmanParameters(tableClass: nat): (bytes: Bytes)
    requires tableClass <= 1
    ensures |bytes| == 18
  {
    [16 * tableClass, 1] + Repeated(0, 16)
  }

  lemma {:induction false} OneCode(bytes: Bytes, from: nat, tableClass: nat, depth: nat)
    requires tableClass <= 1 && Holds(bytes, from, HuffmanParameters(tableClass)) && 1 <= depth <= 16
    ensures Symbols(bytes, from, depth) == 1 && CodeSpace(bytes, from, depth) == Power2(15)
  {
    hide Power2;
    var table := HuffmanParameters(tableClass);
    assert bytes[from + depth] == table[depth];
    if depth == 1 {
      assert Symbols(bytes, from, 0) == 0 && CodeSpace(bytes, from, 0) == 0;
    } else {
      OneCode(bytes, from, tableClass, depth - 1);
      assert table[depth] == 0 && 0 * Power2(16 - depth) == 0;
    }
  }

  lemma HuffmanReadsBack(bytes: Bytes, from: nat, tableClass: nat)
    requires tableClass <= 1 && Holds(bytes, from, HuffmanParameters(tableClass))
    ensures HuffmanTables(bytes, from, from + 18) && 0 in HuffmanIds(bytes, tableClass, from, from + 18)
  {
    hide CodeSpace, Symbols, Power2;
    var table := HuffmanParameters(tableClass);
    assert bytes[from + 0] == table[0];
    OneCode(bytes, from, tableClass, 16);
    PowerGrows();
    assert HuffmanTables(bytes, from + 18, from + 18);
  }

  lemma PowerGrows()
    ensures Power2(15) <= Power2(16)
  {
  }

  // ---------- The scan ----------

  /** All coefficients of component 1, with tables 0. */
  const SCAN: Bytes := [1, 1, 0, 0, 63, 0]

  ghost predicate Plain(data: Bytes) {
    forall i :: 0 <= i < |data| ==> data[i] != 0xFF
  }

  lemma {:induction false} DataReadsBack(bytes: Bytes, from: nat, data: Bytes)
    requires Holds(bytes, from, data) && Plain(data)
    ensures Entropy(bytes, from, from + |data|, |data|)
    decreases |data|
  {
    if data != [] {
      assert bytes[from + 0] == data[0];
      assert [data[0]] + data[1..] == data;
      HoldsParts(bytes, from, [data[0]], data[1..]);
      DataReadsBack(bytes, from + 1, data[1..]);
      assert Unit(bytes, from, from + 1) && UnitSize(bytes, from, from + 1) == 1;
    }
  }

  lemma EndReadsBack(bytes: Bytes, start: nat)
    requires Holds(bytes, start, [0xFF, EOI])
    ensures HeadAt(bytes, start, Head(EOI, start + 2, start + 2)) && Stopped(bytes, start)
  {
    var end := [0xFF, EOI];
    assert bytes[start + 0] == end[0] && bytes[start + 1] == end[1];
    assert Stops(bytes, start, start + 2, EOI);
  }

  lemma ScanReadsBack(bytes: Bytes, frame: Head, before: seq<Segment>, s: Head)
    requires frame.marker == 0xC0 && FrameOf(before) == Some(frame)
    requires ComponentCount(bytes, frame) == 1 && ComponentId(bytes, frame, 0) == 1
    requires ComponentQuantizer(bytes, frame, 0) == 0
    requires DefinesQuantizer(bytes, before, 0) && DefinesTable(bytes, before, 0, 0) && DefinesTable(bytes, before, 1, 0)
    requires s.marker == SOS && s.end == s.at + 8 && Holds(bytes, s.at + 2, SCAN)
    ensures ValidScan(bytes, before, s)
    ensures IsInitial(bytes, s) && InScan(bytes, s, 1)
  {
    hide FrameOf, DefinesQuantizer, DefinesTable, ComponentCount, ComponentId, ComponentQuantizer;
    assert bytes[s.at + 2 + 0] == SCAN[0] && bytes[s.at + 2 + 1] == SCAN[1] && bytes[s.at + 2 + 2] == SCAN[2];
    assert bytes[s.at + 2 + 3] == SCAN[3] && bytes[s.at + 2 + 4] == SCAN[4] && bytes[s.at + 2 + 5] == SCAN[5];
    assert ScanId(bytes, s, 0) == 1;
  }

  // ---------- Whole files ----------

  /** A grey image: one quantization table, the frame, two Huffman tables and one scan. */
  function GreyImage(width: nat, height: nat, data: Bytes): Bytes
    requires width < 0x1_0000 && height < 0x1_0000
  {
    [0xFF, SOI] + (SegmentBytes(DQT, QuantizerParameters())
    + (SegmentBytes(0xC0, FrameParameters(width, height))
    + (SegmentBytes(DHT, HuffmanParameters(0)) + (SegmentBytes(DHT, HuffmanParameters(1))
    + (SegmentBytes(SOS, SCAN) + (data + [0xFF, EOI]))))))
  }

  /** The file's parts stand where they should. */
  lemma Layout(width: nat, height: nat, data: Bytes)
    requires width < 0x1_0000 && height < 0x1_0000
    ensures var bytes := GreyImage(width, height, data);
      && |bytes| == 140 + |data| && StartsImage(bytes)
      && Holds(bytes, 2, SegmentBytes(DQT, QuantizerParameters()))
      && Holds(bytes, 71, SegmentBytes(0xC0, FrameParameters(width, height)))
      && Holds(bytes, 84, SegmentBytes(DHT, HuffmanParameters(0)))
      && Holds(bytes, 106, SegmentBytes(DHT, HuffmanParameters(1)))
      && Holds(bytes, 128, SegmentBytes(SOS, SCAN))
      && Holds(bytes, 138, data) && Holds(bytes, 138 + |data|, [0xFF, EOI])
  {
    hide SegmentBytes, QuantizerParameters, FrameParameters, HuffmanParameters, Holds;
    var bytes := GreyImage(width, height, data);
    var end := [0xFF, EOI];
    var scan := SegmentBytes(SOS, SCAN) + (data + end);
    var tables := SegmentBytes(DHT, HuffmanParameters(0)) + (SegmentBytes(DHT, HuffmanParameters(1)) + scan);
    var frame := SegmentBytes(0xC0, FrameParameters(width, height)) + tables;
    HoldsItself(bytes);
    HoldsParts(bytes, 0, [0xFF, SOI], SegmentBytes(DQT, QuantizerParameters()) + frame);
    HoldsParts(bytes, 2, SegmentBytes(DQT, QuantizerParameters()), frame);
    HoldsParts(bytes, 71, SegmentBytes(0xC0, FrameParameters(width, height)), tables);
    HoldsParts(bytes, 84, SegmentBytes(DHT, HuffmanParameters(0)), SegmentBytes(DHT, HuffmanParameters(1)) + scan);
    HoldsParts(bytes, 106, SegmentBytes(DHT, HuffmanParameters(1)), scan);
    HoldsParts(bytes, 128, SegmentBytes(SOS, SCAN), data + end);
    HoldsParts(bytes, 138, data, end);
  }

  /** The segments of such a file. */
  function Segments(n: nat): (segments: seq<Segment>)
    ensures |segments| == 6
  {
    [Segment(Head(DQT, 4, 71), 71), Segment(Head(0xC0, 73, 84), 84), Segment(Head(DHT, 86, 106), 106),
     Segment(Head(DHT, 108, 128), 128), Segment(Head(SOS, 130, 138), 138 + n),
     Segment(Head(EOI, 140 + n, 140 + n), 140 + n)]
  }

  lemma SegmentsChain(width: nat, height: nat, data: Bytes)
    requires width < 0x1_0000 && height < 0x1_0000 && data != [] && Plain(data)
    ensures Chained(GreyImage(width, height, data), Segments(|data|))
  {
    hide SegmentBytes, QuantizerParameters, FrameParameters, HuffmanParameters, Holds, GreyImage, HeadAt, Entropy, Stopped;
    var bytes, segments := GreyImage(width, height, data), Segments(|data|);
    Layout(width, height, data);
    SegmentReadsBack(bytes, 2, DQT, QuantizerParameters());
    SegmentReadsBack(bytes, 71, 0xC0, FrameParameters(width, height));
    SegmentReadsBack(bytes, 84, DHT, HuffmanParameters(0));
    SegmentReadsBack(bytes, 106, DHT, HuffmanParameters(1));
    SegmentReadsBack(bytes, 128, SOS, SCAN);
    DataReadsBack(bytes, 138, data);
    EndReadsBack(bytes, 138 + |data|);
    assert ScanData(bytes, 138, 138 + |data|);
    forall k | 0 <= k < 6 ensures SegmentAt(bytes, StartOf(segments, k), segments[k]) {
    }
  }

  lemma PartsAreValid(width: nat, height: nat, data: Bytes)
    requires width < 0x1_0000 && height < 0x1_0000
    ensures var bytes := GreyImage(width, height, data);
      && Quantizers(bytes, 6, 71) && 0 in QuantizerIds(bytes, 6, 71)
      && HuffmanTables(bytes, 88, 106) && 0 in HuffmanIds(bytes, 0, 88, 106)
      && HuffmanTables(bytes, 110, 128) && 0 in HuffmanIds(bytes, 1, 110, 128)
      && Holds(bytes, 132, SCAN)
      && var frame := Head(0xC0, 73, 84);
      && FrameWidth(bytes, frame) == width && FrameHeight(bytes, frame) == height
      && ComponentCount(bytes, frame) == 1 && ComponentId(bytes, frame, 0) == 1 && ComponentQuantizer(bytes, frame, 0) == 0
      && (ValidFrame(bytes, frame) <==> Fits(width, height))
  {
    hide SegmentBytes, QuantizerParameters, FrameParameters, HuffmanParameters, Holds, GreyImage, HeadAt, Fits,
      Quantizers, QuantizerIds, HuffmanTables, HuffmanIds, ValidFrame;
    var bytes := GreyImage(width, height, data);
    Layout(width, height, data);
    SegmentReadsBack(bytes, 2, DQT, QuantizerParameters());
    SegmentReadsBack(bytes, 71, 0xC0, FrameParameters(width, height));
    SegmentReadsBack(bytes, 84, DHT, HuffmanParameters(0));
    SegmentReadsBack(bytes, 106, DHT, HuffmanParameters(1));
    SegmentReadsBack(bytes, 128, SOS, SCAN);
    QuantizerReadsBack(bytes, 6);
    HuffmanReadsBack(bytes, 88, 0);
    HuffmanReadsBack(bytes, 110, 1);
    FrameReadsBack(bytes, Head(0xC0, 73, 84), width, height);
  }

  /** What the segments up to the scan define. */
  lemma TablesAreDefined(bytes: Bytes, before: seq<Segment>, n: nat)
    requires before == Segments(n)[..4]
    requires 0 in QuantizerIds(bytes, 6, 71) && 0 in HuffmanIds(bytes, 0, 88, 106) && 0 in HuffmanIds(bytes, 1, 110, 128)
    ensures FrameOf(before) == Some(Head(0xC0, 73, 84))
    ensures DefinesQuantizer(bytes, before, 0) && DefinesTable(bytes, before, 0, 0) && DefinesTable(bytes, before, 1, 0)
  {
    hide QuantizerIds, HuffmanIds;
    assert before[0].head == Head(DQT, 4, 71) && before[2].head == Head(DHT, 86, 106) && before[3].head == Head(DHT, 108, 128);
    assert before[..3][..2] == before[..2];
    FrameStays(before);
    FrameStays(before[..3]);
  }

  lemma FrameStays(before: seq<Segment>)
    requires before != [] && !IsFrame(before[|before| - 1].head.marker)
    ensures FrameOf(before) == FrameOf(before[..|before| - 1])
  {
  }

  lemma NoFrameYet(all: seq<Segment>)
    requires |all| >= 1 && !IsFrame(all[0].head.marker)
    ensures FrameOf(all[..0]).None? && FrameOf(all[..1]).None?
  {
    assert all[..1][..0] == [] && all[..0] == [];
  }

  lemma SegmentsFollow(width: nat, height: nat, data: Bytes)
    requires width < 0x1_0000 && height < 0x1_0000 && Fits(width, height)
    ensures forall k {:trigger Segments(|data|)[..k]} :: 0 <= k < 6 ==>
      MayFollow(GreyImage(width, height, data), Segments(|data|)[..k], Segments(|data|)[k].head)
  {
    hide QuantizerIds, HuffmanIds, ValidFrame, GreyImage, Fits, Quantizers, HuffmanTables, ValidScan, Holds,
      IsInitial, InScan, DefinesQuantizer, DefinesTable, ComponentCount, ComponentId, ComponentQuantizer;
    var bytes, all := GreyImage(width, height, data), Segments(|data|);
    PartsAreValid(width, height, data);
    assert all[..2][..1] == all[..1] && all[..3][..2] == all[..2];
    TablesAreDefined(bytes, all[..4], |data|);
    ScanReadsBack(bytes, Head(0xC0, 73, 84), all[..4], all[4].head);
    assert all[..5][..4] == all[..4];
    FrameStays(all[..5]);
    assert all[..5][4] == all[4];
    assert Started(bytes, all[..5], 1);
    assert Complete(bytes, all[..5]);
    NoFrameYet(all);
    forall k | 0 <= k < 6 ensures MayFollow(bytes, all[..k], all[k].head) {
    }
  }

  /** The file has these segments in whatever way it is read. */
  lemma OneReading(width: nat, height: nat, data: Bytes, segments: seq<Segment>)
    requires width < 0x1_0000 && height < 0x1_0000 && data != [] && Plain(data)
    requires ValidSegments(GreyImage(width, height, data), segments)
    ensures segments == Segments(|data|)
  {
    hide GreyImage, SegmentAt, MayFollow;
    var bytes, all := GreyImage(width, height, data), Segments(|data|);
    SegmentsChain(width, height, data);
    var read := all[..5];
    forall k | 0 <= k < 5 ensures SegmentAt(bytes, StartOf(read, k), read[k]) {
      assert StartOf(read, k) == StartOf(all, k);
    }
    ReadingIsUnique(bytes, read, segments, 5);
    assert segments[..5][4] == all[4];
    assert StartOf(segments, 5) == StartOf(all, 5);
    SegmentIsUnique(bytes, StartOf(all, 5), segments[5], all[5]);
    assert segments == segments[..5] + [segments[5]] && all == all[..5] + [all[5]];
  }

  lemma FitsIsValid(width: nat, height: nat, data: Bytes)
    requires width < 0x1_0000 && height < 0x1_0000 && data != [] && Plain(data) && Fits(width, height)
    ensures ValidSegments(GreyImage(width, height, data), Segments(|data|))
  {
    hide GreyImage, SegmentAt, MayFollow, Plain, Holds, Fits, Chained;
    Layout(width, height, data);
    SegmentsChain(width, height, data);
    SegmentsFollow(width, height, data);
  }

  lemma FrameOfSegments(n: nat)
    ensures FrameOf(Segments(n)) == Some(Head(0xC0, 73, 84))
  {
    hide FrameOf;
    var all := Segments(n);
    assert all[..5][..4] == all[..4] && all[..4][..3] == all[..3] && all[..3][..2] == all[..2];
    FrameStays(all);
    FrameStays(all[..5]);
    FrameStays(all[..4]);
    FrameStays(all[..3]);
    LastIsFrame(all[..2]);
  }

  lemma LastIsFrame(before: seq<Segment>)
    requires before != [] && IsFrame(before[|before| - 1].head.marker)
    ensures FrameOf(before) == Some(before[|before| - 1].head)
  {
  }

  /** A grey image written out is accepted exactly when its size is one a preview may have. */
  lemma WrittenIsAccepted(width: nat, height: nat, data: Bytes)
    requires width < 0x1_0000 && height < 0x1_0000 && data != [] && Plain(data)
    ensures var bytes := GreyImage(width, height, data);
      && (IsJpeg(bytes) <==> 0 < width <= 8192 && 0 < height <= 8192 && width * height <= 16_777_216)
      && forall segments :: ValidSegments(bytes, segments) ==>
           && FrameOf(segments).Some?
           && FrameWidth(bytes, FrameOf(segments).value) == width && FrameHeight(bytes, FrameOf(segments).value) == height
  {
    hide GreyImage, Plain, FrameWidth, FrameHeight, ValidFrame, Holds, FrameOf, ValidSegments, Quantizers, HuffmanTables,
      QuantizerIds, HuffmanIds, ComponentCount, ComponentId, ComponentQuantizer;
    var bytes, all := GreyImage(width, height, data), Segments(|data|);
    Layout(width, height, data);
    PartsAreValid(width, height, data);
    FrameOfSegments(|data|);
    if Fits(width, height) {
      FitsIsValid(width, height, data);
    }
    forall segments | ValidSegments(bytes, segments) ensures segments == all && Fits(width, height) {
      OneReading(width, height, data, segments);
      FrameIsValid(bytes, all);
    }
  }

  lemma FrameIsValid(bytes: Bytes, all: seq<Segment>)
    requires ValidSegments(bytes, all) && |all| > 1 && IsFrame(all[1].head.marker)
    ensures ValidFrame(bytes, all[1].head)
  {
    hide Chained, ValidFrame, FrameOf;
    assert MayFollow(bytes, all[..1], all[1].head);
  }
}
