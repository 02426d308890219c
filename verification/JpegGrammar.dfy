/**
 The JPEG files a preview accepts, as a grammar over marker segments (Annex B of
 ITU-T T.81): sections B.1.1.2 and B.2.2 to B.2.4.
 */
module JpegGrammar {
  import opened Wrappers
  import opened Octets
  import opened Preview

  const MAX_HEADER_BYTES: nat := 1024 * 1024

  const SOI: Byte := 0xD8
  const EOI: Byte := 0xD9
  const SOS: Byte := 0xDA
  const DQT: Byte := 0xDB
  const DHT: Byte := 0xC4
  const DRI: Byte := 0xDD
  const PROGRESSIVE: Byte := 0xC2

  /** Baseline, extended sequential and progressive frames; the others are not previewed. */
  predicate IsFrame(marker: Byte) {
    0xC0 <= marker <= 0xC2
  }

  predicate IsRestart(marker: Byte) {
    0xD0 <= marker <= 0xD7
  }

  /** Application data and comments. */
  predicate IsSkipped(marker: Byte) {
    0xE0 <= marker <= 0xEF || marker == 0xFE
  }

  // ---------- Markers and entropy-coded data ----------

  /** A marker: one or more 0xFF bytes from `start`, and the code just before `at`. */
  ghost predicate MarkerAt(bytes: Bytes, start: nat, at: nat, code: Byte) {
    && start + 2 <= at <= |bytes| && bytes[at - 1] == code && code != 0xFF
    && forall i :: start <= i < at - 1 ==> bytes[i] == 0xFF
  }

  lemma MarkerIsUnique(bytes: Bytes, start: nat, at: nat, code: Byte, other: nat, otherCode: Byte)
    requires MarkerAt(bytes, start, at, code) && MarkerAt(bytes, start, other, otherCode)
    ensures at == other && code == otherCode
  {
    assert bytes[at - 1] != 0xFF && bytes[other - 1] != 0xFF;
  }

  /** One byte of coded data: a plain byte, or 0xFF with a zero stuffed behind it. */
  ghost predicate DataUnit(bytes: Bytes, from: nat, to: nat) {
    (to == from + 1 && from < |bytes| && bytes[from] != 0xFF) || MarkerAt(bytes, from, to, 0)
  }

  ghost predicate RestartUnit(bytes: Bytes, from: nat, to: nat) {
    to > 0 && IsRestart(At(bytes, to - 1)) && MarkerAt(bytes, from, to, At(bytes, to - 1))
  }

  ghost predicate Unit(bytes: Bytes, from: nat, to: nat) {
    DataUnit(bytes, from, to) || RestartUnit(bytes, from, to)
  }

  ghost function UnitSize(bytes: Bytes, from: nat, to: nat): nat {
    if DataUnit(bytes, from, to) then 1 else 0
  }

  /** `n` bytes of coded data, with restart markers anywhere between them. */
  ghost predicate Entropy(bytes: Bytes, from: nat, to: nat, n: nat)
    decreases to - from
  {
    if from >= to then
      from == to && n == 0
    else
      exists mid :: from < mid <= to && Unit(bytes, from, mid) && UnitSize(bytes, from, mid) <= n
                 && Entropy(bytes, mid, to, n - UnitSize(bytes, from, mid))
  }

  /** A marker that ends coded data stands here: neither stuffing nor a restart. */
  ghost predicate Stops(bytes: Bytes, start: nat, at: nat, code: Byte) {
    MarkerAt(bytes, start, at, code) && code != 0 && !IsRestart(code)
  }

  ghost predicate Stopped(bytes: Bytes, start: nat) {
    exists at, code :: Stops(bytes, start, at, code)
  }

  /** At least one byte of coded data, up to the marker at `to`. */
  ghost predicate ScanData(bytes: Bytes, from: nat, to: nat) {
    && Stopped(bytes, to)
    && (exists n :: n > 0 && Entropy(bytes, from, to, n))
  }

  // ---------- Segments ----------

  /** A marker segment's head: its parameters lie in `at..end`. */
  datatype Head = Head(marker: Byte, at: nat, end: nat)

  /** A segment with the coded data behind it, if any; the next marker starts at `next`. */
  datatype Segment = Segment(head: Head, next: nat)

  ghost predicate HeadAt(bytes: Bytes, start: nat, s: Head) {
    && MarkerAt(bytes, start, s.at, s.marker)
    && if s.marker == EOI then s.end == s.at
       else s.at + 2 <= s.end <= |bytes| && s.end == s.at + Big16(bytes, s.at)
  }

  ghost predicate SegmentAt(bytes: Bytes, start: nat, s: Segment) {
    && HeadAt(bytes, start, s.head)
    && if s.head.marker == SOS then ScanData(bytes, s.head.end, s.next) else s.next == s.head.end
  }

  // ---------- Frames ----------

  function ComponentCount(bytes: Bytes, s: Head): nat {
    At(bytes, s.at + 7)
  }

  function ComponentId(bytes: Bytes, s: Head, i: nat): Byte {
    At(bytes, s.at + 8 + 3 * i)
  }

  function ComponentQuantizer(bytes: Bytes, s: Head, i: nat): nat {
    At(bytes, s.at + 10 + 3 * i)
  }

  function FrameHeight(bytes: Bytes, s: Head): nat {
    Big16(bytes, s.at + 3)
  }

  function FrameWidth(bytes: Bytes, s: Head): nat {
    Big16(bytes, s.at + 5)
  }

  ghost predicate ValidComponent(bytes: Bytes, s: Head, i: nat) {
    var sampling := At(bytes, s.at + 9 + 3 * i);
    && 1 <= High(sampling) <= 4 && 1 <= Low(sampling) <= 4 && ComponentQuantizer(bytes, s, i) <= 3
    && forall j :: 0 <= j < i ==> ComponentId(bytes, s, j) != ComponentId(bytes, s, i)
  }

  ghost predicate ValidFrame(bytes: Bytes, s: Head) {
    && s.end >= s.at + 11 && At(bytes, s.at + 2) == 8
    && 1 <= ComponentCount(bytes, s) <= 4 && s.end == s.at + 8 + 3 * ComponentCount(bytes, s)
    && Fits(FrameWidth(bytes, s), FrameHeight(bytes, s))
    && forall i :: 0 <= i < ComponentCount(bytes, s) ==> ValidComponent(bytes, s, i)
  }

  ghost predicate IsComponent(bytes: Bytes, s: Head, id: Byte) {
    exists i :: 0 <= i < ComponentCount(bytes, s) && ComponentId(bytes, s, i) == id
  }

  // ---------- Quantization tables ----------

  function QuantizerSize(bytes: Bytes, from: nat): nat {
    if High(At(bytes, from)) == 0 then 65 else 129
  }

  ghost predicate NonZero(bytes: Bytes, from: nat, i: nat) {
    if High(At(bytes, from)) == 0 then At(bytes, from + 1 + i) != 0 else Big16(bytes, from + 1 + 2 * i) != 0
  }

  ghost predicate QuantizerAt(bytes: Bytes, from: nat, end: nat) {
    && High(At(bytes, from)) <= 1 && Low(At(bytes, from)) <= 3 && from + QuantizerSize(bytes, from) <= end
    && forall i :: 0 <= i < 64 ==> NonZero(bytes, from, i)
  }

  /** Whole tables fill the segment. */
  ghost predicate Quantizers(bytes: Bytes, from: nat, end: nat)
    decreases end - from
  {
    if from >= end then from == end
    else QuantizerAt(bytes, from, end) && Quantizers(bytes, from + QuantizerSize(bytes, from), end)
  }

  ghost function QuantizerIds(bytes: Bytes, from: nat, end: nat): set<nat>
    decreases end - from
  {
    if from >= end then {}
    else {Low(At(bytes, from))} + QuantizerIds(bytes, from + QuantizerSize(bytes, from), end)
  }

  // ---------- Huffman tables ----------

  function Power2(k: nat): (p: nat)
    ensures p >= 1
  {
    if k == 0 then 1 else 2 * Power2(k - 1)
  }

  /** The share of the 16-bit code space that the codes of up to `depth` bits take. */
  ghost function CodeSpace(bytes: Bytes, from: nat, depth: nat): nat
    requires depth <= 16
  {
    if depth == 0 then 0 else CodeSpace(bytes, from, depth - 1) + At(bytes, from + depth) * Power2(16 - depth)
  }

  ghost function Symbols(bytes: Bytes, from: nat, depth: nat): nat {
    if depth == 0 then 0 else Symbols(bytes, from, depth - 1) + At(bytes, from + depth)
  }

  ghost function HuffmanSize(bytes: Bytes, from: nat): nat {
    17 + Symbols(bytes, from, 16)
  }

  /** A table's code lengths satisfy the Kraft inequality, so that a prefix code has them. */
  ghost predicate HuffmanAt(bytes: Bytes, from: nat, end: nat) {
    && from + 17 <= end && High(At(bytes, from)) <= 1 && Low(At(bytes, from)) <= 3
    && CodeSpace(bytes, from, 16) <= Power2(16)
    && 1 <= Symbols(bytes, from, 16) <= 256 && from + HuffmanSize(bytes, from) <= end
  }

  ghost predicate HuffmanTables(bytes: Bytes, from: nat, end: nat)
    decreases end - from
  {
    if from >= end then from == end
    else HuffmanAt(bytes, from, end) && HuffmanTables(bytes, from + HuffmanSize(bytes, from), end)
  }

  /** The tables of one class: 0 for DC coefficients, 1 for AC. */
  ghost function HuffmanIds(bytes: Bytes, tableClass: nat, from: nat, end: nat): set<nat>
    decreases end - from
  {
    if from >= end then {}
    else
      (if High(At(bytes, from)) == tableClass then {Low(At(bytes, from))} else {})
      + HuffmanIds(bytes, tableClass, from + HuffmanSize(bytes, from), end)
  }

  // ---------- What earlier segments define ----------

  ghost function FrameOf(before: seq<Segment>): Option<Head> {
    if before == [] then None
    else if IsFrame(before[|before| - 1].head.marker) then Some(before[|before| - 1].head)
    else FrameOf(before[..|before| - 1])
  }

  ghost predicate DefinesQuantizer(bytes: Bytes, before: seq<Segment>, id: nat) {
    exists i :: 0 <= i < |before| && before[i].head.marker == DQT
             && id in QuantizerIds(bytes, before[i].head.at + 2, before[i].head.end)
  }

  ghost predicate DefinesTable(bytes: Bytes, before: seq<Segment>, tableClass: nat, id: nat) {
    exists i :: 0 <= i < |before| && before[i].head.marker == DHT
             && id in HuffmanIds(bytes, tableClass, before[i].head.at + 2, before[i].head.end)
  }

  ghost predicate HasScan(before: seq<Segment>) {
    exists i :: 0 <= i < |before| && before[i].head.marker == SOS
  }

  // ---------- Scans ----------

  function ScanCount(bytes: Bytes, s: Head): nat {
    At(bytes, s.at + 2)
  }

  function ScanId(bytes: Bytes, s: Head, i: nat): Byte {
    At(bytes, s.at + 3 + 2 * i)
  }

  function ScanTables(bytes: Bytes, s: Head, i: nat): Byte {
    At(bytes, s.at + 4 + 2 * i)
  }

  function SpectralStart(bytes: Bytes, s: Head): nat {
    At(bytes, s.at + 3 + 2 * ScanCount(bytes, s))
  }

  function SpectralEnd(bytes: Bytes, s: Head): nat {
    At(bytes, s.at + 4 + 2 * ScanCount(bytes, s))
  }

  function SuccessiveHigh(bytes: Bytes, s: Head): nat {
    High(At(bytes, s.at + 5 + 2 * ScanCount(bytes, s)))
  }

  function SuccessiveLow(bytes: Bytes, s: Head): nat {
    Low(At(bytes, s.at + 5 + 2 * ScanCount(bytes, s)))
  }

  ghost predicate InScan(bytes: Bytes, s: Head, id: Byte) {
    exists i :: 0 <= i < ScanCount(bytes, s) && ScanId(bytes, s, i) == id
  }

  /** A scan that starts its components: it codes their DC coefficients for the first time. */
  ghost predicate IsInitial(bytes: Bytes, s: Head) {
    s.marker == SOS && SpectralStart(bytes, s) == 0 && SuccessiveHigh(bytes, s) == 0
  }

  ghost predicate Started(bytes: Bytes, before: seq<Segment>, id: Byte) {
    exists i :: 0 <= i < |before| && IsInitial(bytes, before[i].head) && InScan(bytes, before[i].head, id)
  }

  ghost predicate ValidScanComponent(bytes: Bytes, frame: Head, s: Head, i: nat) {
    && IsComponent(bytes, frame, ScanId(bytes, s, i))
    && High(ScanTables(bytes, s, i)) <= 3 && Low(ScanTables(bytes, s, i)) <= 3
    && forall j :: 0 <= j < i ==> ScanId(bytes, s, j) != ScanId(bytes, s, i)
  }

  /** Spectral selection and successive approximation (sections B.2.3 and G.1.1.1). */
  ghost predicate ValidProgress(bytes: Bytes, frame: Head, s: Head) {
    var start, end := SpectralStart(bytes, s), SpectralEnd(bytes, s);
    var high, low := SuccessiveHigh(bytes, s), SuccessiveLow(bytes, s);
    && start <= end <= 63 && high <= 13 && low <= 13
    && if frame.marker == PROGRESSIVE then
         && (start == 0 ==> end == 0) && (start > 0 ==> ScanCount(bytes, s) == 1)
         && (high > 0 ==> high == low + 1)
       else
         start == 0 && end == 63 && high == 0 && low == 0
  }

  /** Later progressive scans refine components that an earlier scan started. */
  ghost predicate Refines(bytes: Bytes, frame: Head, before: seq<Segment>, s: Head) {
    frame.marker == PROGRESSIVE && (SpectralStart(bytes, s) > 0 || SuccessiveHigh(bytes, s) > 0) ==>
      forall i :: 0 <= i < ScanCount(bytes, s) ==> Started(bytes, before, ScanId(bytes, s, i))
  }

  ghost predicate HasTables(bytes: Bytes, before: seq<Segment>, s: Head, i: nat) {
    && (SpectralStart(bytes, s) == 0 ==> DefinesTable(bytes, before, 0, High(ScanTables(bytes, s, i))))
    && (SpectralEnd(bytes, s) > 0 ==> DefinesTable(bytes, before, 1, Low(ScanTables(bytes, s, i))))
  }

  ghost predicate QuantizersKnown(bytes: Bytes, before: seq<Segment>, frame: Head) {
    forall i :: 0 <= i < ComponentCount(bytes, frame)
             ==> DefinesQuantizer(bytes, before, ComponentQuantizer(bytes, frame, i))
  }

  ghost predicate ValidScan(bytes: Bytes, before: seq<Segment>, s: Head) {
    && FrameOf(before).Some?
    && var frame, count := FrameOf(before).value, ScanCount(bytes, s);
       && QuantizersKnown(bytes, before, frame)
       && 1 <= count <= ComponentCount(bytes, frame) && s.end == s.at + 6 + 2 * count
       && (forall i :: 0 <= i < count ==> ValidScanComponent(bytes, frame, s, i))
       && ValidProgress(bytes, frame, s)
       && Refines(bytes, frame, before, s)
       && (forall i :: 0 <= i < count ==> HasTables(bytes, before, s, i))
  }

  // ---------- Files ----------

  /** At the end there is a frame, and a scan has started every one of its components. */
  ghost predicate Complete(bytes: Bytes, before: seq<Segment>) {
    && FrameOf(before).Some? && HasScan(before)
    && var frame := FrameOf(before).value;
       forall i :: 0 <= i < ComponentCount(bytes, frame) ==> Started(bytes, before, ComponentId(bytes, frame, i))
  }

  /** Whether a segment may follow those before it. */
  ghost predicate MayFollow(bytes: Bytes, before: seq<Segment>, s: Head) {
    && (FrameOf(before).None? && s.marker != EOI ==> s.end <= MAX_HEADER_BYTES)
    && if IsFrame(s.marker) then FrameOf(before).None? && ValidFrame(bytes, s)
       else if s.marker == DQT then Quantizers(bytes, s.at + 2, s.end)
       else if s.marker == DHT then HuffmanTables(bytes, s.at + 2, s.end)
       else if s.marker == DRI then s.end == s.at + 4
       else if s.marker == SOS then ValidScan(bytes, before, s)
       else if s.marker == EOI then Complete(bytes, before)
       else IsSkipped(s.marker)
  }

  /** Application data and comments may stand anywhere, up to the frame within the first MiB. */
  lemma SkippedMayFollow(bytes: Bytes, before: seq<Segment>, s: Head)
    requires IsSkipped(s.marker)
    ensures MayFollow(bytes, before, s) <==> FrameOf(before).Some? || s.end <= 1_048_576
  {
  }

  /** Segments one behind the other, from just after the start of the image. */
  ghost predicate Chained(bytes: Bytes, segments: seq<Segment>) {
    forall k {:trigger StartOf(segments, k)} :: 0 <= k < |segments| ==>
      SegmentAt(bytes, StartOf(segments, k), segments[k])
  }

  function StartOf(segments: seq<Segment>, k: nat): nat
    requires k <= |segments|
  {
    if k == 0 then 2 else segments[k - 1].next
  }

  ghost predicate ValidSegments(bytes: Bytes, segments: seq<Segment>) {
    && segments != [] && Chained(bytes, segments)
    && (forall k {:trigger segments[..k]} :: 0 <= k < |segments| ==> MayFollow(bytes, segments[..k], segments[k].head))
    && (forall k :: 0 <= k < |segments| ==> (segments[k].head.marker == EOI <==> k == |segments| - 1))
    && segments[|segments| - 1].head.at == |bytes|
  }

  ghost predicate StartsImage(bytes: Bytes) {
    |bytes| >= 2 && bytes[0] == 0xFF && bytes[1] == SOI
  }

  ghost predicate IsJpeg(bytes: Bytes) {
    StartsImage(bytes) && exists segments :: ValidSegments(bytes, segments)
  }

  // ---------- What the grammar says about whole files ----------

  /** There is one frame header, and it precedes every scan. */
  lemma {:induction false} FrameIsEarlier(segments: seq<Segment>, i: nat)
    requires i < |segments| && IsFrame(segments[i].head.marker)
    ensures FrameOf(segments).Some?
    decreases |segments|
  {
    if i < |segments| - 1 {
      FrameIsEarlier(segments[..|segments| - 1], i);
    }
  }

  lemma {:induction false} FrameIsThere(before: seq<Segment>) returns (i: nat)
    requires FrameOf(before).Some?
    ensures i < |before| && IsFrame(before[i].head.marker) && FrameOf(before) == Some(before[i].head)
  {
    i := |before| - 1;
    if !IsFrame(before[i].head.marker) {
      i := FrameIsThere(before[..i]);
    }
  }

  lemma FollowsFrame(bytes: Bytes, before: seq<Segment>, s: Head)
    requires MayFollow(bytes, before, s)
    ensures IsFrame(s.marker) ==> FrameOf(before).None?
    ensures s.marker in [SOS, EOI] ==> FrameOf(before).Some?
  {
  }

  lemma OneFrameBeforeScans(bytes: Bytes, segments: seq<Segment>, k: nat)
    requires ValidSegments(bytes, segments) && k < |segments|
    ensures IsFrame(segments[k].head.marker) ==> forall i :: 0 <= i < k ==> !IsFrame(segments[i].head.marker)
    ensures segments[k].head.marker in [SOS, EOI] ==> exists i :: 0 <= i < k && IsFrame(segments[i].head.marker)
  {
    hide MayFollow, SegmentAt;
    FollowsFrame(bytes, segments[..k], segments[k].head);
    forall i | 0 <= i < k && IsFrame(segments[i].head.marker) ensures FrameOf(segments[..k]).Some? {
      FrameIsEarlier(segments[..k], i);
    }
    if segments[k].head.marker in [SOS, EOI] {
      var i := FrameIsThere(segments[..k]);
      assert IsFrame(segments[i].head.marker);
    }
  }

  // ---------- A file can be read in one way only ----------

  lemma {:induction false} EntropyStops(bytes: Bytes, from: nat, to: nat, n: nat, other: nat, m: nat,
                                        at: nat, code: Byte, otherAt: nat, otherCode: Byte)
    requires Entropy(bytes, from, to, n) && Stops(bytes, to, at, code)
    requires Entropy(bytes, from, other, m) && Stops(bytes, other, otherAt, otherCode)
    ensures to == other && n == m
    decreases if from < to then to - from else 0
  {
    if from >= to {
      if from < other {
        var mid :| from < mid <= other && Unit(bytes, from, mid);
        NoUnitAtStop(bytes, from, mid, at, code);
      }
    } else {
      var mid :| from < mid <= to && Unit(bytes, from, mid) && UnitSize(bytes, from, mid) <= n
              && Entropy(bytes, mid, to, n - UnitSize(bytes, from, mid));
      if from >= other {
        NoUnitAtStop(bytes, from, mid, otherAt, otherCode);
      } else {
        var mid2 :| from < mid2 <= other && Unit(bytes, from, mid2) && UnitSize(bytes, from, mid2) <= m
                 && Entropy(bytes, mid2, other, m - UnitSize(bytes, from, mid2));
        UnitIsUnique(bytes, from, mid, mid2);
        EntropyStops(bytes, mid, to, n - UnitSize(bytes, from, mid), other, m - UnitSize(bytes, from, mid),
                     at, code, otherAt, otherCode);
      }
    }
  }

  lemma NoUnitAtStop(bytes: Bytes, from: nat, mid: nat, at: nat, code: Byte)
    requires Stops(bytes, from, at, code)
    ensures !Unit(bytes, from, mid)
  {
    assert bytes[from] == 0xFF;
    if mid > 0 && MarkerAt(bytes, from, mid, At(bytes, mid - 1)) {
      MarkerIsUnique(bytes, from, at, code, mid, At(bytes, mid - 1));
    }
  }

  lemma UnitIsUnique(bytes: Bytes, from: nat, mid: nat, other: nat)
    requires from < mid && from < other && Unit(bytes, from, mid) && Unit(bytes, from, other)
    ensures mid == other
  {
    if MarkerAt(bytes, from, mid, At(bytes, mid - 1)) && MarkerAt(bytes, from, other, At(bytes, other - 1)) {
      MarkerIsUnique(bytes, from, mid, At(bytes, mid - 1), other, At(bytes, other - 1));
    }
  }

  lemma ScanDataIsUnique(bytes: Bytes, from: nat, to: nat, other: nat)
    requires ScanData(bytes, from, to) && ScanData(bytes, from, other)
    ensures to == other
  {
    var n :| n > 0 && Entropy(bytes, from, to, n);
    var m :| m > 0 && Entropy(bytes, from, other, m);
    var at, code :| Stops(bytes, to, at, code);
    var otherAt, otherCode :| Stops(bytes, other, otherAt, otherCode);
    EntropyStops(bytes, from, to, n, other, m, at, code, otherAt, otherCode);
  }

  lemma SegmentIsUnique(bytes: Bytes, start: nat, s: Segment, t: Segment)
    requires SegmentAt(bytes, start, s) && SegmentAt(bytes, start, t)
    ensures s == t
  {
    MarkerIsUnique(bytes, start, s.head.at, s.head.marker, t.head.at, t.head.marker);
    if s.head.marker == SOS {
      ScanDataIsUnique(bytes, s.head.end, s.next, t.next);
    }
  }

  /** Segments read from the front of a file are the front of every way to read it. */
  lemma {:induction false} ReadingIsUnique(bytes: Bytes, read: seq<Segment>, all: seq<Segment>, k: nat)
    requires Chained(bytes, read) && ValidSegments(bytes, all) && k <= |read|
    requires forall i :: 0 <= i < |read| ==> read[i].head.marker != EOI
    ensures k < |all| && read[..k] == all[..k]
  {
    hide MayFollow, SegmentAt;
    if k > 0 {
      ReadingIsUnique(bytes, read, all, k - 1);
      assert k > 1 ==> read[..k - 1][k - 2] == all[..k - 1][k - 2];
      assert StartOf(read, k - 1) == StartOf(all, k - 1);
      SegmentIsUnique(bytes, StartOf(read, k - 1), read[k - 1], all[k - 1]);
      assert all[k - 1].head.marker != EOI;
      assert read[..k] == read[..k - 1] + [read[k - 1]];
      assert all[..k] == all[..k - 1] + [all[k - 1]];
    }
  }
}
