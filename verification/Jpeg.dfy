/**
 The JPEG inspector: one pass over the marker segments, deciding the grammar of
 `JpegGrammar` (front/chat/image-preview.js, lines 88 to 207).
 */
module Jpeg {
  import opened Wrappers
  import opened Octets
  import opened Preview
  import opened JpegGrammar

  /** The frame's header, as the scan keeps it. */
  datatype Frame = Frame(marker: Byte, width: nat, height: nat, ids: set<Byte>, quantizerOf: map<Byte, nat>)

  /** What the segments read so far have defined. */
  datatype Known = Known(
    frame: Option<Frame>, quantizers: set<nat>, dcTables: set<nat>, acTables: set<nat>,
    initial: set<Byte>, sawScan: bool)

  // ---------- What has been read so far ----------

  ghost predicate Going(bytes: Bytes, parsed: seq<Segment>) {
    && Chained(bytes, parsed)
    && (forall k {:trigger parsed[..k]} :: 0 <= k < |parsed| ==> MayFollow(bytes, parsed[..k], parsed[k].head))
    && (forall k :: 0 <= k < |parsed| ==> parsed[k].head.marker != EOI)
  }

  ghost predicate Continues(bytes: Bytes, parsed: seq<Segment>, s: Segment) {
    && SegmentAt(bytes, StartOf(parsed, |parsed|), s) && MayFollow(bytes, parsed, s.head)
    && (s.head.marker == EOI ==> s.head.at == |bytes|)
  }

  ghost predicate KnowsFrame(bytes: Bytes, s: Head, frame: Frame) {
    && frame.marker == s.marker && frame.width == FrameWidth(bytes, s) && frame.height == FrameHeight(bytes, s)
    && |frame.ids| == ComponentCount(bytes, s)
    && (forall id :: id in frame.ids <==> IsComponent(bytes, s, id))
    && frame.quantizerOf.Keys == frame.ids
    && forall i :: 0 <= i < ComponentCount(bytes, s) ==>
         && ComponentId(bytes, s, i) in frame.quantizerOf
         && frame.quantizerOf[ComponentId(bytes, s, i)] == ComponentQuantizer(bytes, s, i)
  }

  ghost predicate KnowsFrames(bytes: Bytes, parsed: seq<Segment>, known: Known) {
    && (known.frame.Some? <==> FrameOf(parsed).Some?)
    && (known.frame.Some? ==> KnowsFrame(bytes, FrameOf(parsed).value, known.frame.value))
    && known.initial <= (if known.frame.Some? then known.frame.value.ids else {})
  }

  ghost predicate KnowsTables(bytes: Bytes, parsed: seq<Segment>, known: Known) {
    && (forall id: nat :: id in known.quantizers <==> DefinesQuantizer(bytes, parsed, id))
    && (forall id: nat :: id in known.dcTables <==> DefinesTable(bytes, parsed, 0, id))
    && (forall id: nat :: id in known.acTables <==> DefinesTable(bytes, parsed, 1, id))
  }

  ghost predicate KnowsScans(bytes: Bytes, parsed: seq<Segment>, known: Known) {
    && (forall id :: id in known.initial <==> Started(bytes, parsed, id))
    && (known.sawScan <==> HasScan(parsed))
  }

  /** The variables of the scan say what the segments say. */
  ghost predicate Knows(bytes: Bytes, parsed: seq<Segment>, known: Known) {
    KnowsFrames(bytes, parsed, known) && KnowsTables(bytes, parsed, known) && KnowsScans(bytes, parsed, known)
  }

  // ---------- Why the scan is right ----------

  lemma NextIsForced(bytes: Bytes, parsed: seq<Segment>, segments: seq<Segment>)
    requires Going(bytes, parsed) && ValidSegments(bytes, segments)
    ensures |parsed| < |segments| && parsed == segments[..|parsed|]
    ensures Continues(bytes, parsed, segments[|parsed|])
  {
    hide MayFollow, SegmentAt;
    var n := |parsed|;
    ReadingIsUnique(bytes, parsed, segments, n);
    assert parsed[..n] == parsed;
    assert n > 0 ==> parsed[n - 1] == segments[..n][n - 1];
    assert StartOf(segments, n) == StartOf(parsed, n);
    assert MayFollow(bytes, segments[..n], segments[n].head);
  }

  lemma NotJpeg(bytes: Bytes, parsed: seq<Segment>)
    requires Going(bytes, parsed) && forall s :: !Continues(bytes, parsed, s)
    ensures !IsJpeg(bytes)
  {
    forall segments ensures !ValidSegments(bytes, segments) {
      if ValidSegments(bytes, segments) {
        NextIsForced(bytes, parsed, segments);
      }
    }
  }

  lemma Appended(bytes: Bytes, parsed: seq<Segment>, s: Segment)
    requires Going(bytes, parsed) && Continues(bytes, parsed, s)
    ensures Chained(bytes, parsed + [s])
    ensures forall k {:trigger (parsed + [s])[..k]} :: 0 <= k <= |parsed| ==>
              MayFollow(bytes, (parsed + [s])[..k], (parsed + [s])[k].head)
  {
    hide MayFollow, SegmentAt;
    var more := parsed + [s];
    forall k | 0 <= k <= |parsed|
      ensures SegmentAt(bytes, StartOf(more, k), more[k]) && MayFollow(bytes, more[..k], more[k].head)
    {
      assert more[..k] == parsed[..k] && StartOf(more, k) == StartOf(parsed, k);
      assert parsed[..|parsed|] == parsed;
    }
  }

  lemma GoOn(bytes: Bytes, parsed: seq<Segment>, s: Segment)
    requires Going(bytes, parsed) && Continues(bytes, parsed, s) && s.head.marker != EOI
    ensures Going(bytes, parsed + [s])
  {
    Appended(bytes, parsed, s);
  }

  lemma Finish(bytes: Bytes, parsed: seq<Segment>, s: Segment)
    requires StartsImage(bytes) && Going(bytes, parsed) && Continues(bytes, parsed, s) && s.head.marker == EOI
    ensures IsJpeg(bytes)
    ensures forall segments :: ValidSegments(bytes, segments) ==> segments == parsed + [s]
  {
    hide MayFollow, SegmentAt;
    Appended(bytes, parsed, s);
    assert ValidSegments(bytes, parsed + [s]);
    forall segments | ValidSegments(bytes, segments) ensures segments == parsed + [s] {
      var n := |parsed|;
      NextIsForced(bytes, parsed, segments);
      LastIsSame(bytes, parsed, s, segments[n]);
      assert segments == segments[..n] + [segments[n]];
    }
  }

  lemma LastIsSame(bytes: Bytes, parsed: seq<Segment>, s: Segment, t: Segment)
    requires Continues(bytes, parsed, s) && Continues(bytes, parsed, t)
    ensures s == t
  {
    hide MayFollow;
    SegmentIsUnique(bytes, StartOf(parsed, |parsed|), s, t);
  }

  // ---------- Knowing one segment more ----------

  lemma MoreQuantizers(bytes: Bytes, parsed: seq<Segment>, s: Segment, id: nat)
    ensures DefinesQuantizer(bytes, parsed + [s], id) <==>
            (DefinesQuantizer(bytes, parsed, id)
             || (s.head.marker == DQT && id in QuantizerIds(bytes, s.head.at + 2, s.head.end)))
  {
    hide QuantizerIds;
    var more := parsed + [s];
    assert more[|parsed|] == s;
    if DefinesQuantizer(bytes, parsed, id) {
      var i :| 0 <= i < |parsed| && parsed[i].head.marker == DQT
            && id in QuantizerIds(bytes, parsed[i].head.at + 2, parsed[i].head.end);
      assert more[i] == parsed[i];
    }
  }

  lemma MoreTables(bytes: Bytes, parsed: seq<Segment>, s: Segment, tableClass: nat, id: nat)
    ensures DefinesTable(bytes, parsed + [s], tableClass, id) <==>
            (DefinesTable(bytes, parsed, tableClass, id)
             || (s.head.marker == DHT && id in HuffmanIds(bytes, tableClass, s.head.at + 2, s.head.end)))
  {
    hide HuffmanIds;
    var more := parsed + [s];
    assert more[|parsed|] == s;
    if DefinesTable(bytes, parsed, tableClass, id) {
      var i :| 0 <= i < |parsed| && parsed[i].head.marker == DHT
            && id in HuffmanIds(bytes, tableClass, parsed[i].head.at + 2, parsed[i].head.end);
      assert more[i] == parsed[i];
    }
  }

  lemma MoreStarted(bytes: Bytes, parsed: seq<Segment>, s: Segment, id: Byte)
    ensures Started(bytes, parsed + [s], id) <==>
            (Started(bytes, parsed, id) || (IsInitial(bytes, s.head) && InScan(bytes, s.head, id)))
  {
    hide IsInitial, InScan;
    var more := parsed + [s];
    assert more[|parsed|] == s;
    if Started(bytes, parsed, id) {
      var i :| 0 <= i < |parsed| && IsInitial(bytes, parsed[i].head) && InScan(bytes, parsed[i].head, id);
      assert more[i] == parsed[i];
    }
  }

  lemma MoreScans(parsed: seq<Segment>, s: Segment)
    ensures HasScan(parsed + [s]) <==> HasScan(parsed) || s.head.marker == SOS
  {
    var more := parsed + [s];
    assert more[|parsed|] == s;
    if HasScan(parsed) {
      var i :| 0 <= i < |parsed| && parsed[i].head.marker == SOS;
      assert more[i] == parsed[i];
    }
  }

  /** What one segment adds to what is known. */
  ghost predicate Learns(bytes: Bytes, known: Known, s: Head, next: Known) {
    && (if IsFrame(s.marker) then next.frame.Some? && KnowsFrame(bytes, s, next.frame.value)
        else next.frame == known.frame)
    && next.quantizers == known.quantizers
                        + (if s.marker == DQT then QuantizerIds(bytes, s.at + 2, s.end) else {})
    && next.dcTables == known.dcTables + (if s.marker == DHT then HuffmanIds(bytes, 0, s.at + 2, s.end) else {})
    && next.acTables == known.acTables + (if s.marker == DHT then HuffmanIds(bytes, 1, s.at + 2, s.end) else {})
    && (forall id :: id in next.initial <==> id in known.initial || (IsInitial(bytes, s) && InScan(bytes, s, id)))
    && next.initial <= (if next.frame.Some? then next.frame.value.ids else {})
    && (next.sawScan <==> known.sawScan || s.marker == SOS)
  }

  lemma KnowsMoreTables(bytes: Bytes, parsed: seq<Segment>, known: Known, s: Segment, next: Known)
    requires KnowsTables(bytes, parsed, known) && Learns(bytes, known, s.head, next)
    ensures KnowsTables(bytes, parsed + [s], next)
  {
    hide KnowsFrame, DefinesQuantizer, DefinesTable, QuantizerIds, HuffmanIds, IsInitial, InScan;
    var more := parsed + [s];
    forall id: nat ensures id in next.quantizers <==> DefinesQuantizer(bytes, more, id) {
      MoreQuantizers(bytes, parsed, s, id);
    }
    forall id: nat ensures id in next.dcTables <==> DefinesTable(bytes, more, 0, id) {
      MoreTables(bytes, parsed, s, 0, id);
    }
    forall id: nat ensures id in next.acTables <==> DefinesTable(bytes, more, 1, id) {
      MoreTables(bytes, parsed, s, 1, id);
    }
  }

  lemma KnowsMoreScans(bytes: Bytes, parsed: seq<Segment>, known: Known, s: Segment, next: Known)
    requires KnowsScans(bytes, parsed, known) && Learns(bytes, known, s.head, next)
    ensures KnowsScans(bytes, parsed + [s], next)
  {
    hide KnowsFrame, Started, HasScan, QuantizerIds, HuffmanIds, IsInitial, InScan;
    forall id ensures id in next.initial <==> Started(bytes, parsed + [s], id) {
      MoreStarted(bytes, parsed, s, id);
    }
    MoreScans(parsed, s);
  }

  lemma KnowsMore(bytes: Bytes, parsed: seq<Segment>, known: Known, s: Segment, next: Known)
    requires Knows(bytes, parsed, known) && Learns(bytes, known, s.head, next)
    ensures Knows(bytes, parsed + [s], next)
  {
    hide KnowsFrame, KnowsTables, KnowsScans, QuantizerIds, HuffmanIds, IsInitial, InScan;
    var more := parsed + [s];
    assert more[..|more| - 1] == parsed && more[|more| - 1] == s;
    KnowsMoreTables(bytes, parsed, known, s, next);
    KnowsMoreScans(bytes, parsed, known, s, next);
  }

  // ---------- Markers and coded data ----------

  /** The marker whose first byte is at `start`: skip the fill bytes, take the code. */
  method ReadMarker(bytes: Bytes, start: nat) returns (found: bool, at: nat, code: Byte)
    requires start < |bytes| && bytes[start] == 0xFF
    ensures found ==> MarkerAt(bytes, start, at, code)
    ensures !found ==> forall other, c :: !MarkerAt(bytes, start, other, c)
  {
    at, code := start + 1, 0;
    while at < |bytes| && bytes[at] == 0xFF
      invariant start < at <= |bytes|
      invariant forall i :: start <= i < at ==> bytes[i] == 0xFF
    {
      at := at + 1;
    }
    if at >= |bytes| {
      return false, at, 0;
    }
    return true, at + 1, bytes[at];
  }

  /** Coded data from `at` on is coded data from `from` on with `n` bytes more, and back. */
  ghost predicate Consumed(bytes: Bytes, from: nat, at: nat, n: nat) {
    && (forall to, m: nat :: Entropy(bytes, at, to, m) ==> Entropy(bytes, from, to, m + n))
    && (forall to, m: nat :: Entropy(bytes, from, to, m) && Stopped(bytes, to) ==>
         m >= n && Entropy(bytes, at, to, m - n))
  }

  lemma ConsumeUnit(bytes: Bytes, from: nat, at: nat, n: nat, mid: nat)
    requires Consumed(bytes, from, at, n) && at < mid && Unit(bytes, at, mid)
    ensures Consumed(bytes, from, mid, n + UnitSize(bytes, at, mid))
  {
    hide Stops, Unit, UnitSize, Entropy;
    var size := UnitSize(bytes, at, mid);
    forall to, m: nat | Entropy(bytes, mid, to, m) ensures Entropy(bytes, from, to, m + (n + size)) {
      StepBack(bytes, at, mid, to, m);
      assert Entropy(bytes, from, to, (m + size) + n);
    }
    forall to, m: nat | Entropy(bytes, from, to, m) && Stopped(bytes, to)
      ensures m >= n + size && Entropy(bytes, mid, to, m - (n + size))
    {
      assert Entropy(bytes, at, to, m - n);
      StepOn(bytes, at, mid, to, m - n);
    }
  }

  lemma StepBack(bytes: Bytes, at: nat, mid: nat, to: nat, m: nat)
    requires at < mid && Unit(bytes, at, mid) && Entropy(bytes, mid, to, m)
    ensures Entropy(bytes, at, to, m + UnitSize(bytes, at, mid))
  {
    hide Unit, UnitSize;
    var n := m + UnitSize(bytes, at, mid);
    assert Entropy(bytes, mid, to, n - UnitSize(bytes, at, mid));
  }

  lemma StepOn(bytes: Bytes, at: nat, mid: nat, to: nat, m: nat)
    requires at < mid && Unit(bytes, at, mid) && Entropy(bytes, at, to, m) && Stopped(bytes, to)
    ensures m >= UnitSize(bytes, at, mid) && Entropy(bytes, mid, to, m - UnitSize(bytes, at, mid))
  {
    var p, c :| Stops(bytes, to, p, c);
    if at >= to {
      NoUnitAtStop(bytes, at, mid, p, c);
    } else {
      var other :| at < other <= to && Unit(bytes, at, other) && UnitSize(bytes, at, other) <= m
                && Entropy(bytes, other, to, m - UnitSize(bytes, at, other));
      UnitIsUnique(bytes, at, mid, other);
    }
  }

  lemma NoScanThrough(bytes: Bytes, from: nat, at: nat, n: nat)
    requires Consumed(bytes, from, at, n)
    requires forall to, m :: Stopped(bytes, to) ==> !Entropy(bytes, at, to, m)
    ensures forall to :: !ScanData(bytes, from, to)
  {
    hide Entropy, Stopped;
  }

  lemma NoMarkerNoScan(bytes: Bytes, from: nat, at: nat, n: nat)
    requires Consumed(bytes, from, at, n) && at < |bytes| && bytes[at] == 0xFF
    requires forall other, c :: !MarkerAt(bytes, at, other, c)
    ensures forall to :: !ScanData(bytes, from, to)
  {
    NoScanThrough(bytes, from, at, n);
  }

  lemma OffEnd(bytes: Bytes, from: nat, at: nat, n: nat)
    requires Consumed(bytes, from, at, n) && at == |bytes|
    ensures forall to :: !ScanData(bytes, from, to)
  {
    NoScanThrough(bytes, from, at, n);
  }

  lemma StopHere(bytes: Bytes, from: nat, next: nat, n: nat, at: nat, code: Byte)
    requires Consumed(bytes, from, next, n) && Stops(bytes, next, at, code)
    ensures n > 0 ==> ScanData(bytes, from, next)
    ensures forall to :: ScanData(bytes, from, to) ==> to == next && n > 0
  {
    assert Stopped(bytes, next);
    assert Entropy(bytes, next, next, 0);
    assert Entropy(bytes, from, next, 0 + n);
    forall to | ScanData(bytes, from, to) ensures to == next && n > 0 {
      var m :| m > 0 && Entropy(bytes, from, to, m);
      var p, c :| Stops(bytes, to, p, c);
      EntropyStops(bytes, from, to, m, next, n, p, c, at, code);
    }
  }

  /** Skip a scan's coded data, to the marker behind it. */
  method SkipScan(bytes: Bytes, from: nat) returns (found: bool, at: nat, code: Byte, ghost next: nat)
    requires from <= |bytes|
    ensures found ==> from <= next && ScanData(bytes, from, next) && MarkerAt(bytes, next, at, code)
    ensures found ==> forall to :: ScanData(bytes, from, to) ==> to == next
    ensures !found ==> forall to :: !ScanData(bytes, from, to)
  {
    hide Entropy, ScanData;
    at, next, code := from, from, 0;
    var scanDataBytes := 0;
    while at < |bytes|
      invariant from <= at <= |bytes|
      invariant Consumed(bytes, from, at, scanDataBytes)
    {
      if bytes[at] != 0xFF {
        ConsumeUnit(bytes, from, at, scanDataBytes, at + 1);
        at, scanDataBytes := at + 1, scanDataBytes + 1;
        continue;
      }
      next := at;
      found, at, code := ReadMarker(bytes, at);
      if !found {
        NoMarkerNoScan(bytes, from, next, scanDataBytes);
        return;
      }
      if code == 0 {
        ConsumeUnit(bytes, from, next, scanDataBytes, at);
        scanDataBytes := scanDataBytes + 1;
      } else if IsRestart(code) {
        RestartIsNoData(bytes, next, at, code);
        ConsumeUnit(bytes, from, next, scanDataBytes, at);
      } else {
        StopHere(bytes, from, next, scanDataBytes, at, code);
        return scanDataBytes > 0, at, code, next;
      }
    }
    OffEnd(bytes, from, at, scanDataBytes);
    return false, at, 0, next;
  }

  lemma RestartIsNoData(bytes: Bytes, from: nat, to: nat, code: Byte)
    requires MarkerAt(bytes, from, to, code) && IsRestart(code)
    ensures RestartUnit(bytes, from, to) && UnitSize(bytes, from, to) == 0
  {
  }

  // ---------- Frames ----------

  ghost predicate HasId(bytes: Bytes, s: Head, n: nat, id: Byte) {
    exists i :: 0 <= i < n && ComponentId(bytes, s, i) == id
  }

  /** The first `n` components of the frame are valid, and these are their ids and quantizers. */
  ghost predicate Collected(bytes: Bytes, s: Head, n: nat, ids: set<Byte>, quantizerOf: map<Byte, nat>) {
    && |ids| == n && quantizerOf.Keys == ids
    && (forall id :: id in ids <==> HasId(bytes, s, n, id))
    && (forall i :: 0 <= i < n ==> ValidComponent(bytes, s, i))
    && forall i :: 0 <= i < n ==>
         && ComponentId(bytes, s, i) in quantizerOf
         && quantizerOf[ComponentId(bytes, s, i)] == ComponentQuantizer(bytes, s, i)
  }

  lemma HasOneMore(bytes: Bytes, s: Head, n: nat, id: Byte)
    ensures HasId(bytes, s, n + 1, id) <==> HasId(bytes, s, n, id) || id == ComponentId(bytes, s, n)
  {
  }

  lemma CollectOne(bytes: Bytes, s: Head, n: nat, ids: set<Byte>, quantizerOf: map<Byte, nat>)
    requires Collected(bytes, s, n, ids, quantizerOf) && ValidComponent(bytes, s, n)
    ensures var id := ComponentId(bytes, s, n);
            Collected(bytes, s, n + 1, ids + {id}, quantizerOf[id := ComponentQuantizer(bytes, s, n)])
  {
    hide ValidComponent, HasId;
    var id := ComponentId(bytes, s, n);
    NewId(bytes, s, n);
    forall other ensures HasId(bytes, s, n + 1, other) <==> HasId(bytes, s, n, other) || other == id {
      HasOneMore(bytes, s, n, other);
    }
    forall i | 0 <= i < n ensures ComponentId(bytes, s, i) != id {
      Different(bytes, s, i, n);
    }
  }

  lemma NewId(bytes: Bytes, s: Head, n: nat)
    requires ValidComponent(bytes, s, n)
    ensures !HasId(bytes, s, n, ComponentId(bytes, s, n))
  {
  }

  lemma Different(bytes: Bytes, s: Head, i: nat, n: nat)
    requires i < n && ValidComponent(bytes, s, n)
    ensures ComponentId(bytes, s, i) != ComponentId(bytes, s, n)
  {
  }

  method JudgeComponents(bytes: Bytes, s: Head, componentCount: nat)
    returns (valid: bool, ids: set<Byte>, quantizerOf: map<Byte, nat>)
    requires s.at + 8 + 3 * componentCount <= |bytes|
    ensures valid <==> forall i :: 0 <= i < componentCount ==> ValidComponent(bytes, s, i)
    ensures valid ==> Collected(bytes, s, componentCount, ids, quantizerOf)
  {
    ids, quantizerOf := {}, map[];
    for index := 0 to componentCount
      invariant Collected(bytes, s, index, ids, quantizerOf)
    {
      var componentAt := s.at + 8 + 3 * index;
      var id, sampling, quantizer := bytes[componentAt], bytes[componentAt + 1], bytes[componentAt + 2];
      assert id == ComponentId(bytes, s, index) && quantizer == ComponentQuantizer(bytes, s, index);
      if id in ids || High(sampling) == 0 || High(sampling) > 4 || Low(sampling) == 0 || Low(sampling) > 4
         || quantizer > 3 {
        assert !ValidComponent(bytes, s, index);
        return false, ids, quantizerOf;
      }
      CollectOne(bytes, s, index, ids, quantizerOf);
      ids, quantizerOf := ids + {id}, quantizerOf[id := quantizer];
    }
    return true, ids, quantizerOf;
  }

  method JudgeFrame(bytes: Bytes, s: Head) returns (reason: Option<Reason>, frame: Frame)
    requires s.at + 2 <= s.end <= |bytes|
    ensures reason.None? <==> ValidFrame(bytes, s)
    ensures reason.None? ==> KnowsFrame(bytes, s, frame)
    ensures reason == Some(TooLarge) ==> !Fits(FrameWidth(bytes, s), FrameHeight(bytes, s))
  {
    hide ValidComponent;
    var at, length := s.at, s.end - s.at;
    frame := Frame(s.marker, 0, 0, {}, map[]);
    if length < 11 || bytes[at + 2] != 8 {
      return Some(Unsupported), frame;
    }
    var componentCount := bytes[at + 7];
    if componentCount == 0 || componentCount > 4 || length != 8 + 3 * componentCount {
      return Some(Invalid), frame;
    }
    var width, height := Big16(bytes, at + 5), Big16(bytes, at + 3);
    var dimensions := PreviewDimensions(width, height);
    if dimensions.None? {
      return Some(TooLarge), frame;
    }
    var valid, ids, quantizerOf := JudgeComponents(bytes, s, componentCount);
    if !valid {
      return Some(Invalid), frame;
    }
    forall id ensures IsComponent(bytes, s, id) <==> HasId(bytes, s, componentCount, id) {
    }
    return None, Frame(s.marker, width, height, ids, quantizerOf);
  }

  // ---------- Quantization tables ----------

  method JudgeQuantizer(bytes: Bytes, item: nat, end: nat) returns (valid: bool)
    requires item < end <= |bytes|
    ensures valid <==> QuantizerAt(bytes, item, end)
  {
    var precision, id := High(bytes[item]), Low(bytes[item]);
    var tableBytes := if precision == 0 then 64 else 128;
    if precision > 1 || id > 3 || item + 1 + tableBytes > end {
      return false;
    }
    var valueAt := item + 1;
    ghost var i := 0;
    while valueAt < item + 1 + tableBytes
      invariant valueAt == item + 1 + i * (precision + 1) && i <= 64
      invariant forall k :: 0 <= k < i ==> NonZero(bytes, item, k)
    {
      var value := if precision == 0 then bytes[valueAt] else Big16(bytes, valueAt);
      assert value != 0 <==> NonZero(bytes, item, i);
      if value == 0 {
        return false;
      }
      valueAt, i := valueAt + precision + 1, i + 1;
    }
    return true;
  }

  method JudgeQuantizers(bytes: Bytes, s: Head, known: set<nat>) returns (valid: bool, quantizers: set<nat>)
    requires s.at + 2 <= s.end <= |bytes|
    ensures valid <==> Quantizers(bytes, s.at + 2, s.end)
    ensures valid ==> quantizers == known + QuantizerIds(bytes, s.at + 2, s.end)
  {
    quantizers := known;
    var item, end := s.at + 2, s.end;
    while item < end
      invariant item <= end
      invariant Quantizers(bytes, item, end) <==> Quantizers(bytes, s.at + 2, end)
      invariant quantizers + QuantizerIds(bytes, item, end) == known + QuantizerIds(bytes, s.at + 2, end)
    {
      valid := JudgeQuantizer(bytes, item, end);
      if !valid {
        return;
      }
      quantizers := quantizers + {Low(bytes[item])};
      item := item + QuantizerSize(bytes, item);
    }
    return true, quantizers;
  }

  // ---------- Huffman tables ----------

  lemma Product(a: nat, b: nat)
    ensures a * b >= 0
  {
  }

  lemma {:induction false} CodeSpaceGrows(bytes: Bytes, from: nat, depth: nat, more: nat)
    requires depth <= more <= 16
    ensures CodeSpace(bytes, from, depth) <= CodeSpace(bytes, from, more)
    decreases more
  {
    hide At, Power2;
    if depth < more {
      CodeSpaceGrows(bytes, from, depth, more - 1);
      Product(At(bytes, from + more), Power2(16 - more));
    }
  }

  /** The codes still available at a depth are the code space that is left. */
  ghost predicate SpaceLeft(bytes: Bytes, item: nat, depth: nat, availableCodes: int)
    requires depth <= 16
  {
    availableCodes * Power2(16 - depth) == Power2(16) - CodeSpace(bytes, item, depth)
  }

  lemma HalfThePower(k: nat)
    ensures Power2(k + 1) == 2 * Power2(k)
  {
  }

  lemma Halve(available: int, count: int, p: int, left: int)
    requires available * (2 * p) == left
    ensures (available * 2 - count) * p == left - count * p
  {
  }

  lemma TakeCodes(bytes: Bytes, item: nat, depth: nat, availableCodes: int)
    requires 1 <= depth <= 16 && SpaceLeft(bytes, item, depth - 1, availableCodes)
    ensures SpaceLeft(bytes, item, depth, availableCodes * 2 - At(bytes, item + depth))
  {
    var p, count: int := Power2(16 - depth), At(bytes, item + depth);
    var before := CodeSpace(bytes, item, depth - 1);
    HalfThePower(16 - depth);
    Halve(availableCodes, count, p, Power2(16) - before);
    assert CodeSpace(bytes, item, depth) == before + count * p;
  }

  lemma TooManyCodes(bytes: Bytes, item: nat, depth: nat, availableCodes: int)
    requires depth <= 16 && SpaceLeft(bytes, item, depth, availableCodes) && availableCodes < 0
    ensures CodeSpace(bytes, item, 16) > Power2(16)
  {
    CodeSpaceGrows(bytes, item, depth, 16);
    assert availableCodes * Power2(16 - depth) < 0;
  }

  lemma FullDepth(bytes: Bytes, item: nat, availableCodes: int)
    ensures SpaceLeft(bytes, item, 0, 1)
    ensures SpaceLeft(bytes, item, 16, availableCodes) ==> availableCodes == Power2(16) - CodeSpace(bytes, item, 16)
  {
    assert Power2(0) == 1;
  }

  /**
   The count of codes still available at each depth stays non-negative just when the code
   lengths satisfy the Kraft inequality.
   */
  method CountCodes(bytes: Bytes, item: nat) returns (possible: bool, symbols: nat)
    requires item + 17 <= |bytes|
    ensures possible <==> CodeSpace(bytes, item, 16) <= Power2(16)
    ensures possible ==> symbols == Symbols(bytes, item, 16)
  {
    hide SpaceLeft, CodeSpace, Power2;
    symbols := 0;
    var availableCodes: int := 1;
    FullDepth(bytes, item, 1);
    for depth := 1 to 17
      invariant availableCodes >= 0 && symbols == Symbols(bytes, item, depth - 1)
      invariant SpaceLeft(bytes, item, depth - 1, availableCodes)
    {
      TakeCodes(bytes, item, depth, availableCodes);
      availableCodes := availableCodes * 2 - bytes[item + depth];
      symbols := symbols + bytes[item + depth];
      if availableCodes < 0 {
        TooManyCodes(bytes, item, depth, availableCodes);
        return false, symbols;
      }
    }
    FullDepth(bytes, item, availableCodes);
    return true, symbols;
  }

  method JudgeHuffman(bytes: Bytes, s: Head, dc: set<nat>, ac: set<nat>)
    returns (valid: bool, dcTables: set<nat>, acTables: set<nat>)
    requires s.at + 2 <= s.end <= |bytes|
    ensures valid <==> HuffmanTables(bytes, s.at + 2, s.end)
    ensures valid ==> dcTables == dc + HuffmanIds(bytes, 0, s.at + 2, s.end)
    ensures valid ==> acTables == ac + HuffmanIds(bytes, 1, s.at + 2, s.end)
  {
    hide CodeSpace, Symbols, Power2;
    dcTables, acTables := dc, ac;
    var item, end := s.at + 2, s.end;
    while item < end
      invariant item <= end
      invariant HuffmanTables(bytes, item, end) <==> HuffmanTables(bytes, s.at + 2, end)
      invariant dcTables + HuffmanIds(bytes, 0, item, end) == dc + HuffmanIds(bytes, 0, s.at + 2, end)
      invariant acTables + HuffmanIds(bytes, 1, item, end) == ac + HuffmanIds(bytes, 1, s.at + 2, end)
    {
      if item + 17 > end {
        return false, dcTables, acTables;
      }
      var tableClass, id := High(bytes[item]), Low(bytes[item]);
      if tableClass > 1 || id > 3 {
        return false, dcTables, acTables;
      }
      var possible, symbols := CountCodes(bytes, item);
      if !possible || symbols == 0 || symbols > 256 || item + 17 + symbols > end {
        return false, dcTables, acTables;
      }
      if tableClass == 0 {
        dcTables := dcTables + {id};
      } else {
        acTables := acTables + {id};
      }
      item := item + 17 + symbols;
    }
    return true, dcTables, acTables;
  }

  // ---------- Scans ----------

  lemma QuantizersAgree(bytes: Bytes, parsed: seq<Segment>, known: Known)
    requires Knows(bytes, parsed, known) && known.frame.Some?
    ensures QuantizersKnown(bytes, parsed, FrameOf(parsed).value)
       <==> forall id :: id in known.frame.value.quantizerOf ==> known.frame.value.quantizerOf[id] in known.quantizers
  {
    hide DefinesQuantizer;
    var s, frame := FrameOf(parsed).value, known.frame.value;
    forall id | id in frame.quantizerOf
      ensures exists i :: 0 <= i < ComponentCount(bytes, s) && ComponentId(bytes, s, i) == id
                       && frame.quantizerOf[id] == ComponentQuantizer(bytes, s, i)
    {
      assert IsComponent(bytes, s, id);
    }
  }

  ghost predicate HasScanId(bytes: Bytes, s: Head, n: nat, id: Byte) {
    exists i :: 0 <= i < n && ScanId(bytes, s, i) == id
  }

  method JudgeScanComponents(bytes: Bytes, s: Head, ids: set<Byte>, ghost frame: Head)
    returns (valid: bool, scanIds: set<Byte>)
    requires s.at + 3 + 2 * ScanCount(bytes, s) <= |bytes|
    requires forall id :: id in ids <==> IsComponent(bytes, frame, id)
    ensures valid <==> forall i :: 0 <= i < ScanCount(bytes, s) ==> ValidScanComponent(bytes, frame, s, i)
    ensures valid ==> (forall id :: id in scanIds <==> InScan(bytes, s, id)) && scanIds <= ids
  {
    hide IsComponent;
    scanIds := {};
    for index := 0 to ScanCount(bytes, s)
      invariant forall i :: 0 <= i < index ==> ValidScanComponent(bytes, frame, s, i)
      invariant forall id :: id in scanIds <==> HasScanId(bytes, s, index, id)
      invariant scanIds <= ids
    {
      var id, tables := bytes[s.at + 3 + 2 * index], bytes[s.at + 4 + 2 * index];
      assert id == ScanId(bytes, s, index) && tables == ScanTables(bytes, s, index);
      if id !in ids || id in scanIds || High(tables) > 3 || Low(tables) > 3 {
        assert !ValidScanComponent(bytes, frame, s, index);
        return false, scanIds;
      }
      forall other ensures HasScanId(bytes, s, index + 1, other) <==> HasScanId(bytes, s, index, other) || other == id {
      }
      scanIds := scanIds + {id};
    }
    forall id ensures InScan(bytes, s, id) <==> HasScanId(bytes, s, ScanCount(bytes, s), id) {
    }
    return true, scanIds;
  }

  method JudgeProgress(bytes: Bytes, s: Head, frameMarker: Byte, ghost frame: Head) returns (valid: bool)
    requires s.at + 6 + 2 * ScanCount(bytes, s) <= |bytes| && frameMarker == frame.marker
    ensures valid <==> ValidProgress(bytes, frame, s)
  {
    var spectralAt, scanComponents := s.at + 3 + 2 * ScanCount(bytes, s), ScanCount(bytes, s);
    var spectralStart, spectralEnd := bytes[spectralAt], bytes[spectralAt + 1];
    var successiveHigh, successiveLow := High(bytes[spectralAt + 2]), Low(bytes[spectralAt + 2]);
    if spectralStart > spectralEnd || spectralEnd > 63 || successiveHigh > 13 || successiveLow > 13 {
      return false;
    }
    if frameMarker != PROGRESSIVE
       && (spectralStart != 0 || spectralEnd != 63 || successiveHigh != 0 || successiveLow != 0) {
      return false;
    }
    if frameMarker == PROGRESSIVE
       && ((spectralStart == 0 && spectralEnd != 0) || (spectralStart > 0 && scanComponents != 1)
           || (successiveHigh > 0 && successiveHigh != successiveLow + 1)) {
      return false;
    }
    return true;
  }

  method JudgeTables(bytes: Bytes, s: Head, known: Known, ghost parsed: seq<Segment>) returns (valid: bool)
    requires s.at + 5 + 2 * ScanCount(bytes, s) <= |bytes| && Knows(bytes, parsed, known)
    ensures valid <==> forall i :: 0 <= i < ScanCount(bytes, s) ==> HasTables(bytes, parsed, s, i)
  {
    hide DefinesTable, DefinesQuantizer, Started, KnowsFrame;
    for index := 0 to ScanCount(bytes, s)
      invariant forall i :: 0 <= i < index ==> HasTables(bytes, parsed, s, i)
    {
      var tables := bytes[s.at + 4 + 2 * index];
      assert tables == ScanTables(bytes, s, index);
      if (SpectralStart(bytes, s) == 0 && High(tables) !in known.dcTables)
         || (SpectralEnd(bytes, s) > 0 && Low(tables) !in known.acTables) {
        assert !HasTables(bytes, parsed, s, index);
        return false;
      }
    }
    return true;
  }

  lemma RefinesAgrees(bytes: Bytes, parsed: seq<Segment>, known: Known, frame: Head, s: Head, scanIds: set<Byte>)
    requires Knows(bytes, parsed, known) && forall id :: id in scanIds <==> InScan(bytes, s, id)
    ensures Refines(bytes, frame, parsed, s) <==>
            (frame.marker == PROGRESSIVE && (SpectralStart(bytes, s) > 0 || SuccessiveHigh(bytes, s) > 0)
             ==> scanIds <= known.initial)
  {
    hide Started, KnowsFrame, DefinesTable, DefinesQuantizer;
    forall i | 0 <= i < ScanCount(bytes, s) ensures ScanId(bytes, s, i) in scanIds {
      assert InScan(bytes, s, ScanId(bytes, s, i));
    }
  }

  method JudgeScan(bytes: Bytes, s: Head, known: Known, ghost parsed: seq<Segment>)
    returns (valid: bool, initial: set<Byte>)
    requires s.at + 2 <= s.end <= |bytes| && s.marker == SOS && Knows(bytes, parsed, known)
    ensures valid <==> ValidScan(bytes, parsed, s)
    ensures valid ==> forall id :: id in initial <==> id in known.initial || (IsInitial(bytes, s) && InScan(bytes, s, id))
    ensures valid ==> known.frame.Some? && initial <= known.frame.value.ids
  {
    hide DefinesTable, DefinesQuantizer, Started, HasScan, IsComponent, InScan, ValidScanComponent, ValidProgress,
         Refines, HasTables, QuantizersKnown;
    initial := known.initial;
    var length := s.end - s.at;
    if known.frame.None? || length < 8 {
      return false, initial;
    }
    var frame := known.frame.value;
    ghost var head := FrameOf(parsed).value;
    QuantizersAgree(bytes, parsed, known);
    if exists id :: id in frame.quantizerOf && frame.quantizerOf[id] !in known.quantizers {
      return false, initial;
    }
    var scanComponents := bytes[s.at + 2];
    if scanComponents == 0 || scanComponents > |frame.ids| || length != 6 + 2 * scanComponents {
      return false, initial;
    }
    var scanIds;
    valid, scanIds := JudgeScanComponents(bytes, s, frame.ids, head);
    if !valid {
      return;
    }
    valid := JudgeProgress(bytes, s, frame.marker, head);
    if !valid {
      return;
    }
    var spectralStart, successiveHigh := SpectralStart(bytes, s), SuccessiveHigh(bytes, s);
    RefinesAgrees(bytes, parsed, known, head, s, scanIds);
    if frame.marker == PROGRESSIVE && (spectralStart > 0 || successiveHigh > 0) && !(scanIds <= known.initial) {
      return false, initial;
    }
    valid := JudgeTables(bytes, s, known, parsed);
    if valid && spectralStart == 0 && successiveHigh == 0 {
      initial := initial + scanIds;
    }
  }

  // ---------- One segment ----------

  method JudgeSegment(bytes: Bytes, s: Head, known: Known, ghost parsed: seq<Segment>)
    returns (reason: Option<Reason>, next: Known)
    requires s.at + 2 <= s.end <= |bytes| && s.end == s.at + Big16(bytes, s.at) && s.marker != EOI
    requires Knows(bytes, parsed, known)
    ensures reason.None? <==> MayFollow(bytes, parsed, s)
    ensures reason.None? ==> Learns(bytes, known, s, next)
  {
    hide ValidFrame, ValidScan, Quantizers, HuffmanTables, KnowsFrame, QuantizerIds, HuffmanIds, Complete,
         DefinesTable, DefinesQuantizer, Started, HasScan, InScan;
    next := known;
    if known.frame.None? && s.end > MAX_HEADER_BYTES {
      return Some(Unsupported), next;
    }
    if IsFrame(s.marker) {
      if known.frame.Some? {
        return Some(Invalid), next;
      }
      var frame;
      reason, frame := JudgeFrame(bytes, s);
      next := known.(frame := Some(frame));
    } else if s.marker == DQT {
      var valid, quantizers := JudgeQuantizers(bytes, s, known.quantizers);
      reason := if valid then None else Some(Invalid);
      next := known.(quantizers := quantizers);
    } else if s.marker == DHT {
      var valid, dcTables, acTables := JudgeHuffman(bytes, s, known.dcTables, known.acTables);
      reason := if valid then None else Some(Invalid);
      next := known.(dcTables := dcTables, acTables := acTables);
    } else if s.marker == DRI {
      reason := if s.end - s.at != 4 then Some(Invalid) else None;
    } else if s.marker == SOS {
      var valid, initial := JudgeScan(bytes, s, known, parsed);
      reason := if valid then None else Some(Invalid);
      next := known.(initial := initial, sawScan := true);
    } else {
      reason := if IsSkipped(s.marker) then None else Some(Unsupported);
    }
  }

  // ---------- Why each rejection is right ----------

  lemma NoMarker(bytes: Bytes, parsed: seq<Segment>, at: nat)
    requires Going(bytes, parsed) && at == StartOf(parsed, |parsed|)
    requires forall other, code :: !MarkerAt(bytes, at, other, code)
    ensures !IsJpeg(bytes)
  {
    hide MayFollow, Chained;
    NotJpeg(bytes, parsed);
  }

  /** Before the frame, nothing may reach beyond the header limit. */
  lemma TooDeep(bytes: Bytes, parsed: seq<Segment>, at: nat)
    requires Going(bytes, parsed) && FrameOf(parsed).None?
    requires at == StartOf(parsed, |parsed|) >= MAX_HEADER_BYTES
    ensures !IsJpeg(bytes)
  {
    hide Chained, ValidFrame, ValidScan, Quantizers, HuffmanTables;
    NotJpeg(bytes, parsed);
  }

  /** The marker leaves no choice of head. */
  lemma OnlyHead(bytes: Bytes, start: nat, at: nat, marker: Byte, s: Segment)
    requires MarkerAt(bytes, start, at, marker) && SegmentAt(bytes, start, s)
    ensures s.head == Head(marker, at, if marker == EOI then at else at + Big16(bytes, at))
  {
    MarkerIsUnique(bytes, start, at, marker, s.head.at, s.head.marker);
  }

  lemma BadExtent(bytes: Bytes, parsed: seq<Segment>, at: nat, marker: Byte)
    requires Going(bytes, parsed) && MarkerAt(bytes, StartOf(parsed, |parsed|), at, marker) && marker != EOI
    requires at + 2 > |bytes| || Big16(bytes, at) < 2 || at + Big16(bytes, at) > |bytes|
    ensures !IsJpeg(bytes)
  {
    hide MayFollow, Chained;
    var start := StartOf(parsed, |parsed|);
    forall s ensures !Continues(bytes, parsed, s) {
      if SegmentAt(bytes, start, s) {
        OnlyHead(bytes, start, at, marker, s);
      }
    }
    NotJpeg(bytes, parsed);
  }

  /** Stuffing, restarts, a second start of image and the private marker begin no segment. */
  lemma BadMarker(bytes: Bytes, parsed: seq<Segment>, at: nat, marker: Byte)
    requires Going(bytes, parsed) && MarkerAt(bytes, StartOf(parsed, |parsed|), at, marker)
    requires marker in [0x00, 0x01, SOI] || IsRestart(marker)
    ensures !IsJpeg(bytes)
  {
    hide Chained;
    var start := StartOf(parsed, |parsed|);
    forall s ensures !Continues(bytes, parsed, s) {
      if SegmentAt(bytes, start, s) {
        OnlyHead(bytes, start, at, marker, s);
      }
    }
    NotJpeg(bytes, parsed);
  }

  lemma BadHead(bytes: Bytes, parsed: seq<Segment>, s: Head)
    requires Going(bytes, parsed) && HeadAt(bytes, StartOf(parsed, |parsed|), s)
    requires !MayFollow(bytes, parsed, s) || (s.marker == EOI && s.at != |bytes|)
    ensures !IsJpeg(bytes)
  {
    hide MayFollow, Chained;
    var start := StartOf(parsed, |parsed|);
    forall t ensures !Continues(bytes, parsed, t) {
      if SegmentAt(bytes, start, t) {
        OnlyHead(bytes, start, s.at, s.marker, t);
      }
    }
    NotJpeg(bytes, parsed);
  }

  lemma BadScan(bytes: Bytes, parsed: seq<Segment>, s: Head)
    requires Going(bytes, parsed) && HeadAt(bytes, StartOf(parsed, |parsed|), s)
    requires s.marker == SOS && forall to :: !ScanData(bytes, s.end, to)
    ensures !IsJpeg(bytes)
  {
    hide MayFollow, Chained, ScanData;
    var start := StartOf(parsed, |parsed|);
    forall t ensures !Continues(bytes, parsed, t) {
      if SegmentAt(bytes, start, t) {
        OnlyHead(bytes, start, s.at, s.marker, t);
      }
    }
    NotJpeg(bytes, parsed);
  }

  lemma SubsetBySize<T>(a: set<T>, b: set<T>)
    requires a <= b && |a| == |b|
    ensures a == b
  {
    assert b == a + (b - a);
  }

  /** Every component has been started just when as many are as there are components. */
  lemma CompleteBySize(bytes: Bytes, parsed: seq<Segment>, known: Known)
    requires Knows(bytes, parsed, known)
    ensures Complete(bytes, parsed)
       <==> known.frame.Some? && known.sawScan && |known.initial| == |known.frame.value.ids|
  {
    hide Started, HasScan, DefinesQuantizer, DefinesTable;
    if known.frame.Some? {
      var s, ids := FrameOf(parsed).value, known.frame.value.ids;
      if |known.initial| == |ids| {
        SubsetBySize(known.initial, ids);
        forall i | 0 <= i < ComponentCount(bytes, s) ensures ComponentId(bytes, s, i) in ids {
          assert IsComponent(bytes, s, ComponentId(bytes, s, i));
        }
      } else {
        assert known.initial != ids;
        var id :| id in ids && id !in known.initial;
        assert IsComponent(bytes, s, id);
      }
    }
  }

  lemma Start(bytes: Bytes)
    ensures Going(bytes, []) && Knows(bytes, [], Known(None, {}, {}, {}, {}, false))
  {
  }

  lemma TooShort(bytes: Bytes)
    requires |bytes| < 4
    ensures !IsJpeg(bytes)
  {
    hide MayFollow;
    forall segments ensures !ValidSegments(bytes, segments) {
      assert segments != [] && Chained(bytes, segments) ==> SegmentAt(bytes, StartOf(segments, 0), segments[0]);
    }
  }

  // ---------- The inspector ----------

  ghost predicate HasDimensions(bytes: Bytes, segments: seq<Segment>, width: nat, height: nat) {
    FrameOf(segments).Some?
    && width == FrameWidth(bytes, FrameOf(segments).value) && height == FrameHeight(bytes, FrameOf(segments).value)
  }

  lemma DimensionsKnown(bytes: Bytes, parsed: seq<Segment>, known: Known, s: Segment)
    requires Knows(bytes, parsed, known) && known.frame.Some? && s.head.marker == EOI
    ensures HasDimensions(bytes, parsed + [s], known.frame.value.width, known.frame.value.height)
  {
    var more := parsed + [s];
    assert more[..|more| - 1] == parsed && more[|more| - 1] == s;
  }

  /**
   The inspector accepts exactly the files of the grammar, with the dimensions their frame
   states, however one reads them.
   */
  method InspectJpeg(bytes: Bytes) returns (r: Verdict)
    ensures r.Accepted? <==> IsJpeg(bytes)
    ensures StartsImage(bytes) ==> forall segments :: ValidSegments(bytes, segments) ==>
              r.Accepted? && HasDimensions(bytes, segments, r.width, r.height)
  {
    hide Going, Knows, Continues, MayFollow, Learns, SegmentAt, HasDimensions, ValidSegments, ScanData, Complete;
    if |bytes| < 4 || bytes[0] != 0xFF || bytes[1] != SOI {
      if |bytes| < 4 {
        TooShort(bytes);
      }
      return Rejected(Invalid);
    }
    var at := 2;
    var pendingMarker: Option<Byte> := None;
    var known := Known(None, {}, {}, {}, {}, false);
    ghost var parsed: seq<Segment> := [];
    Start(bytes);
    while at < |bytes| || pendingMarker.Some?
      invariant at <= |bytes|
      invariant Going(bytes, parsed) && Knows(bytes, parsed, known)
      invariant if pendingMarker.Some? then MarkerAt(bytes, StartOf(parsed, |parsed|), at, pendingMarker.value)
                else at == StartOf(parsed, |parsed|)
      invariant pendingMarker.Some? ==> known.frame.Some?
      decreases |bytes| - at
    {
      if known.frame.None? && at >= MAX_HEADER_BYTES {
        FrameKnown(bytes, parsed, known);
        TooDeep(bytes, parsed, at);
        return Rejected(Unsupported);
      }
      var marker;
      ghost var start := StartOf(parsed, |parsed|);
      if pendingMarker.Some? {
        marker, pendingMarker := pendingMarker.value, None;
      } else {
        if bytes[at] != 0xFF {
          NoMarker(bytes, parsed, at);
          return Rejected(Invalid);
        }
        var found;
        found, at, marker := ReadMarker(bytes, at);
        if !found {
          NoMarker(bytes, parsed, start);
          return Rejected(Invalid);
        }
      }
      if marker == EOI {
        var s := Head(EOI, at, at);
        CompleteBySize(bytes, parsed, known);
        EndMayFollow(bytes, parsed, s);
        if known.frame.Some? && known.sawScan && |known.initial| == |known.frame.value.ids| && at == |bytes| {
          EndContinues(bytes, parsed, s);
          Finish(bytes, parsed, Segment(s, at));
          DimensionsKnown(bytes, parsed, known, Segment(s, at));
          return Accepted(known.frame.value.width, known.frame.value.height);
        }
        BadHead(bytes, parsed, s);
        return Rejected(Invalid);
      }
      if marker in [0x00, 0x01, SOI] || IsRestart(marker) {
        BadMarker(bytes, parsed, at, marker);
        return Rejected(if marker == 0x01 then Unsupported else Invalid);
      }
      if at + 2 > |bytes| || Big16(bytes, at) < 2 || at + Big16(bytes, at) > |bytes| {
        BadExtent(bytes, parsed, at, marker);
        return Rejected(Invalid);
      }
      var s := Head(marker, at, at + Big16(bytes, at));
      var reason, next := JudgeSegment(bytes, s, known, parsed);
      if reason.Some? {
        BadHead(bytes, parsed, s);
        return Rejected(reason.value);
      }
      at := s.end;
      ghost var after := s.end;
      if marker == SOS {
        var found, code;
        found, at, code, after := SkipScan(bytes, s.end);
        if !found {
          BadScan(bytes, parsed, s);
          return Rejected(Invalid);
        }
        pendingMarker := Some(code);
        ScanNeedsFrame(bytes, known, s, next, parsed);
      }
      Extend(bytes, parsed, known, s, after, next);
      known, parsed := next, parsed + [Segment(s, after)];
    }
    NoMarker(bytes, parsed, at);
    return Rejected(Invalid);
  }

  lemma FrameKnown(bytes: Bytes, parsed: seq<Segment>, known: Known)
    requires Knows(bytes, parsed, known)
    ensures known.frame.Some? <==> FrameOf(parsed).Some?
  {
  }

  lemma EndMayFollow(bytes: Bytes, parsed: seq<Segment>, s: Head)
    requires s.marker == EOI
    ensures MayFollow(bytes, parsed, s) <==> Complete(bytes, parsed)
  {
    hide Complete;
  }

  lemma EndContinues(bytes: Bytes, parsed: seq<Segment>, s: Head)
    requires MarkerAt(bytes, StartOf(parsed, |parsed|), s.at, EOI) && s == Head(EOI, |bytes|, |bytes|)
    requires MayFollow(bytes, parsed, s)
    ensures Continues(bytes, parsed, Segment(s, s.at))
  {
    hide MayFollow;
  }

  lemma ScanNeedsFrame(bytes: Bytes, known: Known, s: Head, next: Known, parsed: seq<Segment>)
    requires Knows(bytes, parsed, known) && MayFollow(bytes, parsed, s) && s.marker == SOS
    requires Learns(bytes, known, s, next)
    ensures next.frame.Some?
  {
  }

  lemma Extend(bytes: Bytes, parsed: seq<Segment>, known: Known, s: Head, after: nat, next: Known)
    requires Going(bytes, parsed) && Knows(bytes, parsed, known) && HeadAt(bytes, StartOf(parsed, |parsed|), s)
    requires s.marker != EOI && MayFollow(bytes, parsed, s) && Learns(bytes, known, s, next)
    requires if s.marker == SOS then ScanData(bytes, s.end, after) else after == s.end
    ensures Going(bytes, parsed + [Segment(s, after)]) && Knows(bytes, parsed + [Segment(s, after)], next)
  {
    hide MayFollow, Knows, Learns, ScanData, Going;
    GoOn(bytes, parsed, Segment(s, after));
    KnowsMore(bytes, parsed, known, Segment(s, after), next);
  }
}
