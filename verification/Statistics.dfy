/**
 The retained statistics: points at least one push interval apart, none older than the
 maximal period, saved as a list and restored on the next start
 (server/src/utils/Statistics.cpp, lines 44 to 51, 93 to 142 and 149 to 221).
 */
module Statistics {
  import opened Wrappers

  const HOUR: nat := 3600 * 1000 * 1000
  const DEFAULT_MAX_PERIOD: nat := 7 * 24 * HOUR
  const DEFAULT_PUSH_INTERVAL: nat := HOUR
  const MAX_STATE_POINTS: nat := 1000

  datatype Counter =
    | FrontPageLoaded | PeerConnected | PeerDisconnected | PeerZombieDropped
    | PeerTransportClosed | PeerResumed | SessionExpired
    | PeerSendMessage | PeerShareFile | RoomCreated | RoomDeleted | FileServedBytes

  /** Counters that states saved by earlier versions lack. */
  predicate IsNewer(counter: Counter) {
    counter in {PeerTransportClosed, PeerResumed, SessionExpired}
  }

  type Counters = map<Counter, nat>

  const ALL: set<Counter> := {
    FrontPageLoaded, PeerConnected, PeerDisconnected, PeerZombieDropped,
    PeerTransportClosed, PeerResumed, SessionExpired,
    PeerSendMessage, PeerShareFile, RoomCreated, RoomDeleted, FileServedBytes
  }

  ghost predicate Full(counters: Counters) {
    forall counter :: counter in ALL ==> counter in counters
  }

  /** A point as it is parsed: any field may be missing. */
  datatype Point = Point(timestamp: Option<int>, counters: Counters)

  function ZeroCounters(): (zero: Counters)
    ensures Full(zero) && forall counter :: counter in zero ==> zero[counter] == 0
  {
    map counter | counter in ALL :: 0
  }

  function Time(point: Point): int {
    if point.timestamp.Some? then point.timestamp.value else 0
  }

  // ---------- Sampling ----------

  datatype Config = Config(maxPeriod: nat, pushInterval: nat)

  ghost predicate Usable(config: Config) {
    config.pushInterval > 0
  }

  /** Drop points from the front while they are older than the maximal period. */
  function Trim(points: seq<Point>, now: int, maxPeriod: nat): seq<Point> {
    if points != [] && now - Time(points[0]) > maxPeriod then Trim(points[1..], now, maxPeriod) else points
  }

  /** A sample overwrites the last point within the push interval, and adds a point after it. */
  function Sampled(config: Config, points: seq<Point>, counters: Counters, now: int): seq<Point> {
    if points != [] && now - Time(points[|points| - 1]) < config.pushInterval then
      points[..|points| - 1] + [points[|points| - 1].(counters := counters)]
    else
      Trim(points + [Point(Some(now), counters)], now, config.maxPeriod)
  }

  // ---------- What is retained ----------

  ghost predicate Complete(points: seq<Point>) {
    forall i :: 0 <= i < |points| ==> points[i].timestamp.Some? && Full(points[i].counters)
  }

  ghost predicate Spaced(points: seq<Point>, interval: nat) {
    forall i :: 0 < i < |points| ==> Time(points[i - 1]) + interval <= Time(points[i])
  }

  /** Points one push interval apart, over no more than the maximal period, all complete. */
  ghost predicate Retained(config: Config, points: seq<Point>) {
    && Complete(points) && Spaced(points, config.pushInterval)
    && (points != [] ==> Time(points[|points| - 1]) - Time(points[0]) <= config.maxPeriod)
  }

  ghost predicate Positive(points: seq<Point>) {
    forall i :: 0 <= i < |points| ==> Time(points[i]) > 0
  }

  lemma {:induction false} Spacing(points: seq<Point>, interval: nat, i: nat, j: nat)
    requires Spaced(points, interval) && i <= j < |points|
    ensures Time(points[i]) + (j - i) * interval <= Time(points[j])
    decreases j
  {
    if i < j {
      Spacing(points, interval, i, j - 1);
      assert (j - i) * interval == (j - 1 - i) * interval + interval;
    }
  }

  /** So there are at most as many points as push intervals fit into the period, and one. */
  lemma CountBound(config: Config, points: seq<Point>)
    requires Usable(config) && Retained(config, points)
    ensures |points| <= config.maxPeriod / config.pushInterval + 1
  {
    if points != [] {
      var n := |points| - 1;
      Spacing(points, config.pushInterval, 0, n);
      QuotientBound(n, config.pushInterval, config.maxPeriod);
    }
  }

  lemma QuotientBound(n: nat, d: nat, m: nat)
    requires d > 0
    ensures n <= m / d <==> n * d <= m
  {
    var q := m / d;
    assert m == q * d + m % d;
    if n <= q {
      assert n * d <= q * d;
    } else {
      assert (q + 1) * d <= n * d;
    }
  }

  /** By default at most 169 points, well below what a load accepts. */
  lemma DefaultBound(points: seq<Point>)
    requires Retained(Config(DEFAULT_MAX_PERIOD, DEFAULT_PUSH_INTERVAL), points)
    ensures DEFAULT_MAX_PERIOD == 604_800_000_000 && DEFAULT_PUSH_INTERVAL == 3_600_000_000
    ensures |points| <= 169 < 1000
  {
    CountBound(Config(DEFAULT_MAX_PERIOD, DEFAULT_PUSH_INTERVAL), points);
  }

  /** Trimming drops a front part, all of it too old, and stops at the first point that is not. */
  lemma {:induction false} TrimDropsFront(points: seq<Point>, now: int, maxPeriod: nat) returns (k: nat)
    requires points != [] && Time(points[|points| - 1]) == now
    ensures k < |points| && Trim(points, now, maxPeriod) == points[k..]
    ensures now - Time(points[k]) <= maxPeriod
    ensures forall i :: 0 <= i < k ==> now - Time(points[i]) > maxPeriod
  {
    if now - Time(points[0]) > maxPeriod {
      var rest := TrimDropsFront(points[1..], now, maxPeriod);
      k := rest + 1;
      assert points[1..][rest..] == points[k..];
      forall i | 0 <= i < k ensures now - Time(points[i]) > maxPeriod {
        assert i > 0 ==> points[i] == points[1..][i - 1];
      }
    } else {
      k := 0;
    }
  }

  lemma OverwriteKeeps(config: Config, points: seq<Point>, counters: Counters)
    requires Retained(config, points) && Full(counters) && points != []
    ensures var n := |points| - 1; var next := points[..n] + [points[n].(counters := counters)];
            Retained(config, next) && (Positive(points) ==> Positive(next))
  {
    hide Full;
    var n := |points| - 1;
    var next := points[..n] + [points[n].(counters := counters)];
    forall i | 0 <= i < |next| ensures Time(next[i]) == Time(points[i]) && next[i].timestamp.Some? && Full(next[i].counters) {
    }
  }

  lemma AppendKeeps(points: seq<Point>, p: Point, interval: nat)
    requires Complete(points) && Spaced(points, interval) && p.timestamp.Some? && Full(p.counters)
    requires points != [] ==> Time(points[|points| - 1]) + interval <= Time(p)
    ensures Complete(points + [p]) && Spaced(points + [p], interval)
    ensures Positive(points) && Time(p) > 0 ==> Positive(points + [p])
  {
    hide Full;
  }

  lemma SuffixKeeps(points: seq<Point>, k: nat, interval: nat)
    requires Complete(points) && Spaced(points, interval) && k <= |points|
    ensures Complete(points[k..]) && Spaced(points[k..], interval)
    ensures Positive(points) ==> Positive(points[k..])
  {
    hide Full;
  }

  /** A sample keeps what is retained so, never leaves the list empty, and records the counters last. */
  lemma SampledIsRetained(config: Config, points: seq<Point>, counters: Counters, now: int)
    requires Usable(config) && Retained(config, points) && Full(counters)
    ensures var next := Sampled(config, points, counters, now);
            && Retained(config, next) && next != [] && next[|next| - 1].counters == counters
            && (Positive(points) && now > 0 ==> Positive(next))
  {
    hide Complete, Spaced, Positive, Trim, Full;
    var n, p := |points|, Point(Some(now), counters);
    if n > 0 && now - Time(points[n - 1]) < config.pushInterval {
      OverwriteKeeps(config, points, counters);
    } else {
      AppendKeeps(points, p, config.pushInterval);
      var k := TrimDropsFront(points + [p], now, config.maxPeriod);
      SuffixKeeps(points + [p], k, config.pushInterval);
    }
  }

  // ---------- Saving and loading ----------

  datatype File = NoFile | Unreadable | Parsed(points: seq<Option<Point>>)

  datatype LoadResult = Loaded | Missing | Invalid

  /** Every counter but the newer ones, and a positive time. */
  ghost predicate ValidPoint(point: Option<Point>) {
    && point.Some? && point.value.timestamp.Some? && point.value.timestamp.value > 0
    && forall counter :: counter in ALL && !IsNewer(counter) ==> counter in point.value.counters
  }

  ghost predicate Loadable(points: seq<Option<Point>>) {
    && 0 < |points| <= MAX_STATE_POINTS
    && (forall i :: 0 <= i < |points| ==> ValidPoint(points[i])) && Ordered(points)
  }

  ghost predicate Ordered(points: seq<Option<Point>>) {
    forall i :: 0 < i < |points| ==> TimeOf(points[i - 1]) <= TimeOf(points[i])
  }

  function TimeOf(point: Option<Point>): int {
    if point.Some? then Time(point.value) else 0
  }

  /** The counters restored from the last point; a missing newer one starts at zero. */
  function Restored(point: Point): (counters: Counters)
    ensures Full(counters)
    ensures Full(point.counters) ==> forall counter :: counter in ALL ==> counters[counter] == point.counters[counter]
  {
    map counter | counter in ALL :: if counter in point.counters then point.counters[counter] else 0
  }

  /** The points of a file that are neither too old nor in the future. */
  function Recent(points: seq<Point>, now: int, maxPeriod: nat): seq<Point> {
    if points == [] then []
    else
      var last := points[|points| - 1];
      Recent(points[..|points| - 1], now, maxPeriod)
      + if now - maxPeriod <= Time(last) <= now then [last] else []
  }

  function Snapshot(points: seq<Point>): (saved: seq<Option<Point>>)
    ensures |saved| == |points| && forall i :: 0 <= i < |points| ==> saved[i] == Some(points[i])
  {
    seq(|points|, i requires 0 <= i < |points| => Some(points[i]))
  }

  /** A list that was saved passes the point checks exactly when it is not empty nor too long. */
  lemma SavedIsLoadable(config: Config, points: seq<Point>)
    requires Usable(config) && Retained(config, points) && Positive(points)
    ensures Loadable(Snapshot(points)) <==> 0 < |points| <= 1000
  {
    var saved := Snapshot(points);
    forall i | 0 < i < |points| ensures TimeOf(saved[i - 1]) <= TimeOf(saved[i]) {
      assert Time(points[i - 1]) + config.pushInterval <= Time(points[i]);
    }
  }

  /** What a load keeps of a retained list is retained. */
  lemma {:induction false} RecentIsRetained(config: Config, points: seq<Point>, now: int)
    requires Retained(config, points)
    ensures var kept := Recent(points, now, config.maxPeriod);
            && Retained(config, kept) && (Positive(points) ==> Positive(kept))
            && (kept != [] ==> points != [] && Time(kept[|kept| - 1]) <= Time(points[|points| - 1])
                               && Time(points[0]) <= Time(kept[0]))
  {
    hide Complete, Spaced, Positive, Full;
    if points != [] {
      var n := |points| - 1;
      FrontKeeps(config, points);
      RecentIsRetained(config, points[..n], now);
      var kept := Recent(points[..n], now, config.maxPeriod);
      if now - config.maxPeriod <= Time(points[n]) <= now {
        AppendKeeps(kept, points[n], config.pushInterval);
        assert kept == [] ==> kept + [points[n]] == [points[n]];
      } else {
        assert kept + [] == kept;
      }
    }
  }

  lemma FrontKeeps(config: Config, points: seq<Point>)
    requires Retained(config, points) && points != []
    ensures var n := |points| - 1;
            && Retained(config, points[..n]) && points[n].timestamp.Some? && Full(points[n].counters)
            && (Positive(points) ==> Positive(points[..n]) && Time(points[n]) > 0)
            && (n > 0 ==> Time(points[n - 1]) + config.pushInterval <= Time(points[n]))
            && Time(points[0]) <= Time(points[n])
  {
    hide Full;
    var n := |points| - 1;
    Spacing(points, config.pushInterval, 0, n);
    assert n * config.pushInterval >= 0;
    if n > 0 {
      assert Time(points[n - 1]) + config.pushInterval <= Time(points[n]);
    }
  }

  function Unwrapped(points: seq<Option<Point>>): (values: seq<Point>)
    requires forall i :: 0 <= i < |points| ==> points[i].Some?
    ensures |values| == |points| && forall i :: 0 <= i < |points| ==> values[i] == points[i].value
  {
    seq(|points|, i requires 0 <= i < |points| => points[i].value)
  }

  // ---------- By their timestamps ----------

  ghost predicate Timed(points: seq<Point>) {
    forall i :: 0 <= i < |points| ==> points[i].timestamp.Some?
  }

  /**
   What a sample makes of a list: within the push interval of the last point it replaces that
   point's counters alone; otherwise it adds a point, and drops those before the first that is
   not too old.
   */
  ghost predicate SampleOf(config: Config, before: seq<Point>, after: seq<Point>, counters: Counters, now: int)
    requires Timed(before)
  {
    var n := |before|;
    if n > 0 && now - before[n - 1].timestamp.value < config.pushInterval then
      after == before[n - 1 := before[n - 1].(counters := counters)]
    else
      exists k :: 0 <= k <= n && DropsOld(config, before, k, now) && after == before[k..] + [Point(Some(now), counters)]
  }

  ghost predicate DropsOld(config: Config, points: seq<Point>, k: int, now: int)
    requires Timed(points) && 0 <= k <= |points|
  {
    && (forall i :: 0 <= i < k ==> now - points[i].timestamp.value > config.maxPeriod)
    && (k < |points| ==> now - points[k].timestamp.value <= config.maxPeriod)
  }

  lemma SampledIsSample(config: Config, points: seq<Point>, counters: Counters, now: int)
    requires Timed(points)
    ensures SampleOf(config, points, Sampled(config, points, counters, now), counters, now)
  {
    hide Trim;
    var n, p := |points|, Point(Some(now), counters);
    if n == 0 || now - Time(points[n - 1]) >= config.pushInterval {
      var all := points + [p];
      var k := TrimDropsFront(all, now, config.maxPeriod);
      assert k <= n && all[k..] == points[k..] + [p];
      assert forall i :: 0 <= i < n ==> Time(all[i]) == points[i].timestamp.value;
      assert DropsOld(config, points, k, now);
    }
  }

  /** A load keeps exactly the points from the last period, which lie together. */
  ghost predicate PeriodOf(points: seq<Point>, kept: seq<Point>, now: int, maxPeriod: nat)
    requires Timed(points)
  {
    exists a, b :: 0 <= a <= b <= |points| && IsPeriod(points, a, b, now, maxPeriod) && kept == points[a..b]
  }

  ghost predicate IsPeriod(points: seq<Point>, a: int, b: int, now: int, maxPeriod: nat)
    requires Timed(points)
  {
    forall i :: 0 <= i < |points| ==> (a <= i < b <==> now - maxPeriod <= points[i].timestamp.value <= now)
  }

  ghost predicate InOrder(points: seq<Point>)
    requires Timed(points)
  {
    forall i, j :: 0 <= i < j < |points| ==> points[i].timestamp.value <= points[j].timestamp.value
  }

  lemma {:induction false} RecentIsPeriod(points: seq<Point>, now: int, maxPeriod: nat) returns (a: nat, b: nat)
    requires Timed(points) && InOrder(points)
    ensures a <= b <= |points| && IsPeriod(points, a, b, now, maxPeriod)
    ensures Recent(points, now, maxPeriod) == points[a..b]
  {
    hide IsPeriod;
    a, b := 0, 0;
    if points == [] {
      NoPeriod(now, maxPeriod);
    } else {
      var n := |points| - 1;
      a, b := RecentIsPeriod(points[..n], now, maxPeriod);
      PeriodGrows(points, a, b, now, maxPeriod);
      if now - maxPeriod <= points[n].timestamp.value <= now {
        Slices(points, a, b, n);
        a, b := if a == b then n else a, n + 1;
      } else {
        assert points[..n][a..b] + [] == points[a..b];
      }
    }
  }

  lemma Slices<T>(s: seq<T>, a: nat, b: nat, n: nat)
    requires a <= b <= n < |s| && (a == b || b == n)
    ensures s[..n][a..b] + [s[n]] == s[if a == b then n else a..n + 1]
  {
    assert a == b ==> s[..n][a..b] == [];
  }

  lemma NoPeriod(now: int, maxPeriod: nat)
    ensures IsPeriod([], 0, 0, now, maxPeriod)
  {
  }

  lemma PeriodGrows(points: seq<Point>, a: nat, b: nat, now: int, maxPeriod: nat)
    requires points != [] && Timed(points) && InOrder(points)
    requires a <= b < |points| && IsPeriod(points[..|points| - 1], a, b, now, maxPeriod)
    ensures var n := |points| - 1;
            if now - maxPeriod <= points[n].timestamp.value <= now then
              (a == b || b == n) && IsPeriod(points, if a == b then n else a, n + 1, now, maxPeriod)
            else IsPeriod(points, a, b, now, maxPeriod)
  {
    var n := |points| - 1;
    var front := points[..n];
    assert forall i :: 0 <= i < n ==> front[i] == points[i];
    if now - maxPeriod <= points[n].timestamp.value <= now && a < b {
      assert now - maxPeriod <= front[b - 1].timestamp.value <= points[n - 1].timestamp.value <= points[n].timestamp.value;
      assert now - maxPeriod <= front[n - 1].timestamp.value <= now;
    }
  }

  lemma TidyIsTimed(points: seq<Point>)
    requires Tidy(points)
    ensures Timed(points) && InOrder(points)
  {
    forall i | 0 <= i < |points| ensures points[i].timestamp.Some? {
      assert ValidPoint(Some(points[i]));
    }
    forall i, j | 0 <= i < j < |points| ensures points[i].timestamp.value <= points[j].timestamp.value {
      TidyOrder(points, i, j);
    }
  }

  lemma {:induction false} TidyOrder(points: seq<Point>, i: nat, j: nat)
    requires Tidy(points) && i <= j < |points|
    ensures Time(points[i]) <= Time(points[j])
    decreases j
  {
    hide ValidPoint;
    if i < j {
      TidyOrder(points, i, j - 1);
    }
  }

  // ---------- Points of any origin ----------

  /** Points that a load accepts one by one, in order; their number is another matter. */
  ghost predicate Tidy(points: seq<Point>) {
    && (forall i :: 0 <= i < |points| ==> ValidPoint(Some(points[i])))
    && (forall i :: 0 < i < |points| ==> Time(points[i - 1]) <= Time(points[i]))
  }

  class Statistics {
    const config: Config
    var counters: Counters
    var points: seq<Point>

    ghost predicate Valid()
      reads this
    {
      Usable(config) && Full(counters)
    }

    constructor (maxPeriod: nat, pushInterval: nat)
      requires pushInterval > 0
      ensures Valid() && config == Config(maxPeriod, pushInterval) && points == [] && counters == ZeroCounters()
    {
      config := Config(maxPeriod, pushInterval);
      counters, points := ZeroCounters(), [];
    }

    method TakeSample(now: int)
      requires Valid()
      modifies this`points
      ensures points == Sampled(config, old(points), counters, now) && points != []
      ensures Timed(old(points)) ==> SampleOf(config, old(points), points, counters, now)
    {
      if Timed(points) {
        SampledIsSample(config, points, counters, now);
      }
      var last := |points| - 1;
      if |points| > 0 && now - Time(points[last]) < config.pushInterval {
        points := points[last := points[last].(counters := counters)];
        assert points == old(points)[..last] + [old(points)[last].(counters := counters)];
        return;
      }
      points := points + [Point(Some(now), counters)];
      ghost var all := points;
      while now - Time(points[0]) > config.maxPeriod
        invariant points != [] && Time(points[|points| - 1]) == now
        invariant Trim(points, now, config.maxPeriod) == Trim(all, now, config.maxPeriod)
        decreases |points|
      {
        points := points[1..];
      }
    }

    /** The list as it is written to the state file. */
    method SaveState() returns (saved: seq<Option<Point>>)
      ensures saved == Snapshot(points)
    {
      saved := Snapshot(points);
    }

    method JudgePoint(point: Option<Point>) returns (valid: bool)
      ensures valid <==> ValidPoint(point)
    {
      if point.None? {
        return false;
      }
      var p := point.value;
      valid := p.timestamp.Some? && FrontPageLoaded in p.counters && PeerConnected in p.counters
            && PeerDisconnected in p.counters && PeerZombieDropped in p.counters
            && PeerSendMessage in p.counters && PeerShareFile in p.counters
            && RoomCreated in p.counters && RoomDeleted in p.counters && FileServedBytes in p.counters
            && p.timestamp.value > 0;
    }

    method CheckPoints(parsed: seq<Option<Point>>) returns (valid: bool)
      ensures valid <==> (forall i :: 0 <= i < |parsed| ==> ValidPoint(parsed[i])) && Ordered(parsed)
    {
      hide ValidPoint;
      var previous := 0;
      for i := 0 to |parsed|
        invariant forall j :: 0 <= j < i ==> ValidPoint(parsed[j])
        invariant forall j :: 0 < j < i ==> TimeOf(parsed[j - 1]) <= TimeOf(parsed[j])
        invariant previous == if i == 0 then 0 else TimeOf(parsed[i - 1])
      {
        valid := JudgePoint(parsed[i]);
        if !valid {
          return;
        }
        ValidTime(parsed[i]);
        if Time(parsed[i].value) < previous {
          return false;
        }
        previous := Time(parsed[i].value);
      }
      return true;
    }

    /** Restore the counters of the last point, and keep the points that are recent. */
    method LoadState(file: File, now: int) returns (result: LoadResult)
      requires Valid()
      modifies this
      ensures Valid()
      ensures result == Missing <==> file.NoFile?
      ensures result == Loaded <==> file.Parsed? && Loadable(file.points)
      ensures result != Loaded ==> counters == old(counters) && points == old(points)
      ensures result == Loaded ==>
                && counters == Restored(file.points[|file.points| - 1].value)
                && points == Recent(Unwrapped(file.points), now, config.maxPeriod)
      ensures result == Loaded ==>
                Timed(Unwrapped(file.points)) && PeriodOf(Unwrapped(file.points), points, now, config.maxPeriod)
      ensures result == Loaded ==>
                var last := file.points[|file.points| - 1].value.counters;
                forall counter :: counter in ALL ==>
                  counter in counters && counters[counter] == if counter in last then last[counter] else 0
    {
      hide ValidPoint, Full, PeriodOf, Timed;
      if file.NoFile? {
        return Missing;
      }
      if file.Unreadable? || |file.points| == 0 || |file.points| > MAX_STATE_POINTS {
        return Invalid;
      }
      var valid := CheckPoints(file.points);
      if !valid {
        return Invalid;
      }
      forall i | 0 <= i < |file.points| ensures file.points[i].Some? {
        ValidTime(file.points[i]);
      }
      var loaded := Unwrapped(file.points);
      counters := Restored(loaded[|loaded| - 1]);
      var oldestTimestamp := now - config.maxPeriod;
      var retained: seq<Point> := [];
      for i := 0 to |loaded|
        invariant retained == Recent(loaded[..i], now, config.maxPeriod)
      {
        assert loaded[..i + 1][..i] == loaded[..i];
        if oldestTimestamp <= Time(loaded[i]) <= now {
          retained := retained + [loaded[i]];
        }
      }
      assert loaded[..|loaded|] == loaded;
      points := retained;
      LoadedPeriod(file.points, now, config.maxPeriod);
      return Loaded;
    }
  }

  lemma ValidTime(point: Option<Point>)
    requires ValidPoint(point)
    ensures point.Some? && Time(point.value) == TimeOf(point) > 0
  {
  }

  lemma LoadedPeriod(points: seq<Option<Point>>, now: int, maxPeriod: nat)
    requires Loadable(points)
    ensures forall i :: 0 <= i < |points| ==> points[i].Some?
    ensures var loaded := Unwrapped(points);
            Timed(loaded) && PeriodOf(loaded, Recent(loaded, now, maxPeriod), now, maxPeriod)
  {
    hide Loadable, Tidy, Timed, InOrder, IsPeriod, Recent;
    LoadedIsTidy(Parsed(points));
    var loaded := Unwrapped(points);
    TidyIsTimed(loaded);
    var a, b := RecentIsPeriod(loaded, now, maxPeriod);
  }

  lemma TidyIsLoadable(points: seq<Point>)
    ensures Loadable(Snapshot(points)) <==> Tidy(points) && 0 < |points| <= MAX_STATE_POINTS
  {
    hide ValidPoint;
    var saved := Snapshot(points);
    assert Ordered(saved) <==> (forall i :: 0 < i < |points| ==> TimeOf(saved[i - 1]) <= TimeOf(saved[i]));
    assert forall i :: 0 <= i < |points| ==> saved[i] == Some(points[i]) && TimeOf(saved[i]) == Time(points[i]);
    assert Tidy(points) ==> forall i :: 0 <= i < |points| ==> ValidPoint(saved[i]);
    assert (forall i :: 0 <= i < |points| ==> ValidPoint(saved[i])) ==>
      forall i :: 0 <= i < |points| ==> ValidPoint(Some(points[i]));
  }

  lemma FullIsValid(point: Point)
    requires point.timestamp.Some? && Time(point) > 0 && Full(point.counters)
    ensures ValidPoint(Some(point))
  {
  }

  lemma TidySuffix(points: seq<Point>, k: nat)
    requires Tidy(points) && k <= |points|
    ensures Tidy(points[k..])
  {
    hide ValidPoint;
  }

  lemma TidyAppend(points: seq<Point>, p: Point)
    requires Tidy(points) && ValidPoint(Some(p)) && (points != [] ==> Time(points[|points| - 1]) <= Time(p))
    ensures Tidy(points + [p])
  {
    hide ValidPoint;
  }

  /** A sample records the counters last, whatever points there were. */
  lemma SampledIsTidy(config: Config, points: seq<Point>, counters: Counters, now: int)
    requires Tidy(points) && Full(counters) && now > 0
    ensures var next := Sampled(config, points, counters, now);
            Tidy(next) && next != [] && next[|next| - 1].counters == counters
  {
    hide Full, Tidy;
    var n, p := |points|, Point(Some(now), counters);
    FullIsValid(p);
    if n > 0 && now - Time(points[n - 1]) < config.pushInterval {
      var last := points[n - 1];
      TidyLast(points);
      FullIsValid(last.(counters := counters));
      TidyAppend(points[..n - 1], last.(counters := counters));
    } else {
      TidyAppend(points, p);
      var k := TrimDropsFront(points + [p], now, config.maxPeriod);
      TidySuffix(points + [p], k);
    }
  }

  lemma TidyLast(points: seq<Point>)
    requires Tidy(points) && points != []
    ensures var n := |points| - 1; var last := points[n];
            && Tidy(points[..n]) && last.timestamp.Some? && Time(last) > 0
            && (n > 0 ==> Time(points[..n][n - 1]) <= Time(last))
  {
    assert ValidPoint(Some(points[|points| - 1]));
  }

  lemma {:induction false} RecentIsTidy(points: seq<Point>, now: int, maxPeriod: nat)
    requires Tidy(points)
    ensures var kept := Recent(points, now, maxPeriod);
            Tidy(kept) && (kept != [] ==> points != [] && Time(kept[|kept| - 1]) <= Time(points[|points| - 1]))
  {
    hide ValidPoint, Tidy;
    if points != [] {
      var n := |points| - 1;
      TidyLast(points);
      RecentIsTidy(points[..n], now, maxPeriod);
      assert ValidPoint(Some(points[n])) by { LastIsValid(points); }
      var kept := Recent(points[..n], now, maxPeriod);
      TidyAppend(kept, points[n]);
      assert kept + [] == kept;
    } else {
      assert Recent(points, now, maxPeriod) == points;
    }
  }

  lemma LastIsValid(points: seq<Point>)
    requires Tidy(points) && points != []
    ensures ValidPoint(Some(points[|points| - 1]))
  {
  }

  // ---------- Runs of the process ----------

  /**
   The process as its statistics see it: what is in memory, what the state file holds, and
   whether this process saves; one that found a file it could not load leaves that file alone.
   */
  datatype Process = Process(points: seq<Point>, counters: Counters, disk: File, persistent: bool)

  /** Counting, the regular sample and checkpoint, and a start, which loads and samples at once. */
  datatype Step =
    | Count(counter: Counter, value: nat)
    | Sample(now: int)
    | Save
    | Start(loadedAt: int, sampledAt: int)

  /** Clocks may jump in any way, but a time is positive. */
  ghost predicate Timely(step: Step) {
    match step
    case Count(counter, _) => counter in ALL
    case Sample(now) => now > 0
    case Save => true
    case Start(_, sampledAt) => sampledAt > 0
  }

  ghost predicate Loads(file: File) {
    file.Parsed? && Loadable(file.points)
  }

  ghost function Apply(config: Config, p: Process, step: Step): Process {
    match step
    case Count(counter, value) => p.(counters := p.counters[counter := value])
    case Sample(now) => p.(points := Sampled(config, p.points, p.counters, now))
    case Save => if p.persistent then p.(disk := Parsed(Snapshot(p.points))) else p
    case Start(loadedAt, sampledAt) =>
      var loaded := if Loads(p.disk) then Recent(Unwrapped(p.disk.points), loadedAt, config.maxPeriod) else [];
      var counters :=
        if Loads(p.disk) then Restored(p.disk.points[|p.disk.points| - 1].value) else ZeroCounters();
      Process(Sampled(config, loaded, counters, sampledAt), counters, p.disk, p.disk.NoFile? || Loads(p.disk))
  }

  /** No process runs before the first start; `file` is whatever state file it finds. */
  ghost function Run(config: Config, file: File, steps: seq<Step>): Process {
    if steps == [] then Process([], ZeroCounters(), file, false)
    else Apply(config, Run(config, file, steps[..|steps| - 1]), steps[|steps| - 1])
  }

  ghost predicate Lifetime(steps: seq<Step>) {
    && steps != [] && steps[0].Start?
    && forall i :: 0 <= i < |steps| ==> Timely(steps[i])
  }

  /** A file that loads holds what this program would have saved. */
  ghost predicate Regular(config: Config, file: File) {
    Loads(file) ==> Retained(config, Unwrapped(file.points)) && Positive(Unwrapped(file.points))
  }

  /** A list in memory, and one that was saved. */
  ghost predicate Kept(config: Config, regular: bool, points: seq<Point>) {
    && points != [] && Tidy(points) && Full(points[|points| - 1].counters)
    && (regular ==> Retained(config, points) && Positive(points))
  }

  ghost predicate Saved(config: Config, regular: bool, disk: File) {
    && disk.Parsed? && (forall i :: 0 <= i < |disk.points| ==> disk.points[i].Some?)
    && Kept(config, regular, Unwrapped(disk.points)) && disk.points == Snapshot(Unwrapped(disk.points))
  }

  ghost predicate Inv(config: Config, file: File, p: Process) {
    && Full(p.counters) && Kept(config, Regular(config, file), p.points)
    && (p.disk == file || Saved(config, Regular(config, file), p.disk))
  }

  lemma SampledIsKept(config: Config, regular: bool, points: seq<Point>, counters: Counters, now: int)
    requires Usable(config) && Tidy(points) && Full(counters) && now > 0
    requires regular ==> Retained(config, points) && Positive(points)
    ensures Kept(config, regular, Sampled(config, points, counters, now))
  {
    hide Tidy, Retained, Positive, Full, Sampled;
    SampledIsTidy(config, points, counters, now);
    if regular {
      SampledIsRetained(config, points, counters, now);
    }
  }

  lemma LoadedIsTidy(file: File)
    requires Loads(file)
    ensures Tidy(Unwrapped(file.points)) && file.points == Snapshot(Unwrapped(file.points))
    ensures Unwrapped(file.points) != []
  {
    hide ValidPoint;
    forall i | 0 <= i < |file.points| ensures file.points[i].Some? {
      ValidTime(file.points[i]);
    }
    var points := Unwrapped(file.points);
    assert file.points == Snapshot(points);
    TidyIsLoadable(points);
  }

  lemma StartKeeps(config: Config, file: File, p: Process, loadedAt: int, sampledAt: int)
    requires Usable(config) && sampledAt > 0
    requires p.disk == file || Saved(config, Regular(config, file), p.disk)
    ensures Inv(config, file, Apply(config, p, Start(loadedAt, sampledAt)))
  {
    hide Tidy, Retained, Positive, Full, Sampled, Recent, Loadable, ZeroCounters, Restored;
    var regular := Regular(config, file);
    NothingRetained(config);
    if Loads(p.disk) {
      LoadedIsTidy(p.disk);
      var list := Unwrapped(p.disk.points);
      RecentIsTidy(list, loadedAt, config.maxPeriod);
      if regular {
        RecentIsRetained(config, list, loadedAt);
      }
      SampledIsKept(config, regular, Recent(list, loadedAt, config.maxPeriod),
                    Restored(p.disk.points[|p.disk.points| - 1].value), sampledAt);
    } else {
      SampledIsKept(config, regular, [], ZeroCounters(), sampledAt);
    }
  }

  lemma NothingRetained(config: Config)
    ensures Retained(config, []) && Positive([]) && Tidy([])
  {
  }

  lemma SaveKeeps(config: Config, regular: bool, points: seq<Point>)
    requires Kept(config, regular, points)
    ensures Saved(config, regular, Parsed(Snapshot(points)))
  {
    hide Kept;
    assert Unwrapped(Snapshot(points)) == points;
  }

  lemma {:induction false} RunKeeps(config: Config, file: File, steps: seq<Step>)
    requires Usable(config) && Lifetime(steps)
    ensures Inv(config, file, Run(config, file, steps))
  {
    hide Retained, Positive, Full, Sampled, Tidy, Loadable, Regular, Saved;
    var before, step := steps[..|steps| - 1], steps[|steps| - 1];
    var p := Run(config, file, before);
    if before == [] {
      StartKeeps(config, file, p, step.loadedAt, step.sampledAt);
    } else {
      RunKeeps(config, file, before);
      match step
      case Count(counter, value) => CountKeeps(p.counters, counter, value);
      case Sample(now) => SampledIsKept(config, Regular(config, file), p.points, p.counters, now);
      case Save => SaveKeeps(config, Regular(config, file), p.points);
      case Start(loadedAt, sampledAt) => StartKeeps(config, file, p, loadedAt, sampledAt);
    }
  }

  /** In every run a sample makes of the list just that, by the times it holds. */
  lemma SampleRecords(config: Config, file: File, steps: seq<Step>, now: int)
    requires Usable(config) && Lifetime(steps)
    ensures var p := Run(config, file, steps);
            Timed(p.points) && SampleOf(config, p.points, Apply(config, p, Sample(now)).points, p.counters, now)
  {
    hide Run, Sampled, Tidy, Timed, SampleOf, Saved, Retained, Regular;
    RunKeeps(config, file, steps);
    var p := Run(config, file, steps);
    TidyIsTimed(p.points);
    SampledIsSample(config, p.points, p.counters, now);
  }

  /** A start samples at once what its load has kept: the points of the last period, or none. */
  lemma StartSamples(config: Config, p: Process, loadedAt: int, sampledAt: int)
    ensures var next := Apply(config, p, Start(loadedAt, sampledAt));
            if Loads(p.disk) then
              && (forall i :: 0 <= i < |p.disk.points| ==> p.disk.points[i].Some?)
              && var list := Unwrapped(p.disk.points);
              Timed(list) && (exists a, b :: 0 <= a <= b <= |list| && IsPeriod(list, a, b, loadedAt, config.maxPeriod)
                               && SampleOf(config, list[a..b], next.points, next.counters, sampledAt))
            else next.points == [Point(Some(sampledAt), next.counters)]
  {
    hide Tidy, InOrder, IsPeriod, SampleOf, Loadable, Recent, Sampled, Restored;
    if Loads(p.disk) {
      LoadedIsTidy(p.disk);
      var list := Unwrapped(p.disk.points);
      TidyIsTimed(list);
      var a, b := RecentIsPeriod(list, loadedAt, config.maxPeriod);
      SampledIsSample(config, list[a..b], Restored(p.disk.points[|p.disk.points| - 1].value), sampledAt);
    } else {
      FirstSample(config, ZeroCounters(), sampledAt);
    }
  }

  lemma FirstSample(config: Config, counters: Counters, now: int)
    ensures Sampled(config, [], counters, now) == [Point(Some(now), counters)]
  {
    assert [] + [Point(Some(now), counters)] == [Point(Some(now), counters)];
  }

  lemma CountKeeps(counters: Counters, counter: Counter, value: nat)
    requires Full(counters)
    ensures Full(counters[counter := value])
  {
  }

  /**
   In every run, whatever state file the first process found: the points are never gone, and
   a list that was saved last loads exactly when it is not too long; the next start then
   restores exactly its last counters.  If that first file holds what this program saves, or
   does not load, the points are apart and bounded in number as well, and so is what was saved.
   */
  lemma RestartRestores(config: Config, file: File, steps: seq<Step>, loadedAt: int, sampledAt: int)
    requires Usable(config) && sampledAt > 0 && Lifetime(steps)
    ensures var p := Run(config, file, steps);
            && p.points != [] && Tidy(p.points)
            && (Regular(config, file) ==>
                  |p.points| <= config.maxPeriod / config.pushInterval + 1 && Spaced(p.points, config.pushInterval))
            && (p.disk == file || (
                  && p.disk.Parsed? && p.disk.points != []
                  && (Regular(config, file) ==> |p.disk.points| <= config.maxPeriod / config.pushInterval + 1)
                  && (Loads(p.disk) <==> |p.disk.points| <= 1000)
                  && (|p.disk.points| <= 1000 ==>
                        var last, next := p.disk.points[|p.disk.points| - 1],
                                          Apply(config, p, Start(loadedAt, sampledAt));
                        last.Some? && forall counter :: counter in ALL ==>
                          && counter in next.counters && counter in last.value.counters
                          && next.counters[counter] == last.value.counters[counter])))
  {
    hide Run, Loadable, Sampled, Recent, Spaced, Positive, Tidy, Regular;
    RunKeeps(config, file, steps);
    var p := Run(config, file, steps);
    if Regular(config, file) {
      CountBound(config, p.points);
    }
    if p.disk != file {
      var list := Unwrapped(p.disk.points);
      TidyIsLoadable(list);
      if Regular(config, file) {
        CountBound(config, list);
      }
    }
  }

  /** What is on disk was the list in memory when it was saved, with the counters of its last sample. */
  lemma SavedCountersAreLast(config: Config, file: File, steps: seq<Step>, now: int)
    requires Usable(config) && now > 0 && Lifetime(steps)
    ensures var p, saved := Run(config, file, steps), Run(config, file, steps + [Sample(now), Save]).disk;
            p.persistent ==>
              && saved.Parsed? && saved.points != [] && saved.points[|saved.points| - 1].Some?
              && saved.points[|saved.points| - 1].value.counters == p.counters
  {
    hide Sampled, Retained, Positive, Full, Tidy, Regular, Saved;
    var p := Run(config, file, steps);
    RunKeeps(config, file, steps);
    SampledIsTidy(config, p.points, p.counters, now);
    var all := steps + [Sample(now), Save];
    assert all[..|all| - 1] == steps + [Sample(now)];
    assert (steps + [Sample(now)])[..|steps|] == steps;
  }

  /** A state file that is there and does not load is never overwritten, in whatever way it is broken. */
  lemma {:induction false} UnloadableIsPreserved(config: Config, file: File, steps: seq<Step>)
    requires !file.NoFile? && !Loads(file)
    ensures Run(config, file, steps).disk == file && !Run(config, file, steps).persistent
  {
    hide Loadable, Sampled, Recent, Restored;
    if steps != [] {
      UnloadableIsPreserved(config, file, steps[..|steps| - 1]);
    }
  }

  /** Nor is a list this program saved that has become too long to load. */
  lemma {:induction false} OverlongIsPreserved(config: Config, file: File, steps: seq<Step>, loadedAt: int,
                                               sampledAt: int, more: seq<Step>)
    requires var disk := Run(config, file, steps).disk; !disk.NoFile? && !Loads(disk)
    ensures var p := Run(config, file, steps + [Start(loadedAt, sampledAt)] + more);
            p.disk == Run(config, file, steps).disk && !p.persistent
    decreases |more|
  {
    hide Loadable, Sampled, Recent, Restored;
    var all := steps + [Start(loadedAt, sampledAt)] + more;
    if more == [] {
      assert all[..|all| - 1] == steps;
    } else {
      assert all[..|all| - 1] == steps + [Start(loadedAt, sampledAt)] + more[..|more| - 1];
      OverlongIsPreserved(config, file, steps, loadedAt, sampledAt, more[..|more| - 1]);
    }
  }
}
