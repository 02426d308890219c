/**
 The budget for retained previews: a least-recently-used cache with limits on the number of
 previews, their encoded bytes and their pixels (front/chat/image-preview.js, lines 304 to 320).
 */
module PreviewMemory {
  const LIVE_PREVIEWS: nat := 3
  const RETAINED_BYTES: nat := 24 * 1024 * 1024
  const LIVE_PIXELS: nat := 24 * 1024 * 1024

  type Id = string

  datatype Entry = Entry(id: Id, bytes: nat, pixels: nat, used: nat)

  // ---------- Entries ----------

  function Bytes(entries: seq<Entry>): nat {
    if entries == [] then 0 else Bytes(entries[..|entries| - 1]) + entries[|entries| - 1].bytes
  }

  function Pixels(entries: seq<Entry>): nat {
    if entries == [] then 0 else Pixels(entries[..|entries| - 1]) + entries[|entries| - 1].pixels
  }

  /** Whether one more preview of this size fits beside these. */
  predicate Room(entries: seq<Entry>, bytes: nat, pixels: nat) {
    && |entries| < LIVE_PREVIEWS && Bytes(entries) + bytes <= RETAINED_BYTES
    && Pixels(entries) + pixels <= LIVE_PIXELS
  }

  function Without(entries: seq<Entry>, id: Id): seq<Entry> {
    if entries == [] then []
    else
      var last := entries[|entries| - 1];
      Without(entries[..|entries| - 1], id) + if last.id == id then [] else [last]
  }

  /** The entries used at a tick or later. */
  ghost function Since(entries: seq<Entry>, tick: nat): seq<Entry> {
    if entries == [] then []
    else
      var last := entries[|entries| - 1];
      Since(entries[..|entries| - 1], tick) + if last.used >= tick then [last] else []
  }

  ghost predicate Distinct(entries: seq<Entry>) {
    forall i, j :: 0 <= i < j < |entries| ==> entries[i].id != entries[j].id && entries[i].used != entries[j].used
  }

  ghost predicate UsedBy(entries: seq<Entry>, tick: nat) {
    forall i :: 0 <= i < |entries| ==> entries[i].used <= tick
  }

  ghost predicate Holds(entries: seq<Entry>, id: Id) {
    exists i :: 0 <= i < |entries| && entries[i].id == id
  }

  lemma {:induction false} WithoutIsPart(entries: seq<Entry>, id: Id)
    ensures var rest := Without(entries, id);
            forall k :: 0 <= k < |rest| ==> rest[k].id != id && exists i :: 0 <= i < |entries| && entries[i] == rest[k]
    ensures |Without(entries, id)| <= |entries|
    ensures Holds(entries, id) ==> |Without(entries, id)| < |entries|
  {
    if entries != [] {
      var n := |entries| - 1;
      var rest := Without(entries, id);
      WithoutIsPart(entries[..n], id);
      forall k | 0 <= k < |rest| ensures rest[k].id != id && exists i :: 0 <= i < |entries| && entries[i] == rest[k] {
        if k < |Without(entries[..n], id)| {
          var i :| 0 <= i < n && entries[..n][i] == Without(entries[..n], id)[k];
          assert entries[i] == rest[k];
        } else {
          assert entries[n] == rest[k];
        }
      }
      if Holds(entries, id) && entries[n].id != id {
        var i :| 0 <= i < |entries| && entries[i].id == id;
        assert entries[..n][i] == entries[i];
      }
    }
  }

  lemma {:induction false} WithoutKeepsOthers(entries: seq<Entry>, id: Id, i: nat) returns (k: nat)
    requires i < |entries| && entries[i].id != id
    ensures k < |Without(entries, id)| && Without(entries, id)[k] == entries[i]
  {
    var n := |entries| - 1;
    if i == n {
      k := |Without(entries[..n], id)|;
    } else {
      k := WithoutKeepsOthers(entries[..n], id, i);
    }
  }

  lemma {:induction false} WithoutKeepsDistinct(entries: seq<Entry>, id: Id)
    requires Distinct(entries)
    ensures Distinct(Without(entries, id))
  {
    if entries != [] {
      var n := |entries| - 1;
      WithoutKeepsDistinct(entries[..n], id);
      WithoutIsPart(entries[..n], id);
      var rest := Without(entries[..n], id);
      forall k | 0 <= k < |rest| ensures rest[k].id != entries[n].id && rest[k].used != entries[n].used {
        var i :| 0 <= i < n && entries[..n][i] == rest[k];
        assert entries[i] == rest[k];
      }
    }
  }

  lemma {:induction false} WithoutShrinks(entries: seq<Entry>, id: Id)
    ensures Bytes(Without(entries, id)) <= Bytes(entries) && Pixels(Without(entries, id)) <= Pixels(entries)
  {
    if entries != [] {
      var n := |entries| - 1;
      WithoutShrinks(entries[..n], id);
      var rest := Without(entries[..n], id);
      assert (rest + [entries[n]])[..|rest|] == rest;
      assert rest + [] == rest;
    }
  }

  lemma SumsOfOneMore(entries: seq<Entry>, e: Entry)
    ensures Bytes(entries + [e]) == Bytes(entries) + e.bytes && Pixels(entries + [e]) == Pixels(entries) + e.pixels
  {
    assert (entries + [e])[..|entries|] == entries;
  }

  // ---------- Eviction ----------

  ghost predicate IsOldest(entries: seq<Entry>, e: Entry) {
    && (exists i :: 0 <= i < |entries| && entries[i] == e)
    && forall i :: 0 <= i < |entries| ==> e.used <= entries[i].used
  }

  ghost function OldestOf(entries: seq<Entry>): (e: Entry)
    requires entries != []
    ensures IsOldest(entries, e)
  {
    var n := |entries| - 1;
    if n == 0 then entries[0]
    else
      var e := OldestOf(entries[..n]);
      assert exists i :: 0 <= i < n && entries[..n][i] == e && entries[i] == e;
      assert forall i :: 0 <= i < n ==> entries[..n][i] == entries[i];
      if entries[n].used < e.used then entries[n] else e
  }

  lemma OldestIsUnique(entries: seq<Entry>, e: Entry)
    requires Distinct(entries) && IsOldest(entries, e)
    ensures entries != [] && e == OldestOf(entries)
  {
    var i :| 0 <= i < |entries| && entries[i] == e;
    var other := OldestOf(entries);
    var j :| 0 <= j < |entries| && entries[j] == other;
    assert e.used == other.used;
    assert i == j;
  }

  datatype Eviction = Eviction(kept: seq<Entry>, evicted: seq<Entry>)

  /** Evict the least recently used entry until there is room. */
  ghost function Evict(entries: seq<Entry>, bytes: nat, pixels: nat): Eviction
    decreases |entries|
  {
    if entries == [] || Room(entries, bytes, pixels) then Eviction(entries, [])
    else
      var oldest := OldestOf(entries);
      OldestIsHeld(entries, oldest);
      var more := Evict(Without(entries, oldest.id), bytes, pixels);
      Eviction(more.kept, [oldest] + more.evicted)
  }

  lemma EvictStops(entries: seq<Entry>, bytes: nat, pixels: nat)
    requires entries == [] || Room(entries, bytes, pixels)
    ensures Evict(entries, bytes, pixels) == Eviction(entries, [])
  {
  }

  lemma EvictNext(entries: seq<Entry>, bytes: nat, pixels: nat, oldest: Entry)
    requires Distinct(entries) && IsOldest(entries, oldest) && !Room(entries, bytes, pixels)
    ensures entries != [] && |Without(entries, oldest.id)| < |entries|
    ensures var more := Evict(Without(entries, oldest.id), bytes, pixels);
            Evict(entries, bytes, pixels) == Eviction(more.kept, [oldest] + more.evicted)
  {
    hide Room, Distinct, Without;
    OldestIsUnique(entries, oldest);
    OldestIsHeld(entries, oldest);
  }

  lemma OldestIsHeld(entries: seq<Entry>, oldest: Entry)
    requires IsOldest(entries, oldest)
    ensures |Without(entries, oldest.id)| < |entries|
  {
    WithoutIsPart(entries, oldest.id);
    assert Holds(entries, oldest.id);
  }

  /** In a list of distinct entries, only the oldest is as old as the oldest. */
  ghost predicate OnlyOldest(entries: seq<Entry>, oldest: Entry) {
    forall i :: 0 <= i < |entries| ==> (entries[i].used <= oldest.used <==> entries[i].id == oldest.id)
  }

  ghost predicate AllSince(entries: seq<Entry>, tick: nat) {
    forall i :: 0 <= i < |entries| ==> entries[i].used >= tick
  }

  lemma {:induction false} SinceDropsOldest(entries: seq<Entry>, oldest: Entry, tick: nat)
    requires OnlyOldest(entries, oldest) && tick > oldest.used
    ensures Since(Without(entries, oldest.id), tick) == Since(entries, tick)
  {
    if entries != [] {
      var n := |entries| - 1;
      SinceDropsOldest(entries[..n], oldest, tick);
      var rest := Without(entries[..n], oldest.id);
      assert (rest + [entries[n]])[..|rest|] == rest;
      assert rest + [] == rest;
    }
  }

  lemma {:induction false} SinceIsAll(entries: seq<Entry>, tick: nat)
    requires AllSince(entries, tick)
    ensures Since(entries, tick) == entries
  {
    if entries != [] {
      var n := |entries| - 1;
      SinceIsAll(entries[..n], tick);
      assert entries == entries[..n] + [entries[n]];
    }
  }

  lemma OldestIsAlone(entries: seq<Entry>, oldest: Entry)
    requires Distinct(entries) && IsOldest(entries, oldest)
    ensures OnlyOldest(entries, oldest) && AllSince(entries, oldest.used)
    ensures AllSince(Without(entries, oldest.id), oldest.used + 1)
  {
    var k :| 0 <= k < |entries| && entries[k] == oldest;
    forall i | 0 <= i < |entries| ensures entries[i].used <= oldest.used <==> entries[i].id == oldest.id {
    }
    WithoutIsPart(entries, oldest.id);
  }

  ghost predicate PartOf(evicted: seq<Entry>, entries: seq<Entry>) {
    forall k :: 0 <= k < |evicted| ==> exists i :: 0 <= i < |entries| && entries[i] == evicted[k]
  }

  /** Each of these is evicted, and keeping it with everything used since would leave no room. */
  ghost predicate NoneToSpare(entries: seq<Entry>, evicted: seq<Entry>, bytes: nat, pixels: nat) {
    forall k :: 0 <= k < |evicted| ==> !Room(Since(entries, evicted[k].used), bytes, pixels)
  }

  ghost predicate OldestFirst(evicted: seq<Entry>, since: nat) {
    && (forall k :: 0 <= k < |evicted| ==> evicted[k].used < since)
    && forall j, k :: 0 <= j < k < |evicted| ==> evicted[j].used < evicted[k].used
  }

  ghost predicate ListsAllBefore(entries: seq<Entry>, evicted: seq<Entry>, since: nat) {
    forall i :: 0 <= i < |entries| && entries[i].used < since ==> exists k :: 0 <= k < |evicted| && evicted[k] == entries[i]
  }

  /**
   Eviction takes exactly the shortest run of least recently used entries that makes room:
   what stays is everything used since some tick, it has room, and keeping any evicted entry
   (with everything used since) would leave none.
   */
  lemma {:induction false} EvictsShortestPrefix(entries: seq<Entry>, bytes: nat, pixels: nat) returns (since: nat)
    requires Distinct(entries) && bytes <= RETAINED_BYTES && pixels <= LIVE_PIXELS
    ensures var r := Evict(entries, bytes, pixels);
            && r.kept == Since(entries, since) && Room(r.kept, bytes, pixels)
            && PartOf(r.evicted, entries) && OldestFirst(r.evicted, since) && ListsAllBefore(entries, r.evicted, since)
            && NoneToSpare(entries, r.evicted, bytes, pixels)
    decreases |entries|
  {
    hide Room, Since, Distinct, IsOldest, OnlyOldest, PartOf, ListsAllBefore, NoneToSpare, OldestFirst, Without;
    if entries == [] || Room(entries, bytes, pixels) {
      since := 0;
      SinceIsAll(entries, 0);
      EmptyHasRoom(bytes, pixels);
      NothingEvicted(entries, bytes, pixels);
    } else {
      var oldest := OldestOf(entries);
      var rest := Without(entries, oldest.id);
      OldestIsHeld(entries, oldest);
      WithoutKeepsDistinct(entries, oldest.id);
      OldestIsAlone(entries, oldest);
      var after := EvictsShortestPrefix(rest, bytes, pixels);
      since := if after <= oldest.used then oldest.used + 1 else after;
      if after <= oldest.used {
        SinceIsAll(rest, after);
        SinceIsAll(rest, since);
      }
      SinceDropsOldest(entries, oldest, since);
      var evicted := Evict(rest, bytes, pixels).evicted;
      PartOneMore(entries, rest, oldest, evicted);
      SpareOneMore(entries, oldest, evicted, bytes, pixels);
      SpareFirst(entries, oldest, evicted, bytes, pixels);
      ListOneMore(entries, oldest, evicted, after, since);
      assert OldestFirst([oldest] + evicted, since) by {
        FirstOneMore(oldest, evicted, after, since);
      }
    }
  }

  lemma EmptyHasRoom(bytes: nat, pixels: nat)
    requires bytes <= RETAINED_BYTES && pixels <= LIVE_PIXELS
    ensures Room([], bytes, pixels)
  {
  }

  lemma NothingEvicted(entries: seq<Entry>, bytes: nat, pixels: nat)
    ensures PartOf([], entries) && OldestFirst([], 0) && ListsAllBefore(entries, [], 0)
    ensures NoneToSpare(entries, [], bytes, pixels)
  {
  }

  lemma FirstOneMore(oldest: Entry, evicted: seq<Entry>, after: nat, since: nat)
    requires OldestFirst(evicted, after) && after <= since && oldest.used < since
    requires forall k :: 0 <= k < |evicted| ==> evicted[k].used > oldest.used
    ensures OldestFirst([oldest] + evicted, since)
  {
  }

  lemma PartOneMore(entries: seq<Entry>, rest: seq<Entry>, oldest: Entry, evicted: seq<Entry>)
    requires IsOldest(entries, oldest) && rest == Without(entries, oldest.id) && AllSince(rest, oldest.used + 1)
    requires PartOf(evicted, rest)
    ensures PartOf([oldest] + evicted, entries)
    ensures forall k :: 0 <= k < |evicted| ==> evicted[k].used > oldest.used
  {
    WithoutIsPart(entries, oldest.id);
    forall k | 0 <= k < |evicted|
      ensures evicted[k].used > oldest.used && exists i :: 0 <= i < |entries| && entries[i] == evicted[k]
    {
      var e := evicted[k];
      var j :| 0 <= j < |rest| && rest[j] == e;
      assert rest[j].used >= oldest.used + 1;
    }
    var all := [oldest] + evicted;
    forall k | 0 <= k < |all| ensures exists i :: 0 <= i < |entries| && entries[i] == all[k] {
      assert k > 0 ==> all[k] == evicted[k - 1];
    }
  }

  lemma StillNoRoom(entries: seq<Entry>, oldest: Entry, tick: nat, bytes: nat, pixels: nat)
    requires OnlyOldest(entries, oldest) && tick > oldest.used
    requires !Room(Since(Without(entries, oldest.id), tick), bytes, pixels)
    ensures !Room(Since(entries, tick), bytes, pixels)
  {
    hide Room, Since, OnlyOldest, Without;
    SinceDropsOldest(entries, oldest, tick);
  }

  /** What was needed of the rest is needed of the whole: the oldest entry only takes room. */
  lemma SpareOneMore(entries: seq<Entry>, oldest: Entry, evicted: seq<Entry>, bytes: nat, pixels: nat)
    requires OnlyOldest(entries, oldest)
    requires NoneToSpare(Without(entries, oldest.id), evicted, bytes, pixels)
    requires forall k :: 0 <= k < |evicted| ==> evicted[k].used > oldest.used
    ensures NoneToSpare(entries, evicted, bytes, pixels)
  {
    hide Room, Since, OnlyOldest, Without;
    forall k | 0 <= k < |evicted| ensures !Room(Since(entries, evicted[k].used), bytes, pixels) {
      StillNoRoom(entries, oldest, evicted[k].used, bytes, pixels);
    }
  }

  lemma SpareFirst(entries: seq<Entry>, oldest: Entry, evicted: seq<Entry>, bytes: nat, pixels: nat)
    requires AllSince(entries, oldest.used) && !Room(entries, bytes, pixels)
    requires NoneToSpare(entries, evicted, bytes, pixels)
    ensures NoneToSpare(entries, [oldest] + evicted, bytes, pixels)
  {
    hide Room, Since, AllSince;
    SinceIsAll(entries, oldest.used);
  }

  lemma ListOneMore(entries: seq<Entry>, oldest: Entry, evicted: seq<Entry>, after: nat, since: nat)
    requires OnlyOldest(entries, oldest) && IsOldest(entries, oldest) && Distinct(entries)
    requires ListsAllBefore(Without(entries, oldest.id), evicted, after)
    requires since == if after <= oldest.used then oldest.used + 1 else after
    ensures ListsAllBefore(entries, [oldest] + evicted, since)
  {
    var all, rest := [oldest] + evicted, Without(entries, oldest.id);
    forall i | 0 <= i < |entries| && entries[i].used < since ensures exists k :: 0 <= k < |all| && all[k] == entries[i] {
      if entries[i].used <= oldest.used {
        var j :| 0 <= j < |entries| && entries[j] == oldest;
        assert i == j && all[0] == oldest;
      } else {
        var j := WithoutKeepsOthers(entries, oldest.id, i);
        var e := rest[j];
        var k :| 0 <= k < |evicted| && evicted[k] == e;
        assert all[k + 1] == entries[i];
      }
    }
  }

  // ---------- The memory ----------

  /** At most three previews, 24 MiB of images and 24 Mi pixels. */
  ghost predicate WithinLimits(entries: seq<Entry>) {
    |entries| <= 3 && Bytes(entries) <= 25_165_824 && Pixels(entries) <= 25_165_824
  }

  lemma RoomIsWithin(entries: seq<Entry>, e: Entry)
    ensures Room(entries, e.bytes, e.pixels) <==> WithinLimits(entries + [e])
  {
    SumsOfOneMore(entries, e);
  }

  /** Nothing is evicted exactly when there is room already. */
  lemma RoomEvictsNone(entries: seq<Entry>, bytes: nat, pixels: nat)
    requires bytes <= RETAINED_BYTES && pixels <= LIVE_PIXELS
    ensures Evict(entries, bytes, pixels).evicted == [] <==> Room(entries, bytes, pixels)
  {
    hide Room;
    if entries == [] {
      EmptyHasRoom(bytes, pixels);
    }
  }

  ghost predicate Sound(entries: seq<Entry>, tick: nat) {
    Distinct(entries) && UsedBy(entries, tick) && WithinLimits(entries)
  }

  /** No entry has this id, and the tick is later than all. */
  ghost predicate Free(entries: seq<Entry>, id: Id, tick: nat) {
    Distinct(entries) && UsedBy(entries, tick) && forall i :: 0 <= i < |entries| ==> entries[i].id != id
  }

  lemma WithoutIsFree(entries: seq<Entry>, id: Id, tick: nat)
    requires Distinct(entries) && UsedBy(entries, tick)
    ensures Free(Without(entries, id), id, tick)
  {
    WithoutKeepsDistinct(entries, id);
    WithoutIsPart(entries, id);
  }

  lemma FreeStays(entries: seq<Entry>, id: Id, tick: nat, other: Id)
    requires Free(entries, id, tick)
    ensures Free(Without(entries, other), id, tick)
  {
    WithoutKeepsDistinct(entries, other);
    WithoutIsPart(entries, other);
  }

  lemma SoundIsUsed(entries: seq<Entry>, tick: nat)
    requires Sound(entries, tick)
    ensures Distinct(entries) && UsedBy(entries, tick)
  {
  }

  lemma AdmittedIsSound(entries: seq<Entry>, e: Entry)
    requires e.used > 0 && Free(entries, e.id, e.used - 1) && Room(entries, e.bytes, e.pixels)
    ensures Sound(entries + [e], e.used)
  {
    SumsOfOneMore(entries, e);
  }

  class PreviewMemory {
    var entries: seq<Entry>
    var tick: nat

    ghost predicate Valid()
      reads this
    {
      Sound(entries, tick)
    }

    constructor ()
      ensures Valid() && entries == [] && tick == 0
    {
      entries, tick := [], 0;
    }

    method Oldest() returns (oldest: Entry)
      requires entries != []
      ensures IsOldest(entries, oldest)
    {
      oldest := entries[0];
      for i := 1 to |entries|
        invariant exists j :: 0 <= j < |entries| && entries[j] == oldest
        invariant forall j :: 0 <= j < i ==> oldest.used <= entries[j].used
      {
        if entries[i].used < oldest.used {
          oldest := entries[i];
        }
      }
    }

    /** Admit a preview, evicting the least recently used ones until it fits. */
    method Admit(id: Id, bytes: nat, pixels: nat) returns (admitted: bool, evicted: seq<Entry>)
      requires Valid()
      modifies this
      ensures Valid()
      ensures admitted <==> bytes <= 25_165_824 && pixels <= 25_165_824
      ensures !admitted ==> entries == old(entries) && tick == old(tick) && evicted == []
      ensures admitted ==>
                && var r := Evict(Without(old(entries), id), bytes, pixels);
                evicted == r.evicted && entries == r.kept + [Entry(id, bytes, pixels, tick)] && tick == old(tick) + 1
      ensures evicted == [] <==> !admitted || WithinLimits(Without(old(entries), id) + [Entry(id, bytes, pixels, tick)])
    {
      hide Room, Distinct, Without, IsOldest, Evict, Sound, UsedBy;
      evicted := [];
      if bytes > RETAINED_BYTES || pixels > LIVE_PIXELS {
        return false, evicted;
      }
      ghost var others := Without(entries, id);
      SoundIsUsed(entries, tick);
      WithoutIsFree(entries, id, tick);
      entries := Without(entries, id);
      EmptyHasRoom(bytes, pixels);
      while !Room(entries, bytes, pixels) && entries != []
        invariant Free(entries, id, tick) && tick == old(tick)
        invariant var r, all := Evict(entries, bytes, pixels), Evict(others, bytes, pixels);
                  all.kept == r.kept && all.evicted == evicted + r.evicted
        decreases |entries|
      {
        var oldest := Oldest();
        EvictNext(entries, bytes, pixels, oldest);
        FreeStays(entries, id, tick, oldest.id);
        entries, evicted := Without(entries, oldest.id), evicted + [oldest];
      }
      EvictStops(entries, bytes, pixels);
      RoomEvictsNone(others, bytes, pixels);
      RoomIsWithin(others, Entry(id, bytes, pixels, tick + 1));
      AdmittedIsSound(entries, Entry(id, bytes, pixels, tick + 1));
      tick := tick + 1;
      entries := entries + [Entry(id, bytes, pixels, tick)];
      admitted := true;
    }

    /** A preview in use becomes the most recently used; nothing else about any entry changes. */
    method Touch(id: Id)
      requires Valid()
      modifies this
      ensures Valid() && |entries| == |old(entries)|
      ensures forall i :: 0 <= i < |entries| && entries[i].id == id ==> entries[i].used == tick
      ensures forall i :: 0 <= i < |entries| && entries[i].id != id ==>
                entries[i] == old(entries)[i] && entries[i].used <= old(tick)
      ensures forall i :: 0 <= i < |entries| ==>
                && entries[i].id == old(entries)[i].id
                && entries[i].bytes == old(entries)[i].bytes && entries[i].pixels == old(entries)[i].pixels
      ensures tick == if Holds(old(entries), id) then old(tick) + 1 else old(tick)
      ensures entries == if Holds(old(entries), id) then Touched(old(entries), id, tick) else old(entries)
    {
      hide Sound, Bytes, Pixels, Touched;
      SoundIsUsed(entries, tick);
      if exists i :: 0 <= i < |entries| && entries[i].id == id {
        TouchedIsSound(entries, id, tick);
        TouchedSameSize(entries, id, tick + 1);
        tick := tick + 1;
        entries := Touched(entries, id, tick);
      }
    }

    method Remove(id: Id)
      requires Valid()
      modifies this
      ensures Valid() && tick == old(tick) && entries == Without(old(entries), id)
    {
      WithoutIsPart(entries, id);
      WithoutKeepsDistinct(entries, id);
      WithoutShrinks(entries, id);
      entries := Without(entries, id);
    }

    method Clear()
      modifies this
      ensures Valid() && entries == []
    {
      entries := [];
    }
  }

  function Refreshed(e: Entry, id: Id, tick: nat): Entry {
    if e.id == id then e.(used := tick) else e
  }

  function Touched(entries: seq<Entry>, id: Id, tick: nat): seq<Entry> {
    if entries == [] then []
    else
      var last := entries[|entries| - 1];
      Touched(entries[..|entries| - 1], id, tick) + [Refreshed(last, id, tick)]
  }

  lemma TouchedLast(entries: seq<Entry>, id: Id, tick: nat)
    requires entries != []
    ensures var n := |entries| - 1;
            Touched(entries, id, tick) == Touched(entries[..n], id, tick) + [Refreshed(entries[n], id, tick)]
  {
  }

  /** Touching changes no more than when an entry was used. */
  ghost predicate SameButUse(entries: seq<Entry>, touched: seq<Entry>, id: Id, tick: nat) {
    && |touched| == |entries|
    && (forall i :: 0 <= i < |entries| ==> touched[i] == Refreshed(entries[i], id, tick))
    && Bytes(touched) == Bytes(entries) && Pixels(touched) == Pixels(entries)
  }

  lemma SameButUseNext(entries: seq<Entry>, touched: seq<Entry>, id: Id, tick: nat, e: Entry)
    requires SameButUse(entries, touched, id, tick)
    ensures SameButUse(entries + [e], touched + [Refreshed(e, id, tick)], id, tick)
  {
    hide Bytes, Pixels;
    SumsOfOneMore(entries, e);
    SumsOfOneMore(touched, Refreshed(e, id, tick));
  }

  lemma NothingTouched(id: Id, tick: nat)
    ensures SameButUse([], Touched([], id, tick), id, tick)
  {
  }

  lemma {:induction false} TouchedSameSize(entries: seq<Entry>, id: Id, tick: nat)
    ensures SameButUse(entries, Touched(entries, id, tick), id, tick)
  {
    hide SameButUse, Touched;
    if entries == [] {
      NothingTouched(id, tick);
    } else {
      var n := |entries| - 1;
      TouchedSameSize(entries[..n], id, tick);
      TouchedLast(entries, id, tick);
      SameButUseNext(entries[..n], Touched(entries[..n], id, tick), id, tick, entries[n]);
      assert entries == entries[..n] + [entries[n]];
    }
  }

  lemma TouchedIsSound(entries: seq<Entry>, id: Id, tick: nat)
    requires Sound(entries, tick)
    ensures Sound(Touched(entries, id, tick + 1), tick + 1)
  {
    hide Bytes, Pixels, Touched;
    TouchedSameSize(entries, id, tick + 1);
  }

  // ---------- Use before eviction ----------

  /** The entry with this id was used last. */
  ghost predicate IsLatest(entries: seq<Entry>, id: Id) {
    && Holds(entries, id)
    && forall i, j :: 0 <= i < |entries| && 0 <= j < |entries| && entries[i].id == id && entries[j].id != id
         ==> entries[j].used < entries[i].used
  }

  lemma TouchedIsLatest(entries: seq<Entry>, id: Id, tick: nat)
    requires Sound(entries, tick) && Holds(entries, id)
    ensures IsLatest(Touched(entries, id, tick + 1), id) && Distinct(Touched(entries, id, tick + 1))
  {
    hide Bytes, Pixels, Touched;
    TouchedSameSize(entries, id, tick + 1);
    TouchedIsSound(entries, id, tick);
    var i :| 0 <= i < |entries| && entries[i].id == id;
    assert Touched(entries, id, tick + 1)[i].id == id;
  }

  lemma EvictedBefore(entries: seq<Entry>, evicted: seq<Entry>, since: nat, id: Id, k: nat)
    requires IsLatest(entries, id) && PartOf(evicted, entries) && OldestFirst(evicted, since)
    requires Distinct(entries) && k < |evicted| && evicted[k].id == id
    ensures k == |evicted| - 1
  {
    hide PartOf;
    var last := |evicted| - 1;
    var at := PartAt(evicted, entries, k);
    var other := PartAt(evicted, entries, last);
    assert entries[other].id == id ==> other == at;
    assert evicted[last].used <= evicted[k].used;
  }

  lemma EvictedOthers(entries: seq<Entry>, evicted: seq<Entry>, since: nat, id: Id, i: nat) returns (j: nat)
    requires IsLatest(entries, id) && PartOf(evicted, entries) && OldestFirst(evicted, since)
    requires ListsAllBefore(entries, evicted, since)
    requires evicted != [] && evicted[|evicted| - 1].id == id && i < |entries| && entries[i].id != id
    ensures j < |evicted| - 1 && evicted[j] == entries[i]
  {
    hide IsLatest, PartOf, OldestFirst, ListsAllBefore;
    var last := |evicted| - 1;
    var at := PartAt(evicted, entries, last);
    UsedLater(entries, id, at, i);
    UsedBefore(evicted, since, last);
    j := ListedBefore(entries, evicted, since, i);
  }

  lemma PartAt(evicted: seq<Entry>, entries: seq<Entry>, k: nat) returns (i: nat)
    requires PartOf(evicted, entries) && k < |evicted|
    ensures i < |entries| && entries[i] == evicted[k]
  {
    var e := evicted[k];
    var at :| 0 <= at < |entries| && entries[at] == e;
    i := at;
  }

  lemma ListedBefore(entries: seq<Entry>, evicted: seq<Entry>, since: nat, i: nat) returns (k: nat)
    requires ListsAllBefore(entries, evicted, since) && i < |entries| && entries[i].used < since
    ensures k < |evicted| && evicted[k] == entries[i]
  {
    var e := entries[i];
    var at :| 0 <= at < |evicted| && evicted[at] == e;
    k := at;
  }

  lemma UsedLater(entries: seq<Entry>, id: Id, latest: nat, i: nat)
    requires IsLatest(entries, id) && latest < |entries| && i < |entries|
    requires entries[latest].id == id && entries[i].id != id
    ensures entries[i].used < entries[latest].used
  {
    hide Holds;
  }

  lemma UsedBefore(evicted: seq<Entry>, since: nat, k: nat)
    requires OldestFirst(evicted, since) && k < |evicted|
    ensures evicted[k].used < since
  {
  }

  /** What was used last is evicted only when all the others are, and after them. */
  lemma LatestIsEvictedLast(entries: seq<Entry>, id: Id, bytes: nat, pixels: nat)
    requires Distinct(entries) && IsLatest(entries, id) && bytes <= RETAINED_BYTES && pixels <= LIVE_PIXELS
    ensures var evicted := Evict(entries, bytes, pixels).evicted;
            forall k :: 0 <= k < |evicted| && evicted[k].id == id ==>
              && k == |evicted| - 1
              && forall i :: 0 <= i < |entries| && entries[i].id != id ==> exists j :: 0 <= j < k && evicted[j] == entries[i]
  {
    hide Evict, Since, Room, NoneToSpare, Distinct, IsLatest, PartOf, OldestFirst, ListsAllBefore;
    var since := EvictsShortestPrefix(entries, bytes, pixels);
    var evicted := Evict(entries, bytes, pixels).evicted;
    forall k | 0 <= k < |evicted| && evicted[k].id == id
      ensures k == |evicted| - 1
      ensures forall i :: 0 <= i < |entries| && entries[i].id != id ==> exists j :: 0 <= j < k && evicted[j] == entries[i]
    {
      EvictedBefore(entries, evicted, since, id, k);
      forall i | 0 <= i < |entries| && entries[i].id != id ensures exists j :: 0 <= j < k && evicted[j] == entries[i] {
        var j := EvictedOthers(entries, evicted, since, id, i);
      }
    }
  }

  /** So a preview just used outlives every other one, whatever is admitted next. */
  lemma TouchedIsEvictedLast(entries: seq<Entry>, id: Id, tick: nat, bytes: nat, pixels: nat)
    requires Sound(entries, tick) && Holds(entries, id) && bytes <= RETAINED_BYTES && pixels <= LIVE_PIXELS
    ensures var touched := Touched(entries, id, tick + 1);
            var evicted := Evict(touched, bytes, pixels).evicted;
            forall k :: 0 <= k < |evicted| && evicted[k].id == id ==>
              && k == |evicted| - 1
              && forall i :: 0 <= i < |touched| && touched[i].id != id ==> exists j :: 0 <= j < k && evicted[j] == touched[i]
  {
    TouchedIsLatest(entries, id, tick);
    LatestIsEvictedLast(Touched(entries, id, tick + 1), id, bytes, pixels);
  }
}
