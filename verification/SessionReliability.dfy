/**
 The reliability primitives of a session: the room's sequence counter, the replay
 decision, the window of remembered command ids, the resume lease and the fence that
 tells a current transport from a replaced one.

 Each primitive is a class that updates its fields in place, specified by a function on
 a datatype.  The protocol state machines of this project run those same functions.
 */
module SessionReliability {
  import opened Wrappers

  const U64_MAX: nat := 0xFFFF_FFFF_FFFF_FFFF
  const GRACE_PERIOD: nat := 300
  const MAX_DEDUPE_ENTRIES: nat := 1024
  const MAX_CLIENT_ID_BYTES: nat := 64

  type ClientId = string

  predicate IsBase64UrlChar(c: char) {
    'A' <= c <= 'Z' || 'a' <= c <= 'z' || '0' <= c <= '9' || c == '-' || c == '_'
  }

  /** The unpadded base64url form of `expectedBytes` bytes, by length and alphabet. */
  predicate ValidBase64UrlId(value: string, expectedBytes: nat) {
    && |value| == (expectedBytes * 4 + 2) / 3
    && (forall i :: 0 <= i < |value| ==> IsBase64UrlChar(value[i]))
  }

  predicate ValidClientMessageId(value: ClientId) {
    && 0 < |value| <= MAX_CLIENT_ID_BYTES
    && ValidBase64UrlId(value, 16)
  }

  /** The room's sequence counter; the first durable event gets sequence 1. */
  class RoomSequencer {
    var latest: nat

    ghost predicate Valid()
      reads this
    {
      latest <= U64_MAX
    }

    constructor ()
      ensures Valid() && latest == 0
    {
      latest := 0;
    }

    /** Hands out the next sequence, or nothing once the 64-bit counter is exhausted. */
    method Next() returns (sequence: Option<nat>)
      requires Valid()
      modifies this
      ensures Valid()
      ensures sequence == if old(latest) == U64_MAX then None else Some(old(latest) + 1)
      ensures latest == if old(latest) == U64_MAX then old(latest) else old(latest) + 1
    {
      if latest == U64_MAX {
        return None;
      }
      latest := latest + 1;
      return Some(latest);
    }

    method AdvanceTo(value: nat) returns (advanced: bool)
      requires Valid() && value <= U64_MAX
      modifies this
      ensures Valid()
      ensures advanced <==> old(latest) <= value
      ensures latest == if advanced then value else old(latest)
    {
      if value < latest {
        return false;
      }
      latest := value;
      return true;
    }
  }

  /**
   Whether a client at `cursor` needs a whole snapshot instead of the events it missed.
   `earliest` is the oldest retained sequence, if any event is retained.
   */
  predicate RequiresReplayResync(cursor: nat, latest: nat, earliest: Option<nat>) {
    if cursor > latest then true
    else if earliest.None? then cursor < latest
    else earliest.value > 0 && cursor < earliest.value - 1
  }

  // ---------- The window of accepted commands ----------

  /** Accepted command ids with the sequence each was given, oldest first. */
  datatype Dedupe = Dedupe(sequences: map<ClientId, nat>, order: seq<ClientId>, limit: nat) {
    ghost predicate Valid() {
      && |order| <= limit
      && (forall id :: id in sequences <==> id in order)
      && (forall i, j :: 0 <= i < j < |order| ==> order[i] != order[j])
      && (forall id :: id in sequences ==> sequences[id] > 0)
    }

    function Find(id: ClientId): Option<nat> {
      if id in sequences then Some(sequences[id]) else None
    }

    predicate Full() {
      |order| >= limit
    }

    /** The conditions under which an id is recorded. */
    predicate CanRemember(id: ClientId, sequence: nat) {
      && ValidClientMessageId(id)
      && sequence != 0
      && limit != 0
      && id !in sequences
      && |order| < limit
    }

    function Remember(id: ClientId, sequence: nat): Dedupe {
      if CanRemember(id, sequence) then Dedupe(sequences[id := sequence], order + [id], limit) else this
    }
  }

  function EmptyDedupe(limit: nat): Dedupe {
    Dedupe(map[], [], limit)
  }

  /**
   A command handler records a command only after it found the id absent and the window
   not full, so recording then succeeds: the handler's internal error cannot be raised.
   What was recorded stays found with its first sequence, whatever is recorded later.
   */
  lemma RememberAfterPreflight(window: Dedupe, id: ClientId, sequence: nat)
    requires ValidClientMessageId(id)
    requires window.Valid() && window.Find(id) == None && !window.Full() && sequence > 0
    ensures window.CanRemember(id, sequence)
    ensures window.Remember(id, sequence).Valid()
    ensures window.Remember(id, sequence).Find(id) == Some(sequence)
    ensures forall other :: other != id ==> window.Remember(id, sequence).Find(other) == window.Find(other)
  {
    var next := window.Remember(id, sequence);
    assert next.order == window.order + [id];
    assert id !in window.order;
  }

  /** The window is full just when as many commands are recorded as it may hold. */
  lemma FullWhenRecorded(window: Dedupe)
    requires window.Valid()
    ensures window.Full() <==> |window.sequences| >= window.limit
  {
    DistinctSize(window.order);
    assert window.sequences.Keys == (set i | 0 <= i < |window.order| :: window.order[i]);
  }

  lemma {:induction false} DistinctSize(order: seq<ClientId>)
    requires forall i, j :: 0 <= i < j < |order| ==> order[i] != order[j]
    ensures |(set i | 0 <= i < |order| :: order[i])| == |order|
  {
    if order != [] {
      var n := |order| - 1;
      DistinctSize(order[..n]);
      assert (set i | 0 <= i < |order| :: order[i]) == (set i | 0 <= i < n :: order[..n][i]) + {order[n]};
    }
  }

  class DedupeWindow {
    var sequences: map<ClientId, nat>
    var order: seq<ClientId>
    const limit: nat

    ghost function Window(): Dedupe
      reads this
    {
      Dedupe(sequences, order, limit)
    }

    constructor (limit: nat)
      ensures Window() == EmptyDedupe(limit) && Window().Valid()
    {
      this.limit := limit;
      sequences := map[];
      order := [];
    }

    method Find(id: ClientId) returns (sequence: Option<nat>)
      ensures sequence == Window().Find(id)
    {
      if id in sequences {
        return Some(sequences[id]);
      }
      return None;
    }

    method Remember(id: ClientId, sequence: nat) returns (recorded: bool)
      requires Window().Valid()
      modifies this
      ensures Window().Valid()
      ensures recorded <==> old(Window()).CanRemember(id, sequence)
      ensures Window() == if recorded then old(Window()).Remember(id, sequence) else old(Window())
      ensures recorded <==> ValidClientMessageId(id) && sequence > 0 && id !in old(sequences) && |old(sequences)| < limit
      ensures sequences == if recorded then old(sequences)[id := sequence] else old(sequences)
    {
      FullWhenRecorded(Window());
      if !ValidClientMessageId(id) || sequence == 0 || limit == 0 || id in sequences {
        return false;
      }
      if |order| >= limit {
        return false;
      }
      RememberAfterPreflight(Window(), id, sequence);
      order := order + [id];
      sequences := sequences[id := sequence];
      return true;
    }
  }

  // ---------- The resume lease ----------

  /** A lease is running from the moment a transport is detached until it is resumed. */
  datatype Lease = Lease(deadline: Option<int>) {
    function Detach(now: int): Lease {
      Lease(Some(now + GRACE_PERIOD))
    }

    predicate CanResume(now: int) {
      deadline.Some? && now < deadline.value
    }

    predicate Expires(now: int) {
      deadline.Some? && now >= deadline.value
    }
  }

  const IDLE_LEASE := Lease(None)

  /** A detach leaves 300 seconds to resume, and not a moment more. */
  lemma DetachLeavesGrace(lease: Lease, now: int, later: int)
    ensures lease.Detach(now).CanResume(later) <==> later - now < 300
    ensures lease.Detach(now).Expires(later) <==> later - now >= 300
  {
  }

  class SessionLease {
    var deadline: Option<int>

    ghost function State(): Lease
      reads this
    {
      Lease(deadline)
    }

    constructor ()
      ensures State() == IDLE_LEASE
    {
      deadline := None;
    }

    method Detach(now: int)
      modifies this
      ensures State() == old(State()).Detach(now) && deadline == Some(now + 300)
    {
      deadline := Some(now + GRACE_PERIOD);
    }

    /** Resuming succeeds only on a running lease before its deadline, and ends it. */
    method Resume(now: int) returns (resumed: bool)
      modifies this
      ensures resumed <==> old(State()).CanResume(now)
      ensures State() == if resumed then IDLE_LEASE else old(State())
      ensures resumed <==> old(deadline).Some? && now < old(deadline).value
      ensures deadline == if resumed then None else old(deadline)
    {
      if deadline.None? || now >= deadline.value {
        return false;
      }
      deadline := None;
      return true;
    }

    method Expires(now: int) returns (expired: bool)
      ensures expired <==> State().Expires(now)
      ensures expired <==> deadline.Some? && deadline.value <= now
    {
      return deadline.Some? && now >= deadline.value;
    }
  }

  // ---------- The transport fence ----------

  /** The transport a peer is bound to, with a generation that grows at every binding. */
  datatype Fence = Fence(current: Option<nat>, generation: nat) {
    function Replace(transport: nat): Fence {
      Fence(Some(transport), generation + 1)
    }

    predicate IsCurrent(transport: nat, bound: nat) {
      current == Some(transport) && bound == generation
    }

    function DetachIfCurrent(transport: nat, bound: nat): Fence {
      if IsCurrent(transport, bound) then Fence(None, generation) else this
    }
  }

  class TransportGeneration {
    var current: Option<nat>
    var generation: nat

    ghost function State(): Fence
      reads this
    {
      Fence(current, generation)
    }

    constructor ()
      ensures State() == Fence(None, 0)
    {
      current := None;
      generation := 0;
    }

    method Replace(transport: nat) returns (bound: nat)
      modifies this
      ensures State() == old(State()).Replace(transport)
      ensures current == Some(transport) && generation == old(generation) + 1
      ensures bound == generation && State().IsCurrent(transport, bound)
    {
      current := Some(transport);
      generation := generation + 1;
      return generation;
    }

    method DetachIfCurrent(transport: nat, bound: nat) returns (detached: bool)
      modifies this
      ensures detached <==> old(State()).IsCurrent(transport, bound)
      ensures State() == old(State()).DetachIfCurrent(transport, bound)
      ensures detached <==> old(current) == Some(transport) && bound == old(generation)
      ensures current == (if detached then None else old(current)) && generation == old(generation)
    {
      if current != Some(transport) || bound != generation {
        return false;
      }
      current := None;
      return true;
    }
  }
}
