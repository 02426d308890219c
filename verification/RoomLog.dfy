/**
 A room's durable log: every published event gets the next sequence, and the newest
 events are retained for clients that resume.
 */
module RoomLog {
  import opened Wrappers
  import opened SessionReliability

  datatype Entry<+E> = Entry(sequence: nat, event: E)

  /** Everything ever published, numbered from 1. */
  function Numbered<E>(published: seq<E>): (entries: seq<Entry<E>>)
    ensures |entries| == |published|
    ensures forall i :: 0 <= i < |entries| ==> entries[i] == Entry(i + 1, published[i])
  {
    seq(|published|, i requires 0 <= i < |published| => Entry(i + 1, published[i]))
  }

  function Min(a: nat, b: nat): nat {
    if a <= b then a else b
  }

  function Max(a: nat, b: nat): nat {
    if a >= b then a else b
  }

  /** The `maximum` newest events. */
  function Retained<E>(published: seq<E>, maximum: nat): seq<Entry<E>> {
    Numbered(published)[|published| - Min(|published|, maximum)..]
  }

  /** The entries with a sequence greater than `cursor`, in order. */
  function Above<E>(entries: seq<Entry<E>>, cursor: nat): seq<Entry<E>> {
    if entries == [] then []
    else if entries[0].sequence > cursor then [entries[0]] + Above(entries[1..], cursor)
    else Above(entries[1..], cursor)
  }

  function Earliest<E>(history: seq<Entry<E>>): Option<nat> {
    if history == [] then None else Some(history[0].sequence)
  }

  /** What a client at `cursor` is sent: whether it must start over, and the events. */
  function Replay<E>(published: seq<E>, maximum: nat, cursor: nat): (bool, seq<Entry<E>>) {
    var history := Retained(published, maximum);
    var resync := RequiresReplayResync(cursor, |published|, Earliest(history));
    (resync, if resync then history else Above(history, cursor))
  }

  // ---------- Filtering by sequence ----------

  lemma {:induction false} AboveConcat<E>(a: seq<Entry<E>>, b: seq<Entry<E>>, cursor: nat)
    ensures Above(a + b, cursor) == Above(a, cursor) + Above(b, cursor)
  {
    if a == [] {
      assert a + b == b;
    } else {
      assert (a + b)[1..] == a[1..] + b;
      AboveConcat(a[1..], b, cursor);
    }
  }

  lemma {:induction false} AboveNone<E>(entries: seq<Entry<E>>, cursor: nat)
    requires forall i :: 0 <= i < |entries| ==> entries[i].sequence <= cursor
    ensures Above(entries, cursor) == []
  {
    if entries != [] {
      AboveNone(entries[1..], cursor);
    }
  }

  lemma {:induction false} AboveAll<E>(entries: seq<Entry<E>>, cursor: nat)
    requires forall i :: 0 <= i < |entries| ==> entries[i].sequence > cursor
    ensures Above(entries, cursor) == entries
  {
    if entries != [] {
      AboveAll(entries[1..], cursor);
    }
  }

  lemma {:induction false} AboveTwice<E>(entries: seq<Entry<E>>, low: nat, high: nat)
    requires low <= high
    ensures Above(Above(entries, low), high) == Above(entries, high)
  {
    if entries != [] {
      AboveTwice(entries[1..], low, high);
      if entries[0].sequence > low {
        assert Above(entries, low)[1..] == Above(entries[1..], low);
      }
    }
  }

  /** Filtering a stretch of consecutive entries drops exactly its beginning. */
  lemma AboveStretch<E>(published: seq<E>, from: nat, to: nat, cursor: nat)
    requires from <= to <= |published|
    ensures Above(Numbered(published)[from..to], cursor)
         == Numbered(published)[Min(Max(from, cursor), to)..to]
  {
    var all := Numbered(published);
    var cut := Min(Max(from, cursor), to);
    assert all[from..to] == all[from..cut] + all[cut..to];
    AboveConcat(all[from..cut], all[cut..to], cursor);
    AboveNone(all[from..cut], cursor);
    AboveAll(all[cut..to], cursor);
  }

  // ---------- The replay decision ----------

  /**
   A replay is refused in favour of a snapshot exactly when the cursor is ahead of the
   log or an event above it is no longer retained; an accepted replay is every event
   above the cursor, with nothing missing and nothing twice.
   */
  lemma ReplayIsExact<E>(published: seq<E>, maximum: nat, cursor: nat)
    ensures Replay(published, maximum, cursor).0
        <==> cursor > |published| || cursor + Min(|published|, maximum) < |published|
    ensures !Replay(published, maximum, cursor).0
        ==> cursor <= |published| && Replay(published, maximum, cursor).1 == Numbered(published)[cursor..]
    ensures Replay(published, maximum, cursor).0
        ==> Replay(published, maximum, cursor).1 == Retained(published, maximum)
  {
    var from := |published| - Min(|published|, maximum);
    assert Retained(published, maximum) == Numbered(published)[from..|published|];
    AboveStretch(published, from, |published|, cursor);
  }

  // ---------- The room's fields ----------

  class RoomHistory<E> {
    const maximum: nat
    const sequencer: RoomSequencer
    var history: seq<Entry<E>>
    ghost var published: seq<E>

    ghost predicate Valid()
      reads this, sequencer
    {
      && sequencer.Valid()
      && sequencer.latest == |published|
      && history == Retained(published, maximum)
    }

    constructor (maximum: nat)
      ensures Valid() && fresh(sequencer)
      ensures published == [] && this.maximum == maximum
    {
      this.maximum := maximum;
      sequencer := new RoomSequencer();
      history := [];
      published := [];
    }

    /** Appends an event unless the sequence counter is exhausted. */
    method AddHistoryMessage(event: E) returns (sequence: Option<nat>)
      requires Valid()
      modifies this, sequencer
      ensures Valid()
      ensures sequence.None? <==> old(|published|) == U64_MAX
      ensures sequence.None? ==> published == old(published) && history == old(history)
      ensures sequence.Some? ==> published == old(published) + [event] && sequence.value == |published|
    {
      sequence := sequencer.Next();
      if sequence.None? {
        return;
      }
      ghost var before := published;
      published := published + [event];
      ghost var all := Numbered(published);
      assert Numbered(before) == all[..|before|];
      if maximum == 0 {
        assert history == all[|published|..];
        return;
      }
      history := history + [Entry(sequence.value, event)];
      ghost var from := |before| - Min(|before|, maximum);
      assert history == all[from..];
      while |history| > maximum
        invariant published == before + [event] && sequencer.Valid() && sequencer.latest == |published|
        invariant from <= |published|
        invariant history == all[from..]
        invariant |history| >= Min(|published|, maximum)
      {
        history := history[1..];
        from := from + 1;
      }
    }

    /** The snapshot or replay for a client at `cursor`. */
    method GetHistoryAfter(cursor: nat) returns (resyncRequired: bool, result: seq<Entry<E>>)
      requires Valid()
      ensures (resyncRequired, result) == Replay(published, maximum, cursor)
    {
      var earliest := if |history| > 0 then Some(history[0].sequence) else None;
      resyncRequired := RequiresReplayResync(cursor, sequencer.latest, earliest);
      result := [];
      for i := 0 to |history|
        invariant result == if resyncRequired then history[..i] else Above(history[..i], cursor)
      {
        assert history[..i + 1] == history[..i] + [history[i]];
        AboveConcat(history[..i], [history[i]], cursor);
        if resyncRequired || history[i].sequence > cursor {
          result := result + [history[i]];
        }
      }
      assert history[..|history|] == history;
    }
  }
}
