/**
 The browser's reliability state: the outbox of unacknowledged commands, the cursor that
 admits each server sequence once, and the replacement of history by a snapshot.
 */
module ClientReliability {
  import opened Wrappers
  import opened SessionReliability
  import opened RoomLog

  const MAX_OUTBOX: nat := 100
  const MAX_SEEN: nat := 2048
  const MAX_HANDSHAKE_INBOX: nat := 256
  const MAX_SAFE_INTEGER: nat := 0x1F_FFFF_FFFF_FFFF

  // ---------- The sequence cursor ----------

  /** Everything up to `highest` is settled; `seen` holds admitted sequences beyond a gap. */
  datatype Cursor = Cursor(highest: nat, seen: set<nat>)

  /** Absorbs the sequences in `seen` that directly follow `highest`. */
  function Advance(c: Cursor): Cursor
    decreases |c.seen|
  {
    if c.highest + 1 in c.seen
    then Advance(Cursor(c.highest + 1, c.seen - {c.highest + 1}))
    else c
  }

  predicate Admits(c: Cursor, sequence: nat) {
    && sequence <= MAX_SAFE_INTEGER
    && sequence > c.highest
    && sequence !in c.seen
    && (|c.seen| < MAX_SEEN || sequence == c.highest + 1)
  }

  function AcceptSequence(c: Cursor, sequence: nat): Cursor {
    if Admits(c, sequence) then Advance(Cursor(c.highest, c.seen + {sequence})) else c
  }

  /** A cursor position from a stored session is used only by a state that saw nothing yet. */
  function RestoreCursor(c: Cursor, sequence: nat): Cursor {
    if c.seen == {} && c.highest == 0 && 0 < sequence <= MAX_SAFE_INTEGER then c.(highest := sequence) else c
  }

  /**
   Where the cursor starts when a snapshot replaces the history: just before its first
   event, or at the server's latest sequence when the snapshot is empty.
   */
  function SnapshotBase(sequences: seq<nat>, latest: nat): nat {
    var usable := Usable(sequences);
    if usable != [] then Least(usable) - 1
    else if latest <= MAX_SAFE_INTEGER then latest
    else 0
  }

  function Usable(sequences: seq<nat>): (usable: seq<nat>)
    ensures forall s :: s in usable <==> s in sequences && 0 < s <= MAX_SAFE_INTEGER
  {
    if sequences == [] then []
    else
      (if 0 < sequences[0] <= MAX_SAFE_INTEGER then [sequences[0]] else []) + Usable(sequences[1..])
  }

  function Least(values: seq<nat>): (least: nat)
    requires values != []
    ensures least in values
    ensures forall v :: v in values ==> least <= v
  {
    assert values == [values[0]] + values[1..];
    if |values| == 1 then values[0]
    else Min(values[0], Least(values[1..]))
  }

  /** The sequences admitted since the cursor stood at `base` are settled or in `seen`. */
  ghost predicate Accounts(c: Cursor, base: nat, admitted: set<nat>) {
    && base <= c.highest
    && |c.seen| <= MAX_SEEN
    && (forall s :: s in c.seen ==> s > c.highest + 1)
    && (forall s :: s in admitted <==> base < s <= c.highest || s in c.seen)
  }

  lemma {:induction false} AdvanceAccounts(c: Cursor, base: nat, admitted: set<nat>)
    requires base <= c.highest
    requires forall s :: s in c.seen ==> s > c.highest
    requires forall s :: s in admitted <==> base < s <= c.highest || s in c.seen
    requires |c.seen| <= MAX_SEEN || (|c.seen| == MAX_SEEN + 1 && c.highest + 1 in c.seen)
    ensures Accounts(Advance(c), base, admitted)
    decreases |c.seen|
  {
    if c.highest + 1 in c.seen {
      AdvanceAccounts(Cursor(c.highest + 1, c.seen - {c.highest + 1}), base, admitted);
    }
  }

  /**
   Whatever sequences the server sends, in whatever order: a sequence is admitted at most
   once, at most 2048 sequences wait beyond a gap, and the cursor never passes a sequence
   that was not admitted.
   */
  lemma AcceptKeepsAccount(c: Cursor, base: nat, admitted: set<nat>, sequence: nat)
    requires Accounts(c, base, admitted)
    ensures Admits(c, sequence) ==> sequence !in admitted
    ensures Accounts(AcceptSequence(c, sequence), base,
                     if Admits(c, sequence) then admitted + {sequence} else admitted)
    ensures forall s :: base < s <= AcceptSequence(c, sequence).highest ==> s in admitted + {sequence}
  {
    if Admits(c, sequence) {
      AdvanceAccounts(Cursor(c.highest, c.seen + {sequence}), base, admitted + {sequence});
    }
  }

  /** The cursor has counted a sequence: it is settled, or waits beyond a gap. */
  ghost predicate Counted(c: Cursor, sequence: nat) {
    sequence <= c.highest || sequence in c.seen
  }

  /** What may be counted now: a safe integer, not counted yet, next or with fewer than 2048 waiting. */
  ghost predicate Countable(c: Cursor, sequence: nat) {
    && c.highest < sequence <= 0x1F_FFFF_FFFF_FFFF && sequence !in c.seen
    && (|c.seen| < 2048 || sequence == c.highest + 1)
  }

  lemma {:induction false} AdvanceCounts(c: Cursor)
    ensures forall s: nat :: Counted(Advance(c), s) <==> Counted(c, s)
    ensures Advance(c).highest + 1 !in Advance(c).seen && c.highest <= Advance(c).highest
    decreases |c.seen|
  {
    if c.highest + 1 in c.seen {
      var next := Cursor(c.highest + 1, c.seen - {c.highest + 1});
      AdvanceCounts(next);
      assert forall s: nat :: Counted(next, s) <==> Counted(c, s);
    }
  }

  /** Accepting counts exactly one sequence more, whenever it may be counted, gap or no gap. */
  lemma AcceptCounts(c: Cursor, sequence: nat)
    ensures Admits(c, sequence) <==> Countable(c, sequence)
    ensures forall s: nat :: Counted(AcceptSequence(c, sequence), s)
              <==> Counted(c, s) || (s == sequence && Countable(c, sequence))
    ensures Countable(c, sequence) ==>
              AcceptSequence(c, sequence).highest + 1 !in AcceptSequence(c, sequence).seen
  {
    hide Advance;
    AdvanceCounts(Cursor(c.highest, c.seen + {sequence}));
  }

  // ---------- What is on screen ----------

  /** The rendered durable events, and the cursor position the rendering started from. */
  datatype Screen<+E> = Screen(cursor: Cursor, base: nat, rendered: seq<Entry<E>>)

  function EmptyScreen<E>(): Screen<E> {
    Screen(Cursor(0, {}), 0, [])
  }

  function Render<E>(screen: Screen<E>, entry: Entry<E>): Screen<E> {
    if Admits(screen.cursor, entry.sequence)
    then Screen(AcceptSequence(screen.cursor, entry.sequence), screen.base, screen.rendered + [entry])
    else screen
  }

  function RenderAll<E>(screen: Screen<E>, entries: seq<Entry<E>>): Screen<E>
    decreases |entries|
  {
    if entries == [] then screen else RenderAll(Render(screen, entries[0]), entries[1..])
  }

  function Sequences<E>(entries: seq<Entry<E>>): (sequences: seq<nat>)
    ensures |sequences| == |entries|
    ensures forall i :: 0 <= i < |entries| ==> sequences[i] == entries[i].sequence
  {
    seq(|entries|, i requires 0 <= i < |entries| => entries[i].sequence)
  }

  /** A snapshot either replaces what is on screen or continues it. */
  function Reconcile<E>(screen: Screen<E>, events: seq<Entry<E>>, replace: bool, latest: nat): Screen<E> {
    var base := SnapshotBase(Sequences(events), latest);
    RenderAll(if replace then Screen(Cursor(base, {}), base, []) else screen, events)
  }

  /** The screen shows exactly a stretch of the log, with nothing waiting beyond a gap. */
  ghost predicate ShowsLog<E>(screen: Screen<E>, published: seq<E>) {
    && screen.cursor.seen == {}
    && screen.base <= screen.cursor.highest <= |published|
    && screen.rendered == Numbered(published)[screen.base..screen.cursor.highest]
  }

  /** Fed the continuation of the log among entries it already has, the screen follows it. */
  lemma {:induction false} RenderAllFollows<E>(screen: Screen<E>, entries: seq<Entry<E>>, published: seq<E>, to: nat)
    requires |published| <= MAX_SAFE_INTEGER
    requires ShowsLog(screen, published) && screen.cursor.highest <= to <= |published|
    requires Above(entries, screen.cursor.highest) == Numbered(published)[screen.cursor.highest..to]
    ensures ShowsLog(RenderAll(screen, entries), published)
    ensures RenderAll(screen, entries).cursor.highest == to
    ensures RenderAll(screen, entries).base == screen.base
    decreases |entries|
  {
    hide Numbered, ShowsLog;
    var highest := screen.cursor.highest;
    if entries != [] {
      var next := Render(screen, entries[0]);
      if entries[0].sequence > highest {
        RenderNext(screen, entries[0], published, to, Above(entries[1..], highest));
        AboveTwice(entries[1..], highest, highest + 1);
        AboveStretch(published, highest + 1, to, highest + 1);
      }
      RenderAllFollows(next, entries[1..], published, to);
    }
  }

  lemma AcceptNext(c: Cursor)
    requires c.seen == {} && c.highest + 1 <= MAX_SAFE_INTEGER
    ensures AcceptSequence(c, c.highest + 1) == Cursor(c.highest + 1, {})
  {
    var next := Cursor(c.highest, c.seen + {c.highest + 1});
    assert next.seen - {c.highest + 1} == {};
    assert Advance(next) == Advance(Cursor(c.highest + 1, {}));
  }

  lemma RenderNext<E>(screen: Screen<E>, entry: Entry<E>, published: seq<E>, to: nat, rest: seq<Entry<E>>)
    requires |published| <= MAX_SAFE_INTEGER
    requires ShowsLog(screen, published) && screen.cursor.highest <= to <= |published|
    requires [entry] + rest == Numbered(published)[screen.cursor.highest..to]
    ensures screen.cursor.highest + 1 <= to
    ensures rest == Numbered(published)[screen.cursor.highest + 1..to]
    ensures ShowsLog(Render(screen, entry), published)
    ensures Render(screen, entry).cursor.highest == screen.cursor.highest + 1
    ensures Render(screen, entry).base == screen.base
  {
    var highest := screen.cursor.highest;
    var stretch := Numbered(published)[highest..to];
    assert |stretch| == 1 + |rest|;
    assert stretch[0] == entry && entry == Numbered(published)[highest];
    assert rest == stretch[1..];
    AcceptNext(screen.cursor);
    assert Numbered(published)[screen.base..highest + 1]
        == Numbered(published)[screen.base..highest] + [Numbered(published)[highest]];
  }

  // ---------- The outbox ----------

  datatype Delivery = Sending | Sent | NotSent

  datatype Command<+B> = Command(id: ClientId, body: B, delivery: Delivery)

  /** Pending commands in the order they were entered, and those given up. */
  datatype Outbox<+B> = Outbox(pending: seq<Command<B>>, abandoned: seq<Command<B>>) {
    predicate Has(id: ClientId) {
      exists i :: 0 <= i < |pending| && pending[i].id == id
    }

    ghost predicate Valid() {
      && |pending| <= MAX_OUTBOX
      && (forall i, j :: 0 <= i < j < |pending| ==> pending[i].id != pending[j].id)
    }
  }

  function IndexOf<B>(commands: seq<Command<B>>, id: ClientId): (index: nat)
    ensures index <= |commands|
    ensures index < |commands| ==> commands[index].id == id
    ensures forall i :: 0 <= i < index ==> commands[i].id != id
  {
    if commands == [] || commands[0].id == id then 0 else 1 + IndexOf(commands[1..], id)
  }

  function Without<B>(commands: seq<Command<B>>, id: ClientId): seq<Command<B>> {
    var index := IndexOf(commands, id);
    if index < |commands| then commands[..index] + commands[index + 1..] else commands
  }

  /** Entering a command under an id that is already pending replaces it in place. */
  function Enqueue<B>(outbox: Outbox<B>, command: Command<B>): Outbox<B> {
    var index := IndexOf(outbox.pending, command.id);
    if |outbox.pending| >= MAX_OUTBOX then outbox
    else if index < |outbox.pending| then outbox.(pending := outbox.pending[index := command])
    else outbox.(pending := outbox.pending + [command])
  }

  function Acknowledge<B>(outbox: Outbox<B>, id: ClientId): Outbox<B> {
    outbox.(pending := Without(outbox.pending, id))
  }

  function Reject<B>(outbox: Outbox<B>, id: ClientId): Outbox<B> {
    var index := IndexOf(outbox.pending, id);
    if index == |outbox.pending| then outbox
    else Outbox(Without(outbox.pending, id), outbox.abandoned + [outbox.pending[index].(delivery := NotSent)])
  }

  function GivenUp<B>(commands: seq<Command<B>>): (marked: seq<Command<B>>)
    ensures |marked| == |commands|
    ensures forall i :: 0 <= i < |commands| ==> marked[i] == commands[i].(delivery := NotSent)
  {
    seq(|commands|, i requires 0 <= i < |commands| => commands[i].(delivery := NotSent))
  }

  function Abandon<B>(outbox: Outbox<B>): Outbox<B> {
    Outbox([], outbox.abandoned + GivenUp(outbox.pending))
  }

  function Ids<B>(commands: seq<Command<B>>): set<ClientId> {
    set i | 0 <= i < |commands| :: commands[i].id
  }

  /** No operation loses a command: each leaves the outbox only by the operation named. */
  lemma OutboxConserves<B>(outbox: Outbox<B>, id: ClientId)
    requires outbox.Valid()
    ensures Acknowledge(outbox, id).Valid() && Reject(outbox, id).Valid() && Abandon(outbox).Valid()
    ensures Ids(Acknowledge(outbox, id).pending) == Ids(outbox.pending) - {id}
    ensures Acknowledge(outbox, id).abandoned == outbox.abandoned && Ids(Abandon(outbox).pending) == {}
    ensures Ids(Reject(outbox, id).pending) == Ids(outbox.pending) - {id}
    ensures Ids(Reject(outbox, id).abandoned) == Ids(outbox.abandoned) + (Ids(outbox.pending) * {id})
    ensures Ids(Abandon(outbox).abandoned) == Ids(outbox.abandoned) + Ids(outbox.pending)
  {
    WithoutRemoves(outbox, id);
    var index := IndexOf(outbox.pending, id);
    if index < |outbox.pending| {
      var given := outbox.pending[index].(delivery := NotSent);
      IdsConcat(outbox.abandoned, [given]);
      IdOfOne(given);
      assert id in Ids(outbox.pending);
    } else {
      assert id !in Ids(outbox.pending);
    }
    IdsConcat(outbox.abandoned, GivenUp(outbox.pending));
    GivenUpIds(outbox.pending);
  }

  lemma GivenUpIds<B>(commands: seq<Command<B>>)
    ensures Ids(GivenUp(commands)) == Ids(commands)
  {
    forall id ensures id in Ids(GivenUp(commands)) <==> id in Ids(commands) {
      if id in Ids(commands) {
        var i :| 0 <= i < |commands| && commands[i].id == id;
        assert GivenUp(commands)[i].id == id;
      }
    }
  }

  lemma IdsConcat<B>(a: seq<Command<B>>, b: seq<Command<B>>)
    ensures Ids(a + b) == Ids(a) + Ids(b)
  {
    forall id ensures id in Ids(a + b) <==> id in Ids(a) + Ids(b) {
      if id in Ids(a) {
        var i :| 0 <= i < |a| && a[i].id == id;
        assert (a + b)[i].id == id;
      }
      if id in Ids(b) {
        var i :| 0 <= i < |b| && b[i].id == id;
        assert (a + b)[|a| + i].id == id;
      }
    }
  }

  lemma IdOfOne<B>(command: Command<B>)
    ensures Ids([command]) == {command.id}
  {
    assert [command][0].id == command.id;
  }

  lemma NoneHasId<B>(commands: seq<Command<B>>, id: ClientId)
    requires forall i :: 0 <= i < |commands| ==> commands[i].id != id
    ensures id !in Ids(commands)
  {
  }

  lemma WithoutRemoves<B>(outbox: Outbox<B>, id: ClientId)
    requires outbox.Valid()
    ensures Ids(Without(outbox.pending, id)) == Ids(outbox.pending) - {id}
    ensures |Without(outbox.pending, id)| <= |outbox.pending|
    ensures outbox.(pending := Without(outbox.pending, id)).Valid()
  {
    hide Ids;
    var pending := outbox.pending;
    var index := IndexOf(pending, id);
    if index < |pending| {
      var before, after := pending[..index], pending[index + 1..];
      assert pending == before + [pending[index]] + after;
      IdsConcat(before + [pending[index]], after);
      IdsConcat(before, [pending[index]]);
      IdsConcat(before, after);
      IdOfOne(pending[index]);
      NoneHasId(before, id);
      NoneHasId(after, id);
    } else {
      NoneHasId(pending, id);
    }
  }

  lemma EnqueueAdds<B>(outbox: Outbox<B>, command: Command<B>)
    requires outbox.Valid()
    ensures Enqueue(outbox, command).Valid() && Enqueue(outbox, command).abandoned == outbox.abandoned
    ensures |outbox.pending| < MAX_OUTBOX
        ==> Ids(Enqueue(outbox, command).pending) == Ids(outbox.pending) + {command.id}
    ensures |outbox.pending| >= MAX_OUTBOX ==> Enqueue(outbox, command) == outbox
  {
    var index := IndexOf(outbox.pending, command.id);
    if |outbox.pending| < MAX_OUTBOX {
      if index < |outbox.pending| {
        var next := outbox.pending[index := command];
        forall id ensures id in Ids(next) <==> id in Ids(outbox.pending) + {command.id} {
          if id in Ids(outbox.pending) {
            var i :| 0 <= i < |outbox.pending| && outbox.pending[i].id == id;
            assert next[i].id == id;
          }
          assert next[index].id == command.id;
        }
      } else {
        IdsConcat(outbox.pending, [command]);
        IdOfOne(command);
      }
    }
  }

  // ---------- The browser's fields ----------

  class ReliabilityState<B> {
    var pending: seq<Command<B>>
    var abandoned: seq<Command<B>>
    var seen: set<nat>
    var highestServerSeq: nat

    ghost function Sequence(): Cursor
      reads this
    {
      Cursor(highestServerSeq, seen)
    }

    ghost function Commands(): Outbox<B>
      reads this
    {
      Outbox(pending, abandoned)
    }

    constructor ()
      ensures Sequence() == Cursor(0, {}) && Commands() == Outbox([], [])
    {
      pending, abandoned, seen, highestServerSeq := [], [], {}, 0;
    }

    /** A command goes to the end, or in the place of the one with its id. */
    method EnqueueCommand(command: Command<B>) returns (queued: bool)
      modifies this
      ensures abandoned == old(abandoned)
      ensures !queued ==> pending == old(pending)
      ensures queued && !old(Commands()).Has(command.id) ==> pending == old(pending) + [command]
      ensures queued && old(Commands()).Has(command.id) ==>
                exists i :: 0 <= i < |old(pending)| && old(pending)[i].id == command.id
                            && pending == old(pending)[i := command]
      ensures queued <==> |old(pending)| < 100
      ensures Commands() == Enqueue(old(Commands()), command)
      ensures Sequence() == old(Sequence())
    {
      if |pending| >= MAX_OUTBOX {
        return false;
      }
      var index := IndexOf(pending, command.id);
      pending := if index < |pending| then pending[index := command] else pending + [command];
      return true;
    }

    /** An acknowledged command leaves the outbox, marked as sent; the others keep their order. */
    method AcknowledgeCommand(id: ClientId) returns (command: Option<Command<B>>)
      modifies this
      ensures abandoned == old(abandoned)
      ensures command.None? ==> pending == old(pending)
      ensures command.Some? ==>
                exists i :: 0 <= i < |old(pending)| && command.value == old(pending)[i].(delivery := Sent)
                            && pending == old(pending)[..i] + old(pending)[i + 1..]
      ensures Commands() == Acknowledge(old(Commands()), id)
      ensures command.Some? <==> old(Commands()).Has(id)
      ensures command.Some? ==> command.value.id == id && command.value.delivery == Sent
      ensures Sequence() == old(Sequence())
    {
      var index := IndexOf(pending, id);
      if index == |pending| {
        return None;
      }
      command := Some(pending[index].(delivery := Sent));
      pending := pending[..index] + pending[index + 1..];
    }

    /** A rejected command leaves the outbox for the abandoned ones, marked as not sent. */
    method RejectCommand(id: ClientId) returns (command: Option<Command<B>>)
      modifies this
      ensures command.None? ==> pending == old(pending) && abandoned == old(abandoned)
      ensures command.Some? ==>
                && abandoned == old(abandoned) + [command.value]
                && exists i :: 0 <= i < |old(pending)| && command.value == old(pending)[i].(delivery := NotSent)
                               && pending == old(pending)[..i] + old(pending)[i + 1..]
      ensures Commands() == Reject(old(Commands()), id)
      ensures command.Some? <==> old(Commands()).Has(id)
      ensures command.Some? ==> command.value.id == id && command.value.delivery == NotSent
      ensures Sequence() == old(Sequence())
    {
      var index := IndexOf(pending, id);
      if index == |pending| {
        return None;
      }
      var given := pending[index].(delivery := NotSent);
      pending := pending[..index] + pending[index + 1..];
      abandoned := abandoned + [given];
      return Some(given);
    }

    /** Every pending command joins the abandoned ones in order, marked as not sent. */
    method AbandonAll()
      modifies this
      ensures pending == [] && |abandoned| == |old(abandoned)| + |old(pending)|
      ensures abandoned[..|old(abandoned)|] == old(abandoned)
      ensures forall i :: 0 <= i < |old(pending)| ==>
                abandoned[|old(abandoned)| + i] == old(pending)[i].(delivery := NotSent)
      ensures Commands() == Abandon(old(Commands()))
      ensures Sequence() == old(Sequence())
    {
      var commands := pending;
      ghost var kept := abandoned;
      for i := 0 to |commands|
        invariant pending == commands
        invariant Sequence() == old(Sequence())
        invariant abandoned == kept + GivenUp(commands)[..i]
      {
        abandoned := abandoned + [commands[i].(delivery := NotSent)];
      }
      pending := [];
    }

    /** A stored position is taken over by a cursor that has counted nothing. */
    method RestoreStoredCursor(sequence: nat)
      modifies this
      ensures seen == old(seen)
      ensures highestServerSeq ==
                if old(seen) == {} && old(highestServerSeq) == 0 && sequence <= 0x1F_FFFF_FFFF_FFFF
                then sequence else old(highestServerSeq)
      ensures Sequence() == RestoreCursor(old(Sequence()), sequence)
      ensures Commands() == old(Commands())
    {
      if seen == {} && highestServerSeq == 0 && 0 < sequence <= MAX_SAFE_INTEGER {
        highestServerSeq := sequence;
      }
    }

    /** A sequence is accepted whenever it may be counted, and exactly it is counted in addition. */
    method Accept(sequence: nat) returns (accepted: bool)
      modifies this
      ensures accepted <==>
                && old(highestServerSeq) < sequence <= 0x1F_FFFF_FFFF_FFFF && sequence !in old(seen)
                && (|old(seen)| < 2048 || sequence == old(highestServerSeq) + 1)
      ensures forall s: nat :: s <= highestServerSeq || s in seen
                <==> s <= old(highestServerSeq) || s in old(seen) || (accepted && s == sequence)
      ensures accepted ==> highestServerSeq + 1 !in seen
      ensures !accepted ==> highestServerSeq == old(highestServerSeq) && seen == old(seen)
      ensures accepted <==> Admits(old(Sequence()), sequence)
      ensures Sequence() == AcceptSequence(old(Sequence()), sequence)
      ensures Commands() == old(Commands())
    {
      ghost var before := Sequence();
      AcceptCounts(before, sequence);
      if sequence > MAX_SAFE_INTEGER || sequence <= highestServerSeq || sequence in seen {
        return false;
      }
      if |seen| >= MAX_SEEN && sequence != highestServerSeq + 1 {
        return false;
      }
      seen := seen + {sequence};
      while highestServerSeq + 1 in seen
        invariant Commands() == old(Commands())
        invariant Advance(Sequence()) == AcceptSequence(old(Sequence()), sequence)
        decreases |seen|
      {
        seen := seen - {highestServerSeq + 1};
        highestServerSeq := highestServerSeq + 1;
      }
      assert Sequence() == AcceptSequence(before, sequence);
      assert forall s: nat :: s <= highestServerSeq || s in seen <==> Counted(Sequence(), s);
      return true;
    }

    /** The cursor starts anew just below the snapshot's first event, or at `latest`. */
    method ReplaceHistory(sequences: seq<nat>, latest: nat)
      modifies this
      ensures seen == {}
      ensures (exists s :: s in sequences && 0 < s <= 0x1F_FFFF_FFFF_FFFF) ==>
                && highestServerSeq + 1 in sequences
                && forall s :: s in sequences && 0 < s <= 0x1F_FFFF_FFFF_FFFF ==> highestServerSeq < s
      ensures !(exists s :: s in sequences && 0 < s <= 0x1F_FFFF_FFFF_FFFF) ==>
                highestServerSeq == if latest <= 0x1F_FFFF_FFFF_FFFF then latest else 0
      ensures Sequence() == Cursor(SnapshotBase(sequences, latest), {})
      ensures Commands() == old(Commands())
    {
      seen := {};
      var usable := Usable(sequences);
      if |usable| > 0 {
        highestServerSeq := Least(usable) - 1;
      } else {
        highestServerSeq := if latest <= MAX_SAFE_INTEGER then latest else 0;
      }
    }
  }
}
