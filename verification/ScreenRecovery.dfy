/**
 What the browser shows when frames are lost: nothing false, no position passed over, and
 after SESSION_READY everything up to the sequence it names.  Unlike the strict order of
 `ResumeInvariants.RenderingRefinesLog`, none of this needs a run without drops.  Only a
 flooded handshake inbox can make the page show an event twice; the results here say exactly
 when, and `FloodedInbox.PageCanRepeat` gives such a run.
 */
module ScreenRecovery {
  import opened Wrappers
  import opened SessionReliability
  import opened RoomLog
  import opened ClientReliability
  import opened ResumeProtocol
  import opened ResumeInvariants
  import Out = OutboundQueue

  // ---------- Rendering with gaps ----------

  function Shown<E>(rendered: seq<Entry<E>>): set<nat> {
    set i | 0 <= i < |rendered| :: rendered[i].sequence
  }

  ghost predicate Distinct<E>(entries: seq<Entry<E>>) {
    forall i, j :: 0 <= i < j < |entries| ==> entries[i].sequence != entries[j].sequence
  }

  /**
   The cursor accounts for exactly what was rendered since the last replacement, each
   sequence was rendered once, and with the log's event.
   */
  ghost predicate Faithful<E>(screen: Screen<E>, log: seq<E>) {
    && Accounts(screen.cursor, screen.base, Shown(screen.rendered))
    && Distinct(screen.rendered)
    && Genuine(screen.rendered, log)
    && screen.base <= |log|
    && screen.base <= MAX_SAFE_INTEGER
    && (forall i :: 0 <= i < |screen.rendered| ==> screen.rendered[i].sequence <= MAX_SAFE_INTEGER)
  }

  lemma HighestIsPublished<E>(screen: Screen<E>, log: seq<E>)
    requires Faithful(screen, log)
    ensures screen.base <= screen.cursor.highest <= |log|
    ensures screen.cursor.highest <= MAX_SAFE_INTEGER && |screen.cursor.seen| <= MAX_SEEN
  {
    if screen.base < screen.cursor.highest {
      assert screen.cursor.highest in Shown(screen.rendered);
    }
  }

  lemma ShownAppend<E>(rendered: seq<Entry<E>>, entry: Entry<E>)
    ensures Shown(rendered + [entry]) == Shown(rendered) + {entry.sequence}
  {
    var more := rendered + [entry];
    forall q ensures q in Shown(more) <==> q in Shown(rendered) + {entry.sequence} {
      if q in Shown(rendered) {
        var i :| 0 <= i < |rendered| && rendered[i].sequence == q;
        assert more[i].sequence == q;
      }
      assert more[|rendered|].sequence == entry.sequence;
    }
  }

  lemma {:induction false} AdvanceClimbs(c: Cursor)
    ensures c.highest <= Advance(c).highest
    ensures c.highest + 1 in c.seen ==> c.highest + 1 <= Advance(c).highest
    decreases |c.seen|
  {
    if c.highest + 1 in c.seen {
      AdvanceClimbs(Cursor(c.highest + 1, c.seen - {c.highest + 1}));
    }
  }

  /** An entry that is not on screen joins the others. */
  lemma AppendIsGenuine<E>(rendered: seq<Entry<E>>, entry: Entry<E>, log: seq<E>)
    requires Distinct(rendered) && Genuine(rendered, log) && Genuine([entry], log)
    requires entry.sequence !in Shown(rendered)
    ensures Distinct(rendered + [entry]) && Genuine(rendered + [entry], log)
  {
    assert [entry][0] == entry;
    forall i | 0 <= i < |rendered| ensures rendered[i].sequence != entry.sequence {
      assert rendered[i].sequence in Shown(rendered);
    }
  }

  lemma RenderIsFaithful<E>(screen: Screen<E>, entry: Entry<E>, log: seq<E>)
    requires Faithful(screen, log) && Genuine([entry], log)
    ensures Faithful(Render(screen, entry), log)
    ensures Render(screen, entry).base == screen.base && screen.rendered <= Render(screen, entry).rendered
    ensures screen.cursor.highest <= Render(screen, entry).cursor.highest
    ensures entry.sequence == screen.cursor.highest + 1 <= MAX_SAFE_INTEGER
        ==> entry.sequence <= Render(screen, entry).cursor.highest
  {
    hide Advance, Accounts, Genuine, Distinct, Shown;
    if Admits(screen.cursor, entry.sequence) {
      AcceptKeepsAccount(screen.cursor, screen.base, Shown(screen.rendered), entry.sequence);
      ShownAppend(screen.rendered, entry);
      AdvanceClimbs(Cursor(screen.cursor.highest, screen.cursor.seen + {entry.sequence}));
      AppendIsGenuine(screen.rendered, entry, log);
    } else {
      NextIsAdmitted(screen.cursor, screen.base, Shown(screen.rendered));
    }
  }

  lemma NextIsAdmitted(c: Cursor, base: nat, admitted: set<nat>)
    requires Accounts(c, base, admitted)
    ensures c.highest + 1 <= MAX_SAFE_INTEGER ==> Admits(c, c.highest + 1)
  {
  }

  lemma {:induction false} RenderAllIsFaithful<E>(screen: Screen<E>, entries: seq<Entry<E>>, log: seq<E>)
    requires Faithful(screen, log) && Genuine(entries, log)
    ensures var after := RenderAll(screen, entries);
      && Faithful(after, log) && after.base == screen.base && screen.rendered <= after.rendered
      && screen.cursor.highest <= after.cursor.highest
    decreases |entries|
  {
    hide Faithful, Render;
    if entries != [] {
      RenderIsFaithful(screen, entries[0], log);
      RenderAllIsFaithful(Render(screen, entries[0]), entries[1..], log);
    }
  }

  /** Consecutive entries that start no later than the cursor take it to their end. */
  lemma {:induction false} RenderAllClimbs<E>(screen: Screen<E>, entries: seq<Entry<E>>, log: seq<E>, from: nat)
    requires Faithful(screen, log) && Genuine(entries, log) && from <= screen.cursor.highest
    requires forall i :: 0 <= i < |entries| ==> entries[i].sequence == from + 1 + i
    ensures Min(from + |entries|, MAX_SAFE_INTEGER) <= RenderAll(screen, entries).cursor.highest
    decreases |entries|
  {
    hide Faithful, Render;
    if entries != [] {
      var next := Render(screen, entries[0]);
      RenderIsFaithful(screen, entries[0], log);
      if from + 1 <= next.cursor.highest {
        RenderAllClimbs(next, entries[1..], log, from + 1);
      } else {
        RenderAllIsFaithful(next, entries[1..], log);
      }
    }
  }

  /** The event of sequence `q` is on screen, at one place. */
  ghost predicate ShownOnce<E>(rendered: seq<Entry<E>>, log: seq<E>, q: nat) {
    && 0 < q <= |log|
    && exists i :: 0 <= i < |rendered| && rendered[i] == Entry(q, log[q - 1])
         && forall j :: 0 <= j < |rendered| && rendered[j].sequence == q ==> j == i
  }

  /** The cursor has counted the sequence since the history was last replaced or given up. */
  ghost predicate Settled<E>(screen: Screen<E>, q: nat) {
    screen.base < q <= screen.cursor.highest || q in screen.cursor.seen
  }

  lemma SettledIsShown<E>(screen: Screen<E>, log: seq<E>, q: nat)
    requires Faithful(screen, log) && Settled(screen, q)
    ensures ShownOnce(screen.rendered, log, q)
  {
    assert q in Shown(screen.rendered);
    var i :| 0 <= i < |screen.rendered| && screen.rendered[i].sequence == q;
    assert screen.rendered[i] == Entry(q, log[q - 1]);
  }

  lemma ShownIsSettled<E>(screen: Screen<E>, log: seq<E>, q: nat)
    requires Faithful(screen, log)
    ensures ShownOnce(screen.rendered, log, q) <==> Settled(screen, q)
    ensures q in Shown(screen.rendered) <==> Settled(screen, q)
  {
    if Settled(screen, q) {
      SettledIsShown(screen, log, q);
    } else {
      assert q !in Shown(screen.rendered);
    }
  }

  lemma SettledUpTo<E>(screen: Screen<E>, log: seq<E>, latest: nat)
    requires Faithful(screen, log)
    ensures (forall q: nat :: screen.base < q <= latest ==> Settled(screen, q)) <==> latest <= screen.cursor.highest
  {
    if latest > screen.cursor.highest {
      assert !Settled(screen, screen.cursor.highest + 1);
    }
  }

  // ---------- SESSION_READY ----------

  /** Where a replacement of the history starts. */
  lemma ReplacementBase<E>(history: seq<Entry<E>>, log: seq<E>, from: nat, latest: nat)
    requires Genuine(history, log) && latest <= |log|
    requires forall i :: 0 <= i < |history| ==> history[i].sequence == from + 1 + i
    ensures var base := SnapshotBase(Sequences(history), latest);
      && base <= |log| && base <= MAX_SAFE_INTEGER
      && (history != [] && from < MAX_SAFE_INTEGER ==> base == from)
      && ((history == [] || from >= MAX_SAFE_INTEGER) && latest <= MAX_SAFE_INTEGER ==> base == latest)
  {
    var sequences := Sequences(history);
    var usable := Usable(sequences);
    assert usable != [] ==> usable[0] in usable;
    if history != [] && from < MAX_SAFE_INTEGER {
      assert sequences[0] in sequences;
      assert from + 1 in usable;
      assert Least(usable) in sequences;
    } else {
      assert forall q :: q in sequences ==> q > MAX_SAFE_INTEGER;
      assert usable == [];
    }
  }

  /** A replaced screen holds the snapshot, and what lies below it is given up. */
  lemma ReplaceRecovers<E>(history: seq<Entry<E>>, log: seq<E>, from: nat, latest: nat)
    requires Genuine(history, log) && latest <= Min(from + |history|, |log|)
    requires forall i :: 0 <= i < |history| ==> history[i].sequence == from + 1 + i
    ensures var base := SnapshotBase(Sequences(history), latest);
      var shown := RenderAll(Screen(Cursor(base, {}), base, []), history);
      && Faithful(shown, log)
      && (latest <= MAX_SAFE_INTEGER ==>
            && latest <= shown.cursor.highest
            && shown.base == if history != [] && from < MAX_SAFE_INTEGER then from else latest)
  {
    hide Faithful, RenderAll, SnapshotBase;
    ReplacementBase(history, log, from, latest);
    var base := SnapshotBase(Sequences(history), latest);
    var start := Screen(Cursor(base, {}), base, []);
    EmptyIsFaithful(log, base);
    RenderAllIsFaithful(start, history, log);
    if base == from {
      RenderAllClimbs(start, history, log, from);
    }
  }

  lemma StretchIsGenuine<E>(log: seq<E>, from: nat, to: nat)
    requires from <= to <= |log|
    ensures Genuine(Numbered(log)[from..to], log)
    ensures forall i :: 0 <= i < to - from ==> Numbered(log)[from..to][i].sequence == from + 1 + i
  {
  }

  /** Entries beyond a gap leave the cursor where it is. */
  lemma {:induction false} RenderAllStaysBehind<E>(screen: Screen<E>, entries: seq<Entry<E>>, log: seq<E>)
    requires Faithful(screen, log) && Genuine(entries, log)
    requires forall i :: 0 <= i < |entries| ==> entries[i].sequence > screen.cursor.highest + 1
    ensures RenderAll(screen, entries).cursor.highest == screen.cursor.highest
    decreases |entries|
  {
    hide Faithful, Render;
    if entries != [] {
      RenderIsFaithful(screen, entries[0], log);
      RenderStaysBehind(screen, entries[0], log);
      RenderAllStaysBehind(Render(screen, entries[0]), entries[1..], log);
    }
  }

  lemma RenderStaysBehind<E>(screen: Screen<E>, entry: Entry<E>, log: seq<E>)
    requires Faithful(screen, log) && entry.sequence > screen.cursor.highest + 1
    ensures Render(screen, entry).cursor.highest == screen.cursor.highest
  {
    hide Distinct, Genuine, Shown;
    var c := screen.cursor;
    assert c.highest + 1 !in c.seen + {entry.sequence};
  }

  /** A replay that continues the screen reaches `latest` exactly when it leaves no gap before it. */
  lemma ContinueRecovers<E>(screen: Screen<E>, history: seq<Entry<E>>, log: seq<E>, from: nat, latest: nat)
    requires Faithful(screen, log) && Genuine(history, log) && latest <= from + |history|
    requires forall i :: 0 <= i < |history| ==> history[i].sequence == from + 1 + i
    requires latest <= MAX_SAFE_INTEGER
    ensures var shown := RenderAll(screen, history);
      latest <= shown.cursor.highest <==> from <= screen.cursor.highest || latest <= screen.cursor.highest
  {
    hide Faithful, RenderAll;
    RenderAllIsFaithful(screen, history, log);
    if from <= screen.cursor.highest {
      RenderAllClimbs(screen, history, log, from);
    } else {
      RenderAllStaysBehind(screen, history, log);
    }
  }

  /**
   Applying SESSION_READY to any faithful screen: it reaches `latest` exactly when it
   replaces the history or the announced cursor was no further than the screen's own.
   */
  lemma ReconcileRecovers<E>(screen: Screen<E>, log: seq<E>, length: nat, maximum: nat, latest: nat, cursor: nat,
                             resumed: bool)
    requires Faithful(screen, log) && latest <= length <= |log|
    requires !resumed ==> cursor == 0
    ensures var replay := Replay(log[..length], maximum, cursor);
      var replace, oldest := replay.0 || !resumed, length - Min(length, maximum);
      var shown := Reconcile(screen, replay.1, replace, latest);
      && Faithful(shown, log)
      && (latest <= MAX_SAFE_INTEGER ==>
            (latest <= shown.cursor.highest <==>
              replace || cursor <= screen.cursor.highest || latest <= screen.cursor.highest))
      && (!replace ==>
            && shown.base == screen.base && screen.rendered <= shown.rendered
            && screen.cursor.highest <= shown.cursor.highest)
      && (replace && latest <= MAX_SAFE_INTEGER ==>
            shown.base == if oldest < length && oldest < MAX_SAFE_INTEGER then oldest else latest)
  {
    hide Faithful, RenderAll, SnapshotBase, Replay, Genuine;
    ReplayIsStretch(log, length, maximum, cursor);
    var replay, from := Replay(log[..length], maximum, cursor), StretchStart(length, maximum, cursor);
    StretchIsGenuine(log, from, length);
    if replay.0 || !resumed {
      ReplaceRecovers(replay.1, log, from, latest);
    } else {
      RenderAllIsFaithful(screen, replay.1, log);
      if latest <= MAX_SAFE_INTEGER {
        ContinueRecovers(screen, replay.1, log, from, latest);
      }
    }
  }

  lemma EmptyIsFaithful<E>(log: seq<E>, base: nat)
    requires base <= |log| && base <= MAX_SAFE_INTEGER
    ensures Faithful<E>(Screen(Cursor(base, {}), base, []), log)
  {
  }

  // ---------- The page ----------

  lemma DistinctParts<E>(a: seq<Entry<E>>, b: seq<Entry<E>>)
    requires Distinct(a + b)
    ensures Distinct(a) && Distinct(b) && Shown(a) !! Shown(b)
  {
    var all := a + b;
    forall i, j | 0 <= i < |a| && 0 <= j < |b| ensures a[i].sequence != b[j].sequence {
      assert all[i].sequence != all[|a| + j].sequence;
    }
    forall i, j | 0 <= i < j < |b| ensures b[i].sequence != b[j].sequence {
      assert all[|a| + i].sequence != all[|a| + j].sequence;
    }
    forall i, j | 0 <= i < j < |a| ensures a[i].sequence != a[j].sequence {
      assert all[i].sequence != all[j].sequence;
    }
  }

  lemma DistinctConcat<E>(a: seq<Entry<E>>, b: seq<Entry<E>>)
    ensures Distinct(a + b) <==> Distinct(a) && Distinct(b) && Shown(a) !! Shown(b)
  {
    var all := a + b;
    if Distinct(all) {
      DistinctParts(a, b);
    } else if Distinct(a) && Distinct(b) {
      var i, j :| 0 <= i < j < |all| && all[i].sequence == all[j].sequence;
      assert i < |a| <= j;
      assert all[i].sequence in Shown(a) * Shown(b) by {
        assert a[i].sequence in Shown(a) && b[j - |a|].sequence in Shown(b);
      }
    }
  }

  /** Whether an event is on the page twice can be told from the older part and the cursor. */
  lemma PageIsDistinct<E>(kept: seq<Entry<E>>, screen: Screen<E>, log: seq<E>)
    requires Faithful(screen, log)
    ensures Distinct(kept + screen.rendered)
        <==> Distinct(kept) && forall i :: 0 <= i < |kept| ==> !Settled(screen, kept[i].sequence)
  {
    hide Settled, Distinct;
    DistinctConcat(kept, screen.rendered);
    assert Distinct(screen.rendered) by { FaithfulIsDistinct(screen, log); }
    forall i | 0 <= i < |kept|
      ensures kept[i].sequence in Shown(screen.rendered) <==> Settled(screen, kept[i].sequence)
    {
      ShownIsSettled(screen, log, kept[i].sequence);
    }
    assert forall i :: 0 <= i < |kept| ==> kept[i].sequence in Shown(kept);
  }

  lemma FaithfulIsDistinct<E>(screen: Screen<E>, log: seq<E>)
    requires Faithful(screen, log)
    ensures Distinct(screen.rendered) && Genuine(screen.rendered, log)
  {
  }

  lemma GenuineConcat<E>(a: seq<Entry<E>>, b: seq<Entry<E>>, log: seq<E>)
    requires Genuine(a, log) && Genuine(b, log)
    ensures Genuine(a + b, log)
  {
  }

  // ---------- The browser between two steps ----------

  /** The cursor that a hello announces. */
  function AnnouncedCursor(stored: Option<Stored>): nat {
    if stored.Some? then stored.value.cursor else 0
  }

  ghost predicate AnnouncesStored(hello: Hello, stored: Option<Stored>) {
    hello.session.Some? == stored.Some? && hello.cursor == AnnouncedCursor(stored)
  }

  /** Waiting for SESSION_READY, with everything received so far in the inbox. */
  ghost predicate Greeted<E>(g: Sight<E>) {
    var browser, stored := g.browser, g.browser.stored;
    && (stored.Some? ==> stored.value.cursor == browser.screen.cursor.highest)
    && (forall h :: h in g.hellos && h.socket == browser.socket ==> AnnouncesStored(h, stored))
    && (Greets(g.greeting, browser.socket) ==> AnnouncesStored(g.greeting.hello, stored))
    && (g.track.binding.Some? ==>
          && g.track.resumed == stored.Some? && g.track.cursor == AnnouncedCursor(stored)
          && (g.track.mark.Some? ==> Upto(browser.kept, g.track.mark.value)))
    && browser.read <= |g.wire|
    && browser.inbox == g.wire[..browser.read]
  }

  ghost predicate Upto<E>(entries: seq<Entry<E>>, bound: nat) {
    forall i :: 0 <= i < |entries| ==> entries[i].sequence <= bound
  }

  /** After an overflow: no session, and whatever the socket still delivers is taken at once. */
  ghost predicate Flooded<E>(g: Sight<E>) {
    && g.browser.flooded && g.browser.stored.None? && g.browser.inbox == []
    && g.track.binding.Some? && (!g.track.resumed ==> g.track.cursor == 0)
  }

  /** SESSION_READY was applied on this socket; without a flood, the sequence it names was reached. */
  ghost predicate CaughtUp<E>(g: Sight<E>) {
    var browser, highest := g.browser, g.browser.screen.cursor.highest;
    && browser.stored.Some? && browser.stored.value.cursor == highest
    && browser.read <= |g.wire|
    && (exists i :: 0 <= i < browser.read && g.wire[i].Ready?)
    && (!browser.flooded ==>
          forall i :: 0 <= i < browser.read && g.wire[i].Ready? && g.wire[i].latest <= MAX_SAFE_INTEGER
            ==> g.wire[i].latest <= highest)
  }

  /** Without a flood, an older part of the page stays alone until the next snapshot replaces it. */
  ghost predicate KeptAlone<E>(browser: Browser<E>) {
    && Distinct(browser.kept)
    && (browser.kept == [] || (browser.stored.None? && browser.screen == EmptyScreen()))
  }

  /** The screen is faithful, and whatever cursor is stored or announced is the screen's own. */
  ghost predicate Keeping<E>(g: Sight<E>) {
    var browser, stored, screen := g.browser, g.browser.stored, g.browser.screen;
    && Faithful(screen, g.log)
    && Genuine(browser.kept, g.log)
    && (!browser.flooded ==> KeptAlone(browser))
    && (stored.Some? ==> stored.value.cursor <= |g.log| && stored.value.cursor <= MAX_SAFE_INTEGER)
    && match browser.connection
       case Offline =>
         stored.Some? ==> screen == EmptyScreen() || stored.value.cursor == screen.cursor.highest
       case Handshaking => Greeted(g)
       case Backoff => Flooded(g)
       case Online => CaughtUp(g)
  }

  ghost predicate ScreenInv<E>(s: System<E>) {
    Keeping(SightOf(s))
  }

  /** The log and the wire only grow, and no hello or binding appears for the browser's socket. */
  ghost predicate Continues<E>(g: Sight<E>, h: Sight<E>) {
    && h.browser == g.browser.(refused := h.browser.refused)
    && Out.IsPrefix(g.log, h.log) && Out.IsPrefix(g.wire, h.wire) && h.hellos <= g.hellos
    && (h.greeting.NoGreeting? || h.greeting.hello in g.hellos
        || (!g.greeting.NoGreeting? && h.greeting.hello == g.greeting.hello))
    && h.track.binding == g.track.binding
    && (h.track.binding.Some? ==>
          && h.track.cursor == g.track.cursor && h.track.resumed == g.track.resumed
          && (h.track.mark == g.track.mark || h.track.mark == Some(|g.log|)))
  }

  lemma FaithfulGrows<E>(screen: Screen<E>, log: seq<E>, more: seq<E>)
    requires Faithful(screen, log) && Out.IsPrefix(log, more)
    ensures Faithful(screen, more)
  {
    hide Accounts, Distinct, Shown;
  }

  lemma KeepingContinues<E>(g: Sight<E>, h: Sight<E>)
    requires Keeping(g) && Continues(g, h)
    ensures Keeping(h)
  {
    hide Faithful, Distinct;
    FaithfulGrows(g.browser.screen, g.log, h.log);
    if h.browser.read <= |g.wire| {
      assert h.wire[..h.browser.read] == g.wire[..h.browser.read];
      assert forall i :: 0 <= i < h.browser.read ==> h.wire[i] == g.wire[i];
    }
  }

  // ---------- Steps of the server ----------

  lemma SendContinues<E>(s: System<E>, t: System<E>, to: Out.Binding, payload: Payload<E>, size: nat)
    requires to.generation <= s.server.peer.fence.generation
    requires t.server.peer == Send(s.server.peer, to, payload, size) && t.track.binding == s.track.binding
    ensures Out.IsPrefix(SightOf(s).wire, SightOf(t).wire)
  {
    hide Send;
    if s.track.binding.Some? {
      SendEffect(s.server.peer, to, payload, size, s.track.binding.value);
    }
  }

  lemma TransientContinues<E>(s: System<E>, step: Step<E>)
    requires Enabled(s, step)
    requires step.QueueOther? || step.QueueStep? || step.DetachSocket?
    ensures Continues(SightOf(s), SightOf(Apply(s, step)))
  {
    hide Send, OnMessage, DoConnect, Unplug, DoAcceptFresh, DoBindSocket, DoQueueDurable, DoQueueReady, DoReadLatest,
         DoTakeSnapshot, Out.Apply;
    if step.QueueOther? {
      SendIsApply(s.server.peer, step.binding, Other, step.size);
      SendContinues(s, Apply(s, step), step.binding, Other, step.size);
    } else if s.track.binding.Some? {
      QueueStepEffect(s.server.peer, if step.QueueStep? then step.step else Out.Detach(step.socket),
                      s.track.binding.value);
    }
  }

  lemma DurableContinues<E>(s: System<E>, size: nat)
    requires Discipline(s.server) && Enabled(s, QueueDurable(size))
    ensures Continues(SightOf(s), SightOf(DoQueueDurable(s, size)))
  {
    hide Send;
    var to := s.server.publication.binding;
    if to.Some? {
      SendContinues(s, DoQueueDurable(s, size), to.value, Durable(LastEntry(s.server.log)), size);
    }
  }

  lemma ReadyContinues<E>(s: System<E>, size: nat)
    requires Enabled(s, QueueReady(size))
    ensures Continues(SightOf(s), SightOf(DoQueueReady(s, size)))
  {
    hide Send;
    var binding, greeting := CurrentBinding(s.server.peer), s.server.greeting;
    if binding.Some? {
      var ready :=
        Ready(s.server.session, greeting.hello.session.Some?, greeting.latest, greeting.resync, greeting.history);
      SendContinues(s, DoQueueReady(s, size), binding.value, ready, size);
    }
  }

  lemma RoomContinues<E>(s: System<E>, step: Step<E>)
    requires Enabled(s, step)
    requires step.BeginPublish? || step.BeginWelcome? || step.CollectPeers? || step.ReadTransport? || step.StartLease?
      || step.Expire?
    ensures Continues(SightOf(s), SightOf(Apply(s, step)))
  {
    hide Send, OnMessage, DoConnect, Unplug, DoAcceptFresh, DoBindSocket, DoQueueDurable, DoQueueReady, DoReadLatest,
         DoTakeSnapshot, Out.Apply, Replay;
  }

  lemma GreetingContinues<E>(s: System<E>, step: Step<E>)
    requires Enabled(s, step)
    requires step.EndWelcome? || step.ReadLatest? || step.TakeSnapshot? || step.ResumeLease? || step.Refuse?
    ensures Continues(SightOf(s), SightOf(Apply(s, step)))
  {
    hide Replay;
  }

  /** A binding that has just been made for the browser's socket. */
  lemma NewBindingKeeps<E>(g: Sight<E>, h: Sight<E>, hello: Hello)
    requires Keeping(g) && g.track.binding.None? && g.wire == [] && h.wire == []
    requires h.browser == g.browser && h.log == g.log && h.hellos <= g.hellos
    requires hello.socket == g.browser.socket && !g.browser.connection.Offline?
    requires hello in g.hellos || (!g.greeting.NoGreeting? && g.greeting.hello == hello)
    requires !h.greeting.NoGreeting? && h.greeting.hello == hello
    requires h.track.cursor == hello.cursor && h.track.resumed == hello.session.Some? && h.track.mark.None?
    ensures Keeping(h)
  {
    hide Faithful, Distinct, Genuine;
  }

  lemma BindKeeps<E>(s: System<E>)
    requires ServerInv(s.server) && SocketInv(s) && ScreenInv(s) && Enabled(s, BindSocket)
    ensures ScreenInv(DoBindSocket(s))
  {
    hide Keeping;
    var g, t, hello := SightOf(s), DoBindSocket(s), s.server.greeting.hello;
    if hello.socket == s.browser.socket {
      assert Out.BindingInv(s.server.peer, t.track.binding.value);
      NewBindingKeeps(g, SightOf(t), hello);
    } else {
      KeepingContinues(g, SightOf(t));
    }
  }

  lemma FreshKeeps<E>(s: System<E>, hello: Hello)
    requires SocketInv(s) && ScreenInv(s) && Enabled(s, AcceptFresh(hello))
    ensures ScreenInv(DoAcceptFresh(s, hello))
  {
    hide Keeping;
    NewBindingKeeps(SightOf(s), SightOf(DoAcceptFresh(s, hello)), hello);
  }

  // ---------- Steps of the browser ----------

  lemma GivenUpKeeps<E>(browser: Browser<E>, log: seq<E>)
    requires Faithful(browser.screen, log) && Genuine(browser.kept, log)
    requires !browser.flooded ==> KeptAlone(browser)
    ensures Genuine(GiveUp(browser).kept, log)
    ensures !browser.flooded ==> KeptAlone(GiveUp(browser))
  {
    hide Faithful, Genuine, Distinct;
    FaithfulIsDistinct(browser.screen, log);
    GenuineConcat(browser.kept, browser.screen.rendered, log);
    assert browser.kept + [] == browser.kept;
    assert [] + browser.screen.rendered == browser.screen.rendered;
  }

  lemma UnplugKeeps<E>(s: System<E>, browser: Browser<E>)
    requires ScreenInv(s)
    requires browser == s.browser || browser == GiveUp(s.browser)
          || browser == s.browser.(kept := [], screen := EmptyScreen(), flooded := false)
    ensures ScreenInv(Unplug(s, browser))
  {
    hide Faithful, Genuine, Distinct, GiveUp;
    EmptyIsFaithful(s.server.log, 0);
    GivenUpKeeps(s.browser, s.server.log);
    GivenUp(s.browser);
    NothingKept(s.server.log);
  }

  lemma GivenUp<E>(browser: Browser<E>)
    ensures GiveUp(browser) == browser.(kept := Page(browser), screen := EmptyScreen(), stored := None)
  {
  }

  lemma NothingKept<E>(log: seq<E>)
    ensures Genuine([], log) && Distinct<E>([])
  {
  }

  lemma NothingShown<E>(rendered: seq<Entry<E>>)
    ensures Shown(rendered) == {} ==> rendered == []
  {
    if rendered != [] {
      assert rendered[0].sequence in Shown(rendered);
    }
  }

  lemma ConnectKeeps<E>(s: System<E>)
    requires SocketInv(s) && ScreenInv(s)
    ensures ScreenInv(DoConnect(s))
  {
    var t := DoConnect(s);
    var screen := s.browser.screen;
    if screen.cursor.highest == 0 && screen.cursor.seen == {} {
      NothingShown(screen.rendered);
      EmptyIsFaithful(s.server.log, t.browser.screen.base);
    }
    assert forall h :: h in t.hellos && h.socket == t.browser.socket ==> h !in s.hellos;
  }

  lemma PartsAreGenuine<E>(a: seq<Payload<E>>, b: seq<Payload<E>>, log: seq<E>)
    requires Genuine(Durables(a + b), log)
    ensures Genuine(Durables(a), log) && Genuine(Durables(b), log)
  {
    hide Durables;
    DurablesConcat(a, b);
    var all, n := Durables(a + b), |Durables(a)|;
    assert all[..n] == Durables(a) && all[n..] == Durables(b);
  }

  lemma FirstIsGenuine<E>(payloads: seq<Payload<E>>, log: seq<E>)
    requires Genuine(Durables(payloads), log) && payloads != [] && payloads[0].Durable?
    ensures Genuine([payloads[0].entry], log)
  {
    assert Durables(payloads)[0] == payloads[0].entry;
  }

  lemma PrefixIsGenuine<E>(payloads: seq<Payload<E>>, log: seq<E>, at: nat)
    requires Genuine(Durables(payloads), log) && at <= |payloads|
    ensures Genuine(Durables(payloads[..at]), log)
    ensures at < |payloads| && payloads[at].Durable? ==> Genuine([payloads[at].entry], log)
  {
    hide Genuine, Durables;
    var before, after := payloads[..at], payloads[at..];
    assert payloads == before + after;
    PartsAreGenuine(before, after, log);
    if at < |payloads| && payloads[at].Durable? {
      FirstIsGenuine(after, log);
    }
  }

  /** The frames on the wire are genuine, and the one READY among them is as the server made it. */
  lemma WireIsGenuine<E>(s: System<E>)
    requires ServerInv(s.server) && TrackInv(s) && s.track.binding.Some?
    ensures var wire := WrittenTo(s);
      && Genuine(Durables(wire), s.server.log)
      && (forall i :: 0 <= i < |wire| && wire[i].Ready? ==> IsReady(ViewOf(s), wire[i]))
      && (forall i, j :: 0 <= i < j < |wire| ==> !(wire[i].Ready? && wire[j].Ready?))
  {
    hide Genuine, IsReady, Covered, Durables;
    assert Out.BindingInv(s.server.peer, s.track.binding.value);
    var sent, wire := SentTo(s), WrittenTo(s);
    PrefixIsGenuine(sent, s.server.log, |wire|);
    assert forall i :: 0 <= i < |wire| ==> wire[i] == sent[i];
  }

  lemma HoldKeeps<E>(g: Sight<E>)
    requires Keeping(g) && g.browser.connection.Handshaking?
    requires g.browser.read < |g.wire| && !g.wire[g.browser.read].Ready?
    ensures Keeping(g.(browser := g.browser.(read := g.browser.read + 1,
                                             inbox := g.browser.inbox + [g.wire[g.browser.read]])))
  {
    hide Faithful, Genuine, Distinct;
    assert g.wire[..g.browser.read + 1] == g.wire[..g.browser.read] + [g.wire[g.browser.read]];
  }

  lemma FloodKeeps<E>(g: Sight<E>)
    requires Keeping(g) && g.browser.connection.Handshaking? && g.track.binding.Some?
    ensures Keeping(g.(browser := GiveUp(g.browser.(read := g.browser.read + 1))
                         .(connection := Backoff, inbox := [], flooded := true)))
  {
    hide Faithful, Genuine, Distinct;
    EmptyIsFaithful(g.log, 0);
    GivenUpKeeps(g.browser, g.log);
  }

  lemma SkipKeeps<E>(g: Sight<E>)
    requires Keeping(g) && (g.browser.connection.Online? || g.browser.connection.Backoff?)
    requires g.browser.read < |g.wire| && g.wire[g.browser.read].Other?
    ensures Keeping(g.(browser := g.browser.(read := g.browser.read + 1)))
  {
    hide Faithful, Genuine, Distinct;
  }

  lemma FrameKeeps<E>(g: Sight<E>)
    requires Keeping(g) && (g.browser.connection.Online? || g.browser.connection.Backoff?)
    requires Genuine(Durables(g.wire), g.log)
    requires g.browser.read < |g.wire| && g.wire[g.browser.read].Durable?
    ensures var browser := g.browser.(read := g.browser.read + 1);
      Keeping(g.(browser := Save(browser, Render(browser.screen, g.wire[g.browser.read].entry))))
  {
    hide Faithful, Render, Durables, Genuine, Distinct;
    var read, screen := g.browser.read, g.browser.screen;
    PrefixIsGenuine(g.wire, g.log, read);
    RenderIsFaithful(screen, g.wire[read].entry, g.log);
    HighestIsPublished(Render(screen, g.wire[read].entry), g.log);
  }

  /** The screen after SESSION_READY and the held frames. */
  ghost function Drained<E>(browser: Browser<E>, ready: Payload<E>): Screen<E>
    requires ready.Ready?
  {
    RenderAll(Reconcile(browser.screen, ready.history, ready.resync || !ready.resumed, ready.latest),
              Durables(browser.inbox))
  }

  /** What applying SESSION_READY and then the held frames does to the screen. */
  lemma ReadyDrains<E>(v: View<E>, g: Sight<E>)
    requires Keeping(g) && (g.browser.connection.Handshaking? || g.browser.connection.Backoff?)
    requires Genuine(Durables(g.wire), g.log) && v.log == g.log && v.track == g.track && g.track.binding.Some?
    requires g.browser.read < |g.wire| && IsReady(v, g.wire[g.browser.read])
    ensures var ready, screen, length := g.wire[g.browser.read], g.browser.screen, v.track.snapshotAt;
      var replace, oldest := ready.resync || !ready.resumed, length - Min(length, v.maximum);
      var drained := Drained(g.browser, ready);
      && ready.latest <= length <= |g.log|
      && Faithful(drained, g.log)
      && (!replace ==> drained.base == screen.base && screen.rendered <= drained.rendered
                       && screen.cursor.highest <= drained.cursor.highest)
      && (ready.latest <= MAX_SAFE_INTEGER ==>
            && (ready.latest <= drained.cursor.highest <==>
                  replace || v.track.cursor <= screen.cursor.highest || ready.latest <= screen.cursor.highest)
            && (replace ==>
                  drained.base == if oldest < length && oldest < MAX_SAFE_INTEGER then oldest else ready.latest))
  {
    hide Faithful, RenderAll, Reconcile, Replay, Durables, Genuine, Distinct;
    var ready, screen := g.wire[g.browser.read], g.browser.screen;
    PrefixIsGenuine(g.wire, g.log, g.browser.read);
    ReconcileRecovers(screen, g.log, v.track.snapshotAt, v.maximum, ready.latest, v.track.cursor, ready.resumed);
    var shown := Reconcile(screen, ready.history, ready.resync || !ready.resumed, ready.latest);
    NoDurables<E>();
    assert Genuine(Durables(g.browser.inbox), g.log);
    RenderAllIsFaithful(shown, Durables(g.browser.inbox), g.log);
    NothingRendered(shown);
  }

  lemma NoDurables<E>()
    ensures Durables<E>([]) == []
    ensures forall log: seq<E> :: Genuine<E>([], log)
  {
  }

  lemma NothingRendered<E>(screen: Screen<E>)
    ensures RenderAll(screen, []) == screen
  {
  }

  lemma ReadyKeeps<E>(v: View<E>, g: Sight<E>)
    requires Keeping(g) && (g.browser.connection.Handshaking? || g.browser.connection.Backoff?)
    requires Genuine(Durables(g.wire), g.log) && v.log == g.log && v.track == g.track && g.track.binding.Some?
    requires forall i, j :: 0 <= i < j < |g.wire| ==> !(g.wire[i].Ready? && g.wire[j].Ready?)
    requires g.browser.read < |g.wire| && IsReady(v, g.wire[g.browser.read])
    ensures var ready := g.wire[g.browser.read];
      var replace, drained := ready.resync || !ready.resumed, Drained(g.browser, ready);
      Keeping(g.(browser := g.browser.(
        read := g.browser.read + 1, connection := Online, inbox := [], kept := if replace then [] else g.browser.kept,
        screen := drained, stored := Some(Stored(ready.session, drained.cursor.highest)),
        flooded := g.browser.flooded && !replace)))
  {
    hide Faithful, Drained, Replay, Durables, Genuine, Distinct;
    ReadyDrains(v, g);
    HighestIsPublished(Drained(g.browser, g.wire[g.browser.read]), g.log);
    NothingKept(g.log);
  }

  lemma ReceiveKeeps<E>(s: System<E>)
    requires ServerInv(s.server) && TrackInv(s) && ScreenInv(s) && Enabled(s, Receive)
    ensures ScreenInv(Apply(s, Receive))
  {
    hide Keeping, IsReady, Genuine, Durables, Render, RenderAll, Reconcile, GiveUp;
    WireIsGenuine(s);
    var g, t := SightOf(s), Apply(s, Receive);
    var payload := g.wire[g.browser.read];
    if g.browser.connection.Handshaking? && !payload.Ready? {
      if |g.browser.inbox| >= MAX_HANDSHAKE_INBOX {
        FloodKeeps(g);
      } else {
        HoldKeeps(g);
      }
    } else if payload.Ready? {
      NoSecondReady(g);
      ReadyKeeps(ViewOf(s), g);
    } else if payload.Durable? {
      FrameKeeps(g);
    } else {
      SkipKeeps(g);
    }
    assert SightOf(t) == g.(browser := t.browser);
  }

  lemma NoSecondReady<E>(g: Sight<E>)
    requires Keeping(g) && g.browser.read < |g.wire|
    requires forall i, j :: 0 <= i < j < |g.wire| ==> !(g.wire[i].Ready? && g.wire[j].Ready?)
    ensures g.browser.connection.Online? ==> !g.wire[g.browser.read].Ready?
  {
    hide Faithful, Genuine, Distinct;
  }

  lemma ScreenStep<E>(s: System<E>, step: Step<E>)
    requires ServerInv(s.server) && SocketInv(s) && TrackInv(s) && ScreenInv(s) && Enabled(s, step)
    ensures ScreenInv(Apply(s, step))
  {
    hide Keeping, Continues, SightOf, OnMessage, Unplug, SocketInv, TrackInv, ServerInv, DoConnect, DoAcceptFresh,
         DoBindSocket, DoQueueDurable, DoQueueReady, DoReadLatest, DoTakeSnapshot;
    var g, h := SightOf(s), SightOf(Apply(s, step));
    match step {
      case AcceptFresh(hello) => FreshKeeps(s, hello);
      case BindSocket => BindKeeps(s);
      case Connect => ConnectKeeps(s);
      case Disconnect => UnplugKeeps(s, s.browser);
      case Receive => ReceiveKeeps(s);
      case ReceiveRefusal => UnplugKeeps(s, GiveUp(s.browser));
      case Reload => UnplugKeeps(s, s.browser.(kept := [], screen := EmptyScreen(), flooded := false));
      case _ =>
        ServerContinues(s, step);
        KeepingContinues(g, h);
    }
  }

  lemma ServerContinues<E>(s: System<E>, step: Step<E>)
    requires ServerInv(s.server) && Enabled(s, step)
    requires step.Refuse? || (!IsBrowserStep(step) && !step.AcceptFresh? && !step.BindSocket?)
    ensures Continues(SightOf(s), SightOf(Apply(s, step)))
  {
    hide Continues, SightOf, Enabled, Discipline;
    if step.QueueOther? || step.QueueStep? || step.DetachSocket? {
      TransientContinues(s, step);
    } else if step.QueueDurable? {
      DurableContinues(s, step.size);
    } else if step.QueueReady? {
      ReadyContinues(s, step.size);
    } else if step.EndWelcome? || step.ReadLatest? || step.TakeSnapshot? || step.ResumeLease? || step.Refuse? {
      GreetingContinues(s, step);
    } else {
      RoomContinues(s, step);
    }
  }

  // ---------- Every run ----------

  lemma {:induction false} RunKeepsScreen<E>(s: System<E>, steps: seq<Step<E>>)
    requires Inv(s) && ScreenInv(s) && Runs(s, steps)
    ensures Inv(Run(s, steps)) && ScreenInv(Run(s, steps))
    decreases |steps|
  {
    hide ServerInv, SocketInv, TrackInv, BrowserInv, OrderInv, ScreenInv, Apply, Enabled;
    if steps != [] {
      StepKeepsInv(s, steps[0]);
      ScreenStep(s, steps[0]);
      RunKeepsScreen(Apply(s, steps[0]), steps[1..]);
    }
  }

  lemma EveryRunKeepsScreen<E>(maximum: nat, steps: seq<Step<E>>)
    requires Runs(Initial<E>(maximum), steps)
    ensures Inv(Run(Initial<E>(maximum), steps)) && ScreenInv(Run(Initial<E>(maximum), steps))
  {
    hide Inv, Runs;
    InitialInv<E>(maximum);
    EmptyIsFaithful<E>([], 0);
    RunKeepsScreen(Initial<E>(maximum), steps);
  }

  /**
   In every run, whatever frames and messages were dropped.  What was rendered since the
   history was last replaced or given up: a sequence is there at one place, with the log's
   event, exactly when the cursor has settled it, and at most 2048 wait beyond a gap.  The
   whole page: every event is the log's, and none is there twice exactly when the older part
   has none twice and none that the cursor settled anew.  Without a flooded inbox that is
   so, and the older part stands alone until a snapshot replaces it.
   */
  lemma ScreenSurvivesLoss<E>(maximum: nat, steps: seq<Step<E>>)
    requires Runs(Initial<E>(maximum), steps)
    ensures var s := Run(Initial<E>(maximum), steps);
      var browser, screen, kept, log := s.browser, s.browser.screen, s.browser.kept, s.server.log;
      && screen.base <= screen.cursor.highest <= |log|
      && |screen.cursor.seen| <= 2048
      && (forall q: nat :: ShownOnce(screen.rendered, log, q) <==> Settled(screen, q))
      && Distinct(screen.rendered)
      && Genuine(Page(browser), log)
      && (Distinct(Page(browser)) <==>
            Distinct(kept) && forall i :: 0 <= i < |kept| ==> !Settled(screen, kept[i].sequence))
      && (!browser.flooded ==> Distinct(Page(browser)) && (kept == [] || screen == EmptyScreen()))
  {
    hide Runs, Run, Inv, Faithful, Distinct, Genuine, ShownOnce, Settled;
    EveryRunKeepsScreen(maximum, steps);
    var s := Run(Initial<E>(maximum), steps);
    var browser, screen, kept, log := s.browser, s.browser.screen, s.browser.kept, s.server.log;
    HighestIsPublished(screen, log);
    FaithfulIsDistinct(screen, log);
    forall q: nat ensures ShownOnce(screen.rendered, log, q) <==> Settled(screen, q) {
      ShownIsSettled(screen, log, q);
    }
    GenuineConcat(kept, screen.rendered, log);
    PageIsDistinct(kept, screen, log);
    if !browser.flooded {
      assert kept == [] ==> Page(browser) == screen.rendered;
      assert screen.rendered == [] ==> Page(browser) == kept;
    }
  }

  /**
   In every run, whatever was dropped before: a browser that is online has applied a
   SESSION_READY of its socket.  Every sequence between the base and the one it names has
   been rendered since, at one place, exactly when the cursor has reached it; and unless an
   inbox was flooded since the history was last replaced, it has, and nothing else is on the
   page.
   */
  lemma OnlineHasCaughtUp<E>(maximum: nat, steps: seq<Step<E>>)
    requires Runs(Initial<E>(maximum), steps)
    requires Run(Initial<E>(maximum), steps).browser.connection.Online?
    ensures var s := Run(Initial<E>(maximum), steps);
      var screen, log := s.browser.screen, s.server.log;
      && s.track.binding.Some? && s.browser.read <= |WrittenTo(s)|
      && exists i :: 0 <= i < s.browser.read && WrittenTo(s)[i].Ready?
           && ((forall q: nat :: screen.base < q <= WrittenTo(s)[i].latest ==> ShownOnce(screen.rendered, log, q))
                 <==> WrittenTo(s)[i].latest <= screen.cursor.highest)
           && (!s.browser.flooded ==>
                 && Page(s.browser) == screen.rendered
                 && (WrittenTo(s)[i].latest <= MAX_SAFE_INTEGER ==> WrittenTo(s)[i].latest <= screen.cursor.highest))
  {
    hide Runs, Run, Inv, Faithful, ShownOnce, Settled, Distinct, Genuine;
    EveryRunKeepsScreen(maximum, steps);
    var s := Run(Initial<E>(maximum), steps);
    var screen, log := s.browser.screen, s.server.log;
    var i :| 0 <= i < s.browser.read && WrittenTo(s)[i].Ready?;
    forall q: nat ensures ShownOnce(screen.rendered, log, q) <==> Settled(screen, q) {
      ShownIsSettled(screen, log, q);
    }
    SettledUpTo(screen, log, WrittenTo(s)[i].latest);
    if !s.browser.flooded {
      assert [] + screen.rendered == screen.rendered;
    }
  }

  lemma SettledIsCounted<E>(screen: Screen<E>, log: seq<E>, q: nat)
    requires Faithful(screen, log)
    ensures Settled(screen, q) <==> screen.base < q && Counted(screen.cursor, q)
  {
    HighestIsPublished(screen, log);
  }

  lemma RenderSettles<E>(screen: Screen<E>, entry: Entry<E>, log: seq<E>, q: nat)
    requires Faithful(screen, log) && Genuine([entry], log)
    ensures Settled(Render(screen, entry), q)
       <==> Settled(screen, q) || (q == entry.sequence && Countable(screen.cursor, q))
  {
    hide Faithful, Settled, Counted, AcceptSequence;
    RenderIsFaithful(screen, entry, log);
    HighestIsPublished(screen, log);
    SettledIsCounted(screen, log, q);
    SettledIsCounted(Render(screen, entry), log, q);
    AcceptCounts(screen.cursor, entry.sequence);
  }

  /** A durable frame is about to be taken by a browser that holds none back. */
  ghost predicate FrameArrives<E>(s: System<E>) {
    && Enabled(s, Receive)
    && (s.browser.connection.Online? || s.browser.connection.Backoff?)
    && WrittenTo(s)[s.browser.read].Durable?
  }

  /**
   In every run, a durable frame that arrives is shown whenever its sequence may be counted:
   it is above the cursor, not waiting already, and next or with fewer than 2048 waiting, gap
   or no gap.  It then is there at one place, with everything that was there before, and
   nothing else is new.
   */
  lemma FrameIsShown<E>(maximum: nat, steps: seq<Step<E>>)
    requires Runs(Initial<E>(maximum), steps) && FrameArrives(Run(Initial<E>(maximum), steps))
    ensures var s := Run(Initial<E>(maximum), steps);
      var entry, browser := WrittenTo(s)[s.browser.read].entry, Apply(s, Receive).browser;
      && (forall q: nat :: ShownOnce(browser.screen.rendered, s.server.log, q) <==>
            || ShownOnce(s.browser.screen.rendered, s.server.log, q)
            || (q == entry.sequence && Countable(s.browser.screen.cursor, q)))
      && Page(s.browser) <= Page(browser)
      && browser.connection == s.browser.connection && browser.screen.base == s.browser.screen.base
  {
    hide Runs, Run, Faithful, ShownOnce, SocketInv, BrowserInv, OrderInv, Durables, Render, Genuine, Distinct,
         Settled, Discipline, Countable, Tracked;
    EveryRunKeepsScreen(maximum, steps);
    var s := Run(Initial<E>(maximum), steps);
    var entry, before, log := WrittenTo(s)[s.browser.read].entry, s.browser.screen, s.server.log;
    WireIsGenuine(s);
    PrefixIsGenuine(WrittenTo(s), log, s.browser.read);
    RenderIsFaithful(before, entry, log);
    var browser := Apply(s, Receive).browser;
    assert browser.screen == Render(before, entry);
    forall q: nat
      ensures ShownOnce(browser.screen.rendered, log, q)
         <==> ShownOnce(before.rendered, log, q) || (q == entry.sequence && Countable(before.cursor, q))
    {
      ShownIsSettled(before, log, q);
      ShownIsSettled(browser.screen, log, q);
      RenderSettles(before, entry, log, q);
    }
  }

  lemma StepKeepsInbox<E>(s: System<E>, step: Step<E>)
    requires |s.browser.inbox| <= 256 && Enabled(s, step)
    ensures |Apply(s, step).browser.inbox| <= 256
  {
    hide RenderAll, Render, RestoreCursor, Reconcile, DoQueueDurable, DoAcceptFresh, DoBindSocket, DoReadLatest,
      DoTakeSnapshot, DoQueueReady;
    if step.QueueDurable? || step.AcceptFresh? || step.BindSocket? || step.ReadLatest? || step.TakeSnapshot?
       || step.QueueReady? {
      QuietSteps(s, step);
    }
  }

  /** The server leaves the browser alone. */
  lemma QuietSteps<E>(s: System<E>, step: Step<E>)
    requires Enabled(s, step)
    requires step.QueueDurable? || step.AcceptFresh? || step.BindSocket? || step.ReadLatest? || step.TakeSnapshot?
          || step.QueueReady?
    ensures Apply(s, step).browser == s.browser
  {
  }

  lemma {:induction false} RunKeepsInbox<E>(s: System<E>, steps: seq<Step<E>>)
    requires |s.browser.inbox| <= 256 && Runs(s, steps)
    ensures |Run(s, steps).browser.inbox| <= 256
    decreases |steps|
  {
    hide Enabled, Apply;
    if steps != [] {
      StepKeepsInbox(s, steps[0]);
      RunKeepsInbox(Apply(s, steps[0]), steps[1..]);
    }
  }

  /**
   In every run, at most 256 messages wait during a handshake.  Another that is not
   SESSION_READY waits behind them if they are fewer; if not, the session is given up, what
   waited is dropped, and what is on the page stays there.
   */
  lemma InboxHolds<E>(maximum: nat, steps: seq<Step<E>>)
    requires Runs(Initial<E>(maximum), steps) && Enabled(Run(Initial<E>(maximum), steps), Receive)
    requires var s := Run(Initial<E>(maximum), steps);
      s.browser.connection.Handshaking? && !WrittenTo(s)[s.browser.read].Ready?
    ensures var s := Run(Initial<E>(maximum), steps);
      var before, after := s.browser, Apply(s, Receive).browser;
      && |before.inbox| <= 256 && Page(after) == Page(before) && after.read == before.read + 1
      && if |before.inbox| < 256 then
           && after.inbox == before.inbox + [WrittenTo(s)[before.read]] && after.connection.Handshaking?
           && after.screen == before.screen && after.stored == before.stored
         else
           after.inbox == [] && after.connection.Backoff? && after.screen == EmptyScreen() && after.stored.None?
  {
    hide Runs, Run;
    InboxStarts<E>(maximum);
    RunKeepsInbox(Initial<E>(maximum), steps);
  }

  lemma InboxStarts<E>(maximum: nat)
    ensures |Initial<E>(maximum).browser.inbox| == 0
  {
  }

  /** A SESSION_READY is about to be taken, in time or after the inbox was flooded. */
  ghost predicate ReadyArrives<E>(s: System<E>) {
    && Enabled(s, Receive)
    && (s.browser.connection.Handshaking? || s.browser.connection.Backoff?)
    && WrittenTo(s)[s.browser.read].Ready?
    && WrittenTo(s)[s.browser.read].latest <= MAX_SAFE_INTEGER
  }

  predicate Replaces<E>(ready: Payload<E>)
    requires ready.Ready?
  {
    ready.resync || !ready.resumed
  }

  /**
   Receiving SESSION_READY in any run.  It fills every gap up to the sequence it names
   exactly when it replaces the history, or the cursor announced for it is no further than
   the browser's own (which was reset if the inbox was flooded).  A resumed session without
   a resync keeps everything that was on the page; any other starts over from the oldest
   event the room retains, or at `latest` when it retains none.
   */
  lemma ReadyRecovers<E>(maximum: nat, steps: seq<Step<E>>)
    requires Runs(Initial<E>(maximum), steps)
    requires ReadyArrives(Run(Initial<E>(maximum), steps))
    ensures var s := Run(Initial<E>(maximum), steps);
      var ready, before, browser := WrittenTo(s)[s.browser.read], s.browser.screen, Apply(s, Receive).browser;
      var after, length := browser.screen, s.track.snapshotAt;
      var oldest := length - Min(length, s.server.maximum);
      && ready.latest <= length <= |s.server.log|
      && (!Replaces(ready) ==> after.base == before.base && Page(s.browser) <= Page(browser))
      && (Replaces(ready) ==>
            && Page(browser) == after.rendered
            && after.base == if oldest < length && oldest < MAX_SAFE_INTEGER then oldest else ready.latest)
      && ((forall q: nat :: after.base < q <= ready.latest ==> Settled(after, q)) <==>
            Replaces(ready) || s.track.cursor <= before.cursor.highest || ready.latest <= before.cursor.highest)
      && (s.browser.connection.Handshaking? ==> Replaces(ready) || s.track.cursor == before.cursor.highest)
      && (forall q: nat :: Settled(after, q) <==> ShownOnce(after.rendered, s.server.log, q))
  {
    hide Runs, Run, Faithful, ShownOnce, SocketInv, BrowserInv, OrderInv, Durables, RenderAll, Reconcile, Genuine,
         Distinct, Snapshot, Discipline;
    EveryRunKeepsScreen(maximum, steps);
    var s := Run(Initial<E>(maximum), steps);
    WireIsGenuine(s);
    ReadyDrains(ViewOf(s), SightOf(s));
    var ready, before, browser := WrittenTo(s)[s.browser.read], s.browser.screen, Apply(s, Receive).browser;
    var after := browser.screen;
    assert after == Drained(s.browser, ready);
    assert [] + after.rendered == after.rendered;
    assert !Replaces(ready) ==> Page(s.browser) <= Page(browser);
    forall q: nat ensures Settled(after, q) <==> ShownOnce(after.rendered, s.server.log, q) {
      ShownIsSettled(after, s.server.log, q);
    }
    SettledUpTo(after, s.server.log, ready.latest);
  }

  /**
   When a SESSION_READY taken in time makes the page show something twice: exactly when it
   leaves the history and the older part of the page holds an event above the cursor.
   */
  lemma RepeatsIffCursorIsBehind<E>(maximum: nat, steps: seq<Step<E>>)
    requires Runs(Initial<E>(maximum), steps)
    requires var s := Run(Initial<E>(maximum), steps);
      ReadyArrives(s) && s.browser.connection.Handshaking? && Distinct(Page(s.browser))
    ensures var s := Run(Initial<E>(maximum), steps);
      var ready, kept := WrittenTo(s)[s.browser.read], s.browser.kept;
      Distinct(Page(Apply(s, Receive).browser)) <==>
        Replaces(ready) || forall i :: 0 <= i < |kept| ==> kept[i].sequence <= s.browser.screen.cursor.highest
  {
    hide Runs, Run, Faithful, SocketInv, BrowserInv, OrderInv, Durables, RenderAll, Reconcile, Genuine, Distinct,
         Discipline, Snapshot;
    EveryRunKeepsScreen(maximum, steps);
    var s := Run(Initial<E>(maximum), steps);
    WireIsGenuine(s);
    ReadyDrains(ViewOf(s), SightOf(s));
    var ready, before, kept := WrittenTo(s)[s.browser.read], s.browser.screen, s.browser.kept;
    var browser := Apply(s, Receive).browser;
    assert browser.screen == Drained(s.browser, ready);
    PageIsDistinct(kept, before, s.server.log);
    PageIsDistinct(browser.kept, browser.screen, s.server.log);
    if Replaces(ready) {
      NothingKept(s.server.log);
    } else {
      assert Upto(kept, ready.latest);
      RepeatedIsAbove(kept, before, browser.screen, s.server.log, ready.latest);
    }
  }

  lemma RepeatedIsAbove<E>(kept: seq<Entry<E>>, before: Screen<E>, after: Screen<E>, log: seq<E>, latest: nat)
    requires Faithful(before, log) && Faithful(after, log) && after.base == before.base
    requires before.cursor.highest <= after.cursor.highest && latest <= after.cursor.highest
    requires Upto(kept, latest) && forall i :: 0 <= i < |kept| ==> !Settled(before, kept[i].sequence)
    ensures (forall i :: 0 <= i < |kept| ==> !Settled(after, kept[i].sequence))
       <==> (forall i :: 0 <= i < |kept| ==> kept[i].sequence <= before.cursor.highest)
  {
    HighestIsPublished(before, log);
    forall i | 0 <= i < |kept|
      ensures Settled(after, kept[i].sequence) <==> kept[i].sequence > before.cursor.highest
    {
      hide Shown, Distinct, Genuine;
    }
  }
}
