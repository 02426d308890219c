/**
 The way back: from whatever state a run has reached, some continuation brings the browser
 online with the room's retained history on the page, and then shows the next event.
 */
module CatchUp {
  import opened Wrappers
  import opened SessionReliability
  import opened RoomLog
  import opened ClientReliability
  import opened ResumeProtocol
  import opened ResumeInvariants
  import opened FloodedInbox
  import Out = OutboundQueue

  // ---------- The server's publication and the browser's session are let go ----------

  /** The publication has copied the peers, if it is under way. */
  lemma Collects<E(!new)>(s: System<E>, t: System<E>) returns (u: System<E>)
    requires LeadsTo(s, t)
    ensures LeadsTo(s, u) && !u.server.publication.Appended?
    ensures u == t.(server := t.server.(publication := u.server.publication))
  {
    u := t;
    if t.server.publication.Appended? {
      LeadsOn(s, t, CollectPeers);
      u := Apply(t, CollectPeers);
    }
  }

  /** A refused browser has no session. */
  lemma Forgets<E(!new)>(s: System<E>, t: System<E>) returns (u: System<E>)
    requires LeadsTo(s, t)
    ensures LeadsTo(s, u) && u.browser.stored.None? && u.server == t.server
  {
    hide LeadsTo, RestoreCursor;
    u := t;
    if t.browser.stored.Some? {
      var stored := t.browser.stored.value;
      var hello := Hello(t.nextSocket, Some(stored.session), stored.cursor);
      LeadsOn(s, t, Connect);
      var a := Apply(t, Connect);
      LeadsOn(s, a, Refuse(hello));
      var b := Apply(a, Refuse(hello));
      LeadsOn(s, b, ReceiveRefusal);
      u := Apply(b, ReceiveRefusal);
    }
  }

  /** A browser without a session connects and is let in, and its peer is all new. */
  lemma Enters<E(!new)>(s: System<E>, t: System<E>) returns (u: System<E>)
    requires LeadsTo(s, t) && t.browser.stored.None? && !t.server.publication.Appended?
    ensures LeadsTo(s, u) && Quiet(u) && u.server.greeting == Joining(Hello(u.browser.socket, None, 0))
    ensures u.server.log == t.server.log && u.server.maximum == t.server.maximum && u.server.inRoom
    ensures !u.server.leased && !u.server.detaching && u.server.publication.NoPublication?
    ensures u.browser.connection.Handshaking? && u.browser.inbox == []
  {
    hide LeadsTo, RestoreCursor;
    var hello := Hello(t.nextSocket, None, 0);
    LeadsOn(s, t, Connect);
    var a := Apply(t, Connect);
    LeadsOn(s, a, AcceptFresh(hello));
    u := Apply(a, AcceptFresh(hello));
    if !u.server.publication.NoPublication? {
      LeadsOn(s, u, ReadTransport);
      u := Apply(u, ReadTransport);
    }
  }

  /** JOINED is published, to everyone else. */
  lemma Welcomes<E(!new)>(s: System<E>, t: System<E>, event: E) returns (u: System<E>)
    requires LeadsTo(s, t) && Quiet(t) && t.server.greeting.Joining? && t.server.publication.NoPublication?
    requires |t.server.log| < U64_MAX
    ensures LeadsTo(s, u) && Quiet(u) && u.browser == t.browser
    ensures u.server == t.server.(log := t.server.log + [event], greeting := Attached(t.server.greeting.hello))
  {
    hide LeadsTo;
    LeadsOn(s, t, BeginWelcome(event));
    var a := Apply(t, BeginWelcome(event));
    LeadsOn(s, a, CollectPeers);
    var b := Apply(a, CollectPeers);
    LeadsOn(s, b, ReadTransport);
    var c := Apply(b, ReadTransport);
    LeadsOn(s, c, EndWelcome);
    u := Apply(c, EndWelcome);
  }

  // ---------- What the page shows ----------

  /** SESSION_READY of a new session puts the retained history on the page. */
  lemma FreshShows<E>(screen: Screen<E>, log: seq<E>, maximum: nat)
    requires |log| <= MAX_SAFE_INTEGER && log != []
    ensures var replay, shown := Replay(log, maximum, 0), Reconcile(screen, Replay(log, maximum, 0).1, true, |log|);
      shown.cursor == Cursor(|log|, {}) && shown.rendered == Retained(log, maximum)
  {
    hide Replay, RenderAll, Sequences;
    var from := StretchStart(|log|, maximum, 0);
    assert log[..|log|] == log;
    ReplayIsStretch(log, |log|, maximum, 0);
    ReplaceShows(log, from, |log|, |log|);
    var history := Numbered(log)[from..|log|];
    var base := SnapshotBase(Sequences(history), |log|);
    BaseOfStretch(log, from);
    RenderAllKeepsBase(Screen(Cursor(base, {}), base, []), history);
  }

  lemma BaseOfStretch<E>(log: seq<E>, from: nat)
    requires from <= |log| <= MAX_SAFE_INTEGER
    ensures SnapshotBase(Sequences(Numbered(log)[from..|log|]), |log|) == from
  {
    var history := Numbered(log)[from..|log|];
    if from < |log| {
      LeastOfStretch(Sequences(history), from);
    } else {
      assert Usable(Sequences(history)) == [];
    }
  }

  lemma {:induction false} RenderAllKeepsBase<E>(screen: Screen<E>, entries: seq<Entry<E>>)
    ensures RenderAll(screen, entries).base == screen.base
    decreases |entries|
  {
    if entries != [] {
      RenderAllKeepsBase(Render(screen, entries[0]), entries[1..]);
    }
  }

  /** The browser is online, has read everything, and the room is at rest. */
  ghost predicate Following<E>(s: System<E>) {
    && Quiet(s) && s.browser.connection.Online? && s.server.greeting.NoGreeting? && s.server.publication.NoPublication?
    && s.server.inRoom && !s.server.leased && !s.server.detaching
    && s.browser.screen.cursor == Cursor(|s.server.log|, {})
  }

  /** An event is published and queued. */
  lemma Publishes<E(!new)>(s: System<E>, t: System<E>, event: E) returns (u: System<E>)
    requires LeadsTo(s, t) && Following(t) && |t.server.log| < MAX_SAFE_INTEGER
    ensures LeadsTo(s, u)
    ensures var to, entry := t.track.binding.value, Entry(|t.server.log| + 1, event);
      && u.server == t.server.(log := t.server.log + [event], peer := Queued(t.server.peer, to, Durable(entry)))
      && u.browser == t.browser && u.track.binding == t.track.binding && CurrentBinding(t.server.peer) == Some(to)
  {
    hide LeadsTo;
    var to := t.track.binding.value;
    LeadsOn(s, t, BeginPublish(event));
    var a := Apply(t, BeginPublish(event));
    LeadsOn(s, a, CollectPeers);
    var b := Apply(a, CollectPeers);
    LeadsOn(s, b, ReadTransport);
    var c := Apply(b, ReadTransport);
    assert c.server.publication == Bound(Some(to));
    LeadsOn(s, c, QueueDurable(0));
    u := Apply(c, QueueDurable(0));
    QueuedBySend(t.server.peer, to, Durable(Entry(|t.server.log| + 1, event)));
  }

  /** And then it is written and rendered. */
  lemma Delivers<E(!new)>(s: System<E>, t: System<E>, event: E) returns (u: System<E>)
    requires LeadsTo(s, t) && Following(t) && |t.server.log| < MAX_SAFE_INTEGER
    ensures LeadsTo(s, u) && Following(u) && u.server.log == t.server.log + [event]
    ensures Page(u.browser) == Page(t.browser) + [Entry(|t.server.log| + 1, event)]
  {
    hide LeadsTo;
    var peer, to, entry := t.server.peer, t.track.binding.value, Entry(|t.server.log| + 1, event);
    var a := Publishes(s, t, event);
    Drains(s, a, peer, to, Durable(entry));
    var b := WithPeer(a, Written(peer, to, Durable(entry)));
    assert WrittenTo(b) == WrittenTo(t) + [Durable(entry)];
    LeadsOn(s, b, Receive);
    u := Apply(b, Receive);
    AcceptNext(t.browser.screen.cursor);
  }

  lemma {:induction false} RunKeepsMaximum<E>(s: System<E>, steps: seq<Step<E>>)
    requires Runs(s, steps)
    ensures Run(s, steps).server.maximum == s.server.maximum
    decreases |steps|
  {
    if steps != [] {
      RunKeepsMaximum(Apply(s, steps[0]), steps[1..]);
    }
  }

  /**
   From every state of every run some continuation lets the browser in as a new session, puts
   exactly the history that the room retains on the page, and shows the event after that.
   */
  lemma BrowserCanCatchUp<E(!new)>(maximum: nat, steps: seq<Step<E>>, joined: E, event: E)
    requires Runs(Initial<E>(maximum), steps)
    requires |Run(Initial<E>(maximum), steps).server.log| + 2 <= MAX_SAFE_INTEGER
    ensures var s := Run(Initial<E>(maximum), steps); var log := s.server.log + [joined];
      exists more :: Runs(s, more) && var t := Run(s, more);
        && t.browser.connection.Online? && t.server.log == log + [event]
        && Page(t.browser) == Retained(log, maximum) + [Entry(|log| + 1, event)]
  {
    hide Runs, Run, Quiet, Reconcile, Replay, Retained;
    var s := Run(Initial<E>(maximum), steps);
    RunKeepsMaximum(Initial<E>(maximum), steps);
    LeadsNowhere(s);
    var a := Collects(s, s);
    var b := Forgets(s, a);
    var c := Enters(s, b);
    var d := Welcomes(s, c, joined);
    var e := Readies(s, d);
    FreshShows(d.browser.screen, d.server.log, d.server.maximum);
    var f := Delivers(s, e, event);
  }
}
