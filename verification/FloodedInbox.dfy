/**
 A page that shows an event twice: the handshake inbox of a resuming browser overflows, the
 SESSION_READY that follows on the same socket is applied to the cursor that was reset, and
 the next resume replays what the page still shows.
 */
module FloodedInbox {
  import opened Wrappers
  import opened SessionReliability
  import opened RoomLog
  import opened ClientReliability
  import opened ResumeProtocol
  import opened ResumeInvariants
  import Out = OutboundQueue

  // ---------- Runs put together ----------

  ghost predicate LeadsTo<E(!new)>(s: System<E>, t: System<E>) {
    exists steps: seq<Step<E>> :: Runs(s, steps) && Run(s, steps) == t
  }

  lemma LeadsNowhere<E(!new)>(s: System<E>)
    ensures LeadsTo(s, s)
  {
    var none: seq<Step<E>> := [];
    assert Runs(s, none) && Run(s, none) == s;
  }

  lemma {:induction false} RunsOn<E>(s: System<E>, steps: seq<Step<E>>, step: Step<E>)
    requires Runs(s, steps) && Enabled(Run(s, steps), step)
    ensures Runs(s, steps + [step]) && Run(s, steps + [step]) == Apply(Run(s, steps), step)
    decreases |steps|
  {
    hide Enabled, Apply;
    if steps == [] {
      assert [step][1..] == [];
      assert [] + [step] == [step];
    } else {
      RunsOn(Apply(s, steps[0]), steps[1..], step);
      assert (steps + [step])[1..] == steps[1..] + [step];
    }
  }

  lemma LeadsOn<E(!new)>(s: System<E>, t: System<E>, step: Step<E>)
    requires LeadsTo(s, t) && Enabled(t, step)
    ensures LeadsTo(s, Apply(t, step))
  {
    hide Enabled, Apply, Runs, Run;
    var steps :| Runs(s, steps) && Run(s, steps) == t;
    RunsOn(s, steps, step);
  }

  // ---------- Frames delivered one by one ----------

  /** The browser has read everything ever queued for its socket. */
  ghost predicate Quiet<E>(s: System<E>) {
    var peer := s.server.peer;
    && peer.queue == Out.EmptyQueue() && peer.workers == [] && peer.dead == {}
    && s.track.binding.Some? && s.track.binding == CurrentBinding(peer)
    && s.browser.read == |WrittenTo(s)|
  }

  /** The peer after a frame has been queued, and after it has been written. */
  function Queued<E>(peer: Out.Peer<Payload<E>>, to: Out.Binding, payload: Payload<E>): Out.Peer<Payload<E>> {
    peer.(queue := Out.Queue([Out.Frame(to, payload, 0)], 0, true), workers := [Out.Ready],
          sent := peer.sent[to := Out.At(peer.sent, to) + [payload]])
  }

  function Written<E>(peer: Out.Peer<Payload<E>>, to: Out.Binding, payload: Payload<E>): Out.Peer<Payload<E>> {
    peer.(sent := peer.sent[to := Out.At(peer.sent, to) + [payload]],
          wire := peer.wire[to := Out.At(peer.wire, to) + [payload]])
  }

  lemma QueuedBySend<E>(peer: Out.Peer<Payload<E>>, to: Out.Binding, payload: Payload<E>)
    requires peer.queue == Out.EmptyQueue() && peer.workers == [] && to.generation <= peer.fence.generation
    ensures Send(peer, to, payload, 0) == Queued(peer, to, payload)
    ensures Out.Apply(peer, Out.Send(to, payload, 0)) == Queued(peer, to, payload)
  {
  }

  function WithPeer<E>(s: System<E>, peer: Out.Peer<Payload<E>>): System<E> {
    s.(server := s.server.(peer := peer))
  }

  /** Take, check, write, and find the queue empty. */
  lemma Drains<E(!new)>(s: System<E>, t: System<E>, peer: Out.Peer<Payload<E>>, to: Out.Binding, payload: Payload<E>)
    requires LeadsTo(s, t) && t.server.peer == Queued(peer, to, payload)
    requires peer.queue == Out.EmptyQueue() && peer.workers == [] && peer.dead == {}
    requires CurrentBinding(peer) == Some(to)
    ensures LeadsTo(s, WithPeer(t, Written(peer, to, payload)))
  {
    hide LeadsTo;
    var frame, none := Out.Frame(to, payload, 0), Out.Queue([], 0, true);
    var p0 := Queued(peer, to, payload);
    var p1 := p0.(queue := none, workers := [Out.Taken(frame)]);
    var p2 := p1.(workers := [Out.Checked(frame)]);
    var p3 := p2.(workers := [Out.Ready], wire := peer.wire[to := Out.At(peer.wire, to) + [payload]]);
    LeadsOn(s, t, QueueStep(Out.Take(0)));
    assert Out.Apply(p0, Out.Take(0)) == p1;
    LeadsOn(s, WithPeer(t, p1), QueueStep(Out.Check(0)));
    assert Out.Apply(p1, Out.Check(0)) == p2;
    LeadsOn(s, WithPeer(t, p2), QueueStep(Out.Write(0)));
    assert Out.Apply(p2, Out.Write(0)) == p3;
    LeadsOn(s, WithPeer(t, p3), QueueStep(Out.Take(0)));
    assert Out.Apply(p3, Out.Take(0)) == Written(peer, to, payload);
  }

  // ---------- Phases ----------

  /** What the phases leave alone: the room, the session and the transport. */
  ghost predicate SameRoom<E>(s: System<E>, t: System<E>) {
    && t.server.maximum == s.server.maximum && t.server.log == s.server.log && t.server.session == s.server.session
    && t.server.publication == s.server.publication && t.nextSession == s.nextSession
    && t.server.inRoom == s.server.inRoom
    && !t.server.leased && !t.server.detaching
  }

  ghost predicate SameSocket<E>(s: System<E>, t: System<E>) {
    && t.browser.socket == s.browser.socket && t.nextSocket == s.nextSocket && t.hellos == s.hellos
    && t.server.peer.fence == s.server.peer.fence && t.track.binding == s.track.binding
  }

  /** One notice is queued, written and taken by the browser. */
  lemma Notice<E(!new)>(s: System<E>, t: System<E>) returns (u: System<E>)
    requires LeadsTo(s, t) && Quiet(t) && t.browser.connection.Handshaking?
    requires !t.server.leased && !t.server.detaching
    ensures LeadsTo(s, u) && Quiet(u) && SameRoom(t, u) && SameSocket(t, u)
    ensures u.server.greeting == t.server.greeting && u.browser.read == t.browser.read + 1
    ensures var browser := t.browser.(read := t.browser.read + 1);
      u.browser == if |t.browser.inbox| >= MAX_HANDSHAKE_INBOX
                   then GiveUp(browser).(connection := Backoff, inbox := [], flooded := true)
                   else browser.(inbox := browser.inbox + [Other])
  {
    hide LeadsTo, Runs, Run;
    var peer, to := t.server.peer, t.track.binding.value;
    LeadsOn(s, t, QueueOther(to, 0));
    QueuedBySend(peer, to, Other);
    var queued := Apply(t, QueueOther(to, 0));
    Drains(s, queued, peer, to, Other);
    var written := WithPeer(queued, Written(peer, to, Other));
    assert WrittenTo(written) == WrittenTo(t) + [Other];
    LeadsOn(s, written, Receive);
    u := Apply(written, Receive);
  }

  /** Notices up to the inbox's limit, and one more. */
  lemma {:induction false} Notices<E(!new)>(s: System<E>, t: System<E>, n: nat) returns (u: System<E>)
    requires LeadsTo(s, t) && Quiet(t) && t.browser.connection.Handshaking?
    requires !t.server.leased && !t.server.detaching && |t.browser.inbox| + n == MAX_HANDSHAKE_INBOX + 1
    ensures LeadsTo(s, u) && Quiet(u) && SameRoom(t, u) && SameSocket(t, u)
    ensures u.server.greeting == t.server.greeting
    ensures u.browser == GiveUp(t.browser).(read := u.browser.read, connection := Backoff, inbox := [], flooded := true)
    decreases n
  {
    hide LeadsTo, Quiet;
    u := Notice(s, t);
    if n > 1 {
      u := Notices(s, u, n - 1);
    }
  }

  /** The latest sequence is read and the snapshot taken. */
  lemma Snaps<E(!new)>(s: System<E>, t: System<E>) returns (u: System<E>)
    requires LeadsTo(s, t) && Quiet(t) && t.server.greeting.Attached?
    requires !t.server.leased && !t.server.detaching
    ensures LeadsTo(s, u) && Quiet(u) && SameRoom(t, u) && SameSocket(t, u) && u.browser == t.browser
    ensures var log, hello := t.server.log, t.server.greeting.hello;
      var replay := Replay(log, t.server.maximum, hello.cursor);
      u.server.greeting == Snapped(hello, |log|, replay.0, replay.1)
  {
    hide LeadsTo, Replay;
    LeadsOn(s, t, ReadLatest);
    LeadsOn(s, Apply(t, ReadLatest), TakeSnapshot);
    u := Apply(Apply(t, ReadLatest), TakeSnapshot);
  }

  /** SESSION_READY is queued and written. */
  lemma WritesReady<E(!new)>(s: System<E>, t: System<E>) returns (u: System<E>)
    requires LeadsTo(s, t) && Quiet(t) && t.server.greeting.Snapped?
    requires !t.server.leased && !t.server.detaching
    ensures LeadsTo(s, u) && SameRoom(t, u) && SameSocket(t, u) && u.browser == t.browser && u.track == t.track
    ensures u.server.greeting.NoGreeting? && u.track.binding.Some? && u.track.binding == CurrentBinding(u.server.peer)
    ensures u.server.peer.queue == Out.EmptyQueue() && u.server.peer.workers == [] && u.server.peer.dead == {}
    ensures var greeting := t.server.greeting;
      WrittenTo(u) == WrittenTo(t) + [Ready(t.server.session, greeting.hello.session.Some?, greeting.latest,
                                            greeting.resync, greeting.history)]
  {
    hide LeadsTo, Replay;
    var peer, to, greeting := t.server.peer, t.track.binding.value, t.server.greeting;
    var ready :=
      Ready(t.server.session, greeting.hello.session.Some?, greeting.latest, greeting.resync, greeting.history);
    LeadsOn(s, t, QueueReady(0));
    QueuedBySend(peer, to, ready);
    Drains(s, Apply(t, QueueReady(0)), peer, to, ready);
    u := WithPeer(Apply(t, QueueReady(0)), Written(peer, to, ready));
  }

  /** The greeting goes on to SESSION_READY, and the browser takes it. */
  lemma Readies<E(!new)>(s: System<E>, t: System<E>) returns (u: System<E>)
    requires LeadsTo(s, t) && Quiet(t) && (t.browser.connection.Handshaking? || t.browser.connection.Backoff?)
    requires t.server.greeting.Attached? && t.browser.inbox == []
    requires !t.server.leased && !t.server.detaching
    ensures LeadsTo(s, u) && Quiet(u) && SameRoom(t, u) && SameSocket(t, u) && u.server.greeting.NoGreeting?
    ensures var log, hello := t.server.log, t.server.greeting.hello;
      var replay := Replay(log, t.server.maximum, hello.cursor);
      var replace := replay.0 || hello.session.None?;
      var screen := Reconcile(t.browser.screen, replay.1, replace, |log|);
      u.browser == t.browser.(
        read := u.browser.read, connection := Online, kept := if replace then [] else t.browser.kept, screen := screen,
        stored := Some(Stored(t.server.session, screen.cursor.highest)), flooded := t.browser.flooded && !replace)
  {
    hide LeadsTo, Replay, Reconcile;
    var snapped := Snaps(s, t);
    var written := WritesReady(s, snapped);
    LeadsOn(s, written, Receive);
    u := Apply(written, Receive);
    assert RenderAll(u.browser.screen, []) == u.browser.screen;
  }

  /** The transport is detached and the lease starts. */
  lemma Detaches<E(!new)>(s: System<E>, t: System<E>) returns (u: System<E>)
    requires LeadsTo(s, t) && Quiet(t) && t.server.greeting.NoGreeting?
    requires !t.server.leased && !t.server.detaching && t.track.binding.value.socket == t.browser.socket
    ensures LeadsTo(s, u)
    ensures var peer := t.server.peer;
      u == t.(server := t.server.(peer := peer.(fence := Fence(None, peer.fence.generation)), leased := true))
  {
    hide LeadsTo;
    LeadsOn(s, t, DetachSocket(t.browser.socket));
    LeadsOn(s, Apply(t, DetachSocket(t.browser.socket)), StartLease);
    u := Apply(Apply(t, DetachSocket(t.browser.socket)), StartLease);
  }

  /** The connection breaks, and the browser's next one resumes the session. */
  lemma Resumes<E(!new)>(s: System<E>, t: System<E>) returns (u: System<E>)
    requires LeadsTo(s, t) && Quiet(t) && Inv(t) && t.server.greeting.NoGreeting?
    requires !t.server.leased && !t.server.detaching
    requires t.browser.stored == Some(Stored(t.server.session, t.browser.screen.cursor.highest))
    ensures LeadsTo(s, u) && Quiet(u) && SameRoom(t, u) && u.server.greeting.Attached?
    ensures u.server.greeting.hello.session.Some?
    ensures u.server.greeting.hello.cursor == t.browser.screen.cursor.highest
    ensures u.browser == t.browser.(connection := Handshaking, socket := u.browser.socket, read := 0, inbox := [],
                                    refused := false)
  {
    hide LeadsTo, TrackInv, BrowserInv, OrderInv, Discipline;
    var hello := Hello(t.nextSocket, Some(t.server.session), t.browser.screen.cursor.highest);
    NothingAhead(t.server.peer, Out.Binding(t.nextSocket, t.server.peer.fence.generation + 1));
    var b := Detaches(s, t);
    LeadsOn(s, b, Connect);
    var c := Apply(b, Connect);
    LeadsOn(s, c, ResumeLease(hello));
    var d := Apply(c, ResumeLease(hello));
    LeadsOn(s, d, BindSocket);
    u := Apply(d, BindSocket);
  }

  lemma NothingAhead<E>(peer: Out.Peer<Payload<E>>, binding: Out.Binding)
    requires Out.Inv(peer) && binding.generation > peer.fence.generation
    ensures Out.At(peer.wire, binding) == []
  {
    assert Out.BindingInv(peer, binding);
  }

  // ---------- The run ----------

  lemma ReachedInv<E(!new)>(maximum: nat, t: System<E>)
    requires LeadsTo(Initial<E>(maximum), t)
    ensures Inv(t)
  {
    hide Inv, Runs, Run;
    var steps :| Runs(Initial<E>(maximum), steps) && Run(Initial<E>(maximum), steps) == t;
    InitialInv<E>(maximum);
    RunKeepsInv(Initial<E>(maximum), steps);
  }

  /** The browser joins; the only event so far tells of that. */
  lemma Joins<E(!new)>(maximum: nat, event: E) returns (u: System<E>)
    ensures var s := Initial<E>(maximum);
      LeadsTo(s, u) && Quiet(u) && u.server.greeting == Attached(Hello(1, None, 0))
    ensures !u.server.leased && !u.server.detaching && u.server.log == [event] && u.server.maximum == maximum
    ensures u.browser == Browser(Handshaking, 1, 0, [], false, [], EmptyScreen(), None, false)
  {
    hide LeadsTo;
    var s := Initial<E>(maximum);
    LeadsNowhere(s);
    LeadsOn(s, s, Connect);
    var a, hello := Apply(s, Connect), Hello(1, None, 0);
    LeadsOn(s, a, AcceptFresh(hello));
    var b := Apply(a, AcceptFresh(hello));
    LeadsOn(s, b, BeginWelcome(event));
    var c := Apply(b, BeginWelcome(event));
    LeadsOn(s, c, CollectPeers);
    var d := Apply(c, CollectPeers);
    LeadsOn(s, d, ReadTransport);
    var e := Apply(d, ReadTransport);
    LeadsOn(s, e, EndWelcome);
    u := Apply(e, EndWelcome);
  }

  /**
   In a room that retains anything, some run ends with a page that shows its only event
   twice: a resuming browser's inbox overflows before SESSION_READY.
   */
  lemma PageCanRepeat<E(!new)>(maximum: nat, event: E)
    requires maximum > 0
    ensures exists steps ::
      && Runs(Initial<E>(maximum), steps)
      && Page(Run(Initial<E>(maximum), steps).browser) == [Entry(1, event), Entry(1, event)]
  {
    hide Runs, Run, Inv, Reconcile, Replay, Quiet;
    var s, one := Initial<E>(maximum), Entry(1, event);
    OneEvent(maximum, event);
    var a := Joins(maximum, event);
    var b := Readies(s, a);
    ReachedInv(maximum, b);
    var c := Resumes(s, b);
    var d := Notices(s, c, MAX_HANDSHAKE_INBOX + 1);
    var e := Readies(s, d);
    ReachedInv(maximum, e);
    var f := Resumes(s, e);
    var g := Readies(s, f);
    assert Page(g.browser) == [one, one];
  }

  /** What SESSION_READY does to the page with one event in the log. */
  lemma OneEvent<E>(maximum: nat, event: E)
    requires maximum > 0
    ensures Replay([event], maximum, 0) == (false, [Entry(1, event)])
    ensures Replay([event], maximum, 1) == (false, [])
    ensures var shown := Screen(Cursor(1, {}), 0, [Entry(1, event)]);
      Reconcile(EmptyScreen(), [Entry(1, event)], true, 1) == shown
      && Reconcile(EmptyScreen(), [Entry(1, event)], false, 1) == shown
    ensures Reconcile<E>(EmptyScreen(), [], false, 1) == EmptyScreen()
  {
    hide Replay, Retained;
    ReplayIsExact([event], maximum, 0);
    ReplayIsExact([event], maximum, 1);
    assert Numbered([event]) == [Entry(1, event)];
    RendersOne(event);
    LeastOfStretch(Sequences([Entry(1, event)]), 0);
  }

  lemma RendersOne<E>(event: E)
    ensures RenderAll(EmptyScreen(), [Entry(1, event)]) == Screen(Cursor(1, {}), 0, [Entry(1, event)])
  {
    AcceptNext(Cursor(0, {}));
    assert Render(EmptyScreen(), Entry(1, event)) == Screen(Cursor(1, {}), 0, [Entry(1, event)]);
    assert RenderAll(Screen(Cursor(1, {}), 0, [Entry(1, event)]), []) == Screen(Cursor(1, {}), 0, [Entry(1, event)]);
  }
}
