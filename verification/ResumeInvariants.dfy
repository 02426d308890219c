/**
 What every run of the resume protocol keeps, and the results that follow from it:
 a greeted transport misses no event, and the browser shows a gapless copy of the log.
 */
module ResumeInvariants {
  import opened Wrappers
  import opened SessionReliability
  import opened RoomLog
  import opened ClientReliability
  import opened ResumeProtocol
  import Out = OutboundQueue

  // ---------- The server's own discipline ----------

  /**
   A lease runs only while no transport is bound, one hello at a time is being greeted,
   and while it is, its socket is bound as soon as the lease is taken back.
   */
  ghost predicate Discipline<E>(server: Server<E>) {
    var current := server.peer.fence.current;
    && (server.publication != NoPublication ==> server.log != [])
    && (server.publication.Bound? && server.publication.binding.Some?
        ==> server.publication.binding.value.generation <= server.peer.fence.generation)
    && (server.publication.Collected? && server.publication.included ==> !server.publication.own)
    && (OwnPublication(server.publication) ==> server.greeting.Welcoming?)
    && (!server.greeting.NoGreeting? ==> server.inRoom && !server.leased && !server.detaching)
    && (server.greeting.Resuming? ==> current.None?)
    && (!server.greeting.NoGreeting? && !server.greeting.Resuming? ==> current == Some(server.greeting.hello.socket))
    && (server.leased || server.detaching ==> current.None? && server.inRoom)
    && !(server.leased && server.detaching)
    && (current.Some? ==> server.inRoom)
  }

  ghost predicate ServerInv<E>(server: Server<E>) {
    Discipline(server) && Out.Inv(server.peer)
  }

  /** The browser's own steps do not touch the server. */
  predicate IsBrowserStep<E>(step: Step<E>) {
    step.Connect? || step.Disconnect? || step.Receive? || step.ReceiveRefusal? || step.Reload? || step.Refuse?
  }

  lemma BrowserLeavesServer<E>(s: System<E>, step: Step<E>)
    requires Enabled(s, step) && IsBrowserStep(step)
    ensures Apply(s, step).server == s.server
  {
  }

  lemma DisciplineStep<E>(s: System<E>, step: Step<E>)
    requires Discipline(s.server) && Enabled(s, step)
    ensures Discipline(Apply(s, step).server)
  {
    hide OnMessage, Unplug, DoConnect;
    if IsBrowserStep(step) {
      BrowserLeavesServer(s, step);
    }
  }

  lemma SendKeepsInv<E>(peer: Out.Peer<Payload<E>>, binding: Out.Binding, payload: Payload<E>, size: nat)
    requires Out.Inv(peer)
    ensures Out.Inv(Send(peer, binding, payload, size))
  {
    if binding.generation <= peer.fence.generation {
      Out.StepKeepsInv(peer, Out.Send(binding, payload, size));
    }
  }

  lemma PeerStep<E>(s: System<E>, step: Step<E>)
    requires Out.Inv(s.server.peer) && Enabled(s, step)
    ensures Out.Inv(Apply(s, step).server.peer)
  {
    var peer, t := s.server.peer, Apply(s, step);
    if step.QueueDurable? {
      if s.server.publication.binding.Some? {
        SendKeepsInv(peer, s.server.publication.binding.value, Durable(LastEntry(s.server.log)), step.size);
      }
    } else if step.QueueOther? {
      Out.StepKeepsInv(peer, Out.Send(step.binding, Other, step.size));
    } else if step.QueueStep? {
      Out.StepKeepsInv(peer, step.step);
    } else if step.AcceptFresh? {
      Out.NewPeerInv<Payload<E>>();
      Out.StepKeepsInv(Out.NewPeer<Payload<E>>(), Out.Replace(step.hello.socket));
    } else if step.BindSocket? {
      Out.StepKeepsInv(peer, Out.Replace(s.server.greeting.hello.socket));
    } else if step.QueueReady? {
      var greeting := s.server.greeting;
      if CurrentBinding(peer).Some? {
        SendKeepsInv(peer, CurrentBinding(peer).value,
          Ready(s.server.session, greeting.hello.session.Some?, greeting.latest, greeting.resync, greeting.history), step.size);
      }
    } else if step.DetachSocket? {
      Out.StepKeepsInv(peer, Out.Detach(step.socket));
    } else {
      assert t.server.peer == peer;
    }
  }

  // ---------- Sockets are used once ----------

  ghost predicate SocketInv<E>(s: System<E>) {
    var greeting := s.server.greeting;
    var fence := s.server.peer.fence;
    && s.server.session < s.nextSession
    && s.browser.socket < s.nextSocket
    && (forall h :: h in s.hellos ==> h.socket < s.nextSocket && !Greets(greeting, h.socket))
    && (forall h, k :: h in s.hellos && k in s.hellos && h.socket == k.socket ==> h == k)
    && (!greeting.NoGreeting? ==> greeting.hello.socket < s.nextSocket)
    && (fence.current.Some? ==> fence.current.value < s.nextSocket)
    && (fence.current == Some(s.browser.socket) ==> s.track.binding == CurrentBinding(s.server.peer))
    && (s.track.binding.Some? ==>
          && s.track.binding.value.socket == s.browser.socket
          && s.track.binding.value.generation <= fence.generation
          && (forall h :: h in s.hellos ==> h.socket != s.browser.socket)
          && !(greeting.Resuming? && Greets(greeting, s.browser.socket)))
    && (s.track.binding.None? ==> s.track == UNTRACKED)
    && (s.browser.connection.Offline? || s.browser.refused ==>
          && s.track.binding.None?
          && !Greets(greeting, s.browser.socket)
          && (forall h :: h in s.hellos ==> h.socket != s.browser.socket))
  }

  /** The parts of the state that sockets and hellos are about. */
  ghost predicate SameSockets<E>(s: System<E>, t: System<E>) {
    && t.hellos <= s.hellos
    && t.nextSocket == s.nextSocket
    && t.nextSession == s.nextSession
    && t.browser.socket == s.browser.socket
    && (t.browser.connection.Offline? ==> s.browser.connection.Offline?)
    && (t.browser.refused ==> s.browser.refused)
    && t.track.binding == s.track.binding
    && (t.track.binding.None? ==> t.track == s.track)
    && t.server.session == s.server.session
    && (t.server.peer.fence == s.server.peer.fence || t.server.peer.fence == Fence(None, s.server.peer.fence.generation))
    && (t.server.greeting.NoGreeting?
        || (!s.server.greeting.NoGreeting?
            && t.server.greeting.hello == s.server.greeting.hello
            && (t.server.greeting.Resuming? ==> s.server.greeting.Resuming?)))
  }

  lemma SameSocketsKeep<E>(s: System<E>, t: System<E>)
    requires SocketInv(s) && SameSockets(s, t)
    ensures SocketInv(t)
  {
  }

  lemma UnplugKeepsSockets<E>(s: System<E>, browser: Browser<E>)
    requires SocketInv(s)
    ensures SocketInv(Unplug(s, browser))
  {
  }

  lemma ConnectKeepsSockets<E>(s: System<E>)
    requires SocketInv(s)
    ensures SocketInv(DoConnect(s))
  {
  }

  lemma FreshKeepsSockets<E>(s: System<E>, hello: Hello)
    requires SocketInv(s) && Enabled(s, AcceptFresh(hello))
    ensures SocketInv(DoAcceptFresh(s, hello))
  {
  }

  lemma BindKeepsSockets<E>(s: System<E>)
    requires ServerInv(s.server) && SocketInv(s) && Enabled(s, BindSocket)
    ensures SocketInv(DoBindSocket(s))
  {
  }

  lemma ResumeKeepsSockets<E>(s: System<E>, hello: Hello)
    requires ServerInv(s.server) && SocketInv(s) && Enabled(s, ResumeLease(hello))
    ensures SocketInv(Apply(s, ResumeLease(hello)))
  {
  }

  lemma BrowserKeepsSockets<E>(s: System<E>, step: Step<E>)
    requires SocketInv(s) && Enabled(s, step) && IsBrowserStep(step) && !step.Refuse?
    ensures SocketInv(Apply(s, step))
  {
    hide SocketInv, OnMessage, Unplug, DoConnect;
    match step {
      case Connect => ConnectKeepsSockets(s);
      case Disconnect => UnplugKeepsSockets(s, s.browser);
      case Receive =>
        ReceiveSameSockets(s);
        SameSocketsKeep(s, Apply(s, Receive));
      case ReceiveRefusal => UnplugKeepsSockets(s, GiveUp(s.browser));
      case Reload => UnplugKeepsSockets(s, s.browser.(kept := [], screen := EmptyScreen(), flooded := false));
    }
  }

  /** Nothing is ever bound to a socket whose hello was refused. */
  lemma RefuseKeepsSockets<E>(s: System<E>, hello: Hello)
    requires SocketInv(s) && Enabled(s, Refuse(hello))
    ensures SocketInv(Apply(s, Refuse(hello)))
  {
  }

  lemma SocketStep<E>(s: System<E>, step: Step<E>)
    requires ServerInv(s.server) && SocketInv(s) && Enabled(s, step)
    ensures SocketInv(Apply(s, step))
  {
    hide SocketInv, SameSockets, ServerInv, OnMessage, Unplug, DoConnect, DoAcceptFresh, DoBindSocket, DoQueueDurable,
         DoQueueReady, DoReadLatest, DoTakeSnapshot, Send, Out.Apply;
    if IsBrowserStep(step) && !step.Refuse? {
      BrowserKeepsSockets(s, step);
    } else if step.AcceptFresh? {
      FreshKeepsSockets(s, step.hello);
    } else if step.ResumeLease? {
      ResumeKeepsSockets(s, step.hello);
    } else if step.BindSocket? {
      BindKeepsSockets(s);
    } else if step.Refuse? {
      RefuseKeepsSockets(s, step.hello);
    } else {
      if step.QueueDurable? || step.QueueOther? || step.QueueStep? || step.QueueReady? || step.DetachSocket? {
        QueueingKeepsSockets(s, step);
      } else {
        RoomKeepsSockets(s, step);
      }
      SameSocketsKeep(s, Apply(s, step));
    }
  }

  lemma QueueingKeepsSockets<E>(s: System<E>, step: Step<E>)
    requires Enabled(s, step)
    requires step.QueueDurable? || step.QueueOther? || step.QueueStep? || step.QueueReady? || step.DetachSocket?
    ensures SameSockets(s, Apply(s, step))
  {
  }

  lemma RoomKeepsSockets<E>(s: System<E>, step: Step<E>)
    requires Enabled(s, step)
    requires step.BeginPublish? || step.CollectPeers? || step.ReadTransport? || step.BeginWelcome? || step.EndWelcome?
      || step.ReadLatest? || step.TakeSnapshot? || step.StartLease? || step.Expire?
    requires ServerInv(s.server) && SocketInv(s)
    ensures SameSockets(s, Apply(s, step))
  {
  }

  /** A message changes neither the server nor the browser's socket. */
  lemma ReceiveSameSockets<E>(s: System<E>)
    requires Enabled(s, Receive)
    ensures SameSockets(s, Apply(s, Receive))
  {
    hide Reconcile, Render, RenderAll, Durables;
  }

  // ---------- Sequences of payloads and growing logs ----------

  lemma DurablesCons<E>(payloads: seq<Payload<E>>)
    requires payloads != []
    ensures Durables(payloads)
         == (if payloads[0].Durable? then [payloads[0].entry] else []) + Durables(payloads[1..])
  {
  }

  lemma {:induction false} DurablesConcat<E>(a: seq<Payload<E>>, b: seq<Payload<E>>)
    ensures Durables(a + b) == Durables(a) + Durables(b)
  {
    if a == [] {
      assert a + b == b;
    } else {
      DurablesConcat(a[1..], b);
      DurablesConcatNext(a, b);
    }
  }

  lemma DurablesConcatNext<E>(a: seq<Payload<E>>, b: seq<Payload<E>>)
    requires a != [] && Durables(a[1..] + b) == Durables(a[1..]) + Durables(b)
    ensures Durables(a + b) == Durables(a) + Durables(b)
  {
    hide Durables;
    assert (a + b)[1..] == a[1..] + b;
    DurablesCons(a);
    DurablesCons(a + b);
  }

  lemma DurablesAppend<E>(a: seq<Payload<E>>, payload: Payload<E>)
    ensures Durables(a + [payload]) == Durables(a) + (if payload.Durable? then [payload.entry] else [])
  {
    DurablesConcat(a, [payload]);
    assert Durables([payload]) == (if payload.Durable? then [payload.entry] else []);
  }

  ghost predicate NoReady<E>(payloads: seq<Payload<E>>) {
    forall i :: 0 <= i < |payloads| ==> !payloads[i].Ready?
  }

  /** Every entry is the log's entry of its sequence. */
  ghost predicate Genuine<E>(entries: seq<Entry<E>>, log: seq<E>) {
    forall i :: 0 <= i < |entries| ==>
      0 < entries[i].sequence <= |log| && entries[i].event == log[entries[i].sequence - 1]
  }

  ghost predicate Increasing<E>(entries: seq<Entry<E>>) {
    forall i, j :: 0 <= i < j < |entries| ==> entries[i].sequence < entries[j].sequence
  }

  lemma LogGrows<E>(log: seq<E>, event: E, from: nat, to: nat)
    requires from <= to <= |log|
    ensures Numbered(log + [event])[from..to] == Numbered(log)[from..to]
  {
  }

  // ---------- The frames queued for the browser's transport ----------

  /** What the tracked frames depend on. */
  datatype View<+E> = View(
    track: Track,
    socket: nat,
    log: seq<E>,
    maximum: nat,
    session: nat,
    publication: Publication,
    greeting: Greeting<E>,
    live: bool,
    sent: seq<Payload<E>>)

  ghost predicate Live<E>(s: System<E>) {
    s.track.binding.Some? && Out.IsCurrent(s.server.peer, s.track.binding.value)
  }

  ghost function ViewOf<E>(s: System<E>): View<E>
    requires s.track.binding.Some?
  {
    View(s.track, s.browser.socket, s.server.log, s.server.maximum, s.server.session,
         s.server.publication, s.server.greeting, Live(s), SentTo(s))
  }

  ghost predicate Snapshot<E>(v: View<E>, latest: nat, resync: bool, history: seq<Entry<E>>) {
    && latest <= v.track.snapshotAt <= |v.log|
    && (resync, history) == Replay(v.log[..v.track.snapshotAt], v.maximum, v.track.cursor)
  }

  ghost predicate IsReady<E>(v: View<E>, ready: Payload<E>) {
    && ready.Ready?
    && ready.session == v.session
    && ready.resumed == v.track.resumed
    && v.track.mark == Some(ready.latest)
    && Snapshot(v, ready.latest, ready.resync, ready.history)
  }

  /** The sequence up to which events have been handed to every bound transport. */
  function HandedOut<E>(log: seq<E>, publication: Publication): int {
    if publication.NoPublication? then |log| else |log| - 1
  }

  /** A publication in flight will queue its frame for this binding. */
  ghost predicate Heading(publication: Publication, binding: Option<Out.Binding>) {
    match publication
    case NoPublication => true
    case Appended(own) => !own
    case Collected(_, included) => included
    case Bound(to) => to == binding
  }

  ghost predicate Covered<E>(v: View<E>, mark: nat) {
    var reach, lost, log := v.track.reach, v.track.lost, v.log;
    && mark <= reach <= |log|
    && (reach <= mark || reach <= HandedOut(log, v.publication))
    && (!lost ==> Above(Durables(v.sent), mark) == Numbered(log)[mark..reach])
    && (v.live && !lost ==> reach >= HandedOut(log, v.publication))
    && (v.live && |log| > mark ==> Heading(v.publication, v.track.binding))
    && (!lost && v.publication == Bound(v.track.binding) && |log| > mark ==> reach + 1 >= |log|)
  }

  ghost predicate Tracked<E>(v: View<E>) {
    var greets := Greets(v.greeting, v.socket);
    && Genuine(Durables(v.sent), v.log)
    && (greets ==> v.greeting.hello.cursor == v.track.cursor && v.greeting.hello.session.Some? == v.track.resumed)
    && (greets || v.track.mark.None? ==> NoReady(v.sent))
    && (greets && !v.greeting.Measured? && !v.greeting.Snapped? ==> v.track.mark.None?)
    && (greets && v.greeting.Measured? ==> v.track.mark == Some(v.greeting.latest))
    && (greets && v.greeting.Snapped? ==>
          v.track.mark == Some(v.greeting.latest)
          && Snapshot(v, v.greeting.latest, v.greeting.resync, v.greeting.history))
    && (forall i :: 0 <= i < |v.sent| && v.sent[i].Ready? ==> IsReady(v, v.sent[i]))
    && (forall i, j :: 0 <= i < j < |v.sent| ==> !(v.sent[i].Ready? && v.sent[j].Ready?))
    && (v.track.mark.Some? ==> Covered(v, v.track.mark.value))
  }

  ghost predicate TrackInv<E>(s: System<E>) {
    s.track.binding.Some? ==> Tracked(ViewOf(s))
  }

  lemma PublishTracks<E>(v: View<E>, event: E, own: bool, greeting: Greeting<E>)
    requires Tracked(v) && v.publication.NoPublication?
    requires own ==> v.live ==> Greets(v.greeting, v.socket)
    requires own ==> v.greeting.Joining? && greeting == Welcoming(v.greeting.hello)
    requires !own ==> greeting == v.greeting
    ensures Tracked(v.(log := v.log + [event], publication := Appended(own), greeting := greeting))
  {
    var w := v.(log := v.log + [event], publication := Appended(own), greeting := greeting);
    if v.track.snapshotAt <= |v.log| {
      assert w.log[..v.track.snapshotAt] == v.log[..v.track.snapshotAt];
    }
    if v.track.mark.Some? {
      LogGrows(v.log, event, v.track.mark.value, v.track.reach);
    }
    forall i | 0 <= i < |v.sent| && v.sent[i].Ready? ensures IsReady(w, w.sent[i]) {
      assert IsReady(v, v.sent[i]);
    }
  }

  /** One more frame continues the covered stretch. */
  lemma CoverNext<E>(entries: seq<Entry<E>>, log: seq<E>, mark: nat, reach: nat)
    requires mark <= reach <= |log| && log != [] && Above(entries, mark) == Numbered(log)[mark..reach]
    requires |log| > mark ==> reach + 1 == |log|
    ensures Above(entries + [LastEntry(log)], mark) == Numbered(log)[mark..|log|]
  {
    var entry := LastEntry(log);
    AboveConcat(entries, [entry], mark);
    if |log| > mark {
      assert Above([entry], mark) == [entry];
      assert Numbered(log)[mark..|log|] == Numbered(log)[mark..|log| - 1] + [entry];
    }
  }

  lemma OurFrameTracks<E>(v: View<E>)
    requires Tracked(v) && v.log != [] && v.publication == Bound(v.track.binding)
    ensures Tracked(v.(publication := NoPublication,
                       track := v.track.(reach := Max(v.track.reach, |v.log|)),
                       sent := v.sent + [Durable(LastEntry(v.log))]))
  {
    hide Numbered, Retained, Above, Durables, Replay;
    DurablesAppend(v.sent, Durable(LastEntry(v.log)));
    var w := v.(publication := NoPublication,
                track := v.track.(reach := Max(v.track.reach, |v.log|)),
                sent := v.sent + [Durable(LastEntry(v.log))]);
    if v.track.mark.Some? && !v.track.lost {
      CoverNext(Durables(v.sent), v.log, v.track.mark.value, v.track.reach);
    }
    forall i | 0 <= i < |w.sent| && w.sent[i].Ready? ensures IsReady(w, w.sent[i]) {
      assert IsReady(v, v.sent[i]);
    }
  }

  lemma OtherFrameTracks<E>(v: View<E>)
    requires Tracked(v) && v.publication.Bound?
    requires v.publication.binding == v.track.binding ==> v.track.lost
    ensures Tracked(v.(publication := NoPublication))
  {
    var w := v.(publication := NoPublication);
    forall i | 0 <= i < |w.sent| && w.sent[i].Ready? ensures IsReady(w, w.sent[i]) {
      assert IsReady(v, v.sent[i]);
    }
  }

  lemma LostTracks<E>(v: View<E>)
    requires Tracked(v)
    ensures Tracked(v.(track := v.track.(lost := true)))
  {
    var w := v.(track := v.track.(lost := true));
    forall i | 0 <= i < |w.sent| && w.sent[i].Ready? ensures IsReady(w, w.sent[i]) {
      assert IsReady(v, v.sent[i]);
    }
  }

  lemma SendEffect<E>(peer: Out.Peer<Payload<E>>, to: Out.Binding, payload: Payload<E>, size: nat, binding: Out.Binding)
    requires to.generation <= peer.fence.generation
    ensures Send(peer, to, payload, size).fence == peer.fence
    ensures Out.At(Send(peer, to, payload, size).wire, binding) == Out.At(peer.wire, binding)
    ensures Out.At(Send(peer, to, payload, size).sent, binding)
         == Out.At(peer.sent, binding) + (if to == binding && !peer.queue.Overflows(size) then [payload] else [])
  {
  }

  lemma QueueDurableTracks<E>(s: System<E>, size: nat)
    requires Discipline(s.server) && TrackInv(s) && Enabled(s, QueueDurable(size))
    ensures TrackInv(DoQueueDurable(s, size))
  {
    if s.track.binding.Some? {
      var t, v, to := DoQueueDurable(s, size), ViewOf(s), s.server.publication.binding;
      if to.Some? {
        SendEffect(s.server.peer, to.value, Durable(LastEntry(v.log)), size, s.track.binding.value);
      }
      if to == s.track.binding && !s.server.peer.queue.Overflows(size) {
        OurFrameTracks(v);
      } else if to == s.track.binding {
        LostTracks(v);
        OtherFrameTracks(v.(track := v.track.(lost := true)));
      } else {
        OtherFrameTracks(v);
      }
      QueueDurableView(s, size);
    }
  }

  lemma QueueDurableView<E>(s: System<E>, size: nat)
    requires Enabled(s, QueueDurable(size)) && s.track.binding.Some?
    requires s.server.publication.binding.Some? ==>
      s.server.publication.binding.value.generation <= s.server.peer.fence.generation
    ensures var v, ours := ViewOf(s), s.server.publication.binding == s.track.binding;
      ViewOf(DoQueueDurable(s, size)) == v.(
        publication := NoPublication,
        track := if !ours then v.track
                 else if s.server.peer.queue.Overflows(size) then v.track.(lost := true)
                 else v.track.(reach := Max(v.track.reach, |v.log|)),
        sent := if ours && !s.server.peer.queue.Overflows(size) then v.sent + [Durable(LastEntry(v.log))] else v.sent)
  {
    var to := s.server.publication.binding;
    if to.Some? {
      SendEffect(s.server.peer, to.value, Durable(LastEntry(s.server.log)), size, s.track.binding.value);
    }
  }

  lemma ReadyTracks<E>(v: View<E>)
    requires Tracked(v) && v.greeting.Snapped? && Greets(v.greeting, v.socket)
    ensures Tracked(v.(greeting := NoGreeting,
                       sent := v.sent + [Ready(v.session, v.greeting.hello.session.Some?, v.greeting.latest,
                                               v.greeting.resync, v.greeting.history)]))
  {
    var ready := Ready(v.session, v.greeting.hello.session.Some?, v.greeting.latest, v.greeting.resync, v.greeting.history);
    DurablesAppend(v.sent, ready);
    assert Durables(v.sent + [ready]) == Durables(v.sent);
  }

  lemma GreetingEndTracks<E>(v: View<E>)
    requires Tracked(v)
    ensures Tracked(v.(greeting := NoGreeting))
  {
    var w := v.(greeting := NoGreeting);
    forall i | 0 <= i < |w.sent| && w.sent[i].Ready? ensures IsReady(w, w.sent[i]) {
      assert IsReady(v, v.sent[i]);
    }
  }

  lemma QueueReadyTracks<E>(s: System<E>, size: nat)
    requires Discipline(s.server) && SocketInv(s) && TrackInv(s) && Enabled(s, QueueReady(size))
    ensures TrackInv(DoQueueReady(s, size))
  {
    if s.track.binding.Some? {
      var t, v := DoQueueReady(s, size), ViewOf(s);
      if Greets(v.greeting, v.socket) && !s.server.peer.queue.Overflows(size) {
        ReadyTracks(v);
        assert ViewOf(t) == v.(greeting := NoGreeting, sent := ViewOf(t).sent);
      } else {
        GreetingEndTracks(v);
        assert ViewOf(t) == v.(greeting := NoGreeting);
      }
    }
  }

  lemma NewBindingTracks<E>(v: View<E>)
    requires v.sent == [] && v.track.mark.None?
    requires v.greeting.Joining? || v.greeting.Attached?
    requires v.track.cursor == v.greeting.hello.cursor && v.track.resumed == v.greeting.hello.session.Some?
    ensures Tracked(v)
  {
  }

  lemma MarkTracks<E>(v: View<E>)
    requires Tracked(v) && v.greeting.Attached? && Greets(v.greeting, v.socket)
    ensures Tracked(v.(greeting := Measured(v.greeting.hello, |v.log|),
                       track := v.track.(mark := Some(|v.log|), reach := |v.log|)))
  {
    AboveNone(Durables(v.sent), |v.log|);
  }

  lemma ElsewhereTracks<E>(v: View<E>, greeting: Greeting<E>, live: bool)
    requires Tracked(v) && !Greets(v.greeting, v.socket) && !Greets(greeting, v.socket) && (live ==> v.live)
    ensures Tracked(v.(greeting := greeting, live := live))
  {
    var w := v.(greeting := greeting, live := live);
    forall i | 0 <= i < |w.sent| && w.sent[i].Ready? ensures IsReady(w, w.sent[i]) {
      assert IsReady(v, v.sent[i]);
    }
  }

  lemma NotLiveTracks<E>(v: View<E>)
    requires Tracked(v)
    ensures Tracked(v.(live := false))
  {
    var w := v.(live := false);
    forall i | 0 <= i < |w.sent| && w.sent[i].Ready? ensures IsReady(w, w.sent[i]) {
      assert IsReady(v, v.sent[i]);
    }
  }

  lemma WelcomedTracks<E>(v: View<E>)
    requires Tracked(v) && v.greeting.Welcoming?
    ensures Tracked(v.(greeting := Attached(v.greeting.hello)))
  {
    var w := v.(greeting := Attached(v.greeting.hello));
    forall i | 0 <= i < |w.sent| && w.sent[i].Ready? ensures IsReady(w, w.sent[i]) {
      assert IsReady(v, v.sent[i]);
    }
  }

  lemma SnapshotTracks<E>(v: View<E>)
    requires Tracked(v) && v.greeting.Measured? && Greets(v.greeting, v.socket)
    ensures var replay := Replay(v.log, v.maximum, v.greeting.hello.cursor);
      Tracked(v.(greeting := Snapped(v.greeting.hello, v.greeting.latest, replay.0, replay.1),
                 track := v.track.(snapshotAt := |v.log|)))
  {
    assert v.log[..|v.log|] == v.log;
  }

  lemma HeadingTracks<E>(v: View<E>, publication: Publication)
    requires Tracked(v)
    requires match v.publication
      case Appended(own) => publication.Collected? && (v.live && !own ==> publication.included)
      case Collected(_, included) =>
        if included then publication.Bound? && (v.live ==> publication == Bound(v.track.binding))
                         && (publication == Bound(v.track.binding) ==> v.live)
        else publication.NoPublication?
      case _ => false
    ensures Tracked(v.(publication := publication))
  {
    var w := v.(publication := publication);
    forall i | 0 <= i < |w.sent| && w.sent[i].Ready? ensures IsReady(w, w.sent[i]) {
      assert IsReady(v, v.sent[i]);
    }
  }

  lemma TransientTracks<E>(v: View<E>)
    requires Tracked(v)
    ensures Tracked(v.(sent := v.sent + [Other]))
  {
    var w := v.(sent := v.sent + [Other]);
    DurablesAppend(v.sent, Other);
    assert Durables(w.sent) == Durables(v.sent);
    forall i | 0 <= i < |w.sent| && w.sent[i].Ready? ensures IsReady(w, w.sent[i]) {
      assert IsReady(v, v.sent[i]);
    }
  }

  lemma RoomTracks<E>(s: System<E>, step: Step<E>)
    requires Discipline(s.server) && SocketInv(s) && TrackInv(s) && Enabled(s, step)
    requires step.BeginPublish? || step.BeginWelcome? || step.CollectPeers? || step.ReadTransport?
    ensures TrackInv(Apply(s, step))
  {
    if s.track.binding.Some? {
      var t, v := Apply(s, step), ViewOf(s);
      match step {
        case BeginPublish(event) => PublishTracks(v, event, false, v.greeting);
        case BeginWelcome(event) => PublishTracks(v, event, true, Welcoming(v.greeting.hello));
        case CollectPeers => HeadingTracks(v, t.server.publication);
        case ReadTransport => HeadingTracks(v, t.server.publication);
      }
    }
  }

  lemma GreetingTracks<E>(s: System<E>, step: Step<E>)
    requires Discipline(s.server) && SocketInv(s) && TrackInv(s) && Enabled(s, step)
    requires step.EndWelcome? || step.ReadLatest? || step.TakeSnapshot? || step.ResumeLease?
    ensures TrackInv(Apply(s, step))
  {
    if s.track.binding.Some? {
      var t, v := Apply(s, step), ViewOf(s);
      if step.EndWelcome? {
        WelcomedTracks(v);
      } else if step.ResumeLease? || !Greets(v.greeting, v.socket) {
        ElsewhereTracks(v, t.server.greeting, v.live);
      } else if step.ReadLatest? {
        MarkTracks(v);
      } else {
        SnapshotTracks(v);
      }
    }
  }

  lemma BindTracks<E>(s: System<E>)
    requires ServerInv(s.server) && SocketInv(s) && TrackInv(s) && Enabled(s, BindSocket)
    ensures TrackInv(DoBindSocket(s))
  {
    var t := DoBindSocket(s);
    if s.server.greeting.hello.socket == s.browser.socket {
      assert Out.BindingInv(s.server.peer, t.track.binding.value);
      NewBindingTracks(ViewOf(t));
    } else if s.track.binding.Some? {
      ElsewhereTracks(ViewOf(s), t.server.greeting, false);
      assert !Live(t);
    }
  }

  lemma QueueTracks<E>(s: System<E>, step: Step<E>)
    requires TrackInv(s) && Enabled(s, step)
    requires step.QueueOther? || step.QueueStep? || step.DetachSocket?
    ensures TrackInv(Apply(s, step))
  {
    if s.track.binding.Some? {
      var t, v := Apply(s, step), ViewOf(s);
      if ViewOf(t).sent != v.sent {
        TransientTracks(v);
        assert ViewOf(t).sent == v.sent + [Other];
      } else if ViewOf(t).live != v.live {
        NotLiveTracks(v);
        assert ViewOf(t) == v.(live := false);
      }
    }
  }

  lemma ReceiveLeavesView<E>(s: System<E>)
    requires Enabled(s, Receive)
    ensures Apply(s, Receive).track.binding.Some? ==> s.track.binding.Some? && ViewOf(Apply(s, Receive)) == ViewOf(s)
  {
    hide Render, RenderAll, Reconcile, Durables;
  }

  lemma BrowserLeavesView<E>(s: System<E>, step: Step<E>)
    requires Enabled(s, step) && IsBrowserStep(step)
    ensures Apply(s, step).track.binding.Some? ==> s.track.binding.Some? && ViewOf(Apply(s, step)) == ViewOf(s)
  {
    hide OnMessage;
    if step.Receive? {
      ReceiveLeavesView(s);
    } else if !step.Refuse? {
      assert Apply(s, step).track == UNTRACKED;
    }
  }

  lemma TrackStep<E>(s: System<E>, step: Step<E>)
    requires ServerInv(s.server) && SocketInv(s) && TrackInv(s) && Enabled(s, step)
    ensures TrackInv(Apply(s, step))
  {
    hide OnMessage, Unplug, DoConnect;
    var t := Apply(s, step);
    if step.BeginPublish? || step.BeginWelcome? || step.CollectPeers? || step.ReadTransport? {
      RoomTracks(s, step);
    } else if step.EndWelcome? || step.ReadLatest? || step.TakeSnapshot? || step.ResumeLease? {
      GreetingTracks(s, step);
    } else if step.QueueOther? || step.QueueStep? || step.DetachSocket? {
      QueueTracks(s, step);
    } else if step.QueueDurable? {
      QueueDurableTracks(s, step.size);
    } else if step.QueueReady? {
      QueueReadyTracks(s, step.size);
    } else if step.BindSocket? {
      BindTracks(s);
    } else if step.AcceptFresh? {
      NewBindingTracks(ViewOf(t));
    } else if IsBrowserStep(step) {
      BrowserLeavesView(s, step);
    } else {
      assert t.track.binding.Some? ==> ViewOf(t) == ViewOf(s);
    }
  }

  // ---------- The browser ----------

  /** What the browser's rendering depends on; `sent` and `wire` are empty without a binding. */
  datatype Sight<+E> = Sight(
    browser: Browser<E>,
    hellos: set<Hello>,
    greeting: Greeting<E>,
    log: seq<E>,
    session: nat,
    track: Track,
    sent: seq<Payload<E>>,
    wire: seq<Payload<E>>)

  ghost function SightOf<E>(s: System<E>): Sight<E> {
    Sight(s.browser, s.hellos, s.server.greeting, s.server.log, s.server.session, s.track,
          if s.track.binding.Some? then SentTo(s) else [],
          if s.track.binding.Some? then WrittenTo(s) else [])
  }

  /** The hello in flight announces exactly what is on screen. */
  ghost predicate Announces(hello: Hello, stored: Option<Stored>, highest: nat) {
    hello.session.Some? == stored.Some? && hello.cursor == highest
  }

  ghost predicate ShakingHands<E>(g: Sight<E>) {
    var browser, highest := g.browser, g.browser.screen.cursor.highest;
    && (browser.stored.Some? ==> browser.stored.value.cursor == highest)
    && (forall h :: h in g.hellos && h.socket == browser.socket ==> Announces(h, browser.stored, highest))
    && (Greets(g.greeting, browser.socket) ==> Announces(g.greeting.hello, browser.stored, highest))
    && (g.track.binding.Some? ==> g.track.resumed == browser.stored.Some? && g.track.cursor == highest)
    && browser.read <= |g.wire|
    && browser.inbox == g.wire[..browser.read]
    && NoReady(browser.inbox)
  }

  ghost predicate FollowingLive<E>(g: Sight<E>) {
    var browser, highest := g.browser, g.browser.screen.cursor.highest;
    && browser.stored == Some(Stored(g.session, highest))
    && browser.inbox == []
    && g.track.binding.Some? && g.track.mark.Some? && g.track.mark.value <= highest
    && !Greets(g.greeting, browser.socket)
    && browser.read <= |g.wire| && browser.read <= |g.sent|
    && NoReady(g.sent[browser.read..])
    && g.track.reach <= |g.log| && highest <= |g.log|
    && Above(Durables(g.sent[browser.read..]), highest) == Numbered(g.log)[highest..Max(highest, g.track.reach)]
  }

  ghost predicate Browsing<E>(g: Sight<E>) {
    var browser, screen := g.browser, g.browser.screen;
    && !g.track.lost
    && ShowsLog(screen, g.log)
    && (browser.stored.Some? ==> browser.stored.value.session == g.session && browser.stored.value.cursor <= |g.log|)
    && (browser.stored.None? ==> screen == EmptyScreen())
    && (browser.stored.Some? ==> browser.kept == [])
    && match browser.connection
       case Offline =>
         screen == EmptyScreen() || (browser.stored.Some? && browser.stored.value.cursor == screen.cursor.highest)
       case Handshaking => ShakingHands(g)
       case Backoff => false
       case Online => FollowingLive(g)
  }

  ghost predicate BrowserInv<E>(s: System<E>) {
    s.clean && |s.server.log| <= MAX_SAFE_INTEGER ==> Browsing(SightOf(s))
  }

  lemma PublishBrowses<E>(g: Sight<E>, event: E, greeting: Greeting<E>)
    requires Browsing(g)
    requires greeting == g.greeting || (g.greeting.Joining? && greeting == Welcoming(g.greeting.hello))
    ensures Browsing(g.(log := g.log + [event], greeting := greeting))
  {
    var highest := g.browser.screen.cursor.highest;
    LogGrows(g.log, event, g.browser.screen.base, highest);
    if g.browser.connection.Online? {
      LogGrows(g.log, event, highest, Max(highest, g.track.reach));
    }
  }

  lemma OurFrameBrowses<E>(g: Sight<E>)
    requires Browsing(g) && g.log != []
    requires g.track.binding.Some?
    requires g.track.mark.Some? && |g.log| > g.track.mark.value ==> g.track.reach + 1 == |g.log|
    ensures Browsing(g.(sent := g.sent + [Durable(LastEntry(g.log))],
                        track := g.track.(reach := Max(g.track.reach, |g.log|))))
  {
    hide Numbered, Above, Durables, ShowsLog;
    if g.browser.connection.Online? {
      var read, highest := g.browser.read, g.browser.screen.cursor.highest;
      var frame := Durable(LastEntry(g.log));
      assert (g.sent + [frame])[read..] == g.sent[read..] + [frame];
      DurablesAppend(g.sent[read..], frame);
      CoverNext(Durables(g.sent[read..]), g.log, highest, Max(highest, g.track.reach));
    }
  }

  lemma OtherPayloadBrowses<E>(g: Sight<E>, payload: Payload<E>)
    requires Browsing(g) && !payload.Durable?
    requires payload.Ready? ==> !g.browser.connection.Online?
    ensures Browsing(g.(sent := g.sent + [payload]))
  {
    hide Numbered, Above, ShowsLog;
    if g.browser.connection.Online? {
      var read := g.browser.read;
      assert (g.sent + [payload])[read..] == g.sent[read..] + [payload];
      DurablesAppend(g.sent[read..], payload);
      assert Durables((g.sent + [payload])[read..]) == Durables(g.sent[read..]);
    }
  }

  lemma WriteBrowses<E>(g: Sight<E>, wire: seq<Payload<E>>)
    requires Browsing(g) && |g.wire| <= |wire| && wire[..|g.wire|] == g.wire
    ensures Browsing(g.(wire := wire))
  {
    if g.browser.connection.Handshaking? {
      assert wire[..g.browser.read] == wire[..|g.wire|][..g.browser.read];
    }
  }

  lemma GreetingBrowses<E>(g: Sight<E>, greeting: Greeting<E>, track: Track, hellos: set<Hello>)
    requires Browsing(g) && hellos <= g.hellos
    requires greeting.NoGreeting? || (!g.greeting.NoGreeting? && greeting.hello == g.greeting.hello)
          || greeting.hello in g.hellos
    requires g.browser.connection.Online? && !greeting.NoGreeting? ==> greeting.hello.socket != g.browser.socket
    requires track.binding == g.track.binding && track.lost == g.track.lost
    requires track.cursor == g.track.cursor && track.resumed == g.track.resumed
    requires g.browser.connection.Online? ==> track.mark == g.track.mark && track.reach == g.track.reach
    ensures Browsing(g.(greeting := greeting, track := track, hellos := hellos))
  {
  }

  /** The browser's socket is bound for the first time. */
  lemma NewBindingBrowses<E>(g: Sight<E>, greeting: Greeting<E>, hello: Hello, session: nat, hellos: set<Hello>,
                             binding: Out.Binding)
    requires Browsing(g) && g.track.binding.None? && g.wire == [] && hellos <= g.hellos
    requires hello.socket == g.browser.socket && !g.browser.connection.Offline?
    requires hello in g.hellos || (!g.greeting.NoGreeting? && g.greeting.hello == hello)
    requires (greeting.Joining? || greeting.Attached?) && greeting.hello == hello
    requires session == g.session || hello.session.None?
    ensures Browsing(g.(greeting := greeting, track := Tracking(Some(binding), hello), session := session,
                        hellos := hellos, sent := [], wire := []))
  {
  }

  lemma SplitFollows<E>(screen: Screen<E>, a: seq<Entry<E>>, b: seq<Entry<E>>, log: seq<E>, to: nat)
    requires |log| <= MAX_SAFE_INTEGER && ShowsLog(screen, log) && screen.cursor.highest <= to <= |log|
    requires Above(a + b, screen.cursor.highest) == Numbered(log)[screen.cursor.highest..to]
    ensures ShowsLog(RenderAll(screen, a), log)
    ensures screen.cursor.highest <= RenderAll(screen, a).cursor.highest <= to
    ensures Above(b, RenderAll(screen, a).cursor.highest)
         == Numbered(log)[RenderAll(screen, a).cursor.highest..to]
  {
    var highest := screen.cursor.highest;
    AboveConcat(a, b, highest);
    var middle := highest + |Above(a, highest)|;
    var stretch := Numbered(log)[highest..to];
    assert Above(a, highest) == stretch[..|Above(a, highest)|] == Numbered(log)[highest..middle];
    assert Above(b, highest) == stretch[|Above(a, highest)|..] == Numbered(log)[middle..to];
    RenderAllFollows(screen, a, log, middle);
    AboveTwice(b, highest, middle);
    AboveStretch(log, middle, to, middle);
  }

  lemma LeastOfStretch(sequences: seq<nat>, from: nat)
    requires sequences != []
    requires forall i :: 0 <= i < |sequences| ==> sequences[i] == from + 1 + i && sequences[i] <= MAX_SAFE_INTEGER
    ensures SnapshotBase(sequences, 0) == from
    ensures forall latest :: SnapshotBase(sequences, latest) == from
  {
    assert sequences[0] in sequences;
    assert from + 1 in Usable(sequences);
    var least := Least(Usable(sequences));
    assert least in sequences;
    assert least <= from + 1;
  }

  /** Where a replay of the first `length` events starts. */
  ghost function StretchStart(length: nat, maximum: nat, cursor: nat): nat
  {
    if cursor > length || cursor + Min(length, maximum) < length then length - Min(length, maximum) else cursor
  }

  /** A replay is a stretch of the log up to the length it was taken at. */
  lemma ReplayIsStretch<E>(log: seq<E>, length: nat, maximum: nat, cursor: nat)
    requires length <= |log|
    ensures var replay, from := Replay(log[..length], maximum, cursor), StretchStart(length, maximum, cursor);
      && (replay.0 <==> cursor > length || cursor + Min(length, maximum) < length)
      && from <= length
      && replay.1 == Numbered(log)[from..length]
  {
    hide Replay;
    ReplayIsExact(log[..length], maximum, cursor);
    assert Numbered(log[..length]) == Numbered(log)[..length];
  }

  lemma ReplaceShows<E>(log: seq<E>, from: nat, length: nat, latest: nat)
    requires |log| <= MAX_SAFE_INTEGER && from <= length <= |log| && latest <= length
    ensures var history := Numbered(log)[from..length];
      var base := SnapshotBase(Sequences(history), latest);
      var shown := RenderAll(Screen(Cursor(base, {}), base, []), history);
      ShowsLog(shown, log) && latest <= shown.cursor.highest
  {
    var history := Numbered(log)[from..length];
    var base := SnapshotBase(Sequences(history), latest);
    if history != [] {
      LeastOfStretch(Sequences(history), from);
      AboveStretch(log, from, length, base);
      RenderAllFollows(Screen(Cursor(base, {}), base, []), history, log, length);
    } else {
      assert Usable(Sequences(history)) == [];
    }
  }

  /** Applying SESSION_READY leaves the screen showing the log at least to `latest`. */
  lemma ReconcileShows<E>(screen: Screen<E>, log: seq<E>, length: nat, maximum: nat, latest: nat, resumed: bool)
    requires |log| <= MAX_SAFE_INTEGER && ShowsLog(screen, log)
    requires latest <= length <= |log|
    requires !resumed ==> screen.cursor.highest == 0
    ensures var replay := Replay(log[..length], maximum, screen.cursor.highest);
      var shown := Reconcile(screen, replay.1, replay.0 || !resumed, latest);
      ShowsLog(shown, log) && latest <= shown.cursor.highest
  {
    hide Replay, Numbered, RenderAll, SnapshotBase, Above, ShowsLog;
    var cursor := screen.cursor.highest;
    ReplayIsStretch(log, length, maximum, cursor);
    var replay, from := Replay(log[..length], maximum, cursor), StretchStart(length, maximum, cursor);
    if !replay.0 && resumed {
      AboveStretch(log, from, length, cursor);
      RenderAllFollows(screen, replay.1, log, length);
    } else {
      ReplaceShows(log, from, length, latest);
    }
  }

  /** The frames queued since SESSION_READY's sequence was read continue the log without a gap. */
  lemma ReadyIsCovered<E>(v: View<E>, read: nat)
    requires Tracked(v) && !v.track.lost && read < |v.sent| && v.sent[read].Ready?
    ensures var latest := v.sent[read].latest;
            && latest <= v.track.reach <= |v.log|
            && Above(Durables(v.sent), latest) == Numbered(v.log)[latest..v.track.reach]
  {
    hide Above, Numbered, Durables, Snapshot;
    assert IsReady(v, v.sent[read]) && Covered(v, v.sent[read].latest);
  }

  /** Taking a frame that is not durable out of the sequence leaves the durable ones. */
  lemma DurablesBeside<E>(sent: seq<Payload<E>>, read: nat)
    requires read < |sent| && sent[read].Ready?
    ensures Durables(sent) == Durables(sent[..read]) + Durables(sent[read + 1..])
  {
    var ready := sent[read];
    assert sent == (sent[..read] + [ready]) + sent[read + 1..];
    DurablesConcat(sent[..read] + [ready], sent[read + 1..]);
    DurablesAppend(sent[..read], ready);
  }

  /** The frames beside SESSION_READY, from where the applied snapshot ends. */
  lemma BesideReady<E>(v: View<E>, read: nat, highest: nat)
    requires Tracked(v) && !v.track.lost && read < |v.sent| && v.sent[read].Ready?
    requires v.sent[read].latest <= highest <= |v.log|
    ensures v.track.reach <= |v.log|
    ensures Above(Durables(v.sent[..read]) + Durables(v.sent[read + 1..]), highest)
         == Numbered(v.log)[highest..Max(highest, v.track.reach)]
  {
    hide Tracked, Above, Durables;
    ReadyIsCovered(v, read);
    DurablesBeside(v.sent, read);
    AboveTwice(Durables(v.sent), v.sent[read].latest, highest);
    AboveStretch(v.log, v.sent[read].latest, v.track.reach, highest);
  }

  lemma ReadyApplied<E>(v: View<E>, g: Sight<E>, shown: Screen<E>)
    requires Tracked(v) && Browsing(g) && |g.log| <= MAX_SAFE_INTEGER
    requires v.track == g.track && v.sent == g.sent && v.log == g.log
    requires g.browser.connection.Handshaking?
    requires Out.IsPrefix(g.wire, g.sent) && g.browser.read < |g.wire| && g.wire[g.browser.read].Ready?
    requires ShowsLog(shown, g.log) && g.sent[g.browser.read].latest <= shown.cursor.highest
    ensures var drained := RenderAll(shown, Durables(g.browser.inbox));
      var highest := drained.cursor.highest;
      && ShowsLog(drained, g.log) && shown.cursor.highest <= highest <= |g.log| && g.track.reach <= |g.log|
      && Above(Durables(g.sent[g.browser.read + 1..]), highest)
           == Numbered(g.log)[highest..Max(highest, g.track.reach)]
  {
    var read, sent, highest, reach := g.browser.read, g.sent, shown.cursor.highest, g.track.reach;
    assert sent[..read] == g.browser.inbox;
    BesideReady(v, read, highest);
    SplitFollows(shown, Durables(g.browser.inbox), Durables(sent[read + 1..]), g.log, Max(highest, reach));
    ReachAfter(Durables(sent[read + 1..]), g.log, highest,
               RenderAll(shown, Durables(g.browser.inbox)).cursor.highest, reach);
  }

  lemma ReadyBrowses<E>(v: View<E>, g: Sight<E>, maximum: nat)
    requires Tracked(v) && Browsing(g) && |g.log| <= MAX_SAFE_INTEGER
    requires v.track == g.track && v.sent == g.sent && v.log == g.log && v.session == g.session
    requires v.greeting == g.greeting && v.socket == g.browser.socket && v.maximum == maximum
    requires g.track.binding.Some? && g.browser.connection.Handshaking?
    requires Out.IsPrefix(g.wire, g.sent) && g.browser.read < |g.wire| && g.wire[g.browser.read].Ready?
    ensures var ready, browser := g.wire[g.browser.read], g.browser;
      var replace := ready.resync || !ready.resumed;
      var shown := Reconcile(browser.screen, ready.history, replace, ready.latest);
      var drained := RenderAll(shown, Durables(browser.inbox));
      Browsing(g.(browser := browser.(
        read := browser.read + 1, connection := Online, inbox := [], kept := if replace then [] else browser.kept,
        screen := drained, stored := Some(Stored(ready.session, drained.cursor.highest)),
        flooded := browser.flooded && !replace)))
  {
    var ready := g.sent[g.browser.read];
    assert IsReady(v, ready);
    ReconcileShows(g.browser.screen, g.log, g.track.snapshotAt, maximum, ready.latest, ready.resumed);
    var shown := Reconcile(g.browser.screen, ready.history, ready.resync || !ready.resumed, ready.latest);
    ReadyApplied(v, g, shown);
    assert g.wire[g.browser.read] == ready;
    assert NoReady(g.sent[g.browser.read + 1..]);
  }

  /** Where the live frames end does not depend on how far the screen has followed them. */
  lemma ReachAfter<E>(entries: seq<Entry<E>>, log: seq<E>, before: nat, after: nat, reach: nat)
    requires before <= after <= Max(before, reach) <= |log|
    requires Above(entries, after) == Numbered(log)[after..Max(before, reach)]
    ensures Above(entries, after) == Numbered(log)[after..Max(after, reach)]
  {
  }

  lemma DurableBrowses<E>(g: Sight<E>)
    requires Browsing(g) && |g.log| <= MAX_SAFE_INTEGER
    requires Out.IsPrefix(g.wire, g.sent) && g.browser.read < |g.wire| && g.wire[g.browser.read].Durable?
    requires g.browser.connection.Online?
    ensures var browser := g.browser.(read := g.browser.read + 1);
      Browsing(g.(browser := Save(browser, Render(browser.screen, g.wire[g.browser.read].entry))))
  {
    var read, sent, screen := g.browser.read, g.sent, g.browser.screen;
    var entry := sent[read].entry;
    assert sent[read..] == [sent[read]] + sent[read + 1..];
    assert Durables(sent[read..]) == [entry] + Durables(sent[read + 1..]);
    var highest, reach := screen.cursor.highest, g.track.reach;
    SplitFollows(screen, [entry], Durables(sent[read + 1..]), g.log, Max(highest, reach));
    assert RenderAll(screen, [entry]) == Render(screen, entry) by {
      assert RenderAll(Render(screen, entry), []) == Render(screen, entry);
    }
    ReachAfter(Durables(sent[read + 1..]), g.log, highest, Render(screen, entry).cursor.highest, reach);
  }

  lemma SkipBrowses<E>(g: Sight<E>)
    requires Browsing(g)
    requires Out.IsPrefix(g.wire, g.sent) && g.browser.read < |g.wire| && g.wire[g.browser.read].Other?
    requires g.browser.connection.Online?
    ensures Browsing(g.(browser := g.browser.(read := g.browser.read + 1)))
  {
    var read, sent := g.browser.read, g.sent;
    assert sent[read..] == [sent[read]] + sent[read + 1..];
    assert Durables(sent[read..]) == Durables(sent[read + 1..]);
  }

  lemma HoldBrowses<E>(g: Sight<E>)
    requires Browsing(g)
    requires g.browser.read < |g.wire| && !g.wire[g.browser.read].Ready? && g.browser.connection.Handshaking?
    ensures Browsing(g.(browser := g.browser.(read := g.browser.read + 1,
                                              inbox := g.browser.inbox + [g.wire[g.browser.read]])))
  {
    assert g.wire[..g.browser.read + 1] == g.wire[..g.browser.read] + [g.wire[g.browser.read]];
  }

  lemma ReceiveBrowses<E>(s: System<E>)
    requires ServerInv(s.server) && SocketInv(s) && TrackInv(s) && BrowserInv(s) && Enabled(s, Receive)
    ensures BrowserInv(Apply(s, Receive))
  {
    hide Tracked;
    var g, t := SightOf(s), Apply(s, Receive);
    if t.clean && |t.server.log| <= MAX_SAFE_INTEGER {
      assert Out.BindingInv(s.server.peer, s.track.binding.value);
      var payload := g.wire[g.browser.read];
      if g.browser.connection.Online? {
        assert payload == g.sent[g.browser.read..][0];
        assert !payload.Ready?;
        if payload.Durable? { DurableBrowses(g); } else { SkipBrowses(g); }
      } else if payload.Ready? {
        ReadyBrowses(ViewOf(s), g, s.server.maximum);
      } else {
        HoldBrowses(g);
      }
      assert SightOf(t) == g.(browser := t.browser);
    }
  }

  /** A step on queues, logs and greetings leaves the browser consistent with the log. */
  lemma ServerBrowses<E>(s: System<E>, step: Step<E>)
    requires ServerInv(s.server) && SocketInv(s) && TrackInv(s) && BrowserInv(s) && Enabled(s, step)
    requires step.BeginPublish? || step.BeginWelcome? || step.CollectPeers? || step.ReadTransport? || step.StartLease?
      || step.Expire? || step.EndWelcome? || step.ReadLatest? || step.TakeSnapshot?
    ensures BrowserInv(Apply(s, step))
  {
    hide Numbered, Above;
    var g, t := SightOf(s), Apply(s, step);
    if t.clean && |t.server.log| <= MAX_SAFE_INTEGER {
      if step.BeginPublish? || step.BeginWelcome? {
        PublishBrowses(g, step.event, t.server.greeting);
        assert SightOf(t) == g.(log := g.log + [step.event], greeting := t.server.greeting);
      } else {
        if !t.server.greeting.NoGreeting? {
          GreetingBrowses(g, t.server.greeting, t.track, t.hellos);
        }
        assert SightOf(t) == g.(greeting := t.server.greeting, track := t.track, hellos := t.hellos);
      }
    }
  }

  lemma HelloBrowses<E>(s: System<E>, step: Step<E>)
    requires ServerInv(s.server) && SocketInv(s) && TrackInv(s) && BrowserInv(s) && Enabled(s, step)
    requires step.ResumeLease? || step.Refuse?
    ensures BrowserInv(Apply(s, step))
  {
    var g, t := SightOf(s), Apply(s, step);
    if t.clean && |t.server.log| <= MAX_SAFE_INTEGER {
      GreetingBrowses(g, t.server.greeting, t.track, t.hellos);
      var h := g.(greeting := t.server.greeting, track := t.track, hellos := t.hellos);
      assert SightOf(t) == h.(browser := h.browser.(refused := t.browser.refused));
    }
  }

  lemma QueueBrowses<E>(s: System<E>, step: Step<E>)
    requires ServerInv(s.server) && SocketInv(s) && TrackInv(s) && BrowserInv(s) && Enabled(s, step)
    requires step.QueueOther? || step.QueueStep? || step.DetachSocket?
    ensures BrowserInv(Apply(s, step))
  {
    hide Replay, Retained, Browsing, SocketInv, TrackInv, Out.Inv;
    var g, t := SightOf(s), Apply(s, step);
    if t.clean && |t.server.log| <= MAX_SAFE_INTEGER && s.track.binding.Some? {
      var binding := s.track.binding.value;
      match step {
        case QueueOther(to, size) =>
          assert t.server.peer == Send(s.server.peer, to, Other, size);
          SendEffect(s.server.peer, to, Other, size, binding);
          if to == binding {
            OtherPayloadBrowses(g, Other);
          }
        case QueueStep(inner) =>
          QueueStepEffect(s.server.peer, inner, binding);
          WriteBrowses(g, SightOf(t).wire);
        case DetachSocket(socket) =>
          QueueStepEffect(s.server.peer, Out.Detach(socket), binding);
      }
      assert SightOf(t) == g.(sent := SightOf(t).sent, wire := SightOf(t).wire);
    } else {
      assert s.track.binding.None? ==> SightOf(t) == g;
    }
  }

  lemma QueueStepEffect<E>(peer: Out.Peer<Payload<E>>, step: Out.Step<Payload<E>>, binding: Out.Binding)
    requires Out.Enabled(peer, step) && !step.Send?
    ensures Out.At(Out.Apply(peer, step).sent, binding) == Out.At(peer.sent, binding)
    ensures Out.IsPrefix(Out.At(peer.wire, binding), Out.At(Out.Apply(peer, step).wire, binding))
    ensures step.Detach? ==> Out.At(peer.wire, binding) == Out.At(Out.Apply(peer, step).wire, binding)
  {
  }

  /** The frame about to be queued for the browser's binding directly follows the others. */
  lemma FrameIsNext<E>(v: View<E>)
    requires Tracked(v) && !v.track.lost && v.publication == Bound(v.track.binding)
    ensures v.track.mark.Some? && |v.log| > v.track.mark.value ==> v.track.reach + 1 == |v.log|
  {
    hide Genuine, NoReady, IsReady, Snapshot, Durables, Above, Numbered;
    if v.track.mark.Some? {
      assert Covered(v, v.track.mark.value);
    }
  }

  lemma QueueDurableBrowses<E>(s: System<E>, size: nat)
    requires ServerInv(s.server) && SocketInv(s) && TrackInv(s) && BrowserInv(s) && Enabled(s, QueueDurable(size))
    ensures BrowserInv(DoQueueDurable(s, size))
  {
    hide Replay, Retained, Tracked, Numbered, Durables, Above, ShowsLog, ShakingHands, FollowingLive;
    var g, t := SightOf(s), DoQueueDurable(s, size);
    if t.clean && |t.server.log| <= MAX_SAFE_INTEGER {
      if s.track.binding.Some? {
        QueueDurableView(s, size);
        var v := ViewOf(s);
        assert SightOf(t).sent == ViewOf(t).sent && SightOf(t).track == ViewOf(t).track;
        if s.server.publication.binding == s.track.binding {
          FrameIsNext(v);
          OurFrameBrowses(g);
        }
        assert SightOf(t).wire == g.wire;
        assert SightOf(t) == g.(sent := SightOf(t).sent, track := t.track);
      } else {
        assert SightOf(t) == g;
      }
    }
  }

  lemma QueueReadyBrowses<E>(s: System<E>, size: nat)
    requires ServerInv(s.server) && SocketInv(s) && TrackInv(s) && BrowserInv(s) && Enabled(s, QueueReady(size))
    ensures BrowserInv(DoQueueReady(s, size))
  {
    var g, t := SightOf(s), DoQueueReady(s, size);
    if t.clean && |t.server.log| <= MAX_SAFE_INTEGER {
      GreetingBrowses(g, NoGreeting, t.track, t.hellos);
      if SightOf(t).sent != g.sent {
        var ready := SightOf(t).sent[|g.sent|];
        OtherPayloadBrowses(g.(greeting := NoGreeting), ready);
        assert SightOf(t).sent == g.sent + [ready];
      }
      assert SightOf(t) == g.(greeting := NoGreeting, sent := SightOf(t).sent);
    }
  }

  lemma BindBrowses<E>(s: System<E>)
    requires ServerInv(s.server) && SocketInv(s) && TrackInv(s) && BrowserInv(s) && Enabled(s, BindSocket)
    ensures BrowserInv(DoBindSocket(s))
  {
    var g, t := SightOf(s), DoBindSocket(s);
    if t.clean && |t.server.log| <= MAX_SAFE_INTEGER {
      var hello := s.server.greeting.hello;
      if hello.socket == s.browser.socket {
        assert Out.BindingInv(s.server.peer, t.track.binding.value);
        NewBindingBrowses(g, t.server.greeting, hello, g.session, g.hellos, t.track.binding.value);
        assert SightOf(t).sent == [] && SightOf(t).wire == [];
      } else {
        GreetingBrowses(g, t.server.greeting, g.track, g.hellos);
        assert SightOf(t) == g.(greeting := t.server.greeting);
      }
    }
  }

  lemma FreshBrowses<E>(s: System<E>, hello: Hello)
    requires ServerInv(s.server) && SocketInv(s) && BrowserInv(s) && Enabled(s, AcceptFresh(hello))
    ensures BrowserInv(DoAcceptFresh(s, hello))
  {
    var g, t := SightOf(s), DoAcceptFresh(s, hello);
    if t.clean && |t.server.log| <= MAX_SAFE_INTEGER {
      NewBindingBrowses(g, t.server.greeting, hello, t.server.session, t.hellos, t.track.binding.value);
      assert SightOf(t).sent == [] && SightOf(t).wire == [];
    }
  }

  lemma UnplugBrowses<E>(s: System<E>, browser: Browser<E>)
    requires BrowserInv(s)
    requires browser == s.browser || browser == GiveUp(s.browser)
          || browser == s.browser.(kept := [], screen := EmptyScreen(), flooded := false)
    ensures BrowserInv(Unplug(s, browser))
  {
  }

  lemma ConnectBrowses<E>(s: System<E>)
    requires SocketInv(s) && BrowserInv(s)
    ensures BrowserInv(DoConnect(s))
  {
    hide Numbered, Discipline;
    var t := DoConnect(s);
    if t.clean && |t.server.log| <= MAX_SAFE_INTEGER {
      assert Browsing(SightOf(s));
      var screen := t.browser.screen;
      assert ShowsLog(screen, t.server.log);
      assert forall h :: h in t.hellos && h.socket == t.browser.socket ==> h !in s.hellos;
      assert ShakingHands(SightOf(t));
    }
  }

  lemma BrowserStep<E>(s: System<E>, step: Step<E>)
    requires ServerInv(s.server) && SocketInv(s) && TrackInv(s) && BrowserInv(s) && Enabled(s, step)
    ensures BrowserInv(Apply(s, step))
  {
    hide OnMessage, Unplug, SocketInv;
    match step {
      case QueueDurable(size) => QueueDurableBrowses(s, size);
      case QueueReady(size) => QueueReadyBrowses(s, size);
      case QueueOther(_, _) => QueueBrowses(s, step);
      case QueueStep(_) => QueueBrowses(s, step);
      case DetachSocket(_) => QueueBrowses(s, step);
      case AcceptFresh(hello) => FreshBrowses(s, hello);
      case BindSocket => BindBrowses(s);
      case ResumeLease(_) => HelloBrowses(s, step);
      case Refuse(_) => HelloBrowses(s, step);
      case Connect => ConnectBrowses(s);
      case Disconnect => UnplugBrowses(s, s.browser);
      case Receive => ReceiveBrowses(s);
      case ReceiveRefusal => UnplugBrowses(s, GiveUp(s.browser));
      case Reload => UnplugBrowses(s, s.browser.(kept := [], screen := EmptyScreen(), flooded := false));
      case _ => ServerBrowses(s, step);
    }
  }

  // ---------- The order of the queued frames, for every binding ----------

  /** Sequences increase, and stay below that of a publication still in flight. */
  ghost predicate Ordered<E>(entries: seq<Entry<E>>, bound: int) {
    && Increasing(entries)
    && (forall i :: 0 <= i < |entries| ==> entries[i].sequence <= bound)
  }

  ghost predicate InOrder<E>(sent: seq<Payload<E>>, log: seq<E>, bound: int) {
    Ordered(Durables(sent), bound) && Genuine(Durables(sent), log)
  }

  ghost predicate OrderInv<E>(server: Server<E>) {
    forall binding: Out.Binding ::
      InOrder(Out.At(server.peer.sent, binding), server.log, HandedOut(server.log, server.publication))
  }

  lemma SameFramesOrdered<E>(before: Server<E>, after: Server<E>)
    requires OrderInv(before) && Out.IsPrefix(before.log, after.log)
    requires forall binding :: Out.At(after.peer.sent, binding) == Out.At(before.peer.sent, binding)
    requires HandedOut(before.log, before.publication) <= HandedOut(after.log, after.publication)
    ensures OrderInv(after)
  {
    hide Durables;
    forall binding: Out.Binding
      ensures InOrder(Out.At(after.peer.sent, binding), after.log, HandedOut(after.log, after.publication))
    {
      assert InOrder(Out.At(before.peer.sent, binding), before.log, HandedOut(before.log, before.publication));
    }
  }

  lemma NoFramesOrdered<E>(server: Server<E>)
    requires forall binding :: Out.At(server.peer.sent, binding) == []
    ensures OrderInv(server)
  {
  }

  /** A frame that is not durable changes nothing about the durable ones. */
  lemma OtherFrameOrdered<E>(before: Server<E>, after: Server<E>, to: Out.Binding, payload: Payload<E>, size: nat)
    requires OrderInv(before) && to.generation <= before.peer.fence.generation && !payload.Durable?
    requires after.peer == Send(before.peer, to, payload, size)
    requires after.log == before.log && after.publication == before.publication
    ensures OrderInv(after)
  {
    hide Send, Durables, Genuine, Ordered;
    forall binding: Out.Binding
      ensures InOrder(Out.At(after.peer.sent, binding), after.log, HandedOut(after.log, after.publication))
    {
      var sent := Out.At(before.peer.sent, binding);
      assert InOrder(sent, before.log, HandedOut(before.log, before.publication));
      SendEffect(before.peer, to, payload, size, binding);
      DurablesAppend(sent, payload);
      assert sent + [] == sent && Durables(sent) + [] == Durables(sent);
    }
  }

  lemma InOrderNext<E>(sent: seq<Payload<E>>, log: seq<E>)
    requires log != [] && InOrder(sent, log, |log| - 1)
    ensures InOrder(sent, log, |log|) && InOrder(sent + [Durable(LastEntry(log))], log, |log|)
  {
    hide Durables;
    DurablesAppend(sent, Durable(LastEntry(log)));
  }

  lemma QueueDurableOrdered<E>(s: System<E>, size: nat)
    requires Discipline(s.server) && OrderInv(s.server) && Enabled(s, QueueDurable(size))
    ensures OrderInv(DoQueueDurable(s, size).server)
  {
    hide Send, InOrder;
    var after, log, to := DoQueueDurable(s, size).server, s.server.log, s.server.publication.binding;
    forall binding: Out.Binding ensures InOrder(Out.At(after.peer.sent, binding), log, |log|) {
      var sent := Out.At(s.server.peer.sent, binding);
      assert InOrder(sent, log, |log| - 1);
      InOrderNext(sent, log);
      if to.Some? {
        SendEffect(s.server.peer, to.value, Durable(LastEntry(log)), size, binding);
        assert sent + [] == sent;
      }
    }
  }

  lemma SendIsApply<E>(peer: Out.Peer<Payload<E>>, to: Out.Binding, payload: Payload<E>, size: nat)
    requires Out.Enabled(peer, Out.Send(to, payload, size))
    ensures Send(peer, to, payload, size) == Out.Apply(peer, Out.Send(to, payload, size))
  {
  }

  lemma QueueReadyOrdered<E>(s: System<E>, size: nat)
    requires OrderInv(s.server) && Enabled(s, QueueReady(size))
    ensures OrderInv(DoQueueReady(s, size).server)
  {
    hide OrderInv, Send;
    var greeting, binding, after := s.server.greeting, CurrentBinding(s.server.peer), DoQueueReady(s, size).server;
    if binding.Some? {
      var ready :=
        Ready(s.server.session, greeting.hello.session.Some?, greeting.latest, greeting.resync, greeting.history);
      OtherFrameOrdered(s.server, after, binding.value, ready, size);
    } else {
      SameFramesOrdered(s.server, after);
    }
  }

  lemma TransientOrdered<E>(s: System<E>, step: Step<E>)
    requires OrderInv(s.server) && Enabled(s, step) && (step.QueueOther? || step.QueueStep? || step.DetachSocket?)
    ensures OrderInv(Apply(s, step).server)
  {
    hide OrderInv, Send, Out.Apply;
    var peer, after := s.server.peer, Apply(s, step).server;
    if step.QueueOther? {
      SendIsApply(peer, step.binding, Other, step.size);
      OtherFrameOrdered(s.server, after, step.binding, Other, step.size);
    } else {
      var inner := if step.QueueStep? then step.step else Out.Detach(step.socket);
      forall binding ensures Out.At(after.peer.sent, binding) == Out.At(peer.sent, binding) {
        QueueStepEffect(peer, inner, binding);
      }
      SameFramesOrdered(s.server, after);
    }
  }

  lemma RoomOrdered<E>(s: System<E>, step: Step<E>)
    requires Discipline(s.server) && OrderInv(s.server) && Enabled(s, step) && !IsBrowserStep(step)
    requires !step.QueueOther? && !step.QueueStep? && !step.DetachSocket? && !step.QueueDurable? && !step.QueueReady?
    ensures OrderInv(Apply(s, step).server)
  {
    hide OrderInv, Replay;
    var after := Apply(s, step).server;
    if step.AcceptFresh? {
      NoFramesOrdered(after);
    } else {
      SameFramesOrdered(s.server, after);
    }
  }

  lemma OrderStep<E>(s: System<E>, step: Step<E>)
    requires Discipline(s.server) && OrderInv(s.server) && Enabled(s, step)
    ensures OrderInv(Apply(s, step).server)
  {
    hide OrderInv, Discipline, Apply;
    if IsBrowserStep(step) {
      BrowserLeavesServer(s, step);
    } else if step.QueueDurable? {
      QueueDurableOrdered(s, step.size);
      QueueStepsAre(s, step);
    } else if step.QueueReady? {
      QueueReadyOrdered(s, step.size);
      QueueStepsAre(s, step);
    } else if step.QueueOther? || step.QueueStep? || step.DetachSocket? {
      TransientOrdered(s, step);
    } else {
      RoomOrdered(s, step);
    }
  }

  lemma QueueStepsAre<E>(s: System<E>, step: Step<E>)
    requires Enabled(s, step)
    ensures step.QueueDurable? ==> Apply(s, step) == DoQueueDurable(s, step.size)
    ensures step.QueueReady? ==> Apply(s, step) == DoQueueReady(s, step.size)
  {
  }

  // ---------- Every run ----------

  ghost predicate Inv<E>(s: System<E>) {
    ServerInv(s.server) && SocketInv(s) && TrackInv(s) && BrowserInv(s) && OrderInv(s.server)
  }

  lemma InitialInv<E>(maximum: nat)
    ensures Inv(Initial<E>(maximum))
  {
    Out.NewPeerInv<Payload<E>>();
  }

  lemma StepKeepsInv<E>(s: System<E>, step: Step<E>)
    requires Inv(s) && Enabled(s, step)
    ensures Inv(Apply(s, step))
  {
    DisciplineStep(s, step);
    PeerStep(s, step);
    SocketStep(s, step);
    TrackStep(s, step);
    BrowserStep(s, step);
    OrderStep(s, step);
  }

  lemma {:induction false} RunKeepsInv<E>(s: System<E>, steps: seq<Step<E>>)
    requires Inv(s) && Runs(s, steps)
    ensures Inv(Run(s, steps))
    decreases |steps|
  {
    if steps != [] {
      StepKeepsInv(s, steps[0]);
      RunKeepsInv(Apply(s, steps[0]), steps[1..]);
    }
  }

  /**
   In every run in which no durable frame and no inbox message of the browser was
   dropped, the browser shows a contiguous copy of the log: from the position its last
   snapshot or stored cursor put it at, every event once, in order, with the log's
   content, and nothing waiting beyond a gap; and with a session, nothing else is on the page.
   */
  lemma RenderingRefinesLog<E>(maximum: nat, steps: seq<Step<E>>)
    requires Runs(Initial<E>(maximum), steps)
    ensures var s := Run(Initial<E>(maximum), steps);
      s.clean && |s.server.log| <= MAX_SAFE_INTEGER ==>
        var screen := s.browser.screen;
        && screen.base <= screen.cursor.highest <= |s.server.log|
        && screen.rendered == Numbered(s.server.log)[screen.base..screen.cursor.highest]
        && screen.cursor.seen == {}
        && (s.browser.stored.Some? ==> Page(s.browser) == screen.rendered)
  {
    InitialInv<E>(maximum);
    RunKeepsInv(Initial<E>(maximum), steps);
    var s := Run(Initial<E>(maximum), steps);
    assert [] + s.browser.screen.rendered == s.browser.screen.rendered;
  }

  /** The event of sequence `q` is in the replayed history or among the queued frames. */
  ghost predicate Reaches<E>(history: seq<Entry<E>>, frames: seq<Entry<E>>, log: seq<E>, q: int) {
    0 < q <= |log| && (Entry(q, log[q - 1]) in history || Entry(q, log[q - 1]) in frames)
  }

  /** Where a SESSION_READY continues from: the cursor, or the oldest retained event. */
  ghost function ReplayFrom<E>(v: View<E>, ready: Payload<E>): int
    requires ready.Ready?
  {
    if ready.resync then v.track.snapshotAt - Min(v.track.snapshotAt, v.maximum) else v.track.cursor
  }

  lemma ReadyIsExact<E>(v: View<E>, ready: Payload<E>)
    requires Tracked(v) && ready in v.sent && ready.Ready?
    ensures var length, cursor := v.track.snapshotAt, v.track.cursor;
      && ready.latest <= length <= |v.log|
      && (ready.resync <==> cursor > length || cursor + Min(length, v.maximum) < length)
      && 0 <= ReplayFrom(v, ready) <= length && ready.history == Numbered(v.log)[ReplayFrom(v, ready)..length]
  {
    hide Replay, Numbered, Genuine, Durables, Covered, NoReady;
    assert IsReady(v, ready);
    ReplayIsStretch(v.log, v.track.snapshotAt, v.maximum, v.track.cursor);
  }

  lemma ReadyReaches<E>(v: View<E>, ready: Payload<E>, q: int)
    requires Tracked(v) && ready in v.sent && ready.Ready? && v.live && !v.track.lost
    requires ReplayFrom(v, ready) < q <= HandedOut(v.log, v.publication)
    ensures Reaches(ready.history, Durables(v.sent), v.log, q)
  {
    hide Durables, Above, Snapshot, Genuine, Replay, NoReady;
    ReadyIsExact(v, ready);
    assert IsReady(v, ready) && Covered(v, ready.latest);
    var frames := Durables(v.sent);
    if q <= v.track.snapshotAt {
      assert ready.history[q - 1 - ReplayFrom(v, ready)] == Entry(q, v.log[q - 1]);
    } else {
      assert Above(frames, ready.latest)[q - 1 - ready.latest] == Entry(q, v.log[q - 1]);
      AboveIsPart(frames, ready.latest, Entry(q, v.log[q - 1]));
    }
  }

  /**
   In every run, for the transport the browser is on, once SESSION_READY is queued for it:
   its history is everything above the announced cursor when no resync is asked for, and
   everything retained when it is; resync is asked for exactly when the cursor is ahead
   of the log or something above it is gone.  If none of the transport's durable frames
   was dropped, then while it stays bound, history and queued frames together hold every
   later event, and the frames beyond `latest` are consecutive.
   */
  lemma GapFreeResume<E>(maximum: nat, steps: seq<Step<E>>, ready: Payload<E>)
    requires Runs(Initial<E>(maximum), steps)
    requires var s := Run(Initial<E>(maximum), steps);
      s.track.binding.Some? && ready in SentTo(s) && ready.Ready?
    ensures var v := ViewOf(Run(Initial<E>(maximum), steps));
      var length, cursor := v.track.snapshotAt, v.track.cursor;
      && ready.latest <= length <= |v.log|
      && (ready.resync <==> cursor > length || cursor + Min(length, v.maximum) < length)
      && 0 <= ReplayFrom(v, ready) <= length && ready.history == Numbered(v.log)[ReplayFrom(v, ready)..length]
      && (!v.track.lost ==>
            && ready.latest <= v.track.reach <= |v.log|
            && Above(Durables(v.sent), ready.latest) == Numbered(v.log)[ready.latest..v.track.reach])
      && (!v.track.lost && v.live ==>
            forall q :: ReplayFrom(v, ready) < q <= HandedOut(v.log, v.publication) ==>
              Reaches(ready.history, Durables(v.sent), v.log, q))
  {
    InitialInv<E>(maximum);
    RunKeepsInv(Initial<E>(maximum), steps);
    var v := ViewOf(Run(Initial<E>(maximum), steps));
    ReadyIsExact(v, ready);
    assert IsReady(v, ready) && Covered(v, ready.latest);
    if !v.track.lost && v.live {
      forall q | ReplayFrom(v, ready) < q <= HandedOut(v.log, v.publication)
        ensures Reaches(ready.history, Durables(v.sent), v.log, q)
      {
        ReadyReaches(v, ready, q);
      }
    }
  }

  lemma {:induction false} AboveIsPart<E>(entries: seq<Entry<E>>, cursor: nat, entry: Entry<E>)
    requires entry in Above(entries, cursor)
    ensures entry in entries
  {
    if entries[0].sequence <= cursor || entry != entries[0] {
      AboveIsPart(entries[1..], cursor, entry);
    }
  }

  /**
   On the wire of every transport the session's peer ever had, durable sequences only
   increase, and each is the log's event of its sequence.
   */
  lemma WireIncreases<E>(maximum: nat, steps: seq<Step<E>>, binding: Out.Binding)
    requires Runs(Initial<E>(maximum), steps)
    ensures var server := Run(Initial<E>(maximum), steps).server;
      var wire := Out.At(server.peer.wire, binding);
      Increasing(Durables(wire)) && Genuine(Durables(wire), server.log)
  {
    hide Runs, Run, Durables, SocketInv, TrackInv, BrowserInv, Discipline;
    InitialInv<E>(maximum);
    RunKeepsInv(Initial<E>(maximum), steps);
    var server := Run(Initial<E>(maximum), steps).server;
    assert Out.BindingInv(server.peer, binding);
    var sent, wire := Out.At(server.peer.sent, binding), Out.At(server.peer.wire, binding);
    assert InOrder(sent, server.log, HandedOut(server.log, server.publication));
    assert sent == wire + sent[|wire|..];
    DurablesConcat(wire, sent[|wire|..]);
    assert Durables(wire) == Durables(sent)[..|Durables(wire)|];
  }
}
