/**
 One session of one room, end to end: publishers, the server's hello handling, the
 peer's outbound queue, and the browser that connects, resumes, renders and reloads.

 Every step is one critical section.  Publishing appends to the log, then copies the
 peers, then reads the peer's transport, then queues the frame; a hello resumes the
 lease, then binds the socket, then reads the latest sequence, then takes the snapshot,
 then queues SESSION_READY.  Steps of all parties interleave freely.
 */
module ResumeProtocol {
  import opened Wrappers
  import opened SessionReliability
  import opened RoomLog
  import opened ClientReliability
  import Out = OutboundQueue

  // ---------- State ----------

  datatype Payload<+E> =
    | Durable(entry: Entry<E>)
    | Ready(session: nat, resumed: bool, latest: nat, resync: bool, history: seq<Entry<E>>)
    | Other

  datatype Hello = Hello(socket: nat, session: Option<nat>, cursor: nat)

  /** The publication that holds the room's publish lock; `own` excludes this peer. */
  datatype Publication =
    | NoPublication
    | Appended(own: bool)
    | Collected(own: bool, included: bool)
    | Bound(binding: Option<Out.Binding>)

  /** How far the server has got with a hello of this session. */
  datatype Greeting<+E> =
    | NoGreeting
    | Joining(hello: Hello)
    | Welcoming(hello: Hello)
    | Resuming(hello: Hello)
    | Attached(hello: Hello)
    | Measured(hello: Hello, latest: nat)
    | Snapped(hello: Hello, latest: nat, resync: bool, history: seq<Entry<E>>)

  datatype Server<+E> = Server(
    maximum: nat,
    log: seq<E>,
    publication: Publication,
    session: nat,
    inRoom: bool,
    leased: bool,
    detaching: bool,
    peer: Out.Peer<Payload<E>>,
    greeting: Greeting<E>)

  /** Backing off, the browser has given up its session but not yet the socket it came from. */
  datatype Connection = Offline | Handshaking | Backoff | Online

  datatype Stored = Stored(session: nat, cursor: nat)

  /**
   `kept` is what the page still shows from before the cursor was last reset; `flooded`, read
   by no step, records that an inbox overflowed since the page's history was last replaced.
   */
  datatype Browser<+E> = Browser(
    connection: Connection,
    socket: nat,
    read: nat,
    inbox: seq<Payload<E>>,
    refused: bool,
    kept: seq<Entry<E>>,
    screen: Screen<E>,
    stored: Option<Stored>,
    flooded: bool)

  /**
   Bookkeeping about the browser's current socket, read by no step: its binding, the
   latest sequence and the log length when SESSION_READY was prepared, how far the frames
   queued for it reach, the cursor it announced, whether it resumed a session, and whether
   a durable frame for it was dropped.
   */
  datatype Track = Track(
    binding: Option<Out.Binding>,
    mark: Option<nat>,
    reach: nat,
    snapshotAt: nat,
    cursor: nat,
    resumed: bool,
    lost: bool)

  const UNTRACKED := Track(None, None, 0, 0, 0, false, false)

  function Tracking(binding: Option<Out.Binding>, hello: Hello): Track {
    UNTRACKED.(binding := binding, cursor := hello.cursor, resumed := hello.session.Some?)
  }

  /** `clean` records that no frame for the browser and no inbox message was ever dropped. */
  datatype System<+E> = System(
    server: Server<E>,
    hellos: set<Hello>,
    nextSocket: nat,
    nextSession: nat,
    browser: Browser<E>,
    track: Track,
    clean: bool)

  function Initial<E>(maximum: nat): System<E> {
    System(
      Server(maximum, [], NoPublication, 0, false, false, false, Out.NewPeer(), NoGreeting),
      {}, 1, 1,
      Browser(Offline, 0, 0, [], false, [], EmptyScreen(), None, false),
      UNTRACKED, true)
  }

  // ---------- Helpers ----------

  function CurrentBinding<P>(peer: Out.Peer<P>): Option<Out.Binding> {
    if peer.fence.current.None? then None
    else Some(Out.Binding(peer.fence.current.value, peer.fence.generation))
  }

  predicate OwnPublication(publication: Publication) {
    match publication
    case Appended(own) => own
    case Collected(own, _) => own
    case _ => false
  }

  function Durables<E>(payloads: seq<Payload<E>>): seq<Entry<E>> {
    if payloads == [] then []
    else (if payloads[0].Durable? then [payloads[0].entry] else []) + Durables(payloads[1..])
  }

  /** The socket a greeting is about. */
  predicate Greets<E>(greeting: Greeting<E>, socket: nat) {
    !greeting.NoGreeting? && greeting.hello.socket == socket
  }

  function SentTo<E>(s: System<E>): seq<Payload<E>>
    requires s.track.binding.Some?
  {
    Out.At(s.server.peer.sent, s.track.binding.value)
  }

  function WrittenTo<E>(s: System<E>): seq<Payload<E>>
    requires s.track.binding.Some?
  {
    Out.At(s.server.peer.wire, s.track.binding.value)
  }

  /** A browser without a connection holds a socket number nothing else uses. */
  function Unplug<E>(s: System<E>, browser: Browser<E>): System<E> {
    s.(browser := browser.(connection := Offline, socket := s.nextSocket, read := 0, inbox := [], refused := false),
       nextSocket := s.nextSocket + 1,
       track := UNTRACKED)
  }

  /** The events on the page, in the order they were rendered. */
  function Page<E>(browser: Browser<E>): seq<Entry<E>> {
    browser.kept + browser.screen.rendered
  }

  /** The session is unusable: its token and cursor are given up, what it rendered stays on the page. */
  function GiveUp<E>(browser: Browser<E>): Browser<E> {
    browser.(kept := Page(browser), screen := EmptyScreen(), stored := None)
  }

  /** The handshake inbox is full: the session is given up, and the socket goes on delivering. */
  function Flood<E>(s: System<E>, browser: Browser<E>): System<E> {
    s.(browser := GiveUp(browser).(connection := Backoff, inbox := [], flooded := true), clean := false)
  }

  function Save<E>(browser: Browser<E>, screen: Screen<E>): Browser<E> {
    browser.(
      screen := screen,
      stored := if browser.stored.Some? then Some(browser.stored.value.(cursor := screen.cursor.highest)) else None)
  }

  /** The browser's message switch. */
  function OnMessage<E>(s: System<E>, payload: Payload<E>): System<E> {
    var browser := s.browser.(read := s.browser.read + 1);
    if browser.connection.Handshaking? && !payload.Ready? then
      if |browser.inbox| >= MAX_HANDSHAKE_INBOX then Flood(s, browser)
      else s.(browser := browser.(inbox := browser.inbox + [payload]))
    else
      match payload
      case Durable(entry) =>
        s.(browser := Save(browser, Render(browser.screen, entry)))
      case Ready(session, resumed, latest, resync, history) =>
        var replace := resync || !resumed;
        var shown := Reconcile(browser.screen, history, replace, latest);
        var drained := RenderAll(shown, Durables(browser.inbox));
        s.(browser := browser.(
             connection := Online,
             inbox := [],
             kept := if replace then [] else browser.kept,
             screen := drained,
             stored := Some(Stored(session, drained.cursor.highest)),
             flooded := browser.flooded && !replace))
      case Other =>
        s.(browser := browser)
  }

  // ---------- Steps ----------

  datatype Step<+E> =
    | BeginPublish(event: E)
    | CollectPeers
    | ReadTransport
    | QueueDurable(size: nat)
    | QueueOther(binding: Out.Binding, size: nat)
    | QueueStep(step: Out.Step<Payload<E>>)
    | AcceptFresh(hello: Hello)
    | BeginWelcome(event: E)
    | EndWelcome
    | ResumeLease(hello: Hello)
    | BindSocket
    | ReadLatest
    | TakeSnapshot
    | QueueReady(size: nat)
    | DetachSocket(socket: nat)
    | StartLease
    | Expire
    | Refuse(hello: Hello)
    | Connect
    | Disconnect
    | Receive
    | ReceiveRefusal
    | Reload

  predicate Enabled<E>(s: System<E>, step: Step<E>) {
    var server := s.server;
    match step
    case BeginPublish(_) => server.publication.NoPublication? && |server.log| < U64_MAX
    case CollectPeers => server.publication.Appended?
    case ReadTransport => server.publication.Collected?
    case QueueDurable(_) => server.publication.Bound? && server.log != []
    case QueueOther(binding, size) => Out.Enabled(server.peer, Out.Send(binding, Other, size))
    case QueueStep(step) => (step.Take? || step.Check? || step.Write? || step.WriteError? || step.Invalidate?)
        && Out.Enabled(server.peer, step)
    case AcceptFresh(hello) => hello in s.hellos && hello.session.None? && hello.socket == s.browser.socket
    case BeginWelcome(_) => server.greeting.Joining? && server.publication.NoPublication? && |server.log| < U64_MAX
    case EndWelcome => server.greeting.Welcoming? && !OwnPublication(server.publication)
    case ResumeLease(hello) => hello in s.hellos && hello.session == Some(server.session) && server.leased
    case BindSocket => server.greeting.Resuming?
    case ReadLatest => server.greeting.Attached?
    case TakeSnapshot => server.greeting.Measured?
    case QueueReady(_) => server.greeting.Snapped?
    case DetachSocket(socket) => !Greets(server.greeting, socket)
    case StartLease => server.detaching
    case Expire => server.leased
    case Refuse(hello) => hello in s.hellos
    case Connect => true
    case Disconnect => true
    case Receive => !s.browser.connection.Offline? && s.track.binding.Some? && s.browser.read < |WrittenTo(s)|
    case ReceiveRefusal => s.browser.refused && s.browser.connection.Handshaking?
    case Reload => true
  }

  function Publish<E>(server: Server<E>, event: E, own: bool): Server<E> {
    server.(log := server.log + [event], publication := Appended(own))
  }

  /** Queues a payload for a binding, as the outbound queue does. */
  function Send<E>(peer: Out.Peer<Payload<E>>, binding: Out.Binding, payload: Payload<E>, size: nat): Out.Peer<Payload<E>> {
    if binding.generation <= peer.fence.generation
    then Out.Apply(peer, Out.Send(binding, payload, size))
    else peer
  }

  function LastEntry<E>(log: seq<E>): Entry<E>
    requires log != []
  {
    Entry(|log|, log[|log| - 1])
  }

  function DoQueueDurable<E>(s: System<E>, size: nat): System<E>
    requires Enabled(s, QueueDurable(size))
  {
    var server := s.server;
    var next := s.(server := server.(publication := NoPublication));
    if server.publication.binding.None? then next
    else
      var binding := server.publication.binding.value;
      var peer := Send(server.peer, binding, Durable(LastEntry(server.log)), size);
      var ours := s.track.binding == Some(binding);
      var dropped := ours && server.peer.queue.Overflows(size);
      next.(server := next.server.(peer := peer),
            track := s.track.(lost := s.track.lost || dropped,
                              reach := if ours && !dropped then Max(s.track.reach, |server.log|) else s.track.reach),
            clean := s.clean && !dropped)
  }

  /** A new session's peer enters the room bound to the hello's socket. */
  function DoAcceptFresh<E>(s: System<E>, hello: Hello): System<E> {
    var publication := match s.server.publication
      case NoPublication => NoPublication
      case Appended(_) => Appended(false)
      case _ => Collected(false, false);
    var peer := Out.Apply(Out.NewPeer(), Out.Replace(hello.socket));
    s.(server := s.server.(publication := publication, session := s.nextSession, inRoom := true, leased := false,
                           detaching := false, peer := peer, greeting := Joining(hello)),
       hellos := s.hellos - {hello},
       nextSession := s.nextSession + 1,
       track := Tracking(CurrentBinding(peer), hello))
  }

  function DoBindSocket<E>(s: System<E>): System<E>
    requires Enabled(s, BindSocket)
  {
    var hello := s.server.greeting.hello;
    var peer := Out.Apply(s.server.peer, Out.Replace(hello.socket));
    s.(server := s.server.(peer := peer, greeting := Attached(hello)),
       track := if hello.socket == s.browser.socket
                then Tracking(CurrentBinding(peer), hello)
                else s.track)
  }

  function DoReadLatest<E>(s: System<E>): System<E>
    requires Enabled(s, ReadLatest)
  {
    var hello := s.server.greeting.hello;
    var latest := |s.server.log|;
    s.(server := s.server.(greeting := Measured(hello, latest)),
       track := if hello.socket == s.browser.socket
                then s.track.(mark := Some(latest), reach := latest)
                else s.track)
  }

  function DoTakeSnapshot<E>(s: System<E>): System<E>
    requires Enabled(s, TakeSnapshot)
  {
    var greeting := s.server.greeting;
    var replay := Replay(s.server.log, s.server.maximum, greeting.hello.cursor);
    s.(server := s.server.(greeting := Snapped(greeting.hello, greeting.latest, replay.0, replay.1)),
       track := if greeting.hello.socket == s.browser.socket
                then s.track.(snapshotAt := |s.server.log|)
                else s.track)
  }

  function DoQueueReady<E>(s: System<E>, size: nat): System<E>
    requires Enabled(s, QueueReady(size))
  {
    var greeting := s.server.greeting;
    var ready := Ready(s.server.session, greeting.hello.session.Some?, greeting.latest, greeting.resync, greeting.history);
    var binding := CurrentBinding(s.server.peer);
    s.(server := s.server.(
         peer := if binding.Some? then Send(s.server.peer, binding.value, ready, size) else s.server.peer,
         greeting := NoGreeting))
  }

  function DoConnect<E>(s: System<E>): System<E> {
    var browser := s.browser;
    var stored := browser.stored;
    var cursor := if stored.Some? then stored.value.cursor else 0;
    var hello := Hello(s.nextSocket, if stored.Some? then Some(stored.value.session) else None, cursor);
    var restored := RestoreCursor(browser.screen.cursor, cursor);
    var screen := if restored == browser.screen.cursor then browser.screen
                  else Screen(restored, restored.highest, browser.screen.rendered);
    Unplug(s, browser).(
      browser := Browser(Handshaking, s.nextSocket, 0, [], false, browser.kept, screen, stored, browser.flooded),
      hellos := s.hellos + {hello})
  }

  function Apply<E>(s: System<E>, step: Step<E>): System<E>
    requires Enabled(s, step)
  {
    var server := s.server;
    match step
    case BeginPublish(event) => s.(server := Publish(server, event, false))
    case CollectPeers =>
      var own := server.publication.own;
      s.(server := server.(publication := Collected(own, server.inRoom && !own)))
    case ReadTransport =>
      s.(server := server.(publication := if server.publication.included then Bound(CurrentBinding(server.peer))
                                          else NoPublication))
    case QueueDurable(size) => DoQueueDurable(s, size)
    case QueueOther(binding, size) => s.(server := server.(peer := Out.Apply(server.peer, Out.Send(binding, Other, size))))
    case QueueStep(step) => s.(server := server.(peer := Out.Apply(server.peer, step)))
    case AcceptFresh(hello) => DoAcceptFresh(s, hello)
    case BeginWelcome(event) =>
      s.(server := Publish(server, event, true).(greeting := Welcoming(server.greeting.hello)))
    case EndWelcome => s.(server := server.(greeting := Attached(server.greeting.hello)))
    case ResumeLease(hello) =>
      s.(server := server.(leased := false, greeting := Resuming(hello)), hellos := s.hellos - {hello})
    case BindSocket => DoBindSocket(s)
    case ReadLatest => DoReadLatest(s)
    case TakeSnapshot => DoTakeSnapshot(s)
    case QueueReady(size) => DoQueueReady(s, size)
    case DetachSocket(socket) =>
      s.(server := server.(peer := Out.Apply(server.peer, Out.Detach(socket)),
                           detaching := server.detaching || server.peer.fence.current == Some(socket)))
    case StartLease => s.(server := server.(leased := true, detaching := false))
    case Expire => s.(server := server.(leased := false, inRoom := false))
    case Refuse(hello) =>
      s.(hellos := s.hellos - {hello},
         browser := s.browser.(refused := s.browser.refused || hello.socket == s.browser.socket))
    case Connect => DoConnect(s)
    case Disconnect => Unplug(s, s.browser)
    case Receive => OnMessage(s, WrittenTo(s)[s.browser.read])
    // Nothing more arrives on a refused socket, see ResumeInvariants.RefuseKeepsSockets.
    case ReceiveRefusal => Unplug(s, GiveUp(s.browser))
    case Reload => Unplug(s, s.browser.(kept := [], screen := EmptyScreen(), flooded := false))
  }

  predicate Runs<E>(s: System<E>, steps: seq<Step<E>>)
    decreases |steps|
  {
    steps == [] || (Enabled(s, steps[0]) && Runs(Apply(s, steps[0]), steps[1..]))
  }

  function Run<E>(s: System<E>, steps: seq<Step<E>>): System<E>
    requires Runs(s, steps)
    decreases |steps|
  {
    if steps == [] then s else Run(Apply(s, steps[0]), steps[1..])
  }
}
