/**
 Retryable commands end to end: a browser that enters, retries and gives up commands, a
 network that loses, duplicates, delays and reorders, and sessions that remember the
 commands they accepted.

 Messages are never removed from the network, so each may be delivered any number of
 times, in any order, or never.
 */
module ExactlyOnce {
  import opened Wrappers
  import opened SessionReliability
  import opened ClientReliability

  // ---------- State ----------

  /** `valid` is whether the content passes the server's checks, which depend on it alone. */
  datatype Body = Chat(valid: bool) | FileShare(valid: bool)

  /** Events of other participants, and of sessions of this browser, in log order. */
  datatype Event = Foreign | Ours(session: nat, id: ClientId)

  datatype Session = Session(dedupe: Dedupe, current: Option<nat>, expired: bool)

  datatype Transmission = Transmission(socket: nat, command: Command<Body>)

  datatype Reply =
    | Ready(socket: nat, session: nat)
    | Ack(socket: nat, id: ClientId, sequence: nat)
    | Rejected(socket: nat, id: ClientId)

  datatype Hello = Hello(socket: nat, session: Option<nat>)

  datatype Connection = Offline | Open(socket: nat, online: bool)

  /**
   `entered`, `acked` and `rejected` record the browser's history: the body entered under
   each id, the sequence each acknowledged id was given, and the ids it was told were not
   accepted.  `forgotten` holds the ids whose outcome a reload of the page made it forget, and
   `under` the session each transmitted id was first sent under.
   */
  datatype System = System(
    log: seq<Event>,
    sessions: map<nat, Session>,
    bound: map<nat, nat>,
    closed: set<nat>,
    hellos: set<Hello>,
    sent: set<Transmission>,
    replies: set<Reply>,
    nextSocket: nat,
    nextSession: nat,
    connection: Connection,
    stored: Option<nat>,
    outbox: Outbox<Body>,
    entered: map<ClientId, Body>,
    acked: map<ClientId, nat>,
    rejected: set<ClientId>,
    forgotten: set<ClientId>,
    under: map<ClientId, nat>)

  const INITIAL := System([], map[], map[], {}, {}, {}, {}, 0, 0, Offline, None, Outbox([], []), map[], map[], {}, {},
                         map[])

  // ---------- The server's command handler ----------

  datatype Outcome = Accepted(sequence: nat) | Repeated(sequence: nat) | Refused | Exhausted

  /** What the handler decides, in the order it checks. */
  function Decide(session: Session, log: seq<Event>, command: Command<Body>, limitReached: bool): Outcome {
    if !command.body.valid then Refused
    else if session.dedupe.Find(command.id).Some? then Repeated(session.dedupe.Find(command.id).value)
    else if session.dedupe.Full() then Refused
    else if command.body.FileShare? && limitReached then Refused
    else if |log| == U64_MAX then Exhausted
    else Accepted(|log| + 1)
  }

  // ---------- Steps ----------

  datatype Step =
    | Enter(command: Command<Body>)
    | Transmit(index: nat)
    | Connect
    | Disconnect
    | GiveUpSession
    | Reload
    | ReceiveReady(session: nat)
    | ReceiveAck(id: ClientId, sequence: nat)
    | ReceiveRejection(id: ClientId)
    | AcceptFresh(hello: Hello)
    | AcceptResume(hello: Hello)
    | DetachSession(session: nat)
    | ExpireSession(session: nat)
    | Handle(transmission: Transmission, limitReached: bool)
    | PublishForeign

  predicate Enabled(s: System, step: Step) {
    match step
    case Enter(command) =>
      ValidClientMessageId(command.id) && command.id !in s.entered && |s.outbox.pending| < MAX_OUTBOX
    case Transmit(index) => s.connection.Open? && s.connection.online && index < |s.outbox.pending|
    case Connect => true
    case Disconnect => true
    case GiveUpSession => s.connection.Open?
    case Reload => true
    case ReceiveReady(session) => s.connection.Open? && Ready(s.connection.socket, session) in s.replies
    case ReceiveAck(id, sequence) => s.connection.Open? && Ack(s.connection.socket, id, sequence) in s.replies
    case ReceiveRejection(id) => s.connection.Open? && Rejected(s.connection.socket, id) in s.replies
    case AcceptFresh(hello) => hello in s.hellos && hello.session.None?
    case AcceptResume(hello) => hello in s.hellos && hello.session.Some? && hello.session.value in s.sessions
        && s.sessions[hello.session.value].current.None? && !s.sessions[hello.session.value].expired
    case DetachSession(session) => session in s.sessions
    case ExpireSession(session) => session in s.sessions && s.sessions[session].current.None?
    case Handle(transmission, _) => transmission in s.sent && transmission.socket in s.bound
        && transmission.socket !in s.closed
        && s.bound[transmission.socket] in s.sessions
        && s.sessions[s.bound[transmission.socket]].current == Some(transmission.socket)
    case PublishForeign => |s.log| < U64_MAX
  }

  function HandleCommand(s: System, transmission: Transmission, limitReached: bool): System
    requires Enabled(s, Handle(transmission, limitReached))
  {
    var socket, command := transmission.socket, transmission.command;
    var number := s.bound[socket];
    var session := s.sessions[number];
    match Decide(session, s.log, command, limitReached)
    case Refused =>
      s.(closed := s.closed + {socket}, replies := s.replies + {Rejected(socket, command.id)})
    case Repeated(sequence) =>
      s.(replies := s.replies + {Ack(socket, command.id, sequence)})
    case Exhausted => s
    case Accepted(sequence) =>
      s.(log := s.log + [Ours(number, command.id)],
         sessions := s.sessions[number := session.(dedupe := session.dedupe.Remember(command.id, sequence))],
         replies := s.replies + {Ack(socket, command.id, sequence)})
  }

  function Bind(s: System, hello: Hello, number: nat, session: Session): System {
    s.(sessions := s.sessions[number := session.(current := Some(hello.socket))],
       bound := s.bound[hello.socket := number],
       hellos := s.hellos - {hello},
       replies := s.replies + {Ready(hello.socket, number)})
  }

  function Apply(s: System, step: Step): System
    requires Enabled(s, step)
  {
    match step
    case Enter(command) =>
      s.(outbox := Enqueue(s.outbox, command), entered := s.entered[command.id := command.body])
    case Transmit(index) =>
      var command := s.outbox.pending[index];
      s.(sent := s.sent + {Transmission(s.connection.socket, command)},
         under := if command.id in s.under || s.connection.socket !in s.bound then s.under
                  else s.under[command.id := s.bound[s.connection.socket]])
    case Connect =>
      s.(connection := Open(s.nextSocket, false), nextSocket := s.nextSocket + 1,
         hellos := s.hellos + {Hello(s.nextSocket, s.stored)})
    case Disconnect => s.(connection := Offline)
    case GiveUpSession =>
      s.(connection := s.connection.(online := false), stored := None, outbox := Abandon(s.outbox))
    case Reload =>
      s.(connection := Offline, outbox := Outbox([], []),
         forgotten := s.forgotten + Ids(s.outbox.pending) + Ids(s.outbox.abandoned))
    case ReceiveReady(session) =>
      s.(connection := s.connection.(online := true), stored := Some(session))
    case ReceiveAck(id, sequence) =>
      s.(outbox := Acknowledge(s.outbox, id),
         acked := if id in Ids(s.outbox.pending) then s.acked[id := sequence] else s.acked)
    case ReceiveRejection(id) =>
      s.(outbox := Reject(s.outbox, id),
         rejected := if id in Ids(s.outbox.pending) then s.rejected + {id} else s.rejected)
    case AcceptFresh(hello) =>
      Bind(s, hello, s.nextSession, Session(EmptyDedupe(MAX_DEDUPE_ENTRIES), None, false))
        .(nextSession := s.nextSession + 1)
    case AcceptResume(hello) =>
      Bind(s, hello, hello.session.value, s.sessions[hello.session.value])
    case DetachSession(session) =>
      s.(sessions := s.sessions[session := s.sessions[session].(current := None)])
    case ExpireSession(session) =>
      s.(sessions := s.sessions[session := s.sessions[session].(expired := true)])
    case Handle(transmission, limitReached) => HandleCommand(s, transmission, limitReached)
    case PublishForeign => s.(log := s.log + [Foreign])
  }

  predicate Runs(s: System, steps: seq<Step>)
    decreases |steps|
  {
    steps == [] || (Enabled(s, steps[0]) && Runs(Apply(s, steps[0]), steps[1..]))
  }

  function Run(s: System, steps: seq<Step>): System
    requires Runs(s, steps)
    decreases |steps|
  {
    if steps == [] then s else Run(Apply(s, steps[0]), steps[1..])
  }

  // ---------- The log and the sessions' memory agree ----------

  ghost predicate LogInv(s: System) {
    && (forall n :: n in s.sessions ==>
          s.sessions[n].dedupe.Valid() && s.sessions[n].dedupe.limit == 1024 && n < s.nextSession)
    && (forall i :: 0 <= i < |s.log| && s.log[i].Ours? ==> Remembers(s, s.log[i].session, s.log[i].id, i + 1))
    && (forall n, id :: n in s.sessions && id in s.sessions[n].dedupe.sequences ==>
          IsEvent(s.log, s.sessions[n].dedupe.sequences[id], n, id))
  }

  ghost predicate Remembers(s: System, number: nat, id: ClientId, sequence: nat) {
    && number in s.sessions
    && id in s.sessions[number].dedupe.sequences
    && s.sessions[number].dedupe.sequences[id] == sequence
  }

  ghost predicate IsEvent(log: seq<Event>, sequence: nat, number: nat, id: ClientId) {
    0 < sequence <= |log| && log[sequence - 1] == Ours(number, id)
  }

  // ---------- Sockets, sessions and transmissions ----------

  ghost predicate SocketInv(s: System) {
    && (forall h :: h in s.hellos ==> h.socket < s.nextSocket && h.socket !in s.bound)
    && (forall h, k :: h in s.hellos && k in s.hellos && h.socket == k.socket ==> h == k)
    && (forall x :: x in s.bound ==> x < s.nextSocket && s.bound[x] in s.sessions)
    && (forall n :: n in s.sessions && s.sessions[n].current.Some? ==>
          s.sessions[n].current.value in s.bound && s.bound[s.sessions[n].current.value] == n)
    && (forall r :: r in s.replies && r.Ready? ==> r.socket in s.bound && s.bound[r.socket] == r.session)
    && (s.connection.Open? && s.connection.online ==>
          s.connection.socket in s.bound && s.stored == Some(s.bound[s.connection.socket]))
    && (s.connection.Open? ==>
          && s.connection.socket < s.nextSocket
          && (s.stored.Some? && s.connection.socket in s.bound ==> s.stored.value == s.bound[s.connection.socket])
          && (forall h :: h in s.hellos && h.socket == s.connection.socket && s.stored.Some? ==> h.session == s.stored))
  }

  ghost predicate SentUnder(s: System, t: Transmission) {
    && t.socket in s.bound
    && t.command.id in s.under && s.under[t.command.id] == s.bound[t.socket]
    && t.command.id in s.entered && s.entered[t.command.id] == t.command.body
    && ValidClientMessageId(t.command.id)
  }

  ghost predicate SendInv(s: System) {
    && (forall t :: t in s.sent ==> SentUnder(s, t))
    && (forall id :: id in s.under ==> id in s.entered)
    && (forall i :: 0 <= i < |s.outbox.pending| ==> Waiting(s, s.outbox.pending[i]))
  }

  /** A pending command is the one entered, and was sent under no session but the stored one. */
  ghost predicate Waiting(s: System, command: Command<Body>) {
    && command.id in s.entered && s.entered[command.id] == command.body
    && ValidClientMessageId(command.id)
    && (command.id in s.under ==> s.stored == Some(s.under[command.id]))
  }

  /** Every event and every acknowledgement is of a command sent under its session. */
  ghost predicate ReplyInv(s: System) {
    && (forall i :: 0 <= i < |s.log| && s.log[i].Ours? ==>
          s.log[i].id in s.under && s.under[s.log[i].id] == s.log[i].session
          && s.log[i].id in s.entered && s.entered[s.log[i].id].valid)
    && (forall r :: r in s.replies && r.Ack? ==>
          r.id in s.under && IsEvent(s.log, r.sequence, s.under[r.id], r.id))
    && (forall id :: id in s.acked ==> id in s.under && IsEvent(s.log, s.acked[id], s.under[id], id))
  }

  // ---------- Rejected commands ----------

  /** No copy of the command can be accepted any more: every socket it was sent on is done. */
  ghost predicate Spent(s: System, id: ClientId) {
    && id in s.under && s.under[id] in s.sessions
    && id !in s.sessions[s.under[id]].dedupe.sequences
    && (forall t :: t in s.sent && t.command.id == id ==>
          t.socket in s.closed || s.sessions[s.under[id]].current != Some(t.socket))
  }

  ghost predicate RejectInv(s: System) {
    && (forall r :: r in s.replies && r.Rejected? ==> r.socket in s.closed && r.socket in s.bound)
    && (forall r :: r in s.replies && r.Rejected? && s.connection.Open? && s.connection.socket == r.socket ==>
          Spent(s, r.id))
    && (forall id :: id in s.rejected ==> Spent(s, id) && id !in Ids(s.outbox.pending))
  }

  // ---------- Every command is somewhere ----------

  ghost predicate OutboxInv(s: System) {
    && s.outbox.Valid()
    && s.entered.Keys == s.acked.Keys + Ids(s.outbox.pending) + Ids(s.outbox.abandoned) + s.forgotten
    && s.acked.Keys !! Ids(s.outbox.pending) !! Ids(s.outbox.abandoned) !! s.forgotten
    && s.rejected <= Ids(s.outbox.abandoned) + s.forgotten
  }

  ghost predicate Inv(s: System) {
    LogInv(s) && SocketInv(s) && SendInv(s) && ReplyInv(s) && RejectInv(s) && OutboxInv(s)
  }

  lemma InitialInv()
    ensures Inv(INITIAL)
  {
  }

  // ---------- Each step keeps each part ----------

  /** No command is recorded: the log grows by a foreign event at most, new sessions remember nothing. */
  lemma NothingRecorded(s: System, t: System)
    requires LogInv(s) && s.nextSession <= t.nextSession
    requires t.log == s.log || t.log == s.log + [Foreign]
    requires forall n :: n in s.sessions ==> n in t.sessions && t.sessions[n].dedupe == s.sessions[n].dedupe
    requires forall n :: n in t.sessions && n !in s.sessions ==>
               t.sessions[n].dedupe == EmptyDedupe(MAX_DEDUPE_ENTRIES) && n < t.nextSession
    ensures LogInv(t)
  {
    forall i | 0 <= i < |t.log| && t.log[i].Ours? ensures Remembers(t, t.log[i].session, t.log[i].id, i + 1) {
      assert Remembers(s, s.log[i].session, s.log[i].id, i + 1);
    }
    forall n, id | n in t.sessions && id in t.sessions[n].dedupe.sequences
      ensures IsEvent(t.log, t.sessions[n].dedupe.sequences[id], n, id)
    {
      assert IsEvent(s.log, s.sessions[n].dedupe.sequences[id], n, id);
    }
  }

  /** A command is recorded with the sequence of the event that it appends. */
  lemma CommandRecorded(s: System, t: System, number: nat, id: ClientId, window: Dedupe)
    requires LogInv(s) && number in s.sessions && t.nextSession == s.nextSession
    requires id !in s.sessions[number].dedupe.sequences && window.Valid() && window.limit == 1024
    requires window.sequences == s.sessions[number].dedupe.sequences[id := |s.log| + 1]
    requires t.log == s.log + [Ours(number, id)]
    requires t.sessions == s.sessions[number := s.sessions[number].(dedupe := window)]
    ensures LogInv(t)
  {
    hide ValidClientMessageId;
    forall n, other | n in t.sessions && other in t.sessions[n].dedupe.sequences
      ensures IsEvent(t.log, t.sessions[n].dedupe.sequences[other], n, other)
    {
      if n != number || other != id {
        assert IsEvent(s.log, s.sessions[n].dedupe.sequences[other], n, other);
      }
    }
    forall i | 0 <= i < |t.log| && t.log[i].Ours? ensures Remembers(t, t.log[i].session, t.log[i].id, i + 1) {
      if i < |s.log| {
        assert Remembers(s, s.log[i].session, s.log[i].id, i + 1);
      }
    }
  }

  lemma HandleKeepsLog(s: System, transmission: Transmission, limitReached: bool)
    requires LogInv(s) && Enabled(s, Handle(transmission, limitReached)) && ValidClientMessageId(transmission.command.id)
    ensures LogInv(HandleCommand(s, transmission, limitReached))
  {
    hide LogInv, ValidClientMessageId;
    var t := HandleCommand(s, transmission, limitReached);
    var number, id := s.bound[transmission.socket], transmission.command.id;
    var session := s.sessions[number];
    SessionIsValid(s, number);
    if Decide(session, s.log, transmission.command, limitReached).Accepted? {
      RememberAfterPreflight(session.dedupe, id, |s.log| + 1);
      CommandRecorded(s, t, number, id, session.dedupe.Remember(id, |s.log| + 1));
    } else {
      NothingRecorded(s, t);
    }
  }

  lemma SessionIsValid(s: System, number: nat)
    requires LogInv(s) && number in s.sessions
    ensures s.sessions[number].dedupe.Valid() && number < s.nextSession && s.sessions[number].dedupe.limit == 1024
  {
  }

  lemma NextSessionIsNew(s: System)
    requires LogInv(s)
    ensures s.nextSession !in s.sessions
  {
  }

  lemma LogStep(s: System, step: Step)
    requires LogInv(s) && SendInv(s) && Enabled(s, step)
    ensures LogInv(Apply(s, step))
  {
    hide LogInv, Enqueue, Acknowledge, Reject, Abandon, Ids, ValidClientMessageId, HandleCommand;
    match step
    case Handle(transmission, limitReached) =>
      assert SentUnder(s, transmission);
      HandleKeepsLog(s, transmission, limitReached);
    case AcceptFresh(hello) =>
      NextSessionIsNew(s);
      NothingRecorded(s, Apply(s, step));
    case AcceptResume(hello) =>
      SessionIsValid(s, hello.session.value);
      NothingRecorded(s, Apply(s, step));
    case _ => NothingRecorded(s, Apply(s, step));
  }

  /** A binding consumes its hello; a fresh one starts a session, a resuming one returns to it. */
  lemma BindKeepsSockets(s: System, hello: Hello, number: nat, session: Session)
    requires SocketInv(s) && hello in s.hellos
    requires session.current.None?
    requires hello.session.Some? ==> number == hello.session.value && number in s.sessions
    requires hello.session.None? ==> number !in s.sessions
    ensures SocketInv(Bind(s, hello, number, session))
  {
    var t := Bind(s, hello, number, session);
    assert hello.socket !in s.bound;
    forall n | n in t.sessions && t.sessions[n].current.Some?
      ensures t.sessions[n].current.value in t.bound && t.bound[t.sessions[n].current.value] == n
    {
    }
    forall x | x in t.bound ensures x < t.nextSocket && t.bound[x] in t.sessions {
    }
  }

  lemma HandleKeepsSockets(s: System, transmission: Transmission, limitReached: bool)
    requires SocketInv(s) && Enabled(s, Handle(transmission, limitReached))
    ensures SocketInv(HandleCommand(s, transmission, limitReached))
  {
    hide SocketInv;
    var t := HandleCommand(s, transmission, limitReached);
    assert t.sessions.Keys == s.sessions.Keys;
    assert forall n :: n in t.sessions ==> t.sessions[n].current == s.sessions[n].current;
    RepliesKeepSockets(s, t);
  }

  /** Sockets do not depend on the log, nor on what sessions remember, nor on replies to commands. */
  lemma RepliesKeepSockets(s: System, t: System)
    requires SocketInv(s)
    requires t.hellos == s.hellos && t.bound == s.bound && t.nextSocket == s.nextSocket
    requires t.connection == s.connection && t.stored == s.stored && t.sessions.Keys == s.sessions.Keys
    requires forall n :: n in t.sessions ==> t.sessions[n].current == s.sessions[n].current
    requires forall r :: r in t.replies && r.Ready? ==> r in s.replies
    ensures SocketInv(t)
  {
  }

  lemma SessionChangeKeepsSockets(s: System, number: nat, session: Session)
    requires SocketInv(s) && number in s.sessions
    requires session.current.None? || session.current == s.sessions[number].current
    ensures SocketInv(s.(sessions := s.sessions[number := session]))
  {
    var t := s.(sessions := s.sessions[number := session]);
    assert t.sessions.Keys == s.sessions.Keys;
  }

  lemma ConnectKeepsSockets(s: System)
    requires SocketInv(s)
    ensures SocketInv(Apply(s, Connect))
  {
  }

  lemma BrowserKeepsSockets(s: System, t: System)
    requires SocketInv(s)
    requires t.hellos == s.hellos && t.bound == s.bound && t.nextSocket == s.nextSocket && t.sessions == s.sessions
    requires t.replies == s.replies
    requires (t.connection == s.connection && t.stored == s.stored)
      || t.connection == Offline
      || (s.connection.Open? && t.connection == s.connection.(online := false) && t.stored.None?)
      || (s.connection.Open? && t.connection == s.connection.(online := true) && t.stored.Some?
          && Ready(s.connection.socket, t.stored.value) in s.replies)
    ensures SocketInv(t)
  {
  }

  lemma AcceptKeepsSockets(s: System, step: Step)
    requires LogInv(s) && SocketInv(s) && Enabled(s, step) && (step.AcceptFresh? || step.AcceptResume?)
    ensures SocketInv(Apply(s, step))
  {
    hide SocketInv, Enqueue, Acknowledge, Reject, Abandon, Ids, HandleCommand;
    if step.AcceptFresh? {
      var session := Session(EmptyDedupe(MAX_DEDUPE_ENTRIES), None, false);
      BindKeepsSockets(s, step.hello, s.nextSession, session);
      NextSessionKeepsSockets(Bind(s, step.hello, s.nextSession, session));
    } else {
      var number := step.hello.session.value;
      BindKeepsSockets(s, step.hello, number, s.sessions[number]);
    }
  }

  lemma NextSessionKeepsSockets(s: System)
    requires SocketInv(s)
    ensures SocketInv(s.(nextSession := s.nextSession + 1))
  {
  }

  lemma SocketStep(s: System, step: Step)
    requires LogInv(s) && SocketInv(s) && Enabled(s, step)
    ensures SocketInv(Apply(s, step))
  {
    hide LogInv, Enqueue, Acknowledge, Reject, Abandon, Ids, HandleCommand, Bind;
    match step {
      case AcceptFresh(_) => AcceptKeepsSockets(s, step);
      case AcceptResume(_) => AcceptKeepsSockets(s, step);
      case Handle(transmission, limitReached) => HandleKeepsSockets(s, transmission, limitReached);
      case DetachSession(n) => SessionChangeKeepsSockets(s, n, s.sessions[n].(current := None));
      case ExpireSession(n) => SessionChangeKeepsSockets(s, n, s.sessions[n].(expired := true));
      case Connect => ConnectKeepsSockets(s);
      case _ => BrowserKeepsSockets(s, Apply(s, step));
    }
  }

  lemma TransmitKeepsSend(s: System, index: nat)
    requires SocketInv(s) && SendInv(s) && Enabled(s, Transmit(index))
    ensures SendInv(Apply(s, Transmit(index)))
  {
    var t := Apply(s, Transmit(index));
    var command := s.outbox.pending[index];
    assert Waiting(s, command);
    forall x | x in t.sent ensures SentUnder(t, x) {
      if x in s.sent {
        assert SentUnder(s, x);
      }
    }
    forall i | 0 <= i < |t.outbox.pending| ensures Waiting(t, t.outbox.pending[i]) {
      assert Waiting(s, s.outbox.pending[i]);
    }
  }

  lemma EnterKeepsSend(s: System, command: Command<Body>)
    requires SendInv(s) && OutboxInv(s) && Enabled(s, Enter(command))
    ensures SendInv(Apply(s, Enter(command)))
  {
    var t := Apply(s, Enter(command));
    forall x | x in t.sent ensures SentUnder(t, x) {
      assert SentUnder(s, x);
    }
    NotPending(s.outbox, command.id);
    assert t.outbox.pending == s.outbox.pending + [command];
    forall i | 0 <= i < |t.outbox.pending| ensures Waiting(t, t.outbox.pending[i]) {
      if i < |s.outbox.pending| {
        assert Waiting(s, s.outbox.pending[i]);
      }
    }
  }

  lemma NotPending(outbox: Outbox<Body>, id: ClientId)
    ensures id !in Ids(outbox.pending) <==> IndexOf(outbox.pending, id) == |outbox.pending|
  {
    var index := IndexOf(outbox.pending, id);
    if index < |outbox.pending| {
      assert outbox.pending[index].id in Ids(outbox.pending);
    }
  }

  /** Steps that only drop pending commands, or leave transmissions alone. */
  lemma OtherKeepsSend(s: System, t: System)
    requires SocketInv(s) && SendInv(s)
    requires t.sent == s.sent && t.under == s.under && t.entered == s.entered
    requires s.bound.Keys <= t.bound.Keys && (forall x :: x in s.bound ==> t.bound[x] == s.bound[x])
    requires forall i :: 0 <= i < |t.outbox.pending| ==> t.outbox.pending[i] in s.outbox.pending
    requires t.stored == s.stored || (s.stored.None? && t.stored.Some? && NothingSent(s))
      || t.outbox.pending == []
    ensures SendInv(t)
  {
    forall x | x in t.sent ensures SentUnder(t, x) {
      assert SentUnder(s, x);
    }
    forall i | 0 <= i < |t.outbox.pending| ensures Waiting(t, t.outbox.pending[i]) {
      var command := t.outbox.pending[i];
      assert command in s.outbox.pending;
      var j :| 0 <= j < |s.outbox.pending| && s.outbox.pending[j] == command;
      assert Waiting(s, s.outbox.pending[j]);
    }
  }

  ghost predicate NothingSent(s: System) {
    forall i :: 0 <= i < |s.outbox.pending| ==> s.outbox.pending[i].id !in s.under
  }

  lemma {:induction false} WithoutIsPart(commands: seq<Command<Body>>, id: ClientId)
    ensures forall i :: 0 <= i < |Without(commands, id)| ==> Without(commands, id)[i] in commands
  {
  }

  lemma ServerKeepsSend(s: System, step: Step)
    requires SocketInv(s) && SendInv(s) && Enabled(s, step)
    requires step.AcceptFresh? || step.AcceptResume? || step.DetachSession? || step.ExpireSession?
      || step.Handle? || step.PublishForeign?
    ensures SendInv(Apply(s, step))
  {
    hide Enqueue, Acknowledge, Reject, Abandon, Ids, SendInv, SocketInv;
    var t := Apply(s, step);
    assert t.outbox == s.outbox && t.stored == s.stored;
    assert t.sent == s.sent && t.under == s.under && t.entered == s.entered;
    BoundGrows(s, step);
    OtherKeepsSend(s, t);
  }

  lemma BoundGrows(s: System, step: Step)
    requires SocketInv(s) && Enabled(s, step)
    ensures var t := Apply(s, step);
      s.bound.Keys <= t.bound.Keys && forall x :: x in s.bound ==> t.bound[x] == s.bound[x]
  {
    hide Enqueue, Acknowledge, Reject, Abandon, Ids, Decide;
    assert forall h :: h in s.hellos ==> h.socket !in s.bound;
  }

  lemma ReadyKeepsSend(s: System, session: nat)
    requires SocketInv(s) && SendInv(s) && Enabled(s, ReceiveReady(session))
    ensures SendInv(Apply(s, ReceiveReady(session)))
  {
    if s.stored.None? {
      forall i | 0 <= i < |s.outbox.pending| ensures s.outbox.pending[i].id !in s.under {
        assert Waiting(s, s.outbox.pending[i]);
      }
      assert NothingSent(s);
    } else {
      assert s.bound[s.connection.socket] == session;
    }
    OtherKeepsSend(s, Apply(s, ReceiveReady(session)));
  }

  lemma SendStep(s: System, step: Step)
    requires SocketInv(s) && SendInv(s) && OutboxInv(s) && Enabled(s, step)
    ensures SendInv(Apply(s, step))
  {
    match step {
      case Transmit(index) => TransmitKeepsSend(s, index);
      case Enter(command) => EnterKeepsSend(s, command);
      case ReceiveReady(session) => ReadyKeepsSend(s, session);
      case ReceiveAck(id, _) =>
        WithoutIsPart(s.outbox.pending, id);
        OtherKeepsSend(s, Apply(s, step));
      case ReceiveRejection(id) =>
        WithoutIsPart(s.outbox.pending, id);
        OtherKeepsSend(s, Apply(s, step));
      case Connect => OtherKeepsSend(s, Apply(s, step));
      case Disconnect => OtherKeepsSend(s, Apply(s, step));
      case GiveUpSession => OtherKeepsSend(s, Apply(s, step));
      case Reload => OtherKeepsSend(s, Apply(s, step));
      case _ => ServerKeepsSend(s, step);
    }
  }

  // ---------- Replies ----------

  lemma HandleKeepsReplies(s: System, transmission: Transmission, limitReached: bool)
    requires LogInv(s) && SendInv(s) && ReplyInv(s) && Enabled(s, Handle(transmission, limitReached))
    ensures ReplyInv(HandleCommand(s, transmission, limitReached))
  {
    var t := HandleCommand(s, transmission, limitReached);
    var number, id := s.bound[transmission.socket], transmission.command.id;
    assert SentUnder(s, transmission);
    if id in s.sessions[number].dedupe.sequences {
      assert IsEvent(s.log, s.sessions[number].dedupe.sequences[id], number, id);
    }
    forall r | r in t.replies && r.Ack? ensures r.id in t.under && IsEvent(t.log, r.sequence, t.under[r.id], r.id) {
      if r in s.replies {
        assert IsEvent(s.log, r.sequence, s.under[r.id], r.id);
      }
    }
    forall other | other in t.acked ensures IsEvent(t.log, t.acked[other], t.under[other], other) {
      assert IsEvent(s.log, s.acked[other], s.under[other], other);
    }
  }

  lemma GrowingKeepsReplies(s: System, t: System)
    requires ReplyInv(s)
    requires s.log <= t.log && (forall i :: |s.log| <= i < |t.log| ==> t.log[i].Foreign?)
    requires s.under.Keys <= t.under.Keys && (forall id :: id in s.under ==> t.under[id] == s.under[id])
    requires s.entered.Keys <= t.entered.Keys && (forall id :: id in s.entered ==> t.entered[id] == s.entered[id])
    requires forall r :: r in t.replies && r.Ack? ==> r in s.replies
    requires forall id :: id in t.acked ==>
      ((id in s.acked && t.acked[id] == s.acked[id]) || (exists socket :: Ack(socket, id, t.acked[id]) in s.replies))
    ensures ReplyInv(t)
  {
    forall r | r in t.replies && r.Ack? ensures r.id in t.under && IsEvent(t.log, r.sequence, t.under[r.id], r.id) {
      assert IsEvent(s.log, r.sequence, s.under[r.id], r.id);
    }
    forall id | id in t.acked ensures id in t.under && IsEvent(t.log, t.acked[id], t.under[id], id) {
      if id in s.acked && t.acked[id] == s.acked[id] {
        assert IsEvent(s.log, s.acked[id], s.under[id], id);
      } else {
        var socket :| Ack(socket, id, t.acked[id]) in s.replies;
        assert IsEvent(s.log, t.acked[id], s.under[id], id);
      }
    }
  }

  lemma ReplyStep(s: System, step: Step)
    requires LogInv(s) && SendInv(s) && ReplyInv(s) && Enabled(s, step)
    ensures ReplyInv(Apply(s, step))
  {
    if step.Handle? {
      HandleKeepsReplies(s, step.transmission, step.limitReached);
    } else {
      if step.ReceiveAck? {
        assert Ack(s.connection.socket, step.id, step.sequence) in s.replies;
      }
      GrowingKeepsReplies(s, Apply(s, step));
    }
  }

  // ---------- Rejections ----------

  /** What may change without reviving a spent command. */
  lemma StaysSpent(s: System, t: System, id: ClientId)
    requires Spent(s, id)
    requires s.under.Keys <= t.under.Keys && (forall x :: x in s.under ==> t.under[x] == s.under[x])
    requires s.closed <= t.closed
    requires s.under[id] in t.sessions
    requires id !in t.sessions[s.under[id]].dedupe.sequences
    requires forall x :: x in t.sent && x.command.id == id ==> x in s.sent || x.socket in t.closed
    requires var was, now := s.sessions[s.under[id]].current, t.sessions[s.under[id]].current;
      now == was || now.None? || (forall x :: x in s.sent ==> now != Some(x.socket))
    ensures Spent(t, id)
  {
  }

  lemma HandleKeepsSpent(s: System, transmission: Transmission, limitReached: bool, id: ClientId)
    requires SocketInv(s) && SendInv(s) && Spent(s, id) && Enabled(s, Handle(transmission, limitReached))
    ensures Spent(HandleCommand(s, transmission, limitReached), id)
  {
    assert SentUnder(s, transmission);
    StaysSpent(s, HandleCommand(s, transmission, limitReached), id);
  }

  /** A refused command is spent: its socket is closed and no other copy is on the current one. */
  lemma RefusalSpends(s: System, transmission: Transmission, limitReached: bool)
    requires LogInv(s) && SocketInv(s) && SendInv(s) && ReplyInv(s) && Enabled(s, Handle(transmission, limitReached))
    requires Decide(s.sessions[s.bound[transmission.socket]], s.log, transmission.command, limitReached).Refused?
    ensures Spent(HandleCommand(s, transmission, limitReached), transmission.command.id)
  {
    var number, id := s.bound[transmission.socket], transmission.command.id;
    assert SentUnder(s, transmission);
    forall other | other in s.sessions[number].dedupe.sequences ensures other in s.entered && s.entered[other].valid {
      RememberedIsValid(s, number, other);
    }
  }

  lemma RememberedIsValid(s: System, number: nat, id: ClientId)
    requires LogInv(s) && ReplyInv(s) && number in s.sessions && id in s.sessions[number].dedupe.sequences
    ensures id in s.entered && s.entered[id].valid
  {
    var sequence := s.sessions[number].dedupe.sequences[id];
    assert IsEvent(s.log, sequence, number, id);
    assert s.log[sequence - 1].Ours?;
  }

  lemma HandleKeepsRejections(s: System, transmission: Transmission, limitReached: bool)
    requires LogInv(s) && SocketInv(s) && SendInv(s) && ReplyInv(s) && RejectInv(s)
    requires Enabled(s, Handle(transmission, limitReached))
    ensures RejectInv(HandleCommand(s, transmission, limitReached))
  {
    var t := HandleCommand(s, transmission, limitReached);
    if Decide(s.sessions[s.bound[transmission.socket]], s.log, transmission.command, limitReached).Refused? {
      RefusalSpends(s, transmission, limitReached);
    }
    forall r | r in t.replies && r.Rejected? && t.connection.Open? && t.connection.socket == r.socket
      ensures Spent(t, r.id)
    {
      if r in s.replies {
        HandleKeepsSpent(s, transmission, limitReached, r.id);
      }
    }
    forall id | id in t.rejected ensures Spent(t, id) {
      HandleKeepsSpent(s, transmission, limitReached, id);
    }
  }

  lemma SentIsBound(s: System)
    requires SendInv(s)
    ensures forall x :: x in s.sent ==> x.socket in s.bound
  {
    forall x | x in s.sent ensures x.socket in s.bound {
      assert SentUnder(s, x);
    }
  }

  lemma BindKeepsSpent(s: System, hello: Hello, number: nat, session: Session, id: ClientId)
    requires SocketInv(s) && SendInv(s) && Spent(s, id) && hello in s.hellos
    requires number in s.sessions ==> session == s.sessions[number]
    ensures Spent(Bind(s, hello, number, session), id)
  {
    SentIsBound(s);
    StaysSpent(s, Bind(s, hello, number, session), id);
  }

  lemma AcceptKeepsSpent(s: System, step: Step, id: ClientId)
    requires LogInv(s) && SocketInv(s) && SendInv(s) && Spent(s, id) && Enabled(s, step)
    requires step.AcceptFresh? || step.AcceptResume?
    ensures Spent(Apply(s, step), id)
  {
    hide SocketInv, SendInv, Spent, HandleCommand, Enqueue, Acknowledge, Reject, Abandon, Ids;
    if step.AcceptFresh? {
      var session := Session(EmptyDedupe(MAX_DEDUPE_ENTRIES), None, false);
      BindKeepsSpent(s, step.hello, s.nextSession, session, id);
      NextSessionKeepsSpent(Bind(s, step.hello, s.nextSession, session), id);
    } else {
      var number := step.hello.session.value;
      BindKeepsSpent(s, step.hello, number, s.sessions[number], id);
    }
  }

  lemma NextSessionKeepsSpent(s: System, id: ClientId)
    requires Spent(s, id)
    ensures Spent(s.(nextSession := s.nextSession + 1), id)
  {
  }

  lemma ServerKeepsSpent(s: System, step: Step, id: ClientId)
    requires LogInv(s) && SocketInv(s) && SendInv(s) && Spent(s, id) && Enabled(s, step)
    requires step.AcceptFresh? || step.AcceptResume? || step.DetachSession? || step.ExpireSession? || step.PublishForeign?
    ensures Spent(Apply(s, step), id)
  {
    hide LogInv, SocketInv, SendInv, HandleCommand, Enqueue, Acknowledge, Reject, Abandon, Ids, Bind;
    if step.AcceptFresh? || step.AcceptResume? {
      AcceptKeepsSpent(s, step, id);
    } else {
      StaysSpent(s, Apply(s, step), id);
    }
  }

  lemma BrowserKeepsSpent(s: System, step: Step, id: ClientId)
    requires Spent(s, id) && Enabled(s, step)
    requires step.Enter? || step.Transmit? || step.Connect? || step.Disconnect? || step.GiveUpSession? || step.Reload?
      || step.ReceiveReady? || step.ReceiveAck? || step.ReceiveRejection?
    requires step.Transmit? && s.outbox.pending[step.index].id == id ==> s.connection.socket in s.closed
    ensures Spent(Apply(s, step), id)
  {
    StaysSpent(s, Apply(s, step), id);
  }

  lemma OtherKeepsSpent(s: System, step: Step, id: ClientId)
    requires LogInv(s) && SocketInv(s) && SendInv(s) && Spent(s, id) && Enabled(s, step) && !step.Handle?
    requires step.Transmit? && s.outbox.pending[step.index].id == id ==> s.connection.socket in s.closed
    ensures Spent(Apply(s, step), id)
  {
    if step.AcceptFresh? || step.AcceptResume? || step.DetachSession? || step.ExpireSession? || step.PublishForeign? {
      ServerKeepsSpent(s, step, id);
    } else {
      BrowserKeepsSpent(s, step, id);
    }
  }

  /** The rejections in the network and the connection they concern, before and after a step. */
  lemma OtherKeepsRejections(s: System, step: Step)
    requires LogInv(s) && SocketInv(s) && SendInv(s) && RejectInv(s) && Enabled(s, step) && !step.Handle?
    ensures var t := Apply(s, step);
      && (forall r :: r in t.replies && r.Rejected? ==> r.socket in t.closed && r.socket in t.bound)
      && (forall r :: r in t.replies && r.Rejected? && t.connection.Open? && t.connection.socket == r.socket ==>
            Spent(t, r.id))
  {
    hide Enqueue, Acknowledge, Reject, Abandon, Ids, ValidClientMessageId, Decide, HandleCommand, Spent, LogInv, SendInv;
    var t := Apply(s, step);
    assert forall r :: r in t.replies && r.Rejected? ==> r in s.replies;
    assert s.bound.Keys <= t.bound.Keys && s.closed == t.closed;
    if !step.Connect? {
      forall r | r in t.replies && r.Rejected? && t.connection.Open? && t.connection.socket == r.socket
        ensures Spent(t, r.id)
      {
        OtherKeepsSpent(s, step, r.id);
      }
    }
  }

  /** An id that was rejected does not return to the outbox. */
  lemma RejectedIsNotPending(s: System, step: Step, id: ClientId)
    requires OutboxInv(s) && Enabled(s, step) && !step.Handle? && id in Apply(s, step).rejected
    requires id in s.rejected ==> id !in Ids(s.outbox.pending)
    ensures id !in Ids(Apply(s, step).outbox.pending)
    ensures step.Transmit? ==> s.outbox.pending[step.index].id != id
  {
    hide Enqueue, Acknowledge, Reject, Abandon, Ids;
    OutboxConserves(s.outbox, if step.ReceiveAck? || step.ReceiveRejection? then step.id else "");
    if step.Enter? {
      EnqueueAdds(s.outbox, step.command);
      assert id in s.entered;
    } else if step.Transmit? {
      HeldId(s.outbox.pending, step.index);
    } else if step.Reload? {
      NoIds();
    }
  }

  lemma NoIds()
    ensures Ids<Body>([]) == {}
  {
  }

  lemma HeldId(commands: seq<Command<Body>>, index: nat)
    requires index < |commands|
    ensures commands[index].id in Ids(commands)
  {
  }

  lemma RejectedStaysRejected(s: System, step: Step, id: ClientId)
    requires Inv(s) && Enabled(s, step) && !step.Handle? && id in Apply(s, step).rejected
    ensures Spent(Apply(s, step), id) && id !in Ids(Apply(s, step).outbox.pending)
  {
    hide Enqueue, Acknowledge, Reject, Abandon, Ids, Spent, OutboxInv, LogInv, SendInv, SocketInv, ReplyInv;
    RejectedIsNotPending(s, step, id);
    if id !in s.rejected {
      assert Rejected(s.connection.socket, id) in s.replies;
    }
    OtherKeepsSpent(s, step, id);
  }

  lemma RejectStep(s: System, step: Step)
    requires Inv(s) && Enabled(s, step)
    ensures RejectInv(Apply(s, step))
  {
    if step.Handle? {
      HandleKeepsRejections(s, step.transmission, step.limitReached);
    } else {
      OtherKeepsRejections(s, step);
      forall id | id in Apply(s, step).rejected
        ensures Spent(Apply(s, step), id) && id !in Ids(Apply(s, step).outbox.pending)
      {
        RejectedStaysRejected(s, step, id);
      }
    }
  }

  // ---------- Conservation ----------

  /** The browser's steps on its outbox move ids from one place to another. */
  lemma OutboxMoves(s: System, step: Step)
    requires OutboxInv(s) && Enabled(s, step)
    requires step.Enter? || step.ReceiveAck? || step.ReceiveRejection? || step.GiveUpSession? || step.Reload?
    ensures OutboxInv(Apply(s, step))
  {
    hide HandleCommand, Bind, Enqueue, Acknowledge, Reject, Abandon, Ids;
    if step.Enter? {
      EnqueueAdds(s.outbox, step.command);
    } else if step.Reload? {
      NoIds();
    } else {
      OutboxConserves(s.outbox, if step.GiveUpSession? then "" else step.id);
    }
  }

  lemma OutboxStep(s: System, step: Step)
    requires OutboxInv(s) && Enabled(s, step)
    ensures OutboxInv(Apply(s, step))
  {
    hide OutboxInv, Enqueue, Acknowledge, Reject, Abandon, Ids, Decide;
    if step.Enter? || step.ReceiveAck? || step.ReceiveRejection? || step.GiveUpSession? || step.Reload? {
      OutboxMoves(s, step);
    } else {
      SameOutboxKeeps(s, Apply(s, step));
    }
  }

  lemma SameOutboxKeeps(s: System, t: System)
    requires OutboxInv(s) && t.outbox == s.outbox && t.entered == s.entered
    requires t.acked == s.acked && t.rejected == s.rejected && t.forgotten == s.forgotten
    ensures OutboxInv(t)
  {
    hide Ids;
  }

  lemma StepKeepsInv(s: System, step: Step)
    requires Inv(s) && Enabled(s, step)
    ensures Inv(Apply(s, step))
  {
    LogStep(s, step);
    SocketStep(s, step);
    SendStep(s, step);
    ReplyStep(s, step);
    RejectStep(s, step);
    OutboxStep(s, step);
  }

  lemma {:induction false} RunKeepsInv(s: System, steps: seq<Step>)
    requires Inv(s) && Runs(s, steps)
    ensures Inv(Run(s, steps))
    decreases |steps|
  {
    if steps != [] {
      StepKeepsInv(s, steps[0]);
      RunKeepsInv(Apply(s, steps[0]), steps[1..]);
    }
  }

  // ---------- The result ----------

  ghost predicate InLog(log: seq<Event>, id: ClientId) {
    exists i :: 0 <= i < |log| && log[i].Ours? && log[i].id == id
  }

  /**
   In every run: a command has at most one event in the log; an acknowledged command has
   exactly one, and every acknowledgement of it carries that event's sequence; a rejected
   command has none, now or later; a command is sent under one session only; and every
   command entered is in exactly one of acknowledged, pending, abandoned and forgotten by a
   reload of the page, with at most 100 pending.
   */
  lemma CommandsTakeEffectOnce(steps: seq<Step>)
    requires Runs(INITIAL, steps)
    ensures var s := Run(INITIAL, steps);
      && (forall i, j :: 0 <= i < j < |s.log| && s.log[i].Ours? && s.log[j].Ours? ==> s.log[i].id != s.log[j].id)
      && (forall id :: id in s.acked ==>
            0 < s.acked[id] <= |s.log| && s.log[s.acked[id] - 1].Ours? && s.log[s.acked[id] - 1].id == id)
      && (forall r :: r in s.replies && r.Ack? ==>
            0 < r.sequence <= |s.log| && s.log[r.sequence - 1].Ours? && s.log[r.sequence - 1].id == r.id)
      && (forall r :: r in s.replies && r.Ack? && r.id in s.acked ==> r.sequence == s.acked[r.id])
      && (forall id :: id in s.rejected ==> !InLog(s.log, id))
      && (forall t, u :: t in s.sent && u in s.sent && t.command.id == u.command.id ==>
            t.socket in s.bound && u.socket in s.bound && s.bound[t.socket] == s.bound[u.socket])
      && s.entered.Keys == s.acked.Keys + Ids(s.outbox.pending) + Ids(s.outbox.abandoned) + s.forgotten
      && (s.acked.Keys !! Ids(s.outbox.pending) !! Ids(s.outbox.abandoned) !! s.forgotten)
      && s.rejected <= Ids(s.outbox.abandoned) + s.forgotten
      && |s.outbox.pending| <= MAX_OUTBOX
  {
    InitialInv();
    RunKeepsInv(INITIAL, steps);
    var s := Run(INITIAL, steps);
    forall i, j | 0 <= i < j < |s.log| && s.log[i].Ours? && s.log[j].Ours? ensures s.log[i].id != s.log[j].id {
      OneEvent(s, i, j);
    }
    forall id | id in s.acked
      ensures 0 < s.acked[id] <= |s.log| && s.log[s.acked[id] - 1].Ours? && s.log[s.acked[id] - 1].id == id
    {
      assert IsEvent(s.log, s.acked[id], s.under[id], id);
    }
    forall r | r in s.replies && r.Ack? && r.id in s.acked ensures r.sequence == s.acked[r.id] {
      assert IsEvent(s.log, r.sequence, s.under[r.id], r.id);
      OneEvent(s, r.sequence - 1, s.acked[r.id] - 1);
    }
    forall id | id in s.rejected ensures !InLog(s.log, id) {
      NoEvent(s, id);
    }
    forall t, u | t in s.sent && u in s.sent && t.command.id == u.command.id
      ensures t.socket in s.bound && u.socket in s.bound && s.bound[t.socket] == s.bound[u.socket]
    {
      assert SentUnder(s, t) && SentUnder(s, u);
    }
  }

  lemma OneEvent(s: System, i: nat, j: nat)
    requires Inv(s) && i < |s.log| && j < |s.log|
    requires s.log[i].Ours? && s.log[j].Ours?
    ensures s.log[i].id == s.log[j].id ==> i == j
  {
    assert Remembers(s, s.log[i].session, s.log[i].id, i + 1);
    assert Remembers(s, s.log[j].session, s.log[j].id, j + 1);
  }

  lemma NoEvent(s: System, id: ClientId)
    requires Inv(s) && Spent(s, id)
    ensures !InLog(s.log, id)
  {
    forall i | 0 <= i < |s.log| && s.log[i].Ours?
      ensures s.log[i].id in s.under && Remembers(s, s.under[s.log[i].id], s.log[i].id, i + 1)
    {
      assert Remembers(s, s.log[i].session, s.log[i].id, i + 1);
    }
  }

  // ---------- What the handler does ----------

  /** A command is refused for its body, or, being new, for want of space or over the limit. */
  predicate MustRefuse(recorded: map<ClientId, nat>, command: Command<Body>, limitReached: bool) {
    || !command.body.valid
    || (command.id !in recorded && (|recorded| >= 1024 || (command.body.FileShare? && limitReached)))
  }

  lemma DecidesExactly(session: Session, log: seq<Event>, command: Command<Body>, limitReached: bool)
    requires session.dedupe.Valid() && session.dedupe.limit == 1024 && ValidClientMessageId(command.id)
    ensures var recorded, outcome := session.dedupe.sequences, Decide(session, log, command, limitReached);
      if MustRefuse(recorded, command, limitReached) then outcome == Refused
      else if command.id in recorded then outcome == Repeated(recorded[command.id])
      else if |log| == 0xFFFF_FFFF_FFFF_FFFF then outcome == Exhausted
      else
        && outcome == Accepted(|log| + 1)
        && session.dedupe.Remember(command.id, |log| + 1).sequences == recorded[command.id := |log| + 1]
  {
    FullWhenRecorded(session.dedupe);
  }

  lemma HandlesOne(s: System, transmission: Transmission, limitReached: bool)
    requires LogInv(s) && Enabled(s, Handle(transmission, limitReached))
    requires ValidClientMessageId(transmission.command.id)
    ensures var next := HandleCommand(s, transmission, limitReached);
      var socket, id := transmission.socket, transmission.command.id;
      var number := s.bound[socket];
      var recorded := s.sessions[number].dedupe.sequences;
      if MustRefuse(recorded, transmission.command, limitReached) then
        next == s.(closed := s.closed + {socket}, replies := s.replies + {Rejected(socket, id)})
      else if id in recorded then
        next == s.(replies := s.replies + {Ack(socket, id, recorded[id])})
      else if |s.log| == 0xFFFF_FFFF_FFFF_FFFF then
        next == s
      else
        && next == s.(log := s.log + [Ours(number, id)], sessions := next.sessions,
                      replies := s.replies + {Ack(socket, id, |s.log| + 1)})
        && next.sessions.Keys == s.sessions.Keys
        && (forall n :: n in s.sessions && n != number ==> next.sessions[n] == s.sessions[n])
        && next.sessions[number].dedupe.sequences == recorded[id := |s.log| + 1]
        && next.sessions[number] == s.sessions[number].(dedupe := next.sessions[number].dedupe)
  {
    hide Decide, MustRefuse, ValidClientMessageId, Dedupe.Valid, Dedupe.Remember;
    DecidesExactly(s.sessions[s.bound[transmission.socket]], s.log, transmission.command, limitReached);
  }

  /**
   In every run, what handling a command does.  It is refused, and its socket closed, exactly
   when its body is invalid, or it is new and 1024 commands are recorded or a file share meets
   the limit.  A recorded command is acknowledged again with its sequence and changes nothing
   else.  Any other gets the next sequence: its event is appended to the log, it is recorded
   with the sequence and acknowledged with it.
   */
  lemma HandlerIsExact(steps: seq<Step>, transmission: Transmission, limitReached: bool)
    requires Runs(INITIAL, steps) && Enabled(Run(INITIAL, steps), Handle(transmission, limitReached))
    ensures var s := Run(INITIAL, steps);
      var next := Apply(s, Handle(transmission, limitReached));
      var socket, command := transmission.socket, transmission.command;
      var number, id := s.bound[socket], command.id;
      var recorded := s.sessions[number].dedupe.sequences;
      var refused := !command.body.valid
        || (id !in recorded && (|recorded| >= 1024 || (command.body.FileShare? && limitReached)));
      && (socket in next.closed <==> refused)
      && (refused ==> next == s.(closed := s.closed + {socket}, replies := s.replies + {Rejected(socket, id)}))
      && (!refused && id in recorded ==> next == s.(replies := s.replies + {Ack(socket, id, recorded[id])}))
      && (!refused && id !in recorded && |s.log| < 0xFFFF_FFFF_FFFF_FFFF ==>
            && next.log == s.log + [Ours(number, id)] && next.closed == s.closed
            && next.sessions[number].dedupe.sequences == recorded[id := |s.log| + 1]
            && next.replies == s.replies + {Ack(socket, id, |s.log| + 1)})
      && (!refused && id !in recorded && |s.log| == 0xFFFF_FFFF_FFFF_FFFF ==> next == s)
  {
    hide Runs, Run, LogInv, SocketInv, ReplyInv, RejectInv, OutboxInv, HandleCommand, ValidClientMessageId;
    InitialInv();
    RunKeepsInv(INITIAL, steps);
    assert SentUnder(Run(INITIAL, steps), transmission);
    HandlesOne(Run(INITIAL, steps), transmission, limitReached);
  }

  // ---------- Progress ----------

  lemma RunNone(s: System)
    ensures Runs(s, []) && Run(s, []) == s
  {
  }

  lemma RunOn(s: System, step: Step, rest: seq<Step>)
    requires Enabled(s, step) && Runs(Apply(s, step), rest)
    ensures Runs(s, [step] + rest) && Run(s, [step] + rest) == Run(Apply(s, step), rest)
  {
    hide Enabled, Apply;
    assert ([step] + rest)[1..] == rest;
  }

  /** The browser is online on a socket that its session is bound to. */
  ghost predicate Connected(s: System) {
    && s.connection.Open? && s.connection.online
    && s.connection.socket in s.bound && s.connection.socket !in s.closed
    && s.bound[s.connection.socket] in s.sessions
    && s.sessions[s.bound[s.connection.socket]].current == Some(s.connection.socket)
  }

  /** The session remembers the command, or has space for it and the room for its event. */
  ghost predicate CanTake(s: System, session: Session, id: ClientId) {
    id in session.dedupe.sequences || (|session.dedupe.sequences| < 1024 && |s.log| < 0xFFFF_FFFF_FFFF_FFFF)
  }

  /** The command has taken effect, and the browser knows it. */
  ghost predicate Succeeded(s: System, id: ClientId) {
    && id in s.acked && id !in Ids(s.outbox.pending)
    && 0 < s.acked[id] <= |s.log| && s.log[s.acked[id] - 1].Ours? && s.log[s.acked[id] - 1].id == id
  }

  /** A transmission that is about to be handled, and the acknowledgement it will get. */
  lemma HandledIsAcked(s: System, transmission: Transmission) returns (sequence: nat)
    requires LogInv(s) && Enabled(s, Handle(transmission, false)) && ValidClientMessageId(transmission.command.id)
    requires transmission.command.body.valid
    requires CanTake(s, s.sessions[s.bound[transmission.socket]], transmission.command.id)
    ensures var next := Apply(s, Handle(transmission, false));
      && Ack(transmission.socket, transmission.command.id, sequence) in next.replies
      && 0 < sequence <= |next.log|
      && next.log[sequence - 1] == Ours(s.bound[transmission.socket], transmission.command.id)
      && next.outbox == s.outbox && next.connection == s.connection && next.acked == s.acked
  {
    hide LogInv, ValidClientMessageId, HandleCommand;
    HandlesOne(s, transmission, false);
    var id, number := transmission.command.id, s.bound[transmission.socket];
    if id in s.sessions[number].dedupe.sequences {
      sequence := s.sessions[number].dedupe.sequences[id];
      assert IsEvent(s.log, sequence, number, id) by { RecordedIsEvent(s, number, id); }
    } else {
      sequence := |s.log| + 1;
    }
  }

  lemma RecordedIsEvent(s: System, number: nat, id: ClientId)
    requires LogInv(s) && number in s.sessions && id in s.sessions[number].dedupe.sequences
    ensures IsEvent(s.log, s.sessions[number].dedupe.sequences[id], number, id)
  {
  }

  lemma AckSettles(s: System, id: ClientId, sequence: nat)
    requires Enabled(s, ReceiveAck(id, sequence)) && s.outbox.Valid() && id in Ids(s.outbox.pending)
    requires 0 < sequence <= |s.log| && s.log[sequence - 1].Ours? && s.log[sequence - 1].id == id
    ensures Succeeded(Apply(s, ReceiveAck(id, sequence)), id)
  {
    hide Acknowledge;
    OutboxConserves(s.outbox, id);
  }

  /** A pending command of a connected browser can be sent, and the copy handled. */
  lemma TransmitReaches(s: System, index: nat)
    requires Connected(s) && index < |s.outbox.pending|
    ensures Enabled(s, Transmit(index))
    ensures var a, t := Apply(s, Transmit(index)), Transmission(s.connection.socket, s.outbox.pending[index]);
      && Enabled(a, Handle(t, false)) && a.log == s.log && a.sessions == s.sessions && a.nextSession == s.nextSession
      && a.outbox == s.outbox && a.connection == s.connection && a.bound == s.bound
  {
  }

  lemma RunThree(s: System, x: Step, y: Step, z: Step) returns (more: seq<Step>)
    requires Enabled(s, x) && Enabled(Apply(s, x), y) && Enabled(Apply(Apply(s, x), y), z)
    ensures Runs(s, more) && Run(s, more) == Apply(Apply(Apply(s, x), y), z)
  {
    hide Enabled, Apply, Runs, Run;
    var a := Apply(s, x);
    var b := Apply(a, y);
    RunNone(Apply(b, z));
    RunOn(b, z, []);
    RunOn(a, y, [z] + []);
    RunOn(s, x, [y] + ([z] + []));
    more := [x] + ([y] + ([z] + []));
  }

  lemma AckArrives(s: System, socket: nat, id: ClientId, sequence: nat)
    requires s.connection.Open? && s.connection.socket == socket && Ack(socket, id, sequence) in s.replies
    ensures Enabled(s, ReceiveAck(id, sequence))
  {
  }

  /** Transmit, handle, receive. */
  lemma OnlineSucceeds(s: System, index: nat) returns (more: seq<Step>)
    requires Inv(s) && Connected(s) && index < |s.outbox.pending| && s.outbox.pending[index].body.valid
    requires CanTake(s, s.sessions[s.bound[s.connection.socket]], s.outbox.pending[index].id)
    ensures Runs(s, more) && Succeeded(Run(s, more), s.outbox.pending[index].id)
  {
    hide Runs, Run, Succeeded, SocketInv, ReplyInv, RejectInv, LogInv, ValidClientMessageId, Apply, Enabled;
    var command := s.outbox.pending[index];
    assert Waiting(s, command);
    HeldId(s.outbox.pending, index);
    TransmitReaches(s, index);
    var a := Apply(s, Transmit(index));
    var transmission := Transmission(s.connection.socket, command);
    LogUnchanged(s, a);
    var sequence := HandledIsAcked(a, transmission);
    var b := Apply(a, Handle(transmission, false));
    AckArrives(b, s.connection.socket, command.id, sequence);
    AckSettles(b, command.id, sequence);
    more := RunThree(s, Transmit(index), Handle(transmission, false), ReceiveAck(command.id, sequence));
  }

  lemma LogUnchanged(s: System, t: System)
    requires LogInv(s) && t.log == s.log && t.sessions == s.sessions && t.nextSession == s.nextSession
    ensures LogInv(t)
  {
    hide ValidClientMessageId;
    forall i | 0 <= i < |t.log| && t.log[i].Ours? ensures Remembers(t, t.log[i].session, t.log[i].id, i + 1) {
      assert Remembers(s, s.log[i].session, s.log[i].id, i + 1);
    }
  }

  /** Only a socket that has been bound is closed, so a new one is open. */
  lemma {:induction false} ClosedIsBound(s: System, steps: seq<Step>)
    requires Runs(s, steps) && s.closed <= s.bound.Keys
    ensures Run(s, steps).closed <= Run(s, steps).bound.Keys
    decreases |steps|
  {
    hide Enabled, Decide;
    if steps != [] {
      ClosedStep(s, steps[0]);
      ClosedIsBound(Apply(s, steps[0]), steps[1..]);
    }
  }

  lemma ClosedStep(s: System, step: Step)
    requires Enabled(s, step) && s.closed <= s.bound.Keys
    ensures Apply(s, step).closed <= Apply(s, step).bound.Keys
  {
    hide Enqueue, Acknowledge, Reject, Abandon, Ids, Decide;
  }

  /** The session the browser would resume is still there; without one, a new one begins. */
  ghost predicate CanResume(s: System) {
    s.stored.Some? ==> s.stored.value in s.sessions && !s.sessions[s.stored.value].expired
  }

  ghost predicate SameWork(s: System, t: System) {
    t.outbox == s.outbox && t.log == s.log && t.acked == s.acked
  }

  /** A browser with no session is accepted as a new one. */
  lemma Enters(s: System) returns (more: seq<Step>, t: System)
    requires Inv(s) && s.closed <= s.bound.Keys && s.stored.None?
    ensures Runs(s, more) && Run(s, more) == t && Inv(t) && Connected(t) && SameWork(s, t)
    ensures t.sessions[t.bound[t.connection.socket]].dedupe == EmptyDedupe(1024)
  {
    hide Runs, Run, Inv;
    var hello, number := Hello(s.nextSocket, None), s.nextSession;
    var a := Apply(s, Connect);
    StepKeepsInv(s, Connect);
    var b := Apply(a, AcceptFresh(hello));
    StepKeepsInv(a, AcceptFresh(hello));
    t := Apply(b, ReceiveReady(number));
    StepKeepsInv(b, ReceiveReady(number));
    NewSocketIsOpen(s);
    RunNone(t);
    RunOn(b, ReceiveReady(number), []);
    RunOn(a, AcceptFresh(hello), [ReceiveReady(number)] + []);
    RunOn(s, Connect, [AcceptFresh(hello)] + ([ReceiveReady(number)] + []));
    more := [Connect] + ([AcceptFresh(hello)] + ([ReceiveReady(number)] + []));
  }

  /** A browser whose session is still there resumes it, once its old transport is detached. */
  lemma Resumes(s: System) returns (more: seq<Step>, t: System)
    requires Inv(s) && s.closed <= s.bound.Keys && s.stored.Some? && CanResume(s)
    ensures Runs(s, more) && Run(s, more) == t && Inv(t) && Connected(t) && SameWork(s, t)
    ensures t.bound[t.connection.socket] == s.stored.value
    ensures t.sessions[s.stored.value].dedupe == s.sessions[s.stored.value].dedupe
  {
    hide Runs, Run, Inv;
    var number := s.stored.value;
    var hello := Hello(s.nextSocket, Some(number));
    var a := Apply(s, DetachSession(number));
    StepKeepsInv(s, DetachSession(number));
    var b := Apply(a, Connect);
    StepKeepsInv(a, Connect);
    var c := Apply(b, AcceptResume(hello));
    StepKeepsInv(b, AcceptResume(hello));
    t := Apply(c, ReceiveReady(number));
    StepKeepsInv(c, ReceiveReady(number));
    NewSocketIsOpen(s);
    RunNone(t);
    RunOn(c, ReceiveReady(number), []);
    RunOn(b, AcceptResume(hello), [ReceiveReady(number)] + []);
    RunOn(a, Connect, [AcceptResume(hello)] + ([ReceiveReady(number)] + []));
    RunOn(s, DetachSession(number), [Connect] + ([AcceptResume(hello)] + ([ReceiveReady(number)] + [])));
    more := [DetachSession(number)] + ([Connect] + ([AcceptResume(hello)] + ([ReceiveReady(number)] + [])));
  }

  lemma NewSocketIsOpen(s: System)
    requires Inv(s) && s.closed <= s.bound.Keys
    ensures s.nextSocket !in s.closed
  {
    assert SocketInv(s);
  }

  lemma {:induction false} RunsTogether(s: System, a: seq<Step>, b: seq<Step>)
    requires Runs(s, a) && Runs(Run(s, a), b)
    ensures Runs(s, a + b) && Run(s, a + b) == Run(Run(s, a), b)
    decreases |a|
  {
    hide Enabled, Apply;
    if a == [] {
      assert a + b == b;
    } else {
      RunsTogether(Apply(s, a[0]), a[1..], b);
      assert a + b == [a[0]] + (a[1..] + b);
      RunOn(s, a[0], a[1..] + b);
    }
  }

  /**
   From every state that a run reaches, whatever was lost on the way there, some run gets a
   pending command accepted and acknowledged: over a new connection, unless the server has
   given up the session it belongs to, has no space left for it, or finds its body invalid.
   */
  lemma PendingCanSucceed(steps: seq<Step>, index: nat)
    requires Runs(INITIAL, steps)
    requires var s := Run(INITIAL, steps);
      && index < |s.outbox.pending| && s.outbox.pending[index].body.valid
      && CanResume(s) && |s.log| < 0xFFFF_FFFF_FFFF_FFFF
      && (s.stored.Some? ==> CanTake(s, s.sessions[s.stored.value], s.outbox.pending[index].id))
    ensures var s := Run(INITIAL, steps);
      exists more :: Runs(s, more) && Succeeded(Run(s, more), s.outbox.pending[index].id)
  {
    hide Runs, Run, Inv, Connected, Succeeded;
    InitialInv();
    RunKeepsInv(INITIAL, steps);
    ClosedIsBound(INITIAL, steps);
    var s := Run(INITIAL, steps);
    var first, t;
    if s.stored.None? {
      first, t := Enters(s);
    } else {
      first, t := Resumes(s);
    }
    assert CanTake(t, t.sessions[t.bound[t.connection.socket]], t.outbox.pending[index].id) by { IsConnected(t); }
    var rest := OnlineSucceeds(t, index);
    RunsTogether(s, first, rest);
    assert Runs(s, first + rest);
  }

  lemma IsConnected(s: System)
    requires Connected(s)
    ensures s.connection.Open? && s.connection.socket in s.bound && s.bound[s.connection.socket] in s.sessions
  {
  }
}
