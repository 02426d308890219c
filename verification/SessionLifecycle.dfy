/**
 The life of the sessions of a room: entering, detaching, resuming and expiring, with the
 durable events each publishes.  Registry, transport and publication are separate
 critical sections, so the steps of different threads interleave between them.
 */
module SessionLifecycle {
  import opened Wrappers
  import opened SessionReliability

  // ---------- State ----------

  datatype Kind = Joined | Said | Withdrawn | Left

  datatype Event = Event(member: nat, kind: Kind)

  /** A session is entering until JOINED is out, and leaving until LEFT is. */
  datatype Stage = Entering | Active | Leaving | Gone

  datatype Turn = Detached(time: int) | Resumed(time: int) | Expired(time: int)

  /**
   `greeted` is set while a hello of the session is being answered on its socket;
   `detaching` between the loss of the transport and the start of the lease; `resuming`
   between the end of the lease and the binding of the new transport.  `turns` records
   what happened to the lease.
   */
  datatype Member = Member(
    stage: Stage,
    socket: Option<nat>,
    greeted: bool,
    detaching: bool,
    resuming: Option<nat>,
    lease: Lease,
    turns: seq<Turn>)

  datatype Lobby = Lobby(members: map<nat, Member>, log: seq<Event>)

  datatype Step =
    | Enter(member: nat, socket: nat)
    | PublishJoined(member: nat)
    | EndGreeting(member: nat)
    | PublishCommand(member: nat, socket: nat)
    | PublishWithdrawal(member: nat)
    | DetachSocket(member: nat)
    | StartLease(member: nat, now: int)
    | Resume(member: nat, socket: nat, now: int)
    | BindSocket(member: nat)
    | Expire(member: nat, now: int)
    | PublishLeft(member: nat)

  predicate Publishes(step: Step) {
    step.PublishJoined? || step.PublishCommand? || step.PublishWithdrawal? || step.PublishLeft?
  }

  /**
   A transport is not destroyed while its hello is being answered; a command is read only
   from the current socket; leaving sessions are known to nobody but the expiring thread.
   */
  predicate Enabled(lobby: Lobby, step: Step) {
    if step.Enter? then step.member !in lobby.members
    else
      && step.member in lobby.members
      && (Publishes(step) ==> |lobby.log| < U64_MAX)
      && var m := lobby.members[step.member];
         match step
         case PublishJoined(_) => m.stage.Entering?
         case EndGreeting(_) => m.greeted && !m.stage.Entering?
         case PublishCommand(_, socket) => !m.stage.Entering? && m.socket == Some(socket)
         case PublishWithdrawal(_) => m.greeted && !m.stage.Entering?
         case DetachSocket(_) => m.socket.Some? && !m.greeted
         case StartLease(_, _) => m.detaching
         case Resume(_, _, now) => !m.stage.Leaving? && !m.stage.Gone? && m.lease.CanResume(now)
         case BindSocket(_) => m.resuming.Some?
         case Expire(_, now) => !m.stage.Leaving? && !m.stage.Gone? && m.lease.Expires(now)
         case PublishLeft(_) => m.stage.Leaving?
         case Enter(_, _) => true
  }

  function Published(step: Step): Kind {
    match step
    case PublishJoined(_) => Joined
    case PublishWithdrawal(_) => Withdrawn
    case PublishLeft(_) => Left
    case _ => Said
  }

  /** The member after a step that concerns it. */
  function Moved(m: Member, step: Step): Member {
    match step
    case PublishJoined(_) => m.(stage := Active)
    case EndGreeting(_) => m.(greeted := false)
    case DetachSocket(_) => m.(socket := None, detaching := true)
    case StartLease(_, now) => m.(detaching := false, lease := m.lease.Detach(now), turns := m.turns + [Detached(now)])
    case Resume(_, socket, now) => m.(lease := IDLE_LEASE, resuming := Some(socket), turns := m.turns + [Resumed(now)])
    case BindSocket(_) => m.(socket := m.resuming, resuming := None, greeted := true)
    case Expire(_, now) => m.(stage := Leaving, turns := m.turns + [Expired(now)])
    case PublishLeft(_) => m.(stage := Gone)
    case _ => m
  }

  function Apply(lobby: Lobby, step: Step): Lobby
    requires Enabled(lobby, step)
  {
    if step.Enter? then
      lobby.(members := lobby.members[
        step.member := Member(Entering, Some(step.socket), true, false, None, IDLE_LEASE, [])])
    else
      Lobby(lobby.members[step.member := Moved(lobby.members[step.member], step)],
            if Publishes(step) then lobby.log + [Event(step.member, Published(step))] else lobby.log)
  }

  predicate Runs(lobby: Lobby, steps: seq<Step>)
    decreases |steps|
  {
    steps == [] || (Enabled(lobby, steps[0]) && Runs(Apply(lobby, steps[0]), steps[1..]))
  }

  function Run(lobby: Lobby, steps: seq<Step>): Lobby
    requires Runs(lobby, steps)
    decreases |steps|
  {
    if steps == [] then lobby else Run(Apply(lobby, steps[0]), steps[1..])
  }

  const EMPTY := Lobby(map[], [])

  // ---------- One session's part of the log ----------

  function EventsOf(log: seq<Event>, member: nat): seq<Kind> {
    if log == [] then []
    else (if log[0].member == member then [log[0].kind] else []) + EventsOf(log[1..], member)
  }

  lemma {:induction false} EventsOfAppend(log: seq<Event>, event: Event, member: nat)
    ensures EventsOf(log + [event], member)
         == EventsOf(log, member) + (if event.member == member then [event.kind] else [])
  {
    if log == [] {
      assert log + [event] == [event] && [event][1..] == [];
    } else {
      var more := log + [event];
      var head := if log[0].member == member then [log[0].kind] else [];
      var rest, last := EventsOf(log[1..], member), if event.member == member then [event.kind] else [];
      EventsOfAppend(log[1..], event, member);
      assert more[0] == log[0] && more[1..] == log[1..] + [event];
      assert head + (rest + last) == (head + rest) + last;
    }
  }

  /** JOINED first and once; LEFT at most once, and last. */
  ghost predicate Bracketed(events: seq<Kind>) {
    && (events != [] ==> events[0] == Joined)
    && (forall i :: 0 < i < |events| ==> events[i] != Joined)
    && (forall i :: 0 <= i < |events| && events[i] == Left ==> i == |events| - 1)
  }

  /** Each detach is answered by at most one of resume, in time, and expiry, after the grace period. */
  ghost predicate Legal(turns: seq<Turn>) {
    forall i :: 0 <= i < |turns| ==>
      match turns[i]
      case Detached(_) => i == 0 || turns[i - 1].Resumed?
      case Resumed(time) => i > 0 && turns[i - 1].Detached? && time < turns[i - 1].time + 300
      case Expired(time) => i > 0 && turns[i - 1].Detached? && time >= turns[i - 1].time + 300
  }

  // ---------- The invariant ----------

  /** A running lease means no transport, no hello being answered and none to come. */
  ghost predicate MemberInv(m: Member) {
    && Legal(m.turns)
    && (m.stage.Leaving? || m.stage.Gone? ==> m.lease.deadline.Some? && m.turns != [] && m.turns[|m.turns| - 1].Expired?)
    && (m.stage.Entering? || m.stage.Active? ==>
          if m.lease.deadline.Some?
          then m.turns != [] && m.turns[|m.turns| - 1] == Detached(m.lease.deadline.value - GRACE_PERIOD)
          else m.turns == [] || m.turns[|m.turns| - 1].Resumed?)
    && (m.lease.deadline.Some? ==> m.socket.None? && !m.greeted && !m.detaching && m.resuming.None?)
    && (m.detaching || m.resuming.Some? ==> m.socket.None? && !m.greeted)
    && !(m.detaching && m.resuming.Some?)
    && (m.stage.Entering? ==> m.greeted && m.socket.Some?)
  }

  ghost predicate LogInv(lobby: Lobby, member: nat) {
    var events := EventsOf(lobby.log, member);
    if member !in lobby.members || lobby.members[member].stage.Entering? then events == []
    else
      && events != [] && Bracketed(events)
      && (events[|events| - 1] == Left <==> lobby.members[member].stage.Gone?)
  }

  ghost predicate Inv(lobby: Lobby) {
    && (forall member :: member in lobby.members ==> MemberInv(lobby.members[member]))
    && (forall member :: LogInv(lobby, member))
  }

  lemma MemberStep(lobby: Lobby, step: Step)
    requires Enabled(lobby, step) && !step.Enter? && MemberInv(lobby.members[step.member])
    ensures MemberInv(Moved(lobby.members[step.member], step))
  {
    var m := lobby.members[step.member];
    var next := Moved(m, step);
    forall i | 0 <= i < |next.turns|
      ensures match next.turns[i]
        case Detached(_) => i == 0 || next.turns[i - 1].Resumed?
        case Resumed(time) => i > 0 && next.turns[i - 1].Detached? && time < next.turns[i - 1].time + GRACE_PERIOD
        case Expired(time) => i > 0 && next.turns[i - 1].Detached? && time >= next.turns[i - 1].time + GRACE_PERIOD
    {
      if i < |m.turns| {
        assert next.turns[i] == m.turns[i];
        assert i > 0 ==> next.turns[i - 1] == m.turns[i - 1];
      }
    }
  }

  lemma LogStep(lobby: Lobby, step: Step, member: nat)
    requires Inv(lobby) && Enabled(lobby, step)
    ensures LogInv(Apply(lobby, step), member)
  {
    assert LogInv(lobby, member);
    if !step.Enter? {
      assert MemberInv(lobby.members[step.member]);
      if Publishes(step) {
        EventsOfAppend(lobby.log, Event(step.member, Published(step)), member);
      }
    }
  }

  lemma StepKeepsInv(lobby: Lobby, step: Step)
    requires Inv(lobby) && Enabled(lobby, step)
    ensures Inv(Apply(lobby, step))
  {
    var next := Apply(lobby, step);
    if !step.Enter? {
      MemberStep(lobby, step);
    }
    forall member ensures LogInv(next, member) {
      LogStep(lobby, step, member);
    }
  }

  lemma {:induction false} RunKeepsInv(lobby: Lobby, steps: seq<Step>)
    requires Inv(lobby) && Runs(lobby, steps)
    ensures Inv(Run(lobby, steps))
    decreases |steps|
  {
    if steps != [] {
      StepKeepsInv(lobby, steps[0]);
      RunKeepsInv(Apply(lobby, steps[0]), steps[1..]);
    }
  }

  // ---------- The results ----------

  /**
   In every run, each session's events in the log are JOINED once and first, then any
   others, then LEFT at most once and nothing after it.
   */
  lemma EventsAreBracketed(steps: seq<Step>, member: nat)
    requires Runs(EMPTY, steps)
    ensures Bracketed(EventsOf(Run(EMPTY, steps).log, member))
  {
    RunKeepsInv(EMPTY, steps);
    assert LogInv(Run(EMPTY, steps), member);
  }

  /**
   In every run, for each detach exactly one of resume and expiry can win: a resume comes
   before 300 seconds have passed since the detach it answers, an expiry after, and
   nothing follows an expiry.  While a lease runs, no transport is bound and no hello is
   being answered.
   */
  lemma LeasesAlternate(steps: seq<Step>, member: nat)
    requires Runs(EMPTY, steps) && member in Run(EMPTY, steps).members
    ensures var m := Run(EMPTY, steps).members[member];
      && Legal(m.turns)
      && (forall i :: 0 <= i < |m.turns| - 1 ==> !m.turns[i].Expired?)
      && (m.lease.deadline.Some? ==> m.socket.None? && !m.greeted && m.resuming.None?)
  {
    RunKeepsInv(EMPTY, steps);
    var m := Run(EMPTY, steps).members[member];
    assert MemberInv(m);
    forall i | 0 <= i < |m.turns| - 1 ensures !m.turns[i].Expired? {
      assert m.turns[i + 1].Detached? ==> m.turns[i].Resumed?;
    }
  }

  ghost predicate OnSocket(lobby: Lobby, member: nat, socket: nat) {
    member in lobby.members && lobby.members[member].socket == Some(socket)
  }

  ghost predicate HasDetached(lobby: Lobby, member: nat, turns: seq<Turn>) {
    member in lobby.members && lobby.members[member].socket.None? && lobby.members[member].turns == turns
  }

  /**
   In every run, a session that has detached can resume, on any socket, exactly until 300
   seconds have passed, and is then bound to that socket; from then on it can only expire,
   and its LEFT comes out.
   */
  lemma LeaseDecides(steps: seq<Step>, member: nat, socket: nat, now: int)
    requires Runs(EMPTY, steps) && member in Run(EMPTY, steps).members
    requires var turns := Run(EMPTY, steps).members[member].turns; turns != [] && turns[|turns| - 1].Detached?
    ensures var lobby := Run(EMPTY, steps);
      var turns, back, gone := lobby.members[member].turns, [Resume(member, socket, now), BindSocket(member)],
                               [Expire(member, now), PublishLeft(member)];
      && (Enabled(lobby, back[0]) <==> now < turns[|turns| - 1].time + 300)
      && (Enabled(lobby, gone[0]) <==> now >= turns[|turns| - 1].time + 300)
      && (Enabled(lobby, back[0]) ==>
            && Runs(lobby, back) && Run(lobby, back).log == lobby.log
            && OnSocket(Run(lobby, back), member, socket))
      && (Enabled(lobby, gone[0]) && |lobby.log| < U64_MAX ==>
            Runs(lobby, gone) && Run(lobby, gone).log == lobby.log + [Event(member, Left)])
  {
    RunKeepsInv(EMPTY, steps);
    var lobby := Run(EMPTY, steps);
    assert MemberInv(lobby.members[member]);
    TwoSteps(lobby, Resume(member, socket, now), BindSocket(member));
    TwoSteps(lobby, Expire(member, now), PublishLeft(member));
  }

  lemma OneStep(lobby: Lobby, step: Step)
    ensures Runs(lobby, [step]) <==> Enabled(lobby, step)
    ensures Runs(lobby, [step]) ==> Run(lobby, [step]) == Apply(lobby, step)
  {
    hide Enabled, Apply;
    assert [step][1..] == [];
  }

  lemma TwoSteps(lobby: Lobby, first: Step, second: Step)
    ensures Runs(lobby, [first, second]) <==> Enabled(lobby, first) && Enabled(Apply(lobby, first), second)
    ensures Runs(lobby, [first, second]) ==> Run(lobby, [first, second]) == Apply(Apply(lobby, first), second)
  {
    hide Enabled, Apply;
    assert [first, second][1..] == [second];
    if Enabled(lobby, first) {
      OneStep(Apply(lobby, first), second);
    }
  }

  /**
   In every run, a session on a socket whose hello is answered can lose it and then starts
   its lease; before that JOINED can be published, and afterwards its commands can.
   */
  lemma SessionsProceed(steps: seq<Step>, member: nat, now: int)
    requires Runs(EMPTY, steps) && member in Run(EMPTY, steps).members
    ensures var lobby := Run(EMPTY, steps); var m := lobby.members[member];
      && (m.stage.Entering? && |lobby.log| < U64_MAX ==>
            var joined := [PublishJoined(member), EndGreeting(member)];
            Runs(lobby, joined) && Run(lobby, joined).log == lobby.log + [Event(member, Joined)])
      && (m.socket.Some? && !m.greeted ==>
            var lost := [DetachSocket(member), StartLease(member, now)];
            Runs(lobby, lost) && HasDetached(Run(lobby, lost), member, m.turns + [Detached(now)]))
      && (m.socket.Some? && !m.stage.Entering? && |lobby.log| < U64_MAX ==>
            var said := PublishCommand(member, m.socket.value);
            Enabled(lobby, said) && Apply(lobby, said).log == lobby.log + [Event(member, Said)])
  {
    RunKeepsInv(EMPTY, steps);
    var lobby := Run(EMPTY, steps);
    assert MemberInv(lobby.members[member]);
    TwoSteps(lobby, PublishJoined(member), EndGreeting(member));
    TwoSteps(lobby, DetachSocket(member), StartLease(member, now));
  }
}
