// One bot's controller protocol: which events its session accepts, what a
// goal tick publishes, and how one-shot actions are correlated with outcomes.
module OneShotProtocol {
  import opened Options
  import opened ControllerTypes
  import opened ControllerDelta
  import opened PlanCache
  import opened Arbitration

  datatype Phase = Inactive | Connecting | PlayReady | RetryWaiting

  datatype Session = Session(remoteID: string, lastSequence: nat, phase: Phase)

  datatype OutcomeStatus = Unspecified | Completed | Failed

  datatype Outcome = Outcome(sequence: nat, action: Action, status: OutcomeStatus)

  /** A one-shot that was published and has no outcome yet. */
  datatype InFlight = InFlight(action: Action, correlation: nat, goal: GoalType, target: GoalTarget, hash: nat,
                               craftCount: int, placeItem: string)

  datatype Sync = Sync(desired: ControllerState, lastSent: ControllerState, sequence: nat, inFlight: Option<InFlight>)

  const FRESH_SYNC := Sync(EMPTY_STATE, EMPTY_STATE, 0, None)

  const FRESH_UTILITY := Utility(Idle, false, NO_TARGET, [], [], ExitNone)

  /** reality holds the outcomes last reported by the host, if any. */
  datatype Bot = Bot(session: Session, utility: Utility, sync: Sync, reality: Option<seq<Outcome>>)

  const NEW_BOT := Bot(Session("", 0, Inactive), FRESH_UTILITY, FRESH_SYNC, None)

  // ------------------------------------------------------------------ events

  datatype HostStatus = HostConnecting | HostConnected | HostDisconnected | HostFailed

  datatype EventKind =
    | RealityEvent(outcomes: Option<seq<Outcome>>)
    | StatusEvent(status: HostStatus)
    | ObservationEvent
    | OtherEvent

  datatype Event = Event(kind: EventKind, remoteID: string, sequence: nat)

  predicate BeginsNewSession(s: Session, ev: Event) {
    ev.remoteID != "" && s.remoteID != "" && s.remoteID != ev.remoteID
  }

  /** A new remote session starts the bot's AI and controller over. */
  function Reset(b: Bot): Bot {
    b.(utility := FRESH_UTILITY, sync := FRESH_SYNC)
  }

  function StatusPhase(status: HostStatus): Phase {
    match status
    case HostConnecting => Connecting
    case HostConnected => PlayReady
    case _ => RetryWaiting
  }

  /** The session as the event sees it: its own if it names a new one. */
  function SessionFor(s: Session, ev: Event): Session {
    if ev.remoteID != "" && s.remoteID != ev.remoteID then s.(remoteID := ev.remoteID, lastSequence := 0) else s
  }

  /** The reset happens before the sequence is checked; the session is stored only if the sequence is new. */
  function Accepted(b: Bot, ev: Event, phase: Phase): Bot {
    var session := SessionFor(b.session, ev);
    var reset := if session.remoteID != b.session.remoteID then Reset(b) else b;
    if ev.sequence <= session.lastSequence then reset
    else reset.(session := session.(lastSequence := ev.sequence, phase := phase))
  }

  function ClearedReality(b: Bot, ev: Event): Bot {
    if !ev.kind.RealityEvent? && BeginsNewSession(b.session, ev) then b.(reality := None) else b
  }

  function ApplyEvent(b: Bot, ev: Event): Bot {
    var c := ClearedReality(b, ev);
    match ev.kind
    case RealityEvent(outcomes) =>
      if outcomes.Some? && ev.remoteID != "" && c.session.remoteID == ev.remoteID then c.(reality := outcomes) else c
    case StatusEvent(status) => Accepted(c, ev, StatusPhase(status))
    case ObservationEvent => if ev.remoteID == "" then c else Accepted(c, ev, PlayReady)
    case OtherEvent => c
  }

  // ---------------------------------------------------------------- feedback

  /** The first outcome of the one-shot in flight. */
  function Match(outcomes: seq<Outcome>, f: InFlight): Option<Outcome> {
    if outcomes == [] then None
    else if outcomes[0].sequence == f.correlation && outcomes[0].action == f.action then Some(outcomes[0])
    else Match(outcomes[1..], f)
  }

  lemma {:induction false} MatchIsReported(outcomes: seq<Outcome>, f: InFlight)
    ensures var m := Match(outcomes, f);
      && (m.Some? ==> m.value in outcomes && m.value.sequence == f.correlation && m.value.action == f.action)
      && (m.None? ==> forall o :: o in outcomes ==> o.sequence != f.correlation || o.action != f.action)
  {
    if outcomes != [] {
      MatchIsReported(outcomes[1..], f);
    }
  }

  /** The outcome that settles the one-shot in flight, if it has been reported. */
  function Settling(b: Bot): Option<Outcome> {
    if b.reality.None? || b.sync.inFlight.None? || b.sync.inFlight.value.correlation == 0 then None
    else Match(b.reality.value, b.sync.inFlight.value)
  }

  function PlanOf(f: InFlight, reason: ExitReason): Plan {
    Plan(f.goal, f.action, f.target, reason, f.correlation, f.hash, f.craftCount, f.placeItem)
  }

  /** The one-shot is settled; its result counts only if its goal and target are still selected. */
  function Feedback(b: Bot): (Bot, ExitReason) {
    var outcome := Settling(b);
    if outcome.None? then (b, ExitNone)
    else
      var f, u := b.sync.inFlight.value, b.utility;
      var settled := b.(sync := b.sync.(inFlight := None));
      if u.goal != f.goal || u.target != f.target then (settled, ExitNone)
      else
        match outcome.value.status
        case Failed => (settled.(utility := u.(failed := Remember(u.failed, PlanOf(f, ExitFailed)))), ExitFailed)
        case Completed => (settled.(utility := u.(completed := Remember(u.completed, PlanOf(f, ExitCompleted)))),
                           ExitCompleted)
        case Unspecified => (settled, ExitNone)
  }

  // --------------------------------------------------------------- goal tick

  const NO_DECISION := Decision(Idle, NO_TARGET, NO_TARGET, NoAction, 0, "")

  function Desired(sync: Sync, d: Decision, completedOneShot: bool): ControllerState {
    Normalized(
      if completedOneShot && IsOneShot(d.action) then EMPTY_STATE
      else if IsOneShot(d.action) && sync.inFlight.Some? then sync.desired
      else StateForDecision(d))
  }

  /** A published delta with its sequence. */
  datatype Message = Message(delta: Delta, sequence: nat)

  function Published(sync: Sync, desired: ControllerState, fresh_: Option<InFlight>): (Sync, Option<Message>) {
    var delta := Diff(sync.lastSent, desired);
    if delta.None? then (sync.(desired := desired), None)
    else (Sync(desired, desired, sync.sequence + 1, if fresh_.Some? then fresh_ else sync.inFlight),
          Some(Message(delta.value, sync.sequence + 1)))
  }

  /** What is put in flight if the tick publishes. */
  function Launched(t: Tick, sync: Sync, u: Utility, d: Decision, completedOneShot: bool): Option<InFlight> {
    if !completedOneShot && IsOneShot(d.action) && sync.inFlight.None? then
      Some(InFlight(d.action, sync.sequence + 1, u.goal, d.target, HashOf(t, d), d.craftCount, d.placeItem))
    else None
  }

  /** The tick runs only for a bot that is ready to play and has somewhere to publish; otherwise nothing is kept. */
  predicate Runs(b: Bot, outbox: bool) {
    b.session.phase.PlayReady? && outbox
  }

  function GoalTick(b: Bot, t: Tick, outbox: bool): (Bot, Option<Message>) {
    if !Runs(b, outbox) then (b, None)
    else
      var (c, reason) := Feedback(b);
      var completedOneShot := reason.ExitFailed? || reason.ExitCompleted?;
      var (u, decision) := Reconcile(t, c.utility, reason);
      var d := if decision.Some? then decision.value else NO_DECISION;
      var (sync, message) := Published(c.sync, Desired(c.sync, d, completedOneShot),
                                       Launched(t, c.sync, u, d, completedOneShot));
      (c.(utility := u, sync := sync), message)
  }
}
