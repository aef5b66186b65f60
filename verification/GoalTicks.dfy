// What events and goal ticks do to one bot, field by field: its session, what
// it remembers of reported outcomes, and what its controller is sent.
module GoalTicks {
  import opened Options
  import opened ControllerTypes
  import opened ControllerDelta
  import opened PlanCache
  import opened Arbitration
  import opened OneShotProtocol
  import opened OneShotSafety

  // ------------------------------------------------------------------ events

  /** Statuses, and observations that name their session. */
  ghost predicate AboutSession(ev: Event) {
    ev.kind.StatusEvent? || (ev.kind.ObservationEvent? && ev.remoteID != "")
  }

  ghost predicate NamesAnother(b: Bot, ev: Event) {
    ev.remoteID != "" && ev.remoteID != b.session.remoteID
  }

  /** Above the last sequence of its session; a session that is not the bot's has none yet. */
  ghost predicate IsNew(b: Bot, ev: Event) {
    ev.sequence > (if NamesAnother(b, ev) then 0 else b.session.lastSequence)
  }

  /** The bot is in the session and at the sequence of the event, and in the phase it speaks of. */
  ghost predicate Follows(s: Session, b: Bot, ev: Event) {
    && s.lastSequence == ev.sequence
    && s.remoteID == (if ev.remoteID == "" then b.session.remoteID else ev.remoteID)
    && (s.phase == PlayReady <==> ev.kind == ObservationEvent || ev.kind == StatusEvent(HostConnected))
    && (s.phase == Connecting <==> ev.kind == StatusEvent(HostConnecting))
    && (s.phase == RetryWaiting <==> ev.kind == StatusEvent(HostDisconnected) || ev.kind == StatusEvent(HostFailed))
  }

  /** The controller was sent nothing, and nothing is in flight or remembered. */
  ghost predicate StartedOver(b: Bot) {
    && AsksNothing(b.sync.desired) && AsksNothing(b.sync.lastSent) && b.sync.sequence == 0 && b.sync.inFlight == None
    && b.utility.failed == [] && b.utility.completed == [] && b.utility.goal == Idle && !b.utility.executing
    && b.utility.target.kind == NoTarget && b.utility.lastExit == ExitNone
  }

  /**
   * An event moves the session exactly when it is about one and new there; it starts the controller over
   * exactly when it is about one that is not the bot's, new or not.
   */
  lemma EventExactly(b: Bot, ev: Event)
    ensures var b' := ApplyEvent(b, ev);
      && (AboutSession(ev) && IsNew(b, ev) ==> Follows(b'.session, b, ev))
      && (!(AboutSession(ev) && IsNew(b, ev)) ==> b'.session == b.session)
      && (AboutSession(ev) && NamesAnother(b, ev) ==> StartedOver(b'))
      && (!(AboutSession(ev) && NamesAnother(b, ev)) ==> b'.sync == b.sync && b'.utility == b.utility)
  {
  }

  /**
   * A report of the bot's own session replaces what was reported; any other
   * kind of event that names another session clears it.
   */
  lemma ReportExactly(b: Bot, ev: Event)
    ensures var b' := ApplyEvent(b, ev);
      var own := ev.remoteID != "" && ev.remoteID == b.session.remoteID;
      var leaves := ev.remoteID != "" && b.session.remoteID != "" && ev.remoteID != b.session.remoteID;
      && (ev.kind.RealityEvent? && ev.kind.outcomes.Some? && own ==> b'.reality == ev.kind.outcomes)
      && (!ev.kind.RealityEvent? && leaves ==> b'.reality == None)
      && (!(ev.kind.RealityEvent? && ev.kind.outcomes.Some? && own) && !(!ev.kind.RealityEvent? && leaves) ==>
            b'.reality == b.reality)
  {
  }

  // ---------------------------------------------------------------- feedback

  ghost predicate IsOutcomeOf(o: Outcome, f: InFlight) {
    o.sequence == f.correlation && o.action == f.action
  }

  /** The k-th outcome is the first of the one-shot. */
  ghost predicate FirstOutcome(outcomes: seq<Outcome>, f: InFlight, k: nat) {
    k < |outcomes| && IsOutcomeOf(outcomes[k], f) && forall j :: 0 <= j < k ==> !IsOutcomeOf(outcomes[j], f)
  }

  lemma {:induction false} MatchExactly(outcomes: seq<Outcome>, f: InFlight)
    ensures Match(outcomes, f) == None <==> forall o :: o in outcomes ==> !IsOutcomeOf(o, f)
    ensures Match(outcomes, f) != None ==>
      exists k: nat :: FirstOutcome(outcomes, f, k) && Match(outcomes, f) == Some(outcomes[k])
  {
    MatchIsReported(outcomes, f);
    if Match(outcomes, f) != None {
      if IsOutcomeOf(outcomes[0], f) {
        assert FirstOutcome(outcomes, f, 0);
      } else {
        MatchExactly(outcomes[1..], f);
        var k: nat :| FirstOutcome(outcomes[1..], f, k) && Match(outcomes[1..], f) == Some(outcomes[1..][k]);
        LaterOutcome(outcomes, f, k);
      }
    }
  }

  lemma LaterOutcome(outcomes: seq<Outcome>, f: InFlight, k: nat)
    requires outcomes != [] && !IsOutcomeOf(outcomes[0], f) && FirstOutcome(outcomes[1..], f, k)
    ensures FirstOutcome(outcomes, f, k + 1)
  {
    forall j | 0 <= j < k + 1 ensures !IsOutcomeOf(outcomes[j], f) {
      if j > 0 {
        assert outcomes[1..][j - 1] == outcomes[j];
      }
    }
  }

  /** The history grew by a plan of the one-shot, the oldest plan making room. */
  ghost predicate Files(before: History, after: History, f: InFlight, reason: ExitReason) {
    && after != [] && after[..|after| - 1] == (if |before| == 16 then before[1..] else before)
    && var p := after[|after| - 1];
      && p.goal == f.goal && p.action == f.action && p.target == f.target && p.reason == reason
      && p.correlation == f.correlation && p.hash == f.hash
      && p.craftCount == f.craftCount && p.placeItem == f.placeItem
  }

  /** What an outcome does: a failure or a completion is filed, if the goal and the target are still selected. */
  ghost predicate TakesIn(b: Bot, c: Bot, reason: ExitReason, f: InFlight, status: OutcomeStatus) {
    var selected := b.utility.goal == f.goal && b.utility.target == f.target;
    && c.sync == b.sync.(inFlight := None) && c.session == b.session && c.reality == b.reality
    && (reason == ExitFailed <==> selected && status == Failed)
    && (reason == ExitCompleted <==> selected && status == Completed)
    && (reason == ExitNone <==> !selected || status == Unspecified)
    && (if reason == ExitFailed then Files(b.utility.failed, c.utility.failed, f, ExitFailed)
        else c.utility.failed == b.utility.failed)
    && (if reason == ExitCompleted then Files(b.utility.completed, c.utility.completed, f, ExitCompleted)
        else c.utility.completed == b.utility.completed)
    && c.utility == b.utility.(failed := c.utility.failed, completed := c.utility.completed)
  }

  /** The first outcome of the one-shot in flight is taken in; without one nothing changes. */
  lemma FeedbackExactly(b: Bot)
    ensures var (c, reason) := Feedback(b);
      if b.sync.inFlight.Some? && b.sync.inFlight.value.correlation > 0 && b.reality.Some?
         && exists o :: o in b.reality.value && IsOutcomeOf(o, b.sync.inFlight.value)
      then exists k: nat :: FirstOutcome(b.reality.value, b.sync.inFlight.value, k)
                            && TakesIn(b, c, reason, b.sync.inFlight.value, b.reality.value[k].status)
      else c == b && reason == ExitNone
  {
    if b.sync.inFlight.Some? && b.reality.Some? {
      MatchExactly(b.reality.value, b.sync.inFlight.value);
      if Settling(b).Some? {
        var f := b.sync.inFlight.value;
        var k: nat :| FirstOutcome(b.reality.value, f, k) && Match(b.reality.value, f) == Some(b.reality.value[k]);
        TakenIn(b, b.reality.value[k]);
      }
    }
  }

  lemma TakenIn(b: Bot, outcome: Outcome)
    requires Settling(b) == Some(outcome)
    ensures TakesIn(b, Feedback(b).0, Feedback(b).1, b.sync.inFlight.value, outcome.status)
  {
    var f := b.sync.inFlight.value;
    Filed(b.utility.failed, f, ExitFailed);
    Filed(b.utility.completed, f, ExitCompleted);
  }

  lemma Filed(h: History, f: InFlight, reason: ExitReason)
    ensures Files(h, Remember(h, PlanOf(f, reason)), f, reason)
  {
  }

  // -------------------------------------------------------------- goal ticks

  /** What a tick that runs decides on; none when no goal remains. */
  ghost function DecidedOn(b: Bot, t: Tick): Option<Decision> {
    Reconcile(t, Feedback(b).0.utility, Feedback(b).1).1
  }

  /**
   * What the controller was sent last, after a tick that runs: nothing without
   * an action, or right after the outcome of a one-shot when another one is
   * decided on; what it was sent before while one is in flight; and otherwise
   * what carries out the decision.
   */
  ghost predicate Sends(before: ControllerState, sent: ControllerState, decision: Option<Decision>, settled: bool,
                        flying: bool) {
    if decision.None? || decision.value.action == NoAction then AsksNothing(sent)
    else if decision.value.action in {Goto, Break, Attack} then CarriesOut(sent, decision.value)
    else if settled then AsksNothing(sent)
    else if flying then sent == before
    else CarriesOut(sent, decision.value)
  }

  lemma DesiredExactly(sync: Sync, d: Decision, completedOneShot: bool)
    requires Exclusive(sync.desired)
    ensures Sends(sync.desired, Desired(sync, d, completedOneShot), Some(d), completedOneShot, sync.inFlight.Some?)
  {
    DecisionSetsOneField(d);
    NormalizedIsExclusive(StateForDecision(d));
    NormalizedIsExclusive(sync.desired);
    DecisionIsCarriedOut(d, StateForDecision(d));
  }

  lemma PublishedExactly(sync: Sync, desired: ControllerState, launched: Option<InFlight>)
    ensures var (sync', m) := Published(sync, desired, launched);
      && sync'.lastSent == sync'.desired == desired
      && (m == None <==> desired == sync.lastSent)
      && (m == None ==> sync'.sequence == sync.sequence && sync'.inFlight == sync.inFlight)
      && (m != None ==> sync'.sequence == m.value.sequence == sync.sequence + 1
                        && sync'.inFlight == (if launched == None then sync.inFlight else launched))
  {
    DiffNoneWhenEqual(sync.lastSent, desired);
  }

  /** Every tick, on any bot whose last state sent was the one desired. */
  lemma TickExactly(b: Bot, t: Tick, outbox: bool)
    requires b.sync.desired == b.sync.lastSent && Exclusive(b.sync.lastSent)
    ensures var (b', m) := GoalTick(b, t, outbox);
      var settled := Feedback(b).1 in {ExitFailed, ExitCompleted};
      if b.session.phase == PlayReady && outbox then
        && Sends(b.sync.lastSent, b'.sync.lastSent, DecidedOn(b, t), settled, Feedback(b).0.sync.inFlight != None)
        && (m == None <==> b'.sync.lastSent == b.sync.lastSent)
        && b'.sync.sequence == b.sync.sequence + (if m == None then 0 else 1)
        && b'.utility == Reconcile(t, Feedback(b).0.utility, Feedback(b).1).0
      else b' == b && m == None
  {
    if Runs(b, outbox) {
      var (c, reason) := Feedback(b);
      FeedbackSettles(b);
      var completedOneShot := reason.ExitFailed? || reason.ExitCompleted?;
      var (u, decision) := Reconcile(t, c.utility, reason);
      var d := if decision.Some? then decision.value else NO_DECISION;
      DesiredExactly(c.sync, d, completedOneShot);
      PublishedExactly(c.sync, Desired(c.sync, d, completedOneShot), Launched(t, c.sync, u, d, completedOneShot));
    }
  }

  /** After any run, a tick sends what it decided on, field by field. */
  lemma TicksSendDecisions(steps: seq<Step>, t: Tick, outbox: bool)
    requires AllAllowed(START, steps)
    ensures var b := End(START, steps).bot;
      var (b', m) := GoalTick(b, t, outbox);
      if b.session.phase == PlayReady && outbox then
        && Sends(b.sync.lastSent, b'.sync.lastSent, DecidedOn(b, t), Feedback(b).1 in {ExitFailed, ExitCompleted},
                 Feedback(b).0.sync.inFlight != None)
        && (m == None <==> b'.sync.lastSent == b.sync.lastSent)
      else b' == b && m == None
  {
    RunsAreSafe(START, steps);
    TickExactly(End(START, steps).bot, t, outbox);
  }

  /** The tick that learns of a completion does not decide on the same one-shot again while its fingerprint stands. */
  lemma CompletionIsNotRepeated(b: Bot, t: Tick)
    requires Feedback(b).1 == ExitCompleted
    ensures b.sync.inFlight.Some?
    ensures var (c, reason) := Feedback(b);
      var (u, decision) := Reconcile(t, c.utility, reason);
      var p := PlanOf(b.sync.inFlight.value, ExitCompleted);
      && p in c.utility.completed
      && (Current(t, p) && decision.Some? && IsOneShot(decision.value.action) ==>
            !Blocks(p, u.goal, decision.value.target, HashOf(t, decision.value)))
  {
    var (c, reason) := Feedback(b);
    var p := PlanOf(b.sync.inFlight.value, ExitCompleted);
    assert c.utility.completed == Remember(b.utility.completed, p);
    assert c.utility.completed[|c.utility.completed| - 1] == p;
    CompletionHoldsWhileCurrent(t, c.utility, reason, p);
  }
}
