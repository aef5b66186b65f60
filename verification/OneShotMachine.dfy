// The columns of one bot as the systems update them in place.
module OneShotMachine {
  import opened Options
  import opened ControllerTypes
  import opened ControllerDelta
  import opened PlanCache
  import opened Arbitration
  import opened OneShotProtocol

  class BotColumns {
    var session: Session
    var utility: Utility
    var sync: Sync
    var reality: Option<seq<Outcome>>

    function State(): Bot
      reads this
    {
      Bot(session, utility, sync, reality)
    }

    constructor ()
      ensures State() == NEW_BOT
    {
      session, utility, sync, reality := Session("", 0, Inactive), FRESH_UTILITY, FRESH_SYNC, None;
    }

    method ResetSessionAI()
      modifies this
      ensures State() == Reset(old(State()))
    {
      utility := FRESH_UTILITY;
      sync := FRESH_SYNC;
    }

    /** The local session is written back only when the sequence is new; the reset has happened by then. */
    method Accept(ev: Event, phase: Phase) returns (accepted: bool)
      modifies this
      ensures State() == Accepted(old(State()), ev, phase)
      ensures accepted <==> ev.sequence > SessionFor(old(session), ev).lastSequence
    {
      var local := session;
      if ev.remoteID != "" && local.remoteID != ev.remoteID {
        local := local.(remoteID := ev.remoteID, lastSequence := 0);
        ResetSessionAI();
      }
      if ev.sequence <= local.lastSequence {
        return false;
      }
      session := local.(lastSequence := ev.sequence, phase := phase);
      accepted := true;
    }

    method HandleEvent(ev: Event)
      modifies this
      ensures State() == ApplyEvent(old(State()), ev)
    {
      if !ev.kind.RealityEvent? && BeginsNewSession(session, ev) {
        reality := None;
      }
      match ev.kind {
        case RealityEvent(outcomes) =>
          if outcomes.Some? && ev.remoteID != "" && session.remoteID == ev.remoteID {
            reality := outcomes;
          }
        case StatusEvent(status) =>
          var _ := Accept(ev, StatusPhase(status));
        case ObservationEvent =>
          if ev.remoteID != "" {
            var _ := Accept(ev, PlayReady);
          }
        case OtherEvent =>
      }
    }

    /** The whole goal tick; what it publishes goes to the outbox. */
    method RunGoalTick(t: Tick, hasOutbox: bool) returns (sent: Option<(Wire, nat)>)
      modifies this
      ensures var (b, m) := GoalTick(old(State()), t, hasOutbox);
        && State() == b
        && (sent.None? <==> m.None?)
        && (sent.Some? ==> m == Some(Message(Read(sent.value.0), sent.value.1)))
    {
      sent := None;
      if !session.phase.PlayReady? || !hasOutbox {
        return;
      }
      var reason := ReconcileOneShotFeedback();
      var completedOneShot := reason.ExitFailed? || reason.ExitCompleted?;
      var u, decision := ReconcileWithFeedback(t, utility, reason);
      var d := if decision.Some? then decision.value else NO_DECISION;
      var desired := StateForDecision(d);
      if completedOneShot && IsOneShot(d.action) {
        desired := EMPTY_STATE;
      } else if IsOneShot(d.action) && sync.inFlight.Some? {
        desired := sync.desired;
      }
      sent := Publish(t, u, d, completedOneShot, Normalized(desired));
      utility := u;
    }

    /** Send what changed, and put a one-shot in flight with the sequence it is sent under. */
    method Publish(t: Tick, u: Utility, d: Decision, completedOneShot: bool, desired: ControllerState)
        returns (sent: Option<(Wire, nat)>)
      modifies this`sync
      ensures var (s, m) := Published(old(sync), desired, Launched(t, old(sync), u, d, completedOneShot));
        && sync == s
        && (sent.None? <==> m.None?)
        && (sent.Some? ==> m == Some(Message(Read(sent.value.0), sent.value.1)))
    {
      sent := None;
      sync := sync.(desired := desired);
      var delta := DiffControllerState(sync.lastSent, desired);
      if delta.Some? {
        sync := sync.(sequence := sync.sequence + 1);
        if !completedOneShot && IsOneShot(d.action) && sync.inFlight.None? {
          sync := sync.(inFlight := Some(InFlight(d.action, sync.sequence, u.goal, d.target, HashOf(t, d), d.craftCount,
                                                  d.placeItem)));
        }
        sent := Some((delta.value, sync.sequence));
        sync := sync.(lastSent := desired);
      }
    }

    /** The first matching outcome settles the one-shot in flight. */
    method ReconcileOneShotFeedback() returns (reason: ExitReason)
      modifies this`utility, this`sync
      ensures (State(), reason) == Feedback(old(State()))
    {
      if reality.None? || sync.inFlight.None? || sync.inFlight.value.correlation == 0 {
        return ExitNone;
      }
      var outcomes, f := reality.value, sync.inFlight.value;
      for k := 0 to |outcomes|
        invariant Match(outcomes, f) == Match(outcomes[k..], f) && State() == old(State())
      {
        assert outcomes[k..][1..] == outcomes[k + 1..];
        var outcome := outcomes[k];
        if outcome.sequence == f.correlation && outcome.action == f.action {
          reason := Settle(outcome, f);
          return;
        }
      }
      reason := ExitNone;
    }

    method Settle(outcome: Outcome, f: InFlight) returns (reason: ExitReason)
      requires sync.inFlight == Some(f) && Settling(State()) == Some(outcome)
      modifies this`utility, this`sync
      ensures (State(), reason) == Feedback(old(State()))
    {
      sync := sync.(inFlight := None);
      if utility.goal != f.goal || utility.target != f.target {
        return ExitNone;
      }
      match outcome.status {
        case Failed =>
          utility := utility.(failed := Remember(utility.failed, PlanOf(f, ExitFailed)));
          reason := ExitFailed;
        case Completed =>
          utility := utility.(completed := Remember(utility.completed, PlanOf(f, ExitCompleted)));
          reason := ExitCompleted;
        case Unspecified =>
          reason := ExitNone;
      }
    }
  }
}
