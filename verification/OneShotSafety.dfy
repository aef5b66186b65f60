// One-shot safety over whole runs: at most one in flight, published fresh,
// settled at most once, and only by the session it was published in.
module OneShotSafety {
  import opened Options
  import opened Sequences
  import opened ControllerTypes
  import opened ControllerDelta
  import opened PlanCache
  import opened Arbitration
  import opened OneShotProtocol
  import ChunkStore

  datatype Step = EventStep(event: Event) | GoalStep(tick: Tick, outbox: bool)

  /** A published delta; oneShot names the action whose correlation it carries. */
  datatype Entry = Entry(epoch: nat, sequence: nat, delta: Delta, oneShot: Option<Action>)

  /**
   * A one-shot that was settled, and up to which sequence the session had published when the settling
   * report arrived.
   */
  datatype Settled = Settled(epoch: nat, sequence: nat, session: string, reportedAt: nat)

  /** The bot with its history: one epoch per controller, and who last reported, when. */
  datatype Ledger = Ledger(bot: Bot, epoch: nat, published: seq<Entry>, settled: seq<Settled>, reporter: string,
                           reportedAt: nat)

  const START := Ledger(NEW_BOT, 0, [], [], "", 0)

  /** The event starts the bot's controller over. */
  predicate Resets(b: Bot, ev: Event) {
    (ev.kind.StatusEvent? || ev.kind.ObservationEvent?) && SessionFor(b.session, ev).remoteID != b.session.remoteID
  }

  predicate Reports(b: Bot, ev: Event) {
    ev.kind.RealityEvent? && ev.kind.outcomes.Some? && ev.remoteID != "" && b.session.remoteID == ev.remoteID
  }

  /** Sequences start at one, and a report of the current session names only sequences published in it. */
  predicate Allowed(l: Ledger, step: Step) {
    step.EventStep? ==>
      && step.event.sequence >= 1
      && (Reports(l.bot, step.event) ==>
            forall o :: o in step.event.kind.outcomes.value ==> 1 <= o.sequence <= l.bot.sync.sequence)
  }

  function NextEvent(l: Ledger, ev: Event): Ledger {
    l.(bot := ApplyEvent(l.bot, ev),
       epoch := if Resets(l.bot, ev) then l.epoch + 1 else l.epoch,
       reporter := if Reports(l.bot, ev) then ev.remoteID else l.reporter,
       reportedAt := if Reports(l.bot, ev) then l.bot.sync.sequence else if Resets(l.bot, ev) then 0 else l.reportedAt)
  }

  function NextGoal(l: Ledger, t: Tick, outbox: bool): Ledger {
    var (bot, message) := GoalTick(l.bot, t, outbox);
    l.(bot := bot,
       published := if message.None? then l.published
         else l.published + [Entry(l.epoch, message.value.sequence, message.value.delta,
                                   LaunchedAction(l.bot, bot, message.value))],
       settled := if Runs(l.bot, outbox) && Settling(l.bot).Some?
         then l.settled + [Settled(l.epoch, l.bot.sync.inFlight.value.correlation, l.reporter, l.reportedAt)]
             else l.settled)
  }

  /** The action put in flight by this message, if any. */
  function LaunchedAction(before: Bot, after: Bot, m: Message): Option<Action> {
    if after.sync.inFlight.Some? && after.sync.inFlight.value.correlation == m.sequence
        then Some(after.sync.inFlight.value.action) else None
  }

  function Next(l: Ledger, step: Step): Ledger {
    match step
    case EventStep(ev) => NextEvent(l, ev)
    case GoalStep(t, outbox) => NextGoal(l, t, outbox)
  }

  // --------------------------------------------------------------- invariant

  /** An entry carries a correlation exactly when its delta sets a one-shot field. */
  predicate EntryOk(l: Ledger, k: nat)
    requires k < |l.published|
  {
    var e := l.published[k];
    && e.epoch <= l.epoch && (e.epoch == l.epoch ==> 1 <= e.sequence <= l.bot.sync.sequence)
    && (e.oneShot.Some? <==> SetsOneShot(e.delta.state))
    && (k > 0 ==> Later(l.published[k - 1], e))
  }

  predicate Later(a: Entry, b: Entry) {
    a.epoch < b.epoch || (a.epoch == b.epoch && a.sequence < b.sequence)
  }

  predicate IsSettled(l: Ledger, epoch: nat, sequence: nat) {
    exists k :: 0 <= k < |l.settled| && l.settled[k].epoch == epoch && l.settled[k].sequence == sequence
  }

  predicate IsInFlight(l: Ledger, e: Entry) {
    && l.bot.sync.inFlight.Some? && e.epoch == l.epoch
    && e.sequence == l.bot.sync.inFlight.value.correlation && e.oneShot == Some(l.bot.sync.inFlight.value.action)
  }

  /** A one-shot of the current epoch is settled or in flight, never both. */
  predicate Accounted(l: Ledger, e: Entry) {
    e.oneShot.Some? && e.epoch == l.epoch ==> (IsSettled(l, e.epoch, e.sequence) <==> !IsInFlight(l, e))
  }

  /** A settled one was published as a one-shot, and the report that settled it came after that, from one session. */
  predicate SettledOk(l: Ledger, k: nat)
    requires k < |l.settled|
  {
    var s := l.settled[k];
    && s.epoch <= l.epoch && s.sequence <= s.reportedAt
    && (exists j ::
          0 <= j < |l.published| && l.published[j].epoch == s.epoch && l.published[j].sequence == s.sequence
          && l.published[j].oneShot.Some?)
    && (forall j :: 0 <= j < k ==> l.settled[j].epoch != s.epoch || l.settled[j].sequence != s.sequence)
  }

  /** The in-flight one-shot was published in this epoch. */
  predicate FlightOk(l: Ledger) {
    var f := l.bot.sync.inFlight;
    f.Some? ==>
      && IsOneShot(f.value.action) && 1 <= f.value.correlation <= l.bot.sync.sequence
      && exists j :: 0 <= j < |l.published| && IsInFlight(l, l.published[j])
  }

  /** What was reported was reported by the current session, about what it had published by then. */
  predicate ReportOk(l: Ledger) {
    && l.reportedAt <= l.bot.sync.sequence
    && (l.bot.reality.Some? ==>
          && l.bot.session.remoteID != "" && l.reporter == l.bot.session.remoteID
          && forall o :: o in l.bot.reality.value ==> 1 <= o.sequence <= l.reportedAt)
  }

  /** Controller states that ticks send: exclusive, and a one-shot field alone. */
  predicate Simple(s: ControllerState) {
    Exclusive(s) && (SetsOneShot(s) ==> FieldOf(s).Some?)
  }

  ghost predicate Safe(l: Ledger) {
    && l.bot.sync.desired == l.bot.sync.lastSent && Simple(l.bot.sync.lastSent)
    && ReportOk(l) && FlightOk(l)
    && (forall k {:trigger EntryOk(l, k)} :: 0 <= k < |l.published| ==> EntryOk(l, k))
    && (forall e {:trigger Accounted(l, e)} :: e in l.published ==> Accounted(l, e))
    && (forall k {:trigger SettledOk(l, k)} :: 0 <= k < |l.settled| ==> SettledOk(l, k))
  }

  // ------------------------------------------------------------------ events

  /**
   * With sequences from one on, the controller starts over exactly when the session changes, and then
   * nothing is reported yet.
   */
  lemma ResetMeansNewSession(b: Bot, ev: Event)
    requires ev.sequence >= 1
    ensures Resets(b, ev) <==> ApplyEvent(b, ev).session.remoteID != b.session.remoteID
    ensures Resets(b, ev) ==> ApplyEvent(b, ev).sync == FRESH_SYNC
    ensures !Resets(b, ev) ==> ApplyEvent(b, ev).sync == b.sync && ApplyEvent(b, ev).utility == b.utility
    ensures Resets(b, ev) && b.session.remoteID != "" ==> ApplyEvent(b, ev).reality == None
  {
  }

  /** A reset changes the stored session exactly when the event's sequence is at least one. */
  lemma ResetChangesSession(b: Bot, ev: Event)
    requires Resets(b, ev)
    ensures ApplyEvent(b, ev).session.remoteID != b.session.remoteID <==> ev.sequence >= 1
    ensures ev.sequence == 0 ==> ApplyEvent(b, ev).session == b.session && ApplyEvent(b, ev).sync == FRESH_SYNC
  {
  }

  /** An event of sequence zero can start the controller over in place: the old session stays. */
  lemma SequenceZeroResetsInPlace()
    ensures var b := NEW_BOT.(session := Session("a", 1, PlayReady), sync := FRESH_SYNC.(sequence := 1));
      var ev := Event(ObservationEvent, "b", 0);
      ApplyEvent(b, ev).session.remoteID == "a" && ApplyEvent(b, ev).sync == FRESH_SYNC
  {
  }

  lemma EventKeepsSafe(l: Ledger, ev: Event)
    requires Safe(l) && Allowed(l, EventStep(ev))
    ensures Safe(NextEvent(l, ev))
  {
    var l' := NextEvent(l, ev);
    ResetMeansNewSession(l.bot, ev);
    forall k | 0 <= k < |l'.published| ensures EntryOk(l', k) {
      assert EntryOk(l, k);
    }
    forall k | 0 <= k < |l'.settled| ensures SettledOk(l', k) {
      assert SettledOk(l, k);
    }
    forall e | e in l'.published ensures Accounted(l', e) {
      assert Accounted(l, e);
      var k :| 0 <= k < |l.published| && l.published[k] == e;
      assert EntryOk(l, k);
    }
    if !Resets(l.bot, ev) && l.bot.sync.inFlight.Some? {
      var j :| 0 <= j < |l.published| && IsInFlight(l, l.published[j]);
      assert IsInFlight(l', l'.published[j]);
    }
  }

  // -------------------------------------------------------------- goal ticks

  lemma DesiredIsSimple(sync: Sync, d: Decision, completedOneShot: bool)
    requires Simple(sync.desired)
    ensures Simple(Desired(sync, d, completedOneShot))
    ensures !completedOneShot && IsOneShot(d.action) && sync.inFlight.None? ==>
      Desired(sync, d, completedOneShot) == StateForDecision(d)
    ensures completedOneShot && IsOneShot(d.action) ==> Desired(sync, d, completedOneShot) == EMPTY_STATE
    ensures !completedOneShot && IsOneShot(d.action) && sync.inFlight.Some? ==>
      Desired(sync, d, completedOneShot) == sync.desired
    ensures !IsOneShot(d.action) ==> !SetsOneShot(Desired(sync, d, completedOneShot))
  {
    DecisionSetsOneField(d);
    NormalizedIsExclusive(StateForDecision(d));
    NormalizedIsExclusive(sync.desired);
    NormalizedIsExclusive(EMPTY_STATE);
  }

  /** Between simple states, a delta sets a one-shot field exactly when the new state has one and differs. */
  lemma DeltaSetsNewShot(last: ControllerState, cur: ControllerState)
    requires Simple(last) && Simple(cur)
    ensures SetsOneShot(RawDelta(last, cur).state) <==> SetsOneShot(cur) && last != cur
  {
  }

  /** A delta sets a one-shot field exactly when one is put in flight with the delta's sequence. */
  lemma PublishesFresh(t: Tick, sync: Sync, u: Utility, d: Decision, completedOneShot: bool)
    requires sync.desired == sync.lastSent && Simple(sync.lastSent)
    requires sync.inFlight.Some? ==> sync.inFlight.value.correlation <= sync.sequence
    ensures var launched := Launched(t, sync, u, d, completedOneShot);
      var (sync', m) := Published(sync, Desired(sync, d, completedOneShot), launched);
      && sync'.desired == sync'.lastSent && Simple(sync'.lastSent)
      && (m.None? ==> sync'.sequence == sync.sequence && sync'.inFlight == sync.inFlight)
      && (m.Some? ==> m.value.sequence == sync.sequence + 1 == sync'.sequence)
      && (m.Some? ==> (SetsOneShot(m.value.delta.state) <==> launched.Some?))
      && (m.Some? ==> sync'.inFlight == if launched.Some? then launched else sync.inFlight)
  {
    var desired := Desired(sync, d, completedOneShot);
    DesiredIsSimple(sync, d, completedOneShot);
    DiffNoneWhenEqual(sync.lastSent, desired);
    DeltaSetsNewShot(sync.lastSent, desired);
    DecisionSetsOneField(d);
  }

  /** Settling clears what is in flight and nothing else of the controller. */
  lemma FeedbackSettles(b: Bot)
    ensures var (c, _) := Feedback(b);
      && c.session == b.session && c.reality == b.reality
      && c.sync == if Settling(b).Some? then b.sync.(inFlight := None) else b.sync
  {
  }

  /** What one goal tick does to the controller. */
  ghost predicate TickEffect(b: Bot, b': Bot, m: Option<Message>, settling: bool) {
    var flying := if settling then None else b.sync.inFlight;
    && b'.session == b.session && b'.reality == b.reality
    && b'.sync.desired == b'.sync.lastSent && Simple(b'.sync.lastSent)
    && (m.None? ==> b'.sync.sequence == b.sync.sequence && b'.sync.inFlight == flying)
    && (m.Some? ==> m.value.sequence == b.sync.sequence + 1 == b'.sync.sequence)
    && (m.Some? && SetsOneShot(m.value.delta.state) ==>
          flying.None? && b'.sync.inFlight.Some? && IsOneShot(b'.sync.inFlight.value.action)
          && b'.sync.inFlight.value.correlation == m.value.sequence)
    && (m.Some? && !SetsOneShot(m.value.delta.state) ==> b'.sync.inFlight == flying)
  }

  lemma GoalTickEffect(b: Bot, t: Tick, outbox: bool)
    requires b.sync.desired == b.sync.lastSent && Simple(b.sync.lastSent)
    requires b.sync.inFlight.Some? ==> b.sync.inFlight.value.correlation <= b.sync.sequence
    ensures var (b', m) := GoalTick(b, t, outbox); TickEffect(b, b', m, Runs(b, outbox) && Settling(b).Some?)
  {
    if Runs(b, outbox) {
      var (c, reason) := Feedback(b);
      FeedbackSettles(b);
      var completedOneShot := reason.ExitFailed? || reason.ExitCompleted?;
      var (u, decision) := Reconcile(t, c.utility, reason);
      var d := if decision.Some? then decision.value else NO_DECISION;
      PublishesFresh(t, c.sync, u, d, completedOneShot);
    }
  }

  lemma SettlesInFlight(l: Ledger)
    requires Safe(l) && Settling(l.bot).Some?
    ensures l.bot.sync.inFlight.Some? && l.bot.sync.inFlight.value.correlation <= l.reportedAt
    ensures l.reporter == l.bot.session.remoteID != ""
  {
    MatchIsReported(l.bot.reality.value, l.bot.sync.inFlight.value);
  }

  lemma GoalKeepsReport(l: Ledger, t: Tick, outbox: bool)
    requires Safe(l)
    ensures var l' := NextGoal(l, t, outbox);
      l'.bot.sync.desired == l'.bot.sync.lastSent && Simple(l'.bot.sync.lastSent) && ReportOk(l')
  {
    GoalTickEffect(l.bot, t, outbox);
  }

  lemma GoalKeepsEntries(l: Ledger, t: Tick, outbox: bool, k: nat)
    requires Safe(l) && k < |NextGoal(l, t, outbox).published|
    ensures EntryOk(NextGoal(l, t, outbox), k)
  {
    GoalTickEffect(l.bot, t, outbox);
    if k < |l.published| {
      assert EntryOk(l, k);
    } else if k > 0 {
      assert EntryOk(l, k - 1);
    }
  }

  lemma GoalKeepsFlight(l: Ledger, t: Tick, outbox: bool)
    requires Safe(l)
    ensures FlightOk(NextGoal(l, t, outbox))
  {
    GoalTickEffect(l.bot, t, outbox);
    var l' := NextGoal(l, t, outbox);
    if l'.bot.sync.inFlight.Some? {
      if l'.bot.sync.inFlight == l.bot.sync.inFlight {
        var j :| 0 <= j < |l.published| && IsInFlight(l, l.published[j]);
        assert IsInFlight(l', l'.published[j]);
      } else {
        assert IsInFlight(l', l'.published[|l.published|]);
      }
    }
  }

  lemma GoalKeepsSettled(l: Ledger, t: Tick, outbox: bool, k: nat)
    requires Safe(l) && k < |NextGoal(l, t, outbox).settled|
    ensures SettledOk(NextGoal(l, t, outbox), k)
  {
    var l' := NextGoal(l, t, outbox);
    if k < |l.settled| {
      assert SettledOk(l, k);
      var j :| 0 <= j < |l.published| && l.published[j].epoch == l.settled[k].epoch
        && l.published[j].sequence == l.settled[k].sequence && l.published[j].oneShot.Some?;
      assert l'.published[j] == l.published[j];
    } else {
      SettlesInFlight(l);
      var j :| 0 <= j < |l.published| && IsInFlight(l, l.published[j]);
      assert Accounted(l, l.published[j]);
      assert l'.published[j] == l.published[j];
    }
  }

  /** A goal tick settles what it settles and nothing else. */
  lemma SettledGrows(l: Ledger, t: Tick, outbox: bool, epoch: nat, sequence: nat)
    requires Safe(l)
    ensures var l' := NextGoal(l, t, outbox);
      IsSettled(l', epoch, sequence) <==>
        IsSettled(l, epoch, sequence)
        || (Runs(l.bot, outbox) && Settling(l.bot).Some? && epoch == l.epoch
            && sequence == l.bot.sync.inFlight.value.correlation)
  {
    var l' := NextGoal(l, t, outbox);
    if IsSettled(l, epoch, sequence) {
      var k :| 0 <= k < |l.settled| && l.settled[k].epoch == epoch && l.settled[k].sequence == sequence;
      assert l'.settled[k] == l.settled[k];
    }
    if |l'.settled| > |l.settled| {
      assert l'.settled[|l.settled|].epoch == l.epoch;
    }
  }

  lemma OldEntryAccounted(l: Ledger, t: Tick, outbox: bool, e: Entry)
    requires Safe(l) && e in l.published
    ensures Accounted(NextGoal(l, t, outbox), e)
  {
    GoalTickEffect(l.bot, t, outbox);
    SettledGrows(l, t, outbox, e.epoch, e.sequence);
    assert Accounted(l, e);
    var j :| 0 <= j < |l.published| && l.published[j] == e;
    assert EntryOk(l, j);
  }

  lemma NewEntryUnsettled(l: Ledger, e: Entry)
    requires Safe(l) && e.epoch == l.epoch && e.sequence > l.bot.sync.sequence
    ensures !IsSettled(l, e.epoch, e.sequence)
  {
    forall k | 0 <= k < |l.settled| ensures l.settled[k].epoch != e.epoch || l.settled[k].sequence != e.sequence {
      assert SettledOk(l, k);
      var j :| 0 <= j < |l.published| && l.published[j].epoch == l.settled[k].epoch
        && l.published[j].sequence == l.settled[k].sequence && l.published[j].oneShot.Some?;
      assert EntryOk(l, j);
    }
  }

  lemma GoalKeepsAccounts(l: Ledger, t: Tick, outbox: bool, e: Entry)
    requires Safe(l) && e in NextGoal(l, t, outbox).published
    ensures Accounted(NextGoal(l, t, outbox), e)
  {
    if e in l.published {
      OldEntryAccounted(l, t, outbox, e);
    } else {
      GoalTickEffect(l.bot, t, outbox);
      SettledGrows(l, t, outbox, e.epoch, e.sequence);
      NewEntryUnsettled(l, e);
    }
  }

  lemma GoalKeepsSafe(l: Ledger, t: Tick, outbox: bool)
    requires Safe(l)
    ensures Safe(NextGoal(l, t, outbox))
  {
    var l' := NextGoal(l, t, outbox);
    GoalKeepsReport(l, t, outbox);
    GoalKeepsFlight(l, t, outbox);
    forall k | 0 <= k < |l'.published| ensures EntryOk(l', k) {
      GoalKeepsEntries(l, t, outbox, k);
    }
    forall e | e in l'.published ensures Accounted(l', e) {
      GoalKeepsAccounts(l, t, outbox, e);
    }
    forall k | 0 <= k < |l'.settled| ensures SettledOk(l', k) {
      GoalKeepsSettled(l, t, outbox, k);
    }
  }

  // -------------------------------------------------------------------- runs

  predicate AllAllowed(l: Ledger, steps: seq<Step>)
    decreases |steps|
  {
    steps == [] || (Allowed(l, steps[0]) && AllAllowed(Next(l, steps[0]), steps[1..]))
  }

  function End(l: Ledger, steps: seq<Step>): Ledger
    decreases |steps|
  {
    if steps == [] then l else End(Next(l, steps[0]), steps[1..])
  }

  /** The protocol is safe at the end of every run, so at every point of every run. */
  lemma {:induction false} RunsAreSafe(l: Ledger, steps: seq<Step>)
    requires Safe(l) && AllAllowed(l, steps)
    ensures Safe(End(l, steps))
    decreases |steps|
  {
    if steps != [] {
      match steps[0] {
        case EventStep(ev) => EventKeepsSafe(l, ev);
        case GoalStep(t, outbox) => GoalKeepsSafe(l, t, outbox);
      }
      RunsAreSafe(Next(l, steps[0]), steps[1..]);
    }
  }

  /** No two one-shots of an epoch are unsettled at once, and the one that is carries the correlation in flight. */
  lemma AtMostOneInFlight(steps: seq<Step>, j: nat, k: nat)
    requires AllAllowed(START, steps)
    ensures var l := End(START, steps);
      j < |l.published| && k < |l.published| && Unsettled(l, l.published[j]) && Unsettled(l, l.published[k]) ==>
        j == k && l.bot.sync.inFlight.Some? && l.bot.sync.inFlight.value.correlation == l.published[j].sequence
  {
    RunsAreSafe(START, steps);
    var l := End(START, steps);
    if j < |l.published| && k < |l.published| && Unsettled(l, l.published[j]) && Unsettled(l, l.published[k]) {
      assert Accounted(l, l.published[j]) && Accounted(l, l.published[k]);
      if j < k {
        Increasing(l, j, k);
      } else if k < j {
        Increasing(l, k, j);
      }
    }
  }

  predicate Unsettled(l: Ledger, e: Entry) {
    e.epoch == l.epoch && e.oneShot.Some? && !IsSettled(l, e.epoch, e.sequence)
  }

  /** Sequences are never reused within an epoch. */
  lemma {:induction false} Increasing(l: Ledger, j: nat, k: nat)
    requires Safe(l) && j < k < |l.published|
    ensures Later(l.published[j], l.published[k])
  {
    assert EntryOk(l, k);
    if j < k - 1 {
      Increasing(l, j, k - 1);
    }
  }

  /**
   * After any run, a goal tick publishes a one-shot only when none is in flight, with a sequence above
   * all of its epoch.
   */
  lemma PublishesOnlyWhenIdle(steps: seq<Step>, t: Tick, outbox: bool)
    requires AllAllowed(START, steps)
    ensures var l := End(START, steps);
      var (bot, m) := GoalTick(l.bot, t, outbox);
      m.Some? && SetsOneShot(m.value.delta.state) ==>
        && (forall k :: 0 <= k < |l.published| ==> !Unsettled(NextGoal(l, t, outbox), l.published[k]))
        && (forall k :: 0 <= k < |l.published| && l.published[k].epoch == l.epoch ==>
            l.published[k].sequence < m.value.sequence)
        && bot.sync.inFlight.Some? && bot.sync.inFlight.value.correlation == m.value.sequence
  {
    RunsAreSafe(START, steps);
    var l := End(START, steps);
    var l' := NextGoal(l, t, outbox);
    GoalTickEffect(l.bot, t, outbox);
    GoalKeepsSafe(l, t, outbox);
    var (bot, m) := GoalTick(l.bot, t, outbox);
    if m.Some? && SetsOneShot(m.value.delta.state) {
      forall k | 0 <= k < |l.published|
        ensures !Unsettled(l', l.published[k])
        ensures l.published[k].epoch == l.epoch ==> l.published[k].sequence < m.value.sequence
      {
        assert EntryOk(l, k) && l'.published[k] == l.published[k] && Accounted(l', l.published[k]);
      }
    }
  }

  /**
   * After any run, a goal tick settles at most the one in flight, never one settled before, by a later
   * report of the current session.
   */
  lemma SettlesOnceBySession(steps: seq<Step>, t: Tick, outbox: bool)
    requires AllAllowed(START, steps)
    ensures var l := End(START, steps);
      var l' := NextGoal(l, t, outbox);
      l'.settled != l.settled ==>
        && |l'.settled| == |l.settled| + 1 && l'.settled[..|l.settled|] == l.settled
        && var s := l'.settled[|l.settled|];
        && !IsSettled(l, s.epoch, s.sequence)
        && s.session == l.bot.session.remoteID && s.sequence <= s.reportedAt
  {
    RunsAreSafe(START, steps);
    var l := End(START, steps);
    var l' := NextGoal(l, t, outbox);
    if l'.settled != l.settled {
      SettlesInFlight(l);
      var j :| 0 <= j < |l.published| && IsInFlight(l, l.published[j]);
      assert Accounted(l, l.published[j]);
    }
  }

  /** The tick that learns of a failure does not decide on the failed one-shot again while its fingerprint stands. */
  lemma FailureIsNotRepeated(b: Bot, t: Tick)
    requires Feedback(b).1 == ExitFailed
    ensures b.sync.inFlight.Some?
    ensures var (c, reason) := Feedback(b);
      var (u, decision) := Reconcile(t, c.utility, reason);
      var p := PlanOf(b.sync.inFlight.value, ExitFailed);
      && p in c.utility.failed
      && (Current(t, p) && decision.Some? ==> !Blocks(p, u.goal, decision.value.target, HashOf(t, decision.value)))
  {
    var (c, reason) := Feedback(b);
    var p := PlanOf(b.sync.inFlight.value, ExitFailed);
    assert c.utility.failed == Remember(b.utility.failed, p);
    assert c.utility.failed[|c.utility.failed| - 1] == p;
    FailureHoldsWhileCurrent(t, c.utility, reason, p);
  }
  // ------------------------------------------- decisions that are not sent

  /**
   * The tick runs and decides on a one-shot, no one-shot is in flight any more, and none has just been
   * settled for it.
   */
  predicate DecidesFreely(b: Bot, t: Tick, outbox: bool) {
    var (c, reason) := Feedback(b);
    var decision := Reconcile(t, c.utility, reason).1;
    && Runs(b, outbox) && reason.ExitNone? && c.sync.inFlight.None?
    && decision.Some? && IsOneShot(decision.value.action)
  }

  /** What such a tick decides on. */
  function FreeDecision(b: Bot, t: Tick, outbox: bool): Decision
    requires DecidesFreely(b, t, outbox)
  {
    var (c, reason) := Feedback(b);
    Reconcile(t, c.utility, reason).1.value
  }

  /** What such a tick does: it publishes the decision and puts it in flight, unless that is what was sent last. */
  lemma FreeTick(b: Bot, t: Tick, outbox: bool)
    requires b.sync.desired == b.sync.lastSent && DecidesFreely(b, t, outbox)
    ensures var d, u := FreeDecision(b, t, outbox), Reconcile(t, Feedback(b).0.utility, ExitNone).0;
      var (b', m) := GoalTick(b, t, outbox);
      && b'.session == b.session && b'.reality == b.reality && b'.utility == u
      && (m.Some? <==> b.sync.lastSent != StateForDecision(d))
      && (m.Some? ==>
          m.value.sequence == b.sync.sequence + 1 && m.value.delta == RawDelta(b.sync.lastSent, StateForDecision(d)))
      && (m.Some? ==> b'.sync == Sync(StateForDecision(d), StateForDecision(d), b.sync.sequence + 1,
            Some(InFlight(d.action, b.sync.sequence + 1, u.goal, d.target, HashOf(t, d), d.craftCount, d.placeItem))))
      && (m.None? ==> b'.sync == b.sync.(inFlight := None))
  {
    var d, c := FreeDecision(b, t, outbox), Feedback(b).0;
    FeedbackSettles(b);
    DecisionSetsOneField(d);
    NormalizedIsExclusive(StateForDecision(d));
    DiffNoneWhenEqual(c.sync.lastSent, StateForDecision(d));
  }

  /**
   * After any run, a one-shot that is decided on while none is in flight is
   * published and put in flight exactly when it is not what was sent last;
   * otherwise nothing is published and nothing is put in flight.
   */
  lemma PublishedUnlessSentLast(steps: seq<Step>, t: Tick, outbox: bool)
    requires AllAllowed(START, steps) && DecidesFreely(End(START, steps).bot, t, outbox)
    ensures var b := End(START, steps).bot;
      var d := FreeDecision(b, t, outbox);
      var (b', m) := GoalTick(b, t, outbox);
      && (m.Some? <==> b.sync.lastSent != StateForDecision(d))
      && (m.Some? <==> b'.sync.inFlight.Some?)
      && (m.Some? ==> SetsOneShot(m.value.delta.state) && b'.sync.lastSent == StateForDecision(d)
                      && b'.sync.inFlight.value.action == d.action
                          && b'.sync.inFlight.value.correlation == m.value.sequence)
  {
    RunsAreSafe(START, steps);
    var b := End(START, steps).bot;
    var d := FreeDecision(b, t, outbox);
    FreeTick(b, t, outbox);
    DecisionSetsOneField(d);
    DeltaSetsNewShot(b.sync.lastSent, StateForDecision(d));
  }

  /** While a one-shot is in flight and not reported on, deciding on one publishes nothing. */
  lemma WaitingTick(b: Bot, t: Tick, outbox: bool)
    requires b.sync.desired == b.sync.lastSent && Exclusive(b.sync.lastSent)
    requires Runs(b, outbox) && b.sync.inFlight.Some? && Settling(b).None?
    requires var decision := Reconcile(t, b.utility, ExitNone).1; decision.Some? && IsOneShot(decision.value.action)
    ensures GoalTick(b, t, outbox) == (b.(utility := Reconcile(t, b.utility, ExitNone).0), None)
  {
    NormalizedIsExclusive(b.sync.desired);
    DiffNoneWhenEqual(b.sync.lastSent, b.sync.desired);
  }

  const ITEM := GoalTarget(ItemTarget, 0, ChunkStore.BlockPosition(0, 0, 0), "stick", ChunkStore.BlockPosition(0, 0, 0))

  /** A tick in which one goal scores: crafting wants a stick, eating wants to eat one. */
  function TickFor(g: GoalType): Tick {
    Tick(true, h => if h == g then 1.0 else 0.0,
         h => Decision(h, ITEM, NO_TARGET, if h == Eat then Consume else Craft, 1, ""), k => 1)
  }

  lemma TickDecides(g: GoalType, u: Utility, feedback: ExitReason)
    requires g == Eat || g == CraftTool
    requires u.failed == [] && u.completed == [] && feedback.ExitNone?
    ensures var (u', d) := Reconcile(TickFor(g), u, feedback);
      u'.goal == g && u'.target == ITEM && u'.failed == [] && u'.completed == [] && d == Some(TickFor(g).decide(g))
  {
    var t := TickFor(g);
    assert Revalidated(t, u) == u;
    BestIsUnique(t, u, Some(g));
  }

  const BECOMES_READY := EventStep(Event(ObservationEvent, "s", 1))
  const CRAFTING_DONE := EventStep(Event(RealityEvent(Some([Outcome(1, Craft, Completed)])), "s", 2))

  function CraftThenEat(): seq<Step> {
    [BECOMES_READY] + [GoalStep(TickFor(CraftTool), true)] + [GoalStep(TickFor(Eat), true)]
  }

  /** The bot crafts, decides to eat instead, and hears that crafting is done. */
  function RepeatSteps(): seq<Step> {
    CraftThenEat() + [CRAFTING_DONE]
  }

  const PLAYING := Session("s", 1, PlayReady)

  /** The state a tick for crafting or eating asks for. */
  function Wanted(g: GoalType): ControllerState {
    StateForDecision(TickFor(g).decide(g))
  }

  /** Without a report and with nothing in flight, a tick for crafting decides freely. */
  lemma CraftingIsFree(b: Bot)
    requires b.session == PLAYING && b.sync.inFlight.None? && b.utility.failed == [] && b.utility.completed == []
    ensures Feedback(b) == (b, ExitNone)
    ensures DecidesFreely(b, TickFor(CraftTool), true)
    ensures FreeDecision(b, TickFor(CraftTool), true) == TickFor(CraftTool).decide(CraftTool)
    ensures Wanted(CraftTool) != EMPTY_STATE
  {
    TickDecides(CraftTool, b.utility, ExitNone);
  }

  /** A ready bot without history decides to craft: it is published as number one and put in flight. */
  lemma CraftingStarts(b: Bot)
    requires b.session == PLAYING && b.reality == None && b.utility.failed == [] && b.utility.completed == []
    requires b.sync.desired == b.sync.lastSent == EMPTY_STATE && b.sync.sequence == 0 && b.sync.inFlight.None?
    ensures var b' := GoalTick(b, TickFor(CraftTool), true).0;
      && b'.session == PLAYING && b'.reality == None
      && b'.utility.goal == CraftTool && b'.utility.failed == [] && b'.utility.completed == []
      && b'.sync == Sync(Wanted(CraftTool), Wanted(CraftTool), 1, Some(InFlight(Craft, 1, CraftTool, ITEM, 1, 1, "")))
  {
    TickDecides(CraftTool, b.utility, ExitNone);
    CraftingIsFree(b);
    FreeTick(b, TickFor(CraftTool), true);
  }

  /** While crafting is in flight it decides to eat: nothing is published, and the goal is another one. */
  lemma EatingWaits(b: Bot)
    requires b.session == PLAYING && b.reality == None && b.utility.failed == [] && b.utility.completed == []
    requires b.sync.desired == b.sync.lastSent == Wanted(CraftTool) && b.sync.inFlight.Some?
    ensures var b' := GoalTick(b, TickFor(Eat), true).0;
      && b'.session == PLAYING && b'.reality == None && b'.sync == b.sync
      && b'.utility.goal == Eat && b'.utility.failed == [] && b'.utility.completed == []
  {
    TickDecides(Eat, b.utility, ExitNone);
    DecisionSetsOneField(TickFor(CraftTool).decide(CraftTool));
    WaitingTick(b, TickFor(Eat), true);
  }

  /** Crafting is reported done to a bot whose goal is eating: settled, but remembered nowhere. */
  lemma CompletionIsForgotten(b: Bot)
    requires b.session == PLAYING && b.reality == Some([Outcome(1, Craft, Completed)]) && b.utility.goal == Eat
    requires b.sync.inFlight.Some? && b.sync.inFlight.value.action == Craft
    requires b.sync.inFlight.value.goal == CraftTool && b.sync.inFlight.value.correlation == 1
    ensures Feedback(b) == (b.(sync := b.sync.(inFlight := None)), ExitNone)
  {
  }

  /** Crafting is in flight, and eating is the goal. */
  predicate EatsWhileCrafting(b: Bot) {
    && b.session == PLAYING && b.utility.goal == Eat && b.utility.failed == [] && b.utility.completed == []
    && b.sync == Sync(Wanted(CraftTool), Wanted(CraftTool), 1, Some(InFlight(Craft, 1, CraftTool, ITEM, 1, 1, "")))
  }

  lemma ReadyBot()
    ensures AllAllowed(START, [BECOMES_READY]) && End(START, [BECOMES_READY]).bot == NEW_BOT.(session := PLAYING)
  {
    assert [] + [BECOMES_READY] == [BECOMES_READY];
    OneMoreStep([], BECOMES_READY);
  }

  lemma EatingBot()
    ensures AllAllowed(START, CraftThenEat()) && EatsWhileCrafting(End(START, CraftThenEat()).bot)
  {
    var craft, eat := GoalStep(TickFor(CraftTool), true), GoalStep(TickFor(Eat), true);
    ReadyBot();
    CraftingStarts(End(START, [BECOMES_READY]).bot);
    OneMoreStep([BECOMES_READY], craft);
    EatingWaits(End(START, [BECOMES_READY] + [craft]).bot);
    OneMoreStep([BECOMES_READY] + [craft], eat);
  }

  lemma RepeatBot()
    ensures AllAllowed(START, RepeatSteps())
    ensures var b := End(START, RepeatSteps()).bot;
      EatsWhileCrafting(b) && b.reality == Some([Outcome(1, Craft, Completed)])
  {
    EatingBot();
    OneMoreStep(CraftThenEat(), CRAFTING_DONE);
  }

  /** What the next tick for crafting does to such a bot. */
  lemma RepeatDecides(b: Bot)
    requires EatsWhileCrafting(b) && b.reality == Some([Outcome(1, Craft, Completed)])
    ensures DecidesFreely(b, TickFor(CraftTool), true)
    ensures FreeDecision(b, TickFor(CraftTool), true) == TickFor(CraftTool).decide(CraftTool)
  {
    CompletionIsForgotten(b);
    TickDecides(CraftTool, b.utility, ExitNone);
  }

  /**
   * Such a one-shot can be decided on again and not be sent: its completion
   * did not count, and the state is the one sent last.
   */
  lemma RepeatIsNotSent()
    ensures AllAllowed(START, RepeatSteps())
    ensures var b := End(START, RepeatSteps()).bot;
      && DecidesFreely(b, TickFor(CraftTool), true) && FreeDecision(b, TickFor(CraftTool), true).action == Craft
      && GoalTick(b, TickFor(CraftTool), true).1 == None
  {
    RepeatBot();
    RepeatDecides(End(START, RepeatSteps()).bot);
    PublishedUnlessSentLast(RepeatSteps(), TickFor(CraftTool), true);
  }

  lemma OneMoreStep(steps: seq<Step>, step: Step)
    requires AllAllowed(START, steps) && Allowed(End(START, steps), step)
    ensures AllAllowed(START, steps + [step]) && End(START, steps + [step]) == Next(End(START, steps), step)
  {
    LastStep(START, steps, step);
  }

  lemma {:induction false} LastStep(l: Ledger, steps: seq<Step>, step: Step)
    requires AllAllowed(l, steps) && Allowed(End(l, steps), step)
    ensures AllAllowed(l, steps + [step]) && End(l, steps + [step]) == Next(End(l, steps), step)
    decreases |steps|
  {
    if steps == [] {
      AppendNothing([step]);
      assert [step][1..] == [];
    } else {
      TailOfAppend(steps, [step]);
      LastStep(Next(l, steps[0]), steps[1..], step);
    }
  }
}
