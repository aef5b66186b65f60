// Choosing one goal per tick: eligible behaviors are scored, plans that
// failed or completed are skipped, and the best remaining one wins.
module Arbitration {
  import opened Options
  import opened ControllerTypes
  import opened PlanCache
  import opened Sequences

  /** What a fingerprint is taken of. */
  datatype Key = Key(goal: GoalType, action: Action, target: GoalTarget, craftCount: int, placeItem: string)

  /**
   * One tick's inputs: whether the session is ready, the scores, the decisions, and the fingerprints of
   * the inventory at hand.
   */
  datatype Tick = Tick(ready: bool, score: GoalType -> real, decide: GoalType -> Decision, hash: Key -> nat)

  datatype Utility = Utility(goal: GoalType, executing: bool, target: GoalTarget, failed: History, completed: History,
                             lastExit: ExitReason)

  /** Priority order of the executable goals. */
  const CATALOG: seq<GoalType> := [Flee, Fight, Eat, CraftTool, GatherResource, Idle]

  const WANDER_SCORE := 0.05

  function Score(t: Tick, g: GoalType): real {
    if g == Idle then WANDER_SCORE else t.score(g)
  }

  predicate Eligible(t: Tick, g: GoalType) {
    if g == Idle then t.ready else Score(t, g) > 0.0
  }

  function KeyOf(d: Decision): Key {
    Key(d.goal, d.action, d.target, d.craftCount, d.placeItem)
  }

  function KeyOfPlan(p: Plan): Key {
    Key(p.goal, p.action, p.target, p.craftCount, p.placeItem)
  }

  function HashOf(t: Tick, d: Decision): nat {
    t.hash(KeyOf(d))
  }

  predicate Blocks(p: Plan, g: GoalType, target: GoalTarget, hash: nat) {
    p.goal == g && p.target == target && p.hash == hash
  }

  predicate Remembered(h: History, g: GoalType, target: GoalTarget, hash: nat) {
    exists k :: 0 <= k < |h| && Blocks(h[k], g, target, hash)
  }

  /** A decision that failed before, or a one-shot that is already done. */
  predicate Suppressed(t: Tick, u: Utility, g: GoalType) {
    var d := t.decide(g);
    Remembered(u.failed, g, d.target, HashOf(t, d))
        || (IsOneShot(d.action) && Remembered(u.completed, g, d.target, HashOf(t, d)))
  }

  predicate Remains(t: Tick, u: Utility, g: GoalType) {
    g in CATALOG && Eligible(t, g) && !Suppressed(t, u, g)
  }

  // -------------------------------------------------------------- selection

  /** The winner among the first k goals. */
  function BestAmong(t: Tick, u: Utility, k: nat): Option<GoalType>
    requires k <= |CATALOG|
  {
    if k == 0 then None
    else
      var best, g := BestAmong(t, u, k - 1), CATALOG[k - 1];
      if Remains(t, u, g) && (best.None? || Score(t, g) > Score(t, best.value)) then Some(g) else best
  }

  function Best(t: Tick, u: Utility): Option<GoalType> {
    BestAmong(t, u, |CATALOG|)
  }

  function Rank(g: GoalType): nat {
    match g
    case Flee => 0
    case Fight => 1
    case Eat => 2
    case CraftTool => 3
    case GatherResource => 4
    case _ => 5
  }

  /** No remaining goal scores higher, and none of a better rank scores the same. */
  predicate Tops(t: Tick, g: GoalType, other: GoalType) {
    Score(t, g) > Score(t, other) || (Score(t, g) == Score(t, other) && Rank(g) <= Rank(other))
  }

  lemma {:induction false} BestAmongTops(t: Tick, u: Utility, k: nat)
    requires k <= |CATALOG|
    ensures var best := BestAmong(t, u, k);
      && (best.None? <==> forall j :: 0 <= j < k ==> !Remains(t, u, CATALOG[j]))
      && (best.Some? ==> Remains(t, u, best.value) && Rank(best.value) < k)
      && (best.Some? ==> forall j :: 0 <= j < k && Remains(t, u, CATALOG[j]) ==> Tops(t, best.value, CATALOG[j]))
  {
    if k > 0 {
      BestAmongTops(t, u, k - 1);
      assert Rank(CATALOG[k - 1]) == k - 1;
    }
  }

  /**
   * The winner is the highest-scoring remaining goal, ties going to the better rank; there is none
   * exactly when none remains.
   */
  lemma BestIsTop(t: Tick, u: Utility, g: GoalType)
    ensures Best(t, u).None? ==> !Remains(t, u, g)
    ensures Best(t, u).Some? ==> Remains(t, u, Best(t, u).value) && (Remains(t, u, g) ==> Tops(t, Best(t, u).value, g))
  {
    BestAmongTops(t, u, |CATALOG|);
    if g in CATALOG {
      var j :| 0 <= j < |CATALOG| && CATALOG[j] == g;
    }
  }

  method FindPlan(h: History, g: GoalType, target: GoalTarget, hash: nat) returns (found: bool)
    ensures found <==> Remembered(h, g, target, hash)
  {
    for k := 0 to |h|
      invariant forall j :: 0 <= j < k ==> !Blocks(h[j], g, target, hash)
    {
      if h[k].goal == g && h[k].target == target && h[k].hash == hash {
        return true;
      }
    }
    found := false;
  }

  function Reading(scores: map<GoalType, real>, g: GoalType): real {
    if g in scores then scores[g] else 0.0
  }

  /** Every goal of the catalog reads as -1 or less, so that none beats the value the search starts from. */
  predicate NoneInReach(scores: map<GoalType, real>) {
    forall j :: 0 <= j < |CATALOG| ==> Reading(scores, CATALOG[j]) <= -1.0
  }

  /** The first goal with the highest score, goals without one reading as zero; idle when none is in reach. */
  method SelectGoal(scores: map<GoalType, real>) returns (best: GoalType)
    ensures best in CATALOG
    ensures NoneInReach(scores) ==> best == Idle
    ensures !NoneInReach(scores) ==> forall j :: 0 <= j < |CATALOG| ==>
      Reading(scores, CATALOG[j]) <= Reading(scores, best)
    ensures !NoneInReach(scores) ==> forall j :: 0 <= j < Rank(best) ==>
      Reading(scores, CATALOG[j]) < Reading(scores, best)
  {
    best := Idle;
    var bestScore := -1.0;
    for k := 0 to |CATALOG|
      invariant bestScore >= -1.0 && (bestScore == -1.0 ==> best == Idle)
      invariant forall j :: 0 <= j < k ==> Reading(scores, CATALOG[j]) <= bestScore
      invariant bestScore > -1.0 ==> bestScore == Reading(scores, best) && best in CATALOG[..k] && Rank(best) < k
      invariant bestScore > -1.0 ==> forall j :: 0 <= j < Rank(best) ==> Reading(scores, CATALOG[j]) < bestScore
    {
      assert Rank(CATALOG[k]) == k;
      var score := Reading(scores, CATALOG[k]);
      if score > bestScore {
        bestScore := score;
        best := CATALOG[k];
      }
    }
  }

  /** Whether a goal is still in the running. */
  method IsCandidate(t: Tick, u: Utility, g: GoalType) returns (candidate: bool)
    requires g in CATALOG
    ensures candidate <==> Remains(t, u, g)
  {
    var d := t.decide(g);
    var failed := FindPlan(u.failed, g, d.target, HashOf(t, d));
    var completed := FindPlan(u.completed, g, d.target, HashOf(t, d));
    candidate := Eligible(t, g) && !failed && !(IsOneShot(d.action) && completed);
  }

  /** The scores of the remaining goals among the first k of the catalog, and no others. */
  predicate Scored(t: Tick, u: Utility, scores: map<GoalType, real>, k: nat)
    requires k <= |CATALOG|
  {
    && (forall g :: g in scores <==> g in CATALOG[..k] && Remains(t, u, g))
    && (forall g :: g in scores ==> scores[g] == Score(t, g))
  }

  lemma ScoredMore(t: Tick, u: Utility, scores: map<GoalType, real>, k: nat)
    requires k < |CATALOG| && Scored(t, u, scores, k)
    ensures var g := CATALOG[k]; Scored(t, u, if Remains(t, u, g) then scores[g := Score(t, g)] else scores, k + 1)
  {
    assert CATALOG[..k + 1] == CATALOG[..k] + [CATALOG[k]];
    assert forall g :: g in CATALOG[..k + 1] <==> g in CATALOG[..k] || g == CATALOG[k];
  }

  /** The runtime form: scores of the remaining goals in a map, the winner looked up by score. */
  method SelectBest(t: Tick, u: Utility) returns (winner: Option<GoalType>)
    ensures winner == Best(t, u)
  {
    var scores: map<GoalType, real> := map[];
    for k := 0 to |CATALOG|
      invariant Scored(t, u, scores, k)
    {
      ScoredMore(t, u, scores, k);
      var candidate := IsCandidate(t, u, CATALOG[k]);
      if candidate {
        scores := scores[CATALOG[k] := Score(t, CATALOG[k])];
      }
    }
    var best := SelectGoal(scores);
    winner := if best in scores then Some(best) else None;
    ScoredBest(t, u, scores, best);
  }

  /**
   * Selecting by score among the remaining goals, absent ones reading as zero, finds the best of them or
   * an absent one.
   */
  lemma ScoredBest(t: Tick, u: Utility, scores: map<GoalType, real>, best: GoalType)
    requires Scored(t, u, scores, |CATALOG|) && best in CATALOG
    requires NoneInReach(scores) ==> best == Idle
    requires !NoneInReach(scores) ==> forall j :: 0 <= j < |CATALOG| ==>
      Reading(scores, CATALOG[j]) <= Reading(scores, best)
    requires !NoneInReach(scores) ==> forall j :: 0 <= j < Rank(best) ==>
      Reading(scores, CATALOG[j]) < Reading(scores, best)
    ensures (if best in scores then Some(best) else None) == Best(t, u)
  {
    assert CATALOG[..|CATALOG|] == CATALOG;
    BestIsUnique(t, u, if best in scores then Some(best) else None);
  }

  lemma BestIsUnique(t: Tick, u: Utility, w: Option<GoalType>)
    requires w.None? ==> forall g :: !Remains(t, u, g)
    requires w.Some? ==> Remains(t, u, w.value) && forall g :: Remains(t, u, g) ==> Tops(t, w.value, g)
    ensures w == Best(t, u)
  {
    BestIsTop(t, u, if w.Some? then w.value else Idle);
    if w.Some? && Best(t, u).Some? {
      assert Tops(t, w.value, Best(t, u).value) && Tops(t, Best(t, u).value, w.value);
      assert Rank(w.value) == Rank(Best(t, u).value);
      assert CATALOG[Rank(w.value)] == w.value;
    }
  }

  // ----------------------------------------------------------- invalidation

  /** A one-shot plan is kept while its own fingerprint is what it was. */
  predicate Current(t: Tick, p: Plan) {
    p.hash == 0 || !IsOneShot(p.action) || t.hash(KeyOfPlan(p)) == p.hash
  }

  /** A plan of the decision's own goal, action and target is kept while its fingerprint is the decision's. */
  predicate Agreeing(d: Decision, hash: nat, p: Plan) {
    p.action == NoAction || p.hash == 0 || !(p.goal == d.goal && p.action == d.action && p.target == d.target)
        || p.hash == hash
  }

  function Kept(h: History, keep: Plan -> bool): (r: History)
    ensures |r| <= |h|
  {
    if h == [] then []
    else
      var n := |h| - 1;
      if keep(h[n]) then Kept(h[..n], keep) + [h[n]] else Kept(h[..n], keep)
  }

  lemma {:induction false} KeptHas(h: History, keep: Plan -> bool, p: Plan)
    ensures p in Kept(h, keep) <==> p in h && keep(p)
  {
    if h != [] {
      var n := |h| - 1;
      KeptHas(h[..n], keep, p);
      assert h == h[..n] + [h[n]];
    }
  }

  /** What is kept of two lists is kept of each, in the same order. */
  lemma {:induction false} KeptOfAppend(a: History, b: History, keep: Plan -> bool)
    requires |a + b| <= CAPACITY
    ensures Kept(a + b, keep) == Kept(a, keep) + Kept(b, keep)
    decreases |b|
  {
    if b == [] {
      AppendNothing(a);
      AppendNothing(Kept(a, keep));
    } else {
      var n := |b| - 1;
      InitOfAppend(a, b);
      KeptOfAppend(a, b[..n], keep);
      if keep(b[n]) {
        AppendAppend(Kept(a, keep), Kept(b[..n], keep), [b[n]]);
      }
    }
  }

  lemma KeptOne(p: Plan, keep: Plan -> bool)
    ensures Kept([p], keep) == if keep(p) then [p] else []
  {
  }

  function StillCurrent(t: Tick, h: History): History {
    Kept(h, p => Current(t, p))
  }

  function StillAgreeing(d: Decision, hash: nat, h: History): History {
    Kept(h, p => Agreeing(d, hash, p))
  }

  method InvalidateCachedPlans(t: Tick, h: History) returns (out: History)
    ensures out == StillCurrent(t, h)
  {
    out := [];
    for k := 0 to |h|
      invariant |out| <= k && out == StillCurrent(t, h[..k])
    {
      assert h[..k + 1][..k] == h[..k];
      if h[k].hash == 0 || !IsOneShot(h[k].action) || t.hash(KeyOfPlan(h[k])) == h[k].hash {
        out := Remember(out, h[k]);
      }
    }
    assert h[..|h|] == h;
  }

  method InvalidateStalePlans(d: Decision, hash: nat, h: History) returns (out: History)
    ensures out == StillAgreeing(d, hash, h)
  {
    out := [];
    for k := 0 to |h|
      invariant |out| <= k && out == StillAgreeing(d, hash, h[..k])
    {
      assert h[..k + 1][..k] == h[..k];
      var p := h[k];
      if p.action == NoAction || p.hash == 0 || !(p.goal == d.goal && p.action == d.action && p.target == d.target)
          || p.hash == hash {
        out := Remember(out, p);
      }
    }
    assert h[..|h|] == h;
  }

  // ---------------------------------------------------------- reconciliation

  function Revalidated(t: Tick, u: Utility): Utility {
    u.(failed := StillCurrent(t, u.failed), completed := StillCurrent(t, u.completed))
  }

  /** The state after a goal was chosen. */
  function Chosen(t: Tick, u: Utility, g: GoalType, feedback: ExitReason): Utility {
    var d := t.decide(g);
    Utility(
      g, true, d.target,
      if IsOneShot(d.action) then StillAgreeing(d, HashOf(t, d), u.failed) else u.failed,
      if IsOneShot(d.action) then StillAgreeing(d, HashOf(t, d), u.completed) else u.completed,
      if feedback.ExitFailed? || feedback.ExitCompleted? then feedback
      else if u.goal != g then ExitCancelled else ExitNone)
  }

  /** One tick: the next state, and the decision if any goal remains. */
  function Reconcile(t: Tick, u: Utility, feedback: ExitReason): (Utility, Option<Decision>) {
    var valid := Revalidated(t, u);
    var best := Best(t, valid);
    if best.None? then (valid.(goal := Idle, executing := false, target := NO_TARGET), None)
    else (Chosen(t, valid, best.value, feedback), Some(t.decide(best.value)))
  }

  method ReconcileWithFeedback(t: Tick, u: Utility, feedback: ExitReason)
      returns (next: Utility, decision: Option<Decision>)
    ensures (next, decision) == Reconcile(t, u, feedback)
  {
    next := u;
    var completed := InvalidateCachedPlans(t, next.completed);
    var failed := InvalidateCachedPlans(t, next.failed);
    next := next.(completed := completed, failed := failed);
    var best := SelectBest(t, next);
    if best.None? {
      return next.(goal := Idle, executing := false, target := NO_TARGET), None;
    }
    var previous, d := next.goal, t.decide(best.value);
    decision := Some(d);
    next := next.(goal := best.value, executing := true, target := d.target);
    if IsOneShot(d.action) {
      completed := InvalidateStalePlans(d, HashOf(t, d), next.completed);
      failed := InvalidateStalePlans(d, HashOf(t, d), next.failed);
      next := next.(completed := completed, failed := failed);
    }
    if feedback.ExitFailed? || feedback.ExitCompleted? {
      next := next.(lastExit := feedback);
    } else if previous != best.value {
      next := next.(lastExit := ExitCancelled);
    } else {
      next := next.(lastExit := ExitNone);
    }
  }

  lemma KeptForgets(h: History, keep: Plan -> bool, g: GoalType, target: GoalTarget, hash: nat)
    requires !Remembered(h, g, target, hash)
    ensures !Remembered(Kept(h, keep), g, target, hash)
  {
    var r := Kept(h, keep);
    forall k | 0 <= k < |r| ensures !Blocks(r[k], g, target, hash) {
      KeptHas(h, keep, r[k]);
      var j :| 0 <= j < |h| && h[j] == r[k];
      assert !Blocks(h[j], g, target, hash);
    }
  }

  /** No decision repeats a plan that is still remembered as failed, or, for a one-shot, as completed. */
  lemma NoSuppressedDecision(t: Tick, u: Utility, feedback: ExitReason)
    ensures var (next, decision) := Reconcile(t, u, feedback);
      decision.Some? ==>
        var d := decision.value;
        && !Remembered(next.failed, next.goal, d.target, HashOf(t, d))
        && (IsOneShot(d.action) ==> !Remembered(next.completed, next.goal, d.target, HashOf(t, d)))
  {
    var valid := Revalidated(t, u);
    var best := Best(t, valid);
    if best.Some? {
      BestIsTop(t, valid, best.value);
      var d := t.decide(best.value);
      var hash := HashOf(t, d);
      if IsOneShot(d.action) {
        KeptForgets(valid.failed, p => Agreeing(d, hash, p), best.value, d.target, hash);
        KeptForgets(valid.completed, p => Agreeing(d, hash, p), best.value, d.target, hash);
      }
    }
  }

  /**
   * A failed plan holds back its decision exactly as long as its fingerprint stands: while it does, the
   * decision is not made.
   */
  lemma FailureHoldsWhileCurrent(t: Tick, u: Utility, feedback: ExitReason, p: Plan)
    requires p in u.failed
    ensures p in Revalidated(t, u).failed <==> Current(t, p)
    ensures var (next, decision) := Reconcile(t, u, feedback);
      Current(t, p) && decision.Some? ==> !Blocks(p, next.goal, decision.value.target, HashOf(t, decision.value))
  {
    KeptHas(u.failed, p => Current(t, p), p);
    var valid := Revalidated(t, u);
    var best := Best(t, valid);
    if Current(t, p) && best.Some? {
      BestIsTop(t, valid, best.value);
      var k :| 0 <= k < |valid.failed| && valid.failed[k] == p;
    }
  }

  /** A tick has a decision exactly when some goal remains, and then it is the decision of the top one. */
  lemma DecidesWhenSomeGoalRemains(t: Tick, u: Utility, feedback: ExitReason, g: GoalType)
    ensures var (next, decision) := Reconcile(t, u, feedback);
      var valid := Revalidated(t, u);
      && (decision.None? ==> !Remains(t, valid, g) && next.goal == Idle && !next.executing)
      && (decision.Some? ==> (decision == Some(t.decide(next.goal)) && Remains(t, valid, next.goal)
            && (Remains(t, valid, g) ==> Tops(t, next.goal, g))))
  {
    BestIsTop(t, Revalidated(t, u), g);
  }

  // --------------------------------------------------- a tick in plain terms

  /** The plan is about this goal and this target, with this fingerprint. */
  ghost predicate IsAbout(p: Plan, g: GoalType, target: GoalTarget, hash: nat) {
    p.goal == g && p.target == target && p.hash == hash
  }

  /** What the behavior of a goal decides failed before, or is a one-shot and already done. */
  ghost predicate HeldBack(t: Tick, u: Utility, g: GoalType) {
    var d := t.decide(g);
    var hash := t.hash(Key(d.goal, d.action, d.target, d.craftCount, d.placeItem));
    || (exists p :: p in u.failed && IsAbout(p, g, d.target, hash))
    || (d.action in {Craft, Equip, Consume, Place} && exists p :: p in u.completed && IsAbout(p, g, d.target, hash))
  }

  /** A goal is in the running exactly when it has a positive score, or is idling when ready, and is not held back. */
  lemma RemainsExactly(t: Tick, u: Utility, g: GoalType)
    ensures Remains(t, u, g) <==>
      && (g == Idle || g == Eat || g == CraftTool || g == Flee || g == Fight || g == GatherResource)
      && (if g == Idle then t.ready else t.score(g) > 0.0)
      && !HeldBack(t, u, g)
  {
    var d := t.decide(g);
    RememberedExactly(u.failed, g, d.target, HashOf(t, d));
    RememberedExactly(u.completed, g, d.target, HashOf(t, d));
    InCatalog(g);
  }

  lemma InCatalog(g: GoalType)
    ensures g in CATALOG <==> g != FindFood && g != Hunt && g != ReturnToShelter
  {
    assert CATALOG[0] == Flee && CATALOG[1] == Fight && CATALOG[2] == Eat;
    assert CATALOG[3] == CraftTool && CATALOG[4] == GatherResource && CATALOG[5] == Idle;
  }

  lemma RememberedExactly(h: History, g: GoalType, target: GoalTarget, hash: nat)
    ensures Remembered(h, g, target, hash) <==> exists p :: p in h && IsAbout(p, g, target, hash)
  {
    if Remembered(h, g, target, hash) {
      var k :| 0 <= k < |h| && Blocks(h[k], g, target, hash);
      assert IsAbout(h[k], g, target, hash);
    }
    if p :| p in h && IsAbout(p, g, target, hash) {
      var k :| 0 <= k < |h| && h[k] == p;
      assert Blocks(h[k], g, target, hash);
    }
  }

  /** The winner scores at least as much as every other goal, idling counting 0.05; ties go to the earlier goal. */
  lemma TopsExactly(t: Tick, g: GoalType, other: GoalType)
    requires g in CATALOG && other in CATALOG
    ensures Tops(t, g, other) <==>
      var mine, theirs := if g == Idle then 0.05 else t.score(g), if other == Idle then 0.05 else t.score(other);
      var order := [Flee, Fight, Eat, CraftTool, GatherResource, Idle];
      mine > theirs || (mine == theirs && exists i, j :: 0 <= i <= j < 6 && order[i] == g && order[j] == other)
  {
    RankIsPlace(g);
    RankIsPlace(other);
    forall i | 0 <= i < 6 ensures Rank(CATALOG[i]) == i {
      RankIsPlace(CATALOG[i]);
    }
  }

  lemma RankIsPlace(g: GoalType)
    requires g in CATALOG
    ensures Rank(g) < 6 && CATALOG[Rank(g)] == g
    ensures forall i :: 0 <= i < 6 && CATALOG[i] == g ==> i == Rank(g)
  {
    InCatalog(g);
  }

  /** The fingerprint that a plan was filed under is what it would be now, or the plan has none or no one-shot. */
  ghost predicate FingerprintStands(t: Tick, p: Plan) {
    || p.hash == 0 || p.action !in {Craft, Equip, Consume, Place}
    || t.hash(Key(p.goal, p.action, p.target, p.craftCount, p.placeItem)) == p.hash
  }

  /** The plan is another attempt at what is decided, under another fingerprint. */
  ghost predicate Outdated(t: Tick, d: Decision, p: Plan) {
    && p.action != NoAction && p.hash != 0 && p.goal == d.goal && p.action == d.action && p.target == d.target
    && p.hash != t.hash(Key(d.goal, d.action, d.target, d.craftCount, d.placeItem))
  }

  /** A plan is still remembered exactly when its fingerprint stands and no one-shot is decided on that outdates it. */
  ghost predicate KeepsExactly(t: Tick, decision: Option<Decision>, before: History, after: History) {
    forall p :: p in after <==>
      && p in before && FingerprintStands(t, p)
      && (decision.Some? && decision.value.action in {Craft, Equip, Consume, Place} ==> !Outdated(t, decision.value, p))
  }

  /** What one tick remembers, and why the last goal ended. */
  lemma ReconcileExactly(t: Tick, u: Utility, feedback: ExitReason)
    ensures var (next, decision) := Reconcile(t, u, feedback);
      && KeepsExactly(t, decision, u.failed, next.failed)
      && KeepsExactly(t, decision, u.completed, next.completed)
      && (decision.Some? ==> next.executing && next.target == decision.value.target)
      && (decision.None? ==> next.goal == Idle && !next.executing && next.target.kind == NoTarget)
      && (decision.Some? && (feedback == ExitFailed || feedback == ExitCompleted) ==> next.lastExit == feedback)
      && (decision.Some? && feedback != ExitFailed && feedback != ExitCompleted ==>
            next.lastExit == if next.goal == u.goal then ExitNone else ExitCancelled)
      && (decision.None? ==> next.lastExit == u.lastExit)
  {
    var best := Best(t, Revalidated(t, u));
    KeptExactly(t, if best.Some? then Some(t.decide(best.value)) else None, u.failed);
    KeptExactly(t, if best.Some? then Some(t.decide(best.value)) else None, u.completed);
  }

  lemma KeptExactly(t: Tick, decision: Option<Decision>, h: History)
    ensures var valid := StillCurrent(t, h);
      KeepsExactly(t, decision, h,
                   if decision.Some? && IsOneShot(decision.value.action)
                   then StillAgreeing(decision.value, HashOf(t, decision.value), valid) else valid)
  {
    forall p ensures p in StillCurrent(t, h) <==> p in h && FingerprintStands(t, p) {
      KeptHas(h, p => Current(t, p), p);
    }
    if decision.Some? && IsOneShot(decision.value.action) {
      var d := decision.value;
      var hash := HashOf(t, d);
      forall p ensures p in StillAgreeing(d, hash, StillCurrent(t, h)) <==>
          p in StillCurrent(t, h) && !Outdated(t, d, p) {
        KeptHas(StillCurrent(t, h), p => Agreeing(d, hash, p), p);
      }
    }
  }

  /** The same for completed one-shots. */
  lemma CompletionHoldsWhileCurrent(t: Tick, u: Utility, feedback: ExitReason, p: Plan)
    requires p in u.completed
    ensures p in Revalidated(t, u).completed <==> Current(t, p)
    ensures var (next, decision) := Reconcile(t, u, feedback);
      Current(t, p) && decision.Some? && IsOneShot(decision.value.action) ==>
        !Blocks(p, next.goal, decision.value.target, HashOf(t, decision.value))
  {
    KeptHas(u.completed, p => Current(t, p), p);
    var valid := Revalidated(t, u);
    var best := Best(t, valid);
    if Current(t, p) && best.Some? {
      BestIsTop(t, valid, best.value);
      var k :| 0 <= k < |valid.completed| && valid.completed[k] == p;
    }
  }
}
