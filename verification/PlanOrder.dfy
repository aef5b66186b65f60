// A plan against what was registered: every system runs once, in its own
// phase, and after everything it was declared to come after.
module PlanOrder {
  import opened Sequences
  import opened SchedulerTypes
  import opened PlanCompiler
  import PhaseOrder
  import WaveCompiler

  /** The waves of a plan, in plan order. */
  ghost function WavesOf(nodes: seq<PlanNode>): seq<PhaseWave> {
    if nodes == [] then []
    else WavesOf(nodes[..|nodes| - 1]) + WaveIn(nodes[|nodes| - 1])
  }

  ghost function WaveIn(node: PlanNode): seq<PhaseWave> {
    if node.WaveNode? then [PhaseWave(node.phase, node.wave, Defs(node.systems))] else []
  }

  /** The i-th wave belongs to the phase and runs the system. */
  ghost predicate RunsIn(waves: seq<PhaseWave>, i: int, phase: string, def: SystemDef) {
    0 <= i < |waves| && waves[i].phase == phase && def in waves[i].wave
  }

  /** Some wave of the phase runs the system. */
  ghost predicate Runs(plan: seq<PlanNode>, phase: string, def: SystemDef) {
    exists i :: RunsIn(WavesOf(plan), i, phase, def)
  }

  lemma WavesMore(nodes: seq<PlanNode>, node: PlanNode)
    ensures WavesOf(nodes + [node]) == WavesOf(nodes) + WaveIn(node)
  {
    InitOfAppend(nodes, [node]);
    AppendNothing(nodes);
  }

  lemma DefsOfNumbered(wave: seq<SystemDef>, start: nat)
    ensures Defs(Number(wave, start)) == wave
  {
  }

  lemma AddedWaveIsLast(draft: Draft, w: PhaseWave)
    ensures WavesOf(AddWave(draft, w).nodes) == WavesOf(draft.nodes) + [w]
  {
    var node := WaveNode(w.phase, w.index, Number(w.wave, draft.count), DirtyList(w.wave));
    DefsOfNumbered(w.wave, draft.count);
    if TouchesWave(draft.dirty, w.wave) {
      WavesMore(draft.nodes, SyncNode(w.phase));
      AppendNothing(WavesOf(draft.nodes));
      WavesMore(draft.nodes + [SyncNode(w.phase)], node);
    } else {
      AppendNothing(draft.nodes);
      WavesMore(draft.nodes, node);
    }
  }

  lemma {:induction false} DraftRunsWaves(waves: seq<PhaseWave>)
    ensures WavesOf(DraftOf(waves).nodes) == waves
  {
    if waves != [] {
      var n := |waves| - 1;
      DraftRunsWaves(waves[..n]);
      AddedWaveIsLast(DraftOf(waves[..n]), waves[n]);
      AppendLast([], waves);
    }
  }

  /** Syncs aside, the plan is exactly the waves it was made of. */
  lemma PlanRunsWaves(waves: seq<PhaseWave>)
    ensures WavesOf(PlanOf(waves)) == waves
  {
    DraftRunsWaves(waves);
    var d := DraftOf(waves);
    if d.dirty != {} {
      WavesMore(d.nodes, SyncNode(if |d.nodes| > 0 then d.nodes[|d.nodes| - 1].phase else FINALIZE));
      AppendNothing(waves);
    }
  }

  // ------------------------------------------------------ waves of a phase

  /** How many waves the first n phases have. */
  ghost function Offset(perPhase: seq<seq<seq<SystemDef>>>, n: nat): nat
    requires n <= |perPhase|
  {
    if n == 0 then 0 else Offset(perPhase, n - 1) + |perPhase[n - 1]|
  }

  lemma {:induction false} OffsetGrows(perPhase: seq<seq<seq<SystemDef>>>, n: nat, m: nat)
    requires n < m <= |perPhase|
    ensures Offset(perPhase, n) + |perPhase[n]| <= Offset(perPhase, m)
  {
    if n < m - 1 {
      OffsetGrows(perPhase, n, m - 1);
    }
  }

  lemma {:induction false} OffsetOfPrefix(perPhase: seq<seq<seq<SystemDef>>>, k: nat, n: nat)
    requires n <= k <= |perPhase|
    ensures Offset(perPhase[..k], n) == Offset(perPhase, n)
  {
    if n > 0 {
      OffsetOfPrefix(perPhase, k, n - 1);
    }
  }

  /** The i-th of all waves is the j-th of the n-th phase. */
  ghost predicate IsAt(order: seq<string>, perPhase: seq<seq<seq<SystemDef>>>, i: nat, n: nat, j: nat)
    requires |perPhase| == |order|
  {
    && n < |order| && j < |perPhase[n]| && i == Offset(perPhase, n) + j
    && i < |AllWaves(order, perPhase)| && AllWaves(order, perPhase)[i] == PhaseWave(order[n], j, perPhase[n][j])
  }

  lemma {:induction false} AllWavesCount(order: seq<string>, perPhase: seq<seq<seq<SystemDef>>>)
    requires |perPhase| == |order|
    ensures |AllWaves(order, perPhase)| == Offset(perPhase, |order|)
  {
    if order != [] {
      var n := |order| - 1;
      AllWavesCount(order[..n], perPhase[..n]);
      OffsetOfPrefix(perPhase, n, n);
    }
  }

  /** Every wave of every phase is among all waves. */
  lemma {:induction false} WaveIsAt(order: seq<string>, perPhase: seq<seq<seq<SystemDef>>>, n: nat, j: nat)
    requires |perPhase| == |order| && n < |order| && j < |perPhase[n]|
    ensures IsAt(order, perPhase, Offset(perPhase, n) + j, n, j)
    decreases |order|
  {
    var m := |order| - 1;
    AllWavesCount(order[..m], perPhase[..m]);
    OffsetOfPrefix(perPhase, m, m);
    if n < m {
      OffsetOfPrefix(perPhase, m, n);
      WaveIsAt(order[..m], perPhase[..m], n, j);
    }
  }

  /** All waves are waves of phases. */
  lemma {:induction false} Locate(order: seq<string>, perPhase: seq<seq<seq<SystemDef>>>, i: nat)
      returns (n: nat, j: nat)
    requires |perPhase| == |order| && i < |AllWaves(order, perPhase)|
    ensures IsAt(order, perPhase, i, n, j)
    decreases |order|
  {
    var m := |order| - 1;
    AllWavesCount(order[..m], perPhase[..m]);
    OffsetOfPrefix(perPhase, m, m);
    if i < Offset(perPhase, m) {
      n, j := Locate(order[..m], perPhase[..m], i);
      OffsetOfPrefix(perPhase, m, n);
    } else {
      n, j := m, i - Offset(perPhase, m);
    }
  }

  /** Waves of an earlier phase come earlier. */
  lemma EarlierPhase(order: seq<string>, perPhase: seq<seq<seq<SystemDef>>>, i: nat, n: nat, j: nat, i': nat, n': nat,
                     j': nat)
    requires |perPhase| == |order| && IsAt(order, perPhase, i, n, j) && IsAt(order, perPhase, i', n', j')
    ensures n < n' ==> i < i'
    ensures n == n' ==> (i < i' <==> j < j') && (i == i' <==> j == j')
  {
    if n < n' {
      OffsetGrows(perPhase, n, n');
    }
  }

  // ------------------------------------------------------------ the plan

  /** One phase of the plan: its place in the order and what it was compiled to. */
  lemma CompiledAt(phases: Phases, order: seq<string>, perPhase: seq<seq<seq<SystemDef>>>, plan: seq<PlanNode>, n: nat)
    requires IsPlanFor(phases, order, perPhase, plan) && n < |order|
    ensures PhaseCompiled(phases, order[n], perPhase[n])
  {
  }

  lemma SamePlace(phases: Phases, order: seq<string>, perPhase: seq<seq<seq<SystemDef>>>, plan: seq<PlanNode>, n: nat,
                  m: nat)
    requires IsPlanFor(phases, order, perPhase, plan) && n < |order| && m < |order| && order[n] == order[m]
    ensures n == m
  {
    PhaseOrder.GreedyIsTopological(phases, order);
  }

  lemma OnlyRegisteredRun(phases: Phases, plan: seq<PlanNode>, phase: string, def: SystemDef, i: int)
    requires IsPlan(phases, plan) && RunsIn(WavesOf(plan), i, phase, def)
    ensures phase in phases && def in phases[phase].systems
  {
    var order, perPhase :| IsPlanFor(phases, order, perPhase, plan);
    PlanRunsWaves(AllWaves(order, perPhase));
    var n, j := Locate(order, perPhase, i);
    CompiledAt(phases, order, perPhase, plan, n);
    WaveCompiler.CompiledWaves(phases[phase].systems, perPhase[n]);
  }

  lemma PhaseIsOrdered(phases: Phases, order: seq<string>, phase: string) returns (n: nat)
    requires PhaseOrder.Covers(phases, order) && phase in phases
    ensures n < |order| && order[n] == phase
  {
    assert phase in Elements(order);
    n :| 0 <= n < |order| && order[n] == phase;
  }

  /** A phase that has the system in its j-th wave. */
  lemma WaveRuns(order: seq<string>, perPhase: seq<seq<seq<SystemDef>>>, n: nat, j: nat, def: SystemDef)
    requires |perPhase| == |order| && n < |order| && j < |perPhase[n]| && def in perPhase[n][j]
    ensures RunsIn(AllWaves(order, perPhase), Offset(perPhase, n) + j, order[n], def)
  {
    WaveIsAt(order, perPhase, n, j);
  }

  lemma PhaseRuns(phases: Phases, id: string, waves: seq<seq<SystemDef>>, def: SystemDef) returns (j: nat)
    requires PhaseCompiled(phases, id, waves) && def in phases[id].systems
    ensures j < |waves| && def in waves[j]
  {
    WaveCompiler.SystemIsPlaced(phases[id].systems, waves, def);
    j := WaveCompiler.WaveOf(waves, def.id);
  }

  lemma PlacedAt(phases: Phases, order: seq<string>, perPhase: seq<seq<seq<SystemDef>>>, n: nat, def: SystemDef)
      returns (j: nat)
    requires AllCompiled(phases, order, perPhase) && n < |order|
    requires order[n] in phases && def in phases[order[n]].systems
    ensures j < |perPhase[n]| && def in perPhase[n][j]
  {
    assert PhaseCompiled(phases, order[n], perPhase[n]);
    j := PhaseRuns(phases, order[n], perPhase[n], def);
  }

  lemma CompiledRuns(phases: Phases, order: seq<string>, perPhase: seq<seq<seq<SystemDef>>>, n: nat, def: SystemDef)
    requires AllCompiled(phases, order, perPhase) && n < |order|
    requires order[n] in phases && def in phases[order[n]].systems
    ensures Runs(PlanOf(AllWaves(order, perPhase)), order[n], def)
  {
    var j := PlacedAt(phases, order, perPhase, n, def);
    WaveRuns(order, perPhase, n, j, def);
    PlanRunsWaves(AllWaves(order, perPhase));
    assert RunsIn(WavesOf(PlanOf(AllWaves(order, perPhase))), Offset(perPhase, n) + j, order[n], def);
  }

  lemma RegisteredRuns(phases: Phases, plan: seq<PlanNode>, phase: string, def: SystemDef)
    requires IsPlan(phases, plan) && phase in phases && def in phases[phase].systems
    ensures Runs(plan, phase, def)
  {
    var order, perPhase :| IsPlanFor(phases, order, perPhase, plan);
    var n := PhaseIsOrdered(phases, order, phase);
    CompiledRuns(phases, order, perPhase, n, def);
  }

  /** Every registered system runs in a wave of its phase, and nothing else runs in any wave. */
  lemma ExactlyRegisteredSystemsRun(phases: Phases, plan: seq<PlanNode>, phase: string, def: SystemDef)
    requires IsPlan(phases, plan)
    ensures phase in phases && def in phases[phase].systems <==> Runs(plan, phase, def)
  {
    if Runs(plan, phase, def) {
      var i :| RunsIn(WavesOf(plan), i, phase, def);
      OnlyRegisteredRun(phases, plan, phase, def, i);
    }
    if phase in phases && def in phases[phase].systems {
      RegisteredRuns(phases, plan, phase, def);
    }
  }

  /** No system of a phase is in two waves, or twice in one. */
  lemma SystemsRunOnce(phases: Phases, plan: seq<PlanNode>, phase: string, def: SystemDef, i: int, k: int)
    requires IsPlan(phases, plan) && RunsIn(WavesOf(plan), i, phase, def) && RunsIn(WavesOf(plan), k, phase, def)
    ensures i == k
    ensures var wave := WavesOf(plan)[i].wave; forall x, y :: 0 <= x < y < |wave| ==> wave[x].id != wave[y].id
  {
    var order, perPhase :| IsPlanFor(phases, order, perPhase, plan);
    PlanRunsWaves(AllWaves(order, perPhase));
    var n, j := Locate(order, perPhase, i);
    var m, l := Locate(order, perPhase, k);
    SamePlace(phases, order, perPhase, plan, n, m);
    CompiledAt(phases, order, perPhase, plan, n);
    WaveCompiler.CompiledWaves(phases[phase].systems, perPhase[n]);
    assert j == WaveCompiler.WaveOf(perPhase[n], def.id) == l;
  }

  /** Every wave of a phase comes after every wave of the phases it was declared to come after. */
  lemma PhasesRunInOrder(phases: Phases, plan: seq<PlanNode>, i: nat, k: nat)
    requires IsPlan(phases, plan) && i < |WavesOf(plan)| && k < |WavesOf(plan)|
    ensures WavesOf(plan)[i].phase in phases
    ensures WavesOf(plan)[k].phase in phases[WavesOf(plan)[i].phase].after ==> k < i
  {
    var order, perPhase :| IsPlanFor(phases, order, perPhase, plan);
    PlanRunsWaves(AllWaves(order, perPhase));
    PhaseOrder.GreedyIsTopological(phases, order);
    var n, j := Locate(order, perPhase, i);
    var m, l := Locate(order, perPhase, k);
    CompiledAt(phases, order, perPhase, plan, n);
    if order[m] in phases[order[n]].after {
      assert order[m] in Elements(phases[order[n]].after);
      assert order[m] in Elements(order[..n]);
      var p :| 0 <= p < n && order[..n][p] == order[m];
      SamePlace(phases, order, perPhase, plan, p, m);
      EarlierPhase(order, perPhase, k, m, l, i, n, j);
    }
  }

  /** The waves of one phase are not interrupted by another. */
  lemma PhasesRunInOnePiece(phases: Phases, plan: seq<PlanNode>, i: nat, k: nat, l: nat)
    requires IsPlan(phases, plan) && i <= k <= l < |WavesOf(plan)|
    requires WavesOf(plan)[i].phase == WavesOf(plan)[l].phase
    ensures WavesOf(plan)[k].phase == WavesOf(plan)[i].phase
  {
    var order, perPhase :| IsPlanFor(phases, order, perPhase, plan);
    PlanRunsWaves(AllWaves(order, perPhase));
    var n, x := Locate(order, perPhase, i);
    var m, y := Locate(order, perPhase, k);
    var o, z := Locate(order, perPhase, l);
    SamePlace(phases, order, perPhase, plan, n, o);
    EarlierPhase(order, perPhase, k, m, y, i, n, x);
    EarlierPhase(order, perPhase, l, o, z, k, m, y);
  }

  /** In front of a wave stands the one before it in its phase, or a wave of another phase. */
  lemma WaveBefore(order: seq<string>, perPhase: seq<seq<seq<SystemDef>>>, i: nat, n: nat, j: nat)
    requires |perPhase| == |order| && IsAt(order, perPhase, i, n, j) && i > 0
    requires forall a, b :: 0 <= a < b < |order| ==> order[a] != order[b]
    ensures j > 0 ==> IsAt(order, perPhase, i - 1, n, j - 1)
    ensures j == 0 ==> AllWaves(order, perPhase)[i - 1].phase != order[n]
  {
    if j > 0 {
      WaveIsAt(order, perPhase, n, j - 1);
    } else {
      var m, l := Locate(order, perPhase, i - 1);
      EarlierPhase(order, perPhase, i - 1, m, l, i, n, j);
      EarlierPhase(order, perPhase, i, n, j, i - 1, m, l);
    }
  }

  /** The waves of a phase are numbered from zero on, as they come. */
  lemma WavesAreNumbered(phases: Phases, plan: seq<PlanNode>, i: nat)
    requires IsPlan(phases, plan) && i < |WavesOf(plan)|
    ensures var waves := WavesOf(plan);
      waves[i].index == if i > 0 && waves[i - 1].phase == waves[i].phase then waves[i - 1].index + 1 else 0
  {
    var order, perPhase :| IsPlanFor(phases, order, perPhase, plan);
    PlanRunsWaves(AllWaves(order, perPhase));
    PhaseOrder.GreedyIsTopological(phases, order);
    var n, j := Locate(order, perPhase, i);
    if i > 0 {
      WaveBefore(order, perPhase, i, n, j);
    }
  }

  /** A system runs in a later wave than every system that is declared to run before it, on either side. */
  lemma SystemsRunInOrder(phases: Phases, plan: seq<PlanNode>, phase: string, first: SystemDef, second: SystemDef,
                          i: int, k: int)
    requires IsPlan(phases, plan) && RunsIn(WavesOf(plan), i, phase, first) && RunsIn(WavesOf(plan), k, phase, second)
    requires first.id in second.after || second.id in first.before
    ensures i < k
  {
    var order, perPhase :| IsPlanFor(phases, order, perPhase, plan);
    PlanRunsWaves(AllWaves(order, perPhase));
    var n, j := Locate(order, perPhase, i);
    var m, l := Locate(order, perPhase, k);
    SamePlace(phases, order, perPhase, plan, n, m);
    CompiledAt(phases, order, perPhase, plan, n);
    var systems := phases[phase].systems;
    WaveCompiler.CompiledWaves(systems, perPhase[n]);
    WaveCompiler.DeclaredOrderHolds(systems, perPhase[n], second, first.id);
    WaveCompiler.DeclaredOrderHolds(systems, perPhase[n], first, second.id);
    EarlierPhase(order, perPhase, i, n, j, k, m, l);
  }
}
