// From ordered phases and waves to the flat plan: systems numbered in order,
// and a sync wherever the next wave would query an archetype that is dirty.
module PlanCompiler {
  import opened Sequences
  import opened SchedulerTypes
  import PhaseOrder
  import WaveCompiler
  import Digraph

  datatype CompiledSystem = CompiledSystem(def: SystemDef, order: nat)

  datatype PlanNode =
    | SyncNode(phase: string)
    | WaveNode(phase: string, wave: nat, systems: seq<CompiledSystem>, dirtyAfter: seq<Mask>)

  /** A wave together with where it comes from. */
  datatype PhaseWave = PhaseWave(phase: string, index: nat, wave: seq<SystemDef>)

  /** The compiler's state between waves. */
  datatype Draft = Draft(nodes: seq<PlanNode>, dirty: set<Mask>, count: nat)

  predicate TouchesWave(dirty: set<Mask>, wave: seq<SystemDef>) {
    exists i :: 0 <= i < |wave| && Touches(dirty, wave[i].access.queries)
  }

  function AppendUnique(masks: seq<Mask>, candidate: Mask): seq<Mask> {
    if candidate in masks then masks else masks + [candidate]
  }

  ghost function AppendAllUnique(masks: seq<Mask>, more: seq<Mask>): seq<Mask> {
    if more == [] then masks
    else AppendUnique(AppendAllUnique(masks, more[..|more| - 1]), more[|more| - 1])
  }

  /** The distinct masks a wave may dirty, in declaration order. */
  ghost function DirtyList(wave: seq<SystemDef>): seq<Mask> {
    if wave == [] then []
    else AppendAllUnique(DirtyList(wave[..|wave| - 1]), wave[|wave| - 1].access.structural)
  }

  ghost function Structural(wave: seq<SystemDef>): set<Mask> {
    set i, k | 0 <= i < |wave| && 0 <= k < |wave[i].access.structural| :: wave[i].access.structural[k]
  }

  ghost function Number(wave: seq<SystemDef>, start: nat): (systems: seq<CompiledSystem>)
    ensures |systems| == |wave|
    ensures forall k :: 0 <= k < |wave| ==> systems[k] == CompiledSystem(wave[k], start + k)
  {
    seq(|wave|, k requires 0 <= k < |wave| => CompiledSystem(wave[k], start + k))
  }

  ghost function Defs(systems: seq<CompiledSystem>): (wave: seq<SystemDef>)
    ensures |wave| == |systems|
    ensures forall k :: 0 <= k < |systems| ==> wave[k] == systems[k].def
  {
    seq(|systems|, k requires 0 <= k < |systems| => systems[k].def)
  }

  /** One more wave, with a sync in front when it queries something dirty. */
  ghost function AddWave(draft: Draft, w: PhaseWave): Draft {
    var sync := TouchesWave(draft.dirty, w.wave);
    Draft(draft.nodes + (if sync then [SyncNode(w.phase)] else [])
                      + [WaveNode(w.phase, w.index, Number(w.wave, draft.count), DirtyList(w.wave))],
          (if sync then {} else draft.dirty) + Structural(w.wave),
          draft.count + |w.wave|)
  }

  ghost function DraftOf(waves: seq<PhaseWave>): Draft {
    if waves == [] then Draft([], {}, 0)
    else AddWave(DraftOf(waves[..|waves| - 1]), waves[|waves| - 1])
  }

  const FINALIZE := "finalize"

  /** The last sync commits whatever is still dirty. */
  function Close(nodes: seq<PlanNode>, dirty: set<Mask>): seq<PlanNode> {
    if dirty == {} then nodes
    else nodes + [SyncNode(if |nodes| > 0 then nodes[|nodes| - 1].phase else FINALIZE)]
  }

  ghost function PlanOf(waves: seq<PhaseWave>): seq<PlanNode> {
    Close(DraftOf(waves).nodes, DraftOf(waves).dirty)
  }

  ghost function Indexed(phase: string, waves: seq<seq<SystemDef>>): (all: seq<PhaseWave>)
    ensures |all| == |waves|
    ensures forall k :: 0 <= k < |waves| ==> all[k] == PhaseWave(phase, k, waves[k])
  {
    seq(|waves|, k requires 0 <= k < |waves| => PhaseWave(phase, k, waves[k]))
  }

  ghost function AllWaves(order: seq<string>, perPhase: seq<seq<seq<SystemDef>>>): seq<PhaseWave>
    requires |perPhase| == |order|
  {
    if order == [] then []
    else
      var n := |order| - 1;
      AllWaves(order[..n], perPhase[..n]) + Indexed(order[n], perPhase[n])
  }

  /** What each phase compiles to. */
  ghost predicate PhaseCompiled(phases: Phases, id: string, waves: seq<seq<SystemDef>>) {
    && id in phases
    && WaveCompiler.LocalReferences(phases[id].systems)
    && WaveCompiler.DistinctIds(phases[id].systems)
    && WaveCompiler.Waves(phases[id].systems, waves)
    && WaveCompiler.Placed(waves) == WaveCompiler.Ids(phases[id].systems)
  }

  /** The plan for these phases: greedy phase order, greedy waves, and the sync rule. */
  ghost predicate IsPlan(phases: Phases, plan: seq<PlanNode>) {
    exists order, perPhase :: IsPlanFor(phases, order, perPhase, plan)
  }

  ghost predicate IsPlanFor(phases: Phases, order: seq<string>, perPhase: seq<seq<seq<SystemDef>>>,
                            plan: seq<PlanNode>) {
    && PhaseOrder.Greedy(phases, order) && PhaseOrder.Covers(phases, order)
    && AllCompiled(phases, order, perPhase)
    && plan == PlanOf(AllWaves(order, perPhase))
  }

  ghost predicate AllCompiled(phases: Phases, order: seq<string>, perPhase: seq<seq<seq<SystemDef>>>) {
    |perPhase| == |order|
    && forall k {:trigger PhaseCompiled(phases, order[k], perPhase[k])} :: 0 <= k < |order| ==>
        PhaseCompiled(phases, order[k], perPhase[k])
  }

  /** A phase on its own can be compiled. */
  ghost predicate Compilable(systems: seq<SystemDef>) {
    && WaveCompiler.LocalReferences(systems)
    && WaveCompiler.DistinctIds(systems)
    && !Digraph.Cyclic(WaveCompiler.SystemGraph(systems))
  }

  // --------------------------------------------------------------- compile

  lemma {:induction false} AppendAllElements(masks: seq<Mask>, more: seq<Mask>)
    ensures Elements(AppendAllUnique(masks, more)) == Elements(masks) + Elements(more)
  {
    if more != [] {
      var n := |more| - 1;
      AppendAllElements(masks, more[..n]);
      assert more == more[..n] + [more[n]];
      assert Elements(more) == Elements(more[..n]) + {more[n]};
      var earlier := AppendAllUnique(masks, more[..n]);
      assert Elements(earlier + [more[n]]) == Elements(earlier) + {more[n]};
    }
  }

  lemma StructuralGrows(wave: seq<SystemDef>, n: nat)
    requires n < |wave|
    ensures Structural(wave[..n + 1]) == Structural(wave[..n]) + Elements(wave[n].access.structural)
  {
    var more, less := wave[..n + 1], wave[..n];
    forall mask ensures mask in Structural(more) <==> mask in Structural(less) || mask in wave[n].access.structural {
      if mask in Structural(more) {
        var i, k :| 0 <= i < |more| && 0 <= k < |more[i].access.structural| && more[i].access.structural[k] == mask;
        if i < n { assert less[i].access.structural[k] == mask; }
      }
      if mask in Structural(less) {
        var i, k :| 0 <= i < |less| && 0 <= k < |less[i].access.structural| && less[i].access.structural[k] == mask;
        assert more[i].access.structural[k] == mask;
      }
      if mask in wave[n].access.structural {
        var k :| 0 <= k < |wave[n].access.structural| && wave[n].access.structural[k] == mask;
        assert more[n].access.structural[k] == mask;
      }
    }
  }

  /** The recorded dirty list holds exactly what the wave's systems declare. */
  lemma {:induction false} DirtyListElements(wave: seq<SystemDef>)
    ensures Elements(DirtyList(wave)) == Structural(wave)
  {
    if wave == [] {
      assert Structural(wave) == {};
    } else {
      var n := |wave| - 1;
      DirtyListElements(wave[..n]);
      AppendAllElements(DirtyList(wave[..n]), wave[n].access.structural);
      StructuralGrows(wave, n);
      assert wave[..n + 1] == wave;
    }
  }

  /** The effects one system declares go into the wave's list and the dirty set. */
  method AddEffects(structural: seq<Mask>, masks: seq<Mask>, dirty: set<Mask>)
      returns (masks': seq<Mask>, dirty': set<Mask>)
    ensures masks' == AppendAllUnique(masks, structural) && dirty' == dirty + Elements(structural)
  {
    masks', dirty' := masks, dirty;
    for k := 0 to |structural|
      invariant masks' == AppendAllUnique(masks, structural[..k]) && dirty' == dirty + Elements(structural[..k])
    {
      TakeMore(structural, k);
      dirty' := dirty' + {structural[k]};
      masks' := AppendUnique(masks', structural[k]);
    }
    assert structural[..|structural|] == structural;
  }

  /** Systems of one wave: numbered, and their declared effects collected. */
  method CompileSystems(wave: seq<SystemDef>, dirty0: set<Mask>, start: nat)
    returns (systems: seq<CompiledSystem>, waveDirty: seq<Mask>, dirty: set<Mask>)
    ensures systems == Number(wave, start) && waveDirty == DirtyList(wave) && dirty == dirty0 + Structural(wave)
  {
    systems, waveDirty, dirty := [], [], dirty0;
    var count := start;
    assert Structural(wave[..0]) == {};
    for i := 0 to |wave|
      invariant systems == Number(wave[..i], start) && count == start + i
      invariant waveDirty == DirtyList(wave[..i]) && dirty == dirty0 + Structural(wave[..i])
    {
      TakeMore(wave, i);
      StructuralGrows(wave, i);
      systems := systems + [CompiledSystem(wave[i], count)];
      count := count + 1;
      waveDirty, dirty := AddEffects(wave[i].access.structural, waveDirty, dirty);
    }
    assert wave[..|wave|] == wave;
  }

  /** One wave is added to the draft. */
  method CompileWave(phase: string, index: nat, wave: seq<SystemDef>, draft: Draft) returns (next: Draft)
    ensures next == AddWave(draft, PhaseWave(phase, index, wave))
  {
    var nodes, dirty := draft.nodes, draft.dirty;
    if TouchesWave(dirty, wave) {
      nodes := nodes + [SyncNode(phase)];
      dirty := {};
    }
    var systems, waveDirty;
    systems, waveDirty, dirty := CompileSystems(wave, dirty, draft.count);
    next := Draft(nodes + [WaveNode(phase, index, systems, waveDirty)], dirty, draft.count + |wave|);
  }

  /** The waves of one phase are added to the draft. */
  method CompileWaves(phase: string, waves: seq<seq<SystemDef>>, ghost before: seq<PhaseWave>, draft: Draft)
      returns (next: Draft)
    requires draft == DraftOf(before)
    ensures next == DraftOf(before + Indexed(phase, waves))
  {
    next := draft;
    assert before + Indexed(phase, waves)[..0] == before;
    for i := 0 to |waves|
      invariant next == DraftOf(before + Indexed(phase, waves)[..i])
    {
      DraftMore(before, Indexed(phase, waves), i);
      next := CompileWave(phase, i, waves[i], next);
    }
    assert Indexed(phase, waves)[..|waves|] == Indexed(phase, waves);
  }

  lemma DraftMore(before: seq<PhaseWave>, waves: seq<PhaseWave>, i: nat)
    requires i < |waves|
    ensures DraftOf(before + waves[..i + 1]) == AddWave(DraftOf(before + waves[..i]), waves[i])
  {
    var next := before + waves[..i + 1];
    assert next[..|next| - 1] == before + waves[..i] && next[|next| - 1] == waves[i];
  }

  lemma CompiledMore(phases: Phases, order: seq<string>, perPhase: seq<seq<seq<SystemDef>>>, id: string,
                     waves: seq<seq<SystemDef>>)
    requires AllCompiled(phases, order, perPhase) && PhaseCompiled(phases, id, waves)
    ensures AllCompiled(phases, order + [id], perPhase + [waves])
    ensures AllWaves(order + [id], perPhase + [waves]) == AllWaves(order, perPhase) + Indexed(id, waves)
  {
    var order', perPhase' := order + [id], perPhase + [waves];
    assert order'[..|order|] == order && perPhase'[..|order|] == perPhase;
    forall k | 0 <= k < |order'| ensures PhaseCompiled(phases, order'[k], perPhase'[k]) {
      if k < |order| {
        assert PhaseCompiled(phases, order[k], perPhase[k]);
      }
    }
  }

  /** One phase more; fails exactly when this phase cannot be compiled. */
  method CompileNext(phases: Phases, id: string, ghost order: seq<string>, ghost perPhase: seq<seq<seq<SystemDef>>>,
                     draft: Draft)
    returns (r: Result<Draft, CompileError>, ghost perPhase': seq<seq<seq<SystemDef>>>)
    requires id in phases && AllCompiled(phases, order, perPhase) && draft == DraftOf(AllWaves(order, perPhase))
    ensures r.Ok? <==> Compilable(phases[id].systems)
    ensures r.Ok? ==>
      AllCompiled(phases, order + [id], perPhase') && r.value == DraftOf(AllWaves(order + [id], perPhase'))
  {
    perPhase' := perPhase;
    var compiled := WaveCompiler.CompilePhase(phases[id].systems);
    if compiled.Err? {
      return Err(compiled.error), perPhase;
    }
    var next := CompileWaves(id, compiled.value, AllWaves(order, perPhase), draft);
    CompiledMore(phases, order, perPhase, id, compiled.value);
    r, perPhase' := Ok(next), perPhase + [compiled.value];
  }

  ghost predicate CompilableAt(phases: Phases, id: string) {
    id in phases && Compilable(phases[id].systems)
  }

  ghost function IsCompilable(phases: Phases): string -> bool {
    id => CompilableAt(phases, id)
  }

  ghost predicate AllCompilable(phases: Phases) {
    forall id {:trigger CompilableAt(phases, id)} :: id in phases ==> CompilableAt(phases, id)
  }

  lemma CoversCompilable(phases: Phases, order: seq<string>)
    requires PhaseOrder.Covers(phases, order)
    ensures AllCompilable(phases) <==> AllUpTo(IsCompilable(phases), order, |order|)
  {
    AllUpToMeans(IsCompilable(phases), order, |order|);
    forall k | 0 <= k < |order| ensures order[k] in phases {
      assert order[k] in Elements(order);
    }
    if AllUpTo(IsCompilable(phases), order, |order|) {
      forall id | id in phases ensures CompilableAt(phases, id) {
        assert id in Elements(order);
        var k :| 0 <= k < |order| && order[k] == id;
        assert IsCompilable(phases)(order[k]);
      }
    }
  }

  /** The phases in order; fails exactly when one of them cannot be compiled. */
  method CompileOrdered(phases: Phases, order: seq<string>)
      returns (r: Result<Draft, CompileError>, ghost perPhase: seq<seq<seq<SystemDef>>>)
    requires forall k :: 0 <= k < |order| ==> order[k] in phases
    ensures r.Ok? <==> AllUpTo(IsCompilable(phases), order, |order|)
    ensures r.Ok? ==> AllCompiled(phases, order, perPhase) && r.value == DraftOf(AllWaves(order, perPhase))
  {
    var draft := Draft([], {}, 0);
    perPhase := [];
    for k := 0 to |order|
      invariant AllCompiled(phases, order[..k], perPhase) && draft == DraftOf(AllWaves(order[..k], perPhase))
      invariant AllUpTo(IsCompilable(phases), order, k)
    {
      TakeMore(order, k);
      r, perPhase := CompileNext(phases, order[k], order[..k], perPhase, draft);
      if r.Err? {
        assert !AllUpTo(IsCompilable(phases), order, k + 1);
        AllUpToStops(IsCompilable(phases), order, k + 1, |order|);
        return;
      }
      draft := r.value;
    }
    TakeAll(order);
    r := Ok(draft);
  }

  /** The phase dependencies name registered phases and are not circular. */
  ghost predicate Orderable(phases: Phases) {
    PhaseOrder.KnownDependencies(phases) && !Digraph.Cyclic(PhaseOrder.PhaseGraph(phases))
  }

  method OrderPhases(phases: Phases) returns (r: Result<seq<string>, CompileError>)
    requires PhaseOrder.Registered(phases)
    ensures r.Ok? <==> Orderable(phases)
    ensures r.Ok? ==> PhaseOrder.Greedy(phases, r.value) && PhaseOrder.Covers(phases, r.value)
    ensures r.Ok? ==> forall k :: 0 <= k < |r.value| ==> r.value[k] in phases
  {
    r := PhaseOrder.SortedPhases(phases);
    if r.Ok? {
      PhaseOrder.GreedyIsTopological(phases, r.value);
      PhaseOrder.OrderedIsAcyclic(phases, r.value);
    }
  }

  /**
   * The execution plan. It exists exactly when the phase dependencies are
   * known and acyclic and every phase can be compiled on its own.
   */
  method Compile(phases: Phases) returns (r: Result<seq<PlanNode>, CompileError>)
    requires PhaseOrder.Registered(phases)
    ensures r.Ok? <==> Orderable(phases) && AllCompilable(phases)
    ensures r.Ok? ==> IsPlan(phases, r.value)
  {
    var sorted := OrderPhases(phases);
    if sorted.Err? {
      return Err(sorted.error);
    }
    var compiled;
    ghost var perPhase;
    compiled, perPhase := CompileOrdered(phases, sorted.value);
    CoversCompilable(phases, sorted.value);
    if compiled.Err? {
      return Err(compiled.error);
    }
    r := Ok(Close(compiled.value.nodes, compiled.value.dirty));
    assert IsPlanFor(phases, sorted.value, perPhase, r.value);
  }

  // ------------------------------------------------- what the plan promises

  /** What is dirty after running these nodes, starting from `dirty`. */
  ghost function DirtyAfter(dirty: set<Mask>, nodes: seq<PlanNode>): set<Mask> {
    if nodes == [] then dirty
    else NodeDirty(DirtyAfter(dirty, nodes[..|nodes| - 1]), nodes[|nodes| - 1])
  }

  ghost function NodeDirty(dirty: set<Mask>, node: PlanNode): set<Mask> {
    if node.SyncNode? then {} else dirty + Elements(node.dirtyAfter)
  }

  /** No system of a wave queries what is dirty when the wave starts. */
  ghost predicate Guarded(nodes: seq<PlanNode>) {
    forall k :: 0 <= k < |nodes| && nodes[k].WaveNode? ==> WaveGuarded(DirtyAfter({}, nodes[..k]), nodes[k].systems)
  }

  ghost predicate WaveGuarded(dirty: set<Mask>, systems: seq<CompiledSystem>) {
    forall i :: 0 <= i < |systems| ==> !Touches(dirty, systems[i].def.access.queries)
  }

  /** The systems of a wave are compatible, in ascending order, and dirty exactly what they declare. */
  ghost predicate SoundWave(node: PlanNode) {
    node.WaveNode? ==>
      && (forall i, j :: 0 <= i < j < |node.systems| ==>
          !SystemsConflict(node.systems[j].def.access, node.systems[i].def.access))
      && (forall i, j :: 0 <= i < j < |node.systems| ==> node.systems[i].order < node.systems[j].order)
      && (forall mask :: mask in node.dirtyAfter <==>
            exists i :: 0 <= i < |node.systems| && mask in node.systems[i].def.access.structural)
  }

  /** All systems of a plan, in plan order. */
  ghost function SystemsOf(nodes: seq<PlanNode>): seq<CompiledSystem> {
    if nodes == [] then []
    else SystemsOf(nodes[..|nodes| - 1]) + NodeSystems(nodes[|nodes| - 1])
  }

  ghost function NodeSystems(node: PlanNode): seq<CompiledSystem> {
    if node.WaveNode? then node.systems else []
  }

  /** The order of a system is its place in the plan. */
  ghost predicate Consecutive(systems: seq<CompiledSystem>) {
    forall k :: 0 <= k < |systems| ==> systems[k].order == k
  }

  /** Some system of the wave queries what is dirty. */
  ghost predicate SomeQueried(dirty: set<Mask>, systems: seq<CompiledSystem>) {
    exists i :: 0 <= i < |systems| && !Unqueried(dirty, systems[i].def.access.queries)
  }

  /** The next node is a wave of the same phase that queries what is dirty at node k. */
  ghost predicate SyncServes(nodes: seq<PlanNode>, k: nat)
    requires k < |nodes|
  {
    && k + 1 < |nodes| && nodes[k + 1].WaveNode? && nodes[k + 1].phase == nodes[k].phase
    && SomeQueried(DirtyAfter({}, nodes[..k]), nodes[k + 1].systems)
  }

  ghost predicate SyncsServe(nodes: seq<PlanNode>) {
    forall k :: 0 <= k < |nodes| && nodes[k].SyncNode? ==> SyncServes(nodes, k)
  }

  /** There is a sync only where the next wave queries something dirty, and at the end if something is dirty. */
  ghost predicate SyncsNeeded(nodes: seq<PlanNode>) {
    forall k :: 0 <= k < |nodes| && nodes[k].SyncNode? ==>
      SyncServes(nodes, k) || SyncCloses(nodes, k)
  }

  /** The node is the last one, something is dirty, and it belongs to the phase of the wave before it. */
  ghost predicate SyncCloses(nodes: seq<PlanNode>, k: nat)
    requires k < |nodes|
  {
    && k + 1 == |nodes| && DirtyAfter({}, nodes[..k]) != {}
    && k > 0 && nodes[k - 1].WaveNode? && nodes[k].phase == nodes[k - 1].phase
  }

  /** No wave starts while something is dirty that one of its systems queries. */
  ghost predicate WavesUnqueried(nodes: seq<PlanNode>) {
    forall k :: 0 <= k < |nodes| && nodes[k].WaveNode? ==> !SomeQueried(DirtyAfter({}, nodes[..k]), nodes[k].systems)
  }

  ghost predicate SoundPlan(nodes: seq<PlanNode>) {
    && Guarded(nodes) && WavesUnqueried(nodes) && SyncsNeeded(nodes)
    && DirtyAfter({}, nodes) == {}
    && Consecutive(SystemsOf(nodes))
    && forall k :: 0 <= k < |nodes| ==> SoundWave(nodes[k])
  }

  lemma GuardedMeans(dirty: set<Mask>, systems: seq<CompiledSystem>)
    ensures WaveGuarded(dirty, systems) <==> !SomeQueried(dirty, systems)
  {
    forall i | 0 <= i < |systems|
      ensures Touches(dirty, systems[i].def.access.queries) <==> !Unqueried(dirty, systems[i].def.access.queries)
    {
      TouchedExactly(dirty, systems[i].def.access.queries);
    }
  }

  lemma GuardedIsUnqueried(nodes: seq<PlanNode>)
    requires Guarded(nodes)
    ensures WavesUnqueried(nodes)
  {
    forall k | 0 <= k < |nodes| && nodes[k].WaveNode?
      ensures !SomeQueried(DirtyAfter({}, nodes[..k]), nodes[k].systems)
    {
      GuardedMeans(DirtyAfter({}, nodes[..k]), nodes[k].systems);
    }
  }

  lemma {:induction false} DraftSyncsServe(waves: seq<PhaseWave>)
    requires forall k :: 0 <= k < |waves| ==> WaveCompiler.PairwiseCompatible(waves[k].wave)
    ensures SyncsServe(DraftOf(waves).nodes)
  {
    if waves != [] {
      var n := |waves| - 1;
      DraftSyncsServe(waves[..n]);
      DraftIsSound(waves[..n]);
      AddedWaveSyncs(DraftOf(waves[..n]), waves[n]);
    }
  }

  lemma AddedWaveSyncs(draft: Draft, w: PhaseWave)
    requires SyncsServe(draft.nodes) && draft.dirty == DirtyAfter({}, draft.nodes)
    ensures SyncsServe(AddWave(draft, w).nodes)
  {
    var nodes, more := draft.nodes, AddWave(draft, w).nodes;
    forall k | 0 <= k < |more| && more[k].SyncNode? ensures SyncServes(more, k) {
      if k < |nodes| {
        assert SyncServes(nodes, k) && more[..k] == nodes[..k] && more[k + 1] == nodes[k + 1];
      } else {
        assert more[..k] == nodes;
        var i :| 0 <= i < |w.wave| && Touches(draft.dirty, w.wave[i].access.queries);
        TouchedExactly(draft.dirty, w.wave[i].access.queries);
        assert more[k + 1].systems[i].def == w.wave[i];
      }
    }
  }

  lemma ClosingSync(nodes: seq<PlanNode>, last: PlanNode)
    requires DirtyAfter({}, nodes) != {} && nodes != [] && last == SyncNode(nodes[|nodes| - 1].phase)
    ensures SyncCloses(nodes + [last], |nodes|)
  {
    var more := nodes + [last];
    assert more[..|nodes|] == nodes;
    assert more[|nodes| - 1] == nodes[|nodes| - 1];
  }

  lemma ServingSync(nodes: seq<PlanNode>, last: PlanNode, k: nat)
    requires k < |nodes| && SyncServes(nodes, k)
    ensures SyncServes(nodes + [last], k)
  {
    var more := nodes + [last];
    assert more[..k] == nodes[..k] && more[k + 1] == nodes[k + 1];
  }

  lemma ClosedSyncs(nodes: seq<PlanNode>, dirty: set<Mask>)
    requires SyncsServe(nodes) && dirty == DirtyAfter({}, nodes)
    ensures SyncsNeeded(Close(nodes, dirty))
  {
    if dirty != {} {
      var last := SyncNode(nodes[|nodes| - 1].phase);
      ClosingSync(nodes, last);
      var more := nodes + [last];
      forall k | 0 <= k < |more| && more[k].SyncNode? ensures SyncServes(more, k) || SyncCloses(more, k) {
        if k < |nodes| {
          ServingSync(nodes, last, k);
        }
      }
    }
  }

  lemma SystemsMore(nodes: seq<PlanNode>, node: PlanNode)
    ensures SystemsOf(nodes + [node]) == SystemsOf(nodes) + NodeSystems(node)
  {
    assert (nodes + [node])[..|nodes|] == nodes;
  }

  lemma NumberedMore(systems: seq<CompiledSystem>, wave: seq<SystemDef>)
    requires Consecutive(systems)
    ensures Consecutive(systems + Number(wave, |systems|))
  {
  }

  lemma AddedWaveIsNumbered(draft: Draft, w: PhaseWave)
    ensures SystemsOf(AddWave(draft, w).nodes) == SystemsOf(draft.nodes) + Number(w.wave, draft.count)
  {
    var synced := draft.nodes + (if TouchesWave(draft.dirty, w.wave) then [SyncNode(w.phase)] else []);
    SystemsMore(draft.nodes, SyncNode(w.phase));
    assert draft.nodes + [] == draft.nodes;
    SystemsMore(synced, WaveNode(w.phase, w.index, Number(w.wave, draft.count), DirtyList(w.wave)));
  }

  lemma {:induction false} DraftIsNumbered(waves: seq<PhaseWave>)
    ensures var d := DraftOf(waves); Consecutive(SystemsOf(d.nodes)) && |SystemsOf(d.nodes)| == d.count
  {
    if waves != [] {
      var n := |waves| - 1;
      var draft := DraftOf(waves[..n]);
      DraftIsNumbered(waves[..n]);
      AddedWaveIsNumbered(draft, waves[n]);
      NumberedMore(SystemsOf(draft.nodes), waves[n].wave);
    }
  }

  lemma GuardedMore(nodes: seq<PlanNode>, node: PlanNode)
    requires Guarded(nodes)
    requires node.WaveNode? ==> WaveGuarded(DirtyAfter({}, nodes), node.systems)
    ensures Guarded(nodes + [node])
  {
    var more := nodes + [node];
    forall k | 0 <= k < |more| && more[k].WaveNode? ensures WaveGuarded(DirtyAfter({}, more[..k]), more[k].systems) {
      if k < |nodes| {
        assert more[..k] == nodes[..k];
      } else {
        assert more[..k] == nodes;
      }
    }
  }

  lemma DirtyAfterMore(nodes: seq<PlanNode>, node: PlanNode)
    ensures DirtyAfter({}, nodes + [node]) == NodeDirty(DirtyAfter({}, nodes), node)
  {
    assert (nodes + [node])[..|nodes|] == nodes;
  }

  lemma WaveIsSound(w: PhaseWave, count: nat)
    requires WaveCompiler.PairwiseCompatible(w.wave)
    ensures SoundWave(WaveNode(w.phase, w.index, Number(w.wave, count), DirtyList(w.wave)))
  {
    var node := WaveNode(w.phase, w.index, Number(w.wave, count), DirtyList(w.wave));
    DirtyListElements(w.wave);
    forall mask ensures mask in node.dirtyAfter <==>
        exists i :: 0 <= i < |node.systems| && mask in node.systems[i].def.access.structural {
      assert mask in node.dirtyAfter <==> mask in Structural(w.wave);
      if mask in Structural(w.wave) {
        var i, k :| 0 <= i < |w.wave| && 0 <= k < |w.wave[i].access.structural|
            && w.wave[i].access.structural[k] == mask;
        assert mask in node.systems[i].def.access.structural;
      }
      if i :| 0 <= i < |node.systems| && mask in node.systems[i].def.access.structural {
        var k :| 0 <= k < |w.wave[i].access.structural| && w.wave[i].access.structural[k] == mask;
      }
    }
  }

  /** Sound so far: guarded, with sound waves, and the compiler knows what is dirty. */
  ghost predicate SoundDraft(nodes: seq<PlanNode>, dirty: set<Mask>) {
    Guarded(nodes) && dirty == DirtyAfter({}, nodes) && forall k :: 0 <= k < |nodes| ==> SoundWave(nodes[k])
  }

  lemma SoundMore(nodes: seq<PlanNode>, dirty: set<Mask>, node: PlanNode)
    requires SoundDraft(nodes, dirty) && SoundWave(node)
    requires node.WaveNode? ==> WaveGuarded(dirty, node.systems)
    ensures SoundDraft(nodes + [node], NodeDirty(dirty, node))
  {
    GuardedMore(nodes, node);
    DirtyAfterMore(nodes, node);
  }

  lemma SyncedIsSound(draft: Draft, w: PhaseWave)
    requires SoundDraft(draft.nodes, draft.dirty)
    ensures var sync := TouchesWave(draft.dirty, w.wave);
      SoundDraft(draft.nodes + (if sync then [SyncNode(w.phase)] else []), if sync then {} else draft.dirty)
  {
    if TouchesWave(draft.dirty, w.wave) {
      SoundMore(draft.nodes, draft.dirty, SyncNode(w.phase));
    } else {
      AppendNothing(draft.nodes);
    }
  }

  lemma AddedWaveIsSound(draft: Draft, w: PhaseWave)
    requires SoundDraft(draft.nodes, draft.dirty) && WaveCompiler.PairwiseCompatible(w.wave)
    ensures SoundDraft(AddWave(draft, w).nodes, AddWave(draft, w).dirty)
  {
    var sync := TouchesWave(draft.dirty, w.wave);
    var synced := draft.nodes + (if sync then [SyncNode(w.phase)] else []);
    var dirty := if sync then {} else draft.dirty;
    var node := WaveNode(w.phase, w.index, Number(w.wave, draft.count), DirtyList(w.wave));
    SyncedIsSound(draft, w);
    WaveIsSound(w, draft.count);
    DirtyListElements(w.wave);
    SoundMore(synced, dirty, node);
  }

  lemma {:induction false} DraftIsSound(waves: seq<PhaseWave>)
    requires forall k :: 0 <= k < |waves| ==> WaveCompiler.PairwiseCompatible(waves[k].wave)
    ensures SoundDraft(DraftOf(waves).nodes, DraftOf(waves).dirty)
  {
    if waves != [] {
      var n := |waves| - 1;
      DraftIsSound(waves[..n]);
      AddedWaveIsSound(DraftOf(waves[..n]), waves[n]);
    }
  }

  lemma ClosedIsSound(d: Draft)
    requires Guarded(d.nodes) && d.dirty == DirtyAfter({}, d.nodes) && Consecutive(SystemsOf(d.nodes))
    requires SyncsServe(d.nodes) && forall k :: 0 <= k < |d.nodes| ==> SoundWave(d.nodes[k])
    ensures SoundPlan(Close(d.nodes, d.dirty))
  {
    ClosedSyncs(d.nodes, d.dirty);
    if d.dirty != {} {
      var last := SyncNode(if |d.nodes| > 0 then d.nodes[|d.nodes| - 1].phase else FINALIZE);
      GuardedMore(d.nodes, last);
      DirtyAfterMore(d.nodes, last);
      SystemsMore(d.nodes, last);
    }
    GuardedIsUnqueried(Close(d.nodes, d.dirty));
  }

  /**
   * Every compiled plan is sound: no wave queries dirty archetypes, nothing is dirty at the end, and its
   * k-th system has order k.
   */
  lemma PlansAreSound(phases: Phases, plan: seq<PlanNode>)
    requires IsPlan(phases, plan)
    ensures SoundPlan(plan)
  {
    var order, perPhase :| IsPlanFor(phases, order, perPhase, plan);
    AllWavesCompatible(phases, order, perPhase);
    DraftIsSound(AllWaves(order, perPhase));
    DraftIsNumbered(AllWaves(order, perPhase));
    DraftSyncsServe(AllWaves(order, perPhase));
    ClosedIsSound(DraftOf(AllWaves(order, perPhase)));
  }

  lemma {:induction false} AllWavesCompatible(phases: Phases, order: seq<string>, perPhase: seq<seq<seq<SystemDef>>>)
    requires AllCompiled(phases, order, perPhase)
    ensures forall k :: 0 <= k < |AllWaves(order, perPhase)| ==>
      WaveCompiler.PairwiseCompatible(AllWaves(order, perPhase)[k].wave)
  {
    if order != [] {
      var n := |order| - 1;
      forall k | 0 <= k < n ensures PhaseCompiled(phases, order[..n][k], perPhase[..n][k]) {
        assert PhaseCompiled(phases, order[k], perPhase[k]);
      }
      AllWavesCompatible(phases, order[..n], perPhase[..n]);
      assert PhaseCompiled(phases, order[n], perPhase[n]);
      WaveCompiler.CompiledWaves(phases[order[n]].systems, perPhase[n]);
    }
  }

  /** With distinct orders, which every builder guarantees, the phases determine the plan. */
  lemma PlanIsUnique(phases: Phases, a: seq<PlanNode>, b: seq<PlanNode>)
    requires PhaseOrder.Registered(phases) && forall id :: id in phases ==>
      WaveCompiler.DistinctOrders(phases[id].systems)
    requires IsPlan(phases, a) && IsPlan(phases, b)
    ensures a == b
  {
    var oa, pa :| IsPlanFor(phases, oa, pa, a);
    var ob, pb :| IsPlanFor(phases, ob, pb, b);
    SameOrder(phases, oa, ob);
    forall k | 0 <= k < |oa| ensures pa[k] == pb[k] {
      assert PhaseCompiled(phases, oa[k], pa[k]) && PhaseCompiled(phases, ob[k], pb[k]);
      WavesDetermined(phases[oa[k]].systems, pa[k], pb[k]);
    }
    assert pa == pb;
  }

  lemma SameOrder(phases: Phases, a: seq<string>, b: seq<string>)
    requires PhaseOrder.Registered(phases)
    requires PhaseOrder.Greedy(phases, a) && PhaseOrder.Covers(phases, a)
    requires PhaseOrder.Greedy(phases, b) && PhaseOrder.Covers(phases, b)
    ensures a == b
  {
    PhaseOrder.GreedyIsTopological(phases, a);
    PhaseOrder.GreedyIsTopological(phases, b);
    PhaseOrder.CountDistinct(a, phases.Keys);
    PhaseOrder.CountDistinct(b, phases.Keys);
    PhaseOrder.GreedyIsUnique(phases, a, b);
  }

  lemma WavesDetermined(systems: seq<SystemDef>, a: seq<seq<SystemDef>>, b: seq<seq<SystemDef>>)
    requires WaveCompiler.DistinctOrders(systems) && WaveCompiler.DistinctIds(systems)
    requires WaveCompiler.Waves(systems, a) && WaveCompiler.Waves(systems, b)
    requires WaveCompiler.Placed(a) == WaveCompiler.Ids(systems) == WaveCompiler.Placed(b)
    ensures a == b
  {
    if |a| <= |b| {
      NoFurtherWave(systems, a, b);
    } else {
      NoFurtherWave(systems, b, a);
    }
  }

  lemma NoFurtherWave(systems: seq<SystemDef>, a: seq<seq<SystemDef>>, b: seq<seq<SystemDef>>)
    requires WaveCompiler.DistinctOrders(systems) && |a| <= |b|
    requires WaveCompiler.Waves(systems, a) && WaveCompiler.Waves(systems, b)
    requires WaveCompiler.Placed(a) == WaveCompiler.Ids(systems)
    ensures a == b
  {
    var n := |a|;
    WaveCompiler.WavesAreUnique(systems, a, b, n);
    assert a[..n] == a;
    if n < |b| {
      WaveCompiler.WaveAt(systems, b, n);
      NextWaveIsNew(systems, WaveCompiler.Placed(b[..n]), b[n]);
    }
    assert b[..n] == b;
  }

  lemma NextWaveIsNew(systems: seq<SystemDef>, placed: set<string>, wave: seq<SystemDef>)
    requires WaveCompiler.IsNextWave(systems, placed, wave)
    ensures !(WaveCompiler.Ids(systems) <= placed)
  {
    WaveCompiler.NextWaveProperties(systems, placed, wave);
    var id := wave[0].id;
    assert WaveCompiler.ReadyToPlace(WaveCompiler.SystemGraph(systems), placed, id);
  }
}
