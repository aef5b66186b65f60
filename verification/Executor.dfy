// Running one frame of a compiled plan against a world.
module Executor {
  import opened Options
  import opened SchedulerTypes
  import opened PlanCompiler
  import opened Concurrency
  import opened Envelopes

  /** What the plan runs in: the code of each system, and what committing a queue of commands does to the columns. */
  datatype Env = Env(program: SystemDef -> Program, commit: (Columns, seq<Envelope<Command>>) -> Option<Columns>)

  datatype WorldState = WorldState(columns: Columns, queue: seq<Envelope<Command>>, dirty: set<Mask>)

  datatype FrameError =
    | PlanMismatch(system: string)
    | SystemFailed(system: string)
    | UndeclaredCommands(system: string)
    | UndeclaredEffect(system: string)
    | SyncFailed
    | PendingCommands

  /** Hung: some wave never finished under its schedule. */
  datatype FrameResult =
    | Done(world: WorldState)
    | Failed(error: FrameError, world: WorldState)
    | Hung

  // ------------------------------------------------------ the specification

  /** Commit everything queued, or just forget what is dirty when nothing is. */
  ghost function SyncNodeRun(env: Env, w: WorldState): FrameResult {
    if w.queue == [] then Done(w.(dirty := {}))
    else
      var queue := SortEnvelopes(w.queue);
      var committed := env.commit(w.columns, queue);
      if committed.None? then Failed(SyncFailed, w.(queue := queue))
      else Done(WorldState(committed.value, [], {}))
  }

  /** The first system of the wave that queries a dirty archetype. */
  function Mismatch(dirty: set<Mask>, systems: seq<CompiledSystem>): Option<string> {
    if systems == [] then None
    else if Touches(dirty, systems[0].def.access.queries) then Some(systems[0].def.id)
    else Mismatch(dirty, systems[1..])
  }

  predicate Declared(structural: seq<Mask>, commands: seq<Command>) {
    forall i, k :: 0 <= i < |commands| && 0 <= k < |commands[i].affected| ==> commands[i].affected[k] in structural
  }

  /** What is wrong with one system's result, if anything. */
  function ResultError(system: SystemDef, l: Local): Option<FrameError> {
    if l.failed then Some(SystemFailed(system.id))
    else if |l.commands| > 0 && !system.access.HasStructuralEffects() then Some(UndeclaredCommands(system.id))
    else if !Declared(system.access.structural, l.commands) then Some(UndeclaredEffect(system.id))
    else None
  }

  function FirstError(systems: seq<CompiledSystem>, locals: seq<Local>): Option<FrameError>
    requires |systems| == |locals|
  {
    if systems == [] then None
    else
      var e := ResultError(systems[0].def, locals[0]);
      if e.Some? then e else FirstError(systems[1..], locals[1..])
  }

  function Collect(systems: seq<CompiledSystem>, locals: seq<Local>): seq<Envelope<Command>>
    requires |systems| == |locals|
  {
    if systems == [] then []
    else Wrap(systems[0].order, locals[0].commands) + Collect(systems[1..], locals[1..])
  }

  ghost function Programs(env: Env, systems: seq<CompiledSystem>): (programs: seq<Program>)
    ensures |programs| == |systems| && forall k :: 0 <= k < |systems| ==> programs[k] == env.program(systems[k].def)
  {
    seq<Program>(|systems|, k requires 0 <= k < |systems| => env.program(systems[k].def))
  }

  ghost function Accesses(systems: seq<CompiledSystem>): (accesses: seq<AccessSpec>)
    ensures |accesses| == |systems| && forall k :: 0 <= k < |systems| ==> accesses[k] == systems[k].def.access
  {
    seq(|systems|, k requires 0 <= k < |systems| => systems[k].def.access)
  }

  /** All systems of the wave at once, then their results checked in order and their commands staged. */
  ghost function WaveRun(env: Env, systems: seq<CompiledSystem>, dirtyAfter: seq<Mask>, schedule: seq<nat>,
                         w: WorldState): FrameResult {
    var end := Interleave(Programs(env, systems), w.columns, schedule);
    if !AllHalted(end.0) then Hung
    else StageResults(systems, dirtyAfter, end.0, w.(columns := end.1))
  }

  ghost function StageResults(systems: seq<CompiledSystem>, dirtyAfter: seq<Mask>, locals: seq<Local>,
                              w: WorldState): FrameResult
    requires |systems| == |locals|
  {
    var error := FirstError(systems, locals);
    if error.Some? then Failed(error.value, w)
    else Done(w.(queue := w.queue + SortEnvelopes(Collect(systems, locals)), dirty := w.dirty + Elements(dirtyAfter)))
  }

  ghost function NodeRun(env: Env, node: PlanNode, schedule: seq<nat>, w: WorldState): FrameResult {
    match node
    case SyncNode(_) => SyncNodeRun(env, w)
    case WaveNode(_, _, systems, dirtyAfter) =>
      var mismatch := Mismatch(w.dirty, systems);
      if mismatch.Some? then Failed(PlanMismatch(mismatch.value), w)
      else WaveRun(env, systems, dirtyAfter, schedule, w)
  }

  /** The nodes in order, up to the first failure. schedules[k] drives node k. */
  ghost function NodesRun(env: Env, nodes: seq<PlanNode>, schedules: seq<seq<nat>>, w: WorldState): FrameResult
    requires |schedules| == |nodes|
  {
    if nodes == [] then Done(w)
    else
      var n := |nodes| - 1;
      var before := NodesRun(env, nodes[..n], schedules[..n], w);
      if before.Done? then NodeRun(env, nodes[n], schedules[n], before.world) else before
  }

  ghost function FrameRun(env: Env, plan: seq<PlanNode>, schedules: seq<seq<nat>>, w: WorldState): FrameResult
    requires |schedules| == |plan|
  {
    var end := NodesRun(env, plan, schedules, w);
    if end.Done? && end.world.queue != [] then Failed(PendingCommands, end.world) else end
  }

  /** The queues handed over to be committed, in order. */
  ghost function Commits(env: Env, nodes: seq<PlanNode>, schedules: seq<seq<nat>>,
                         w: WorldState): seq<seq<Envelope<Command>>>
    requires |schedules| == |nodes|
  {
    if nodes == [] then []
    else
      var n := |nodes| - 1;
      Commits(env, nodes[..n], schedules[..n], w) + CommitOf(nodes[n], NodesRun(env, nodes[..n], schedules[..n], w))
  }

  /** What a node commits after what ran before it. */
  ghost function CommitOf(node: PlanNode, before: FrameResult): seq<seq<Envelope<Command>>> {
    if node.SyncNode? && before.Done? && before.world.queue != [] then [SortEnvelopes(before.world.queue)] else []
  }

  // ---------------------------------------------------------- the machinery

  class World {
    var columns: Columns
    var queue: seq<Envelope<Command>>
    var dirty: set<Mask>

    ghost function State(): WorldState
      reads this
    {
      WorldState(columns, queue, dirty)
    }

    constructor (columns: Columns)
      ensures State() == WorldState(columns, [], {})
    {
      this.columns, queue, dirty := columns, [], {};
    }

    method Sync(env: Env) returns (ok: bool)
      modifies this
      ensures SyncNodeRun(env, old(State())) == if ok then Done(State()) else Failed(SyncFailed, State())
    {
      if |queue| == 0 {
        dirty := {};
        return true;
      }
      queue := SortEnvelopes(queue);
      var committed := env.commit(columns, queue);
      if committed.None? {
        return false;
      }
      columns, queue, dirty := committed.value, [], {};
      ok := true;
    }

    method Stage(envelopes: seq<Envelope<Command>>, declaredDirty: seq<Mask>)
      modifies this
      ensures State() == WorldState(old(columns), old(queue) + envelopes, old(dirty) + Elements(declaredDirty))
    {
      queue := queue + envelopes;
      var more: set<Mask> := {};
      for k := 0 to |declaredDirty|
        invariant columns == old(columns) && queue == old(queue) + envelopes
          && dirty == old(dirty) + Elements(declaredDirty[..k])
      {
        assert declaredDirty[..k + 1] == declaredDirty[..k] + [declaredDirty[k]];
        dirty := dirty + {declaredDirty[k]};
      }
      assert declaredDirty[..|declaredDirty|] == declaredDirty;
    }
  }

  lemma {:induction false} MismatchMeans(dirty: set<Mask>, systems: seq<CompiledSystem>)
    ensures Mismatch(dirty, systems).None? <==> WaveGuarded(dirty, systems)
  {
    if systems != [] {
      MismatchMeans(dirty, systems[1..]);
      forall i | 0 < i < |systems| ensures systems[i] == systems[1..][i - 1] {
      }
    }
  }

  // ------------------------------------------------------ what a wave checks

  /** Nothing is wrong with a system's result: it did not fail, and it stages only what it declares. */
  ghost predicate ResultOk(system: SystemDef, l: Local) {
    && !l.failed
    && (l.commands == [] || system.access.structural != [])
    && forall i, k :: 0 <= i < |l.commands| && 0 <= k < |l.commands[i].affected| ==>
         l.commands[i].affected[k] in system.access.structural
  }

  /** The error names the system and the first thing that is wrong with its result. */
  ghost predicate ErrorFits(system: SystemDef, l: Local, e: FrameError) {
    match e
    case SystemFailed(id) => id == system.id && l.failed
    case UndeclaredCommands(id) => id == system.id && !l.failed && l.commands != [] && system.access.structural == []
    case UndeclaredEffect(id) =>
      && id == system.id && !l.failed && system.access.structural != []
      && exists i, k :: 0 <= i < |l.commands| && 0 <= k < |l.commands[i].affected|
                        && l.commands[i].affected[k] !in system.access.structural
    case _ => false
  }

  lemma ResultErrorExactly(system: SystemDef, l: Local)
    ensures ResultError(system, l).None? <==> ResultOk(system, l)
    ensures ResultError(system, l).Some? ==> ErrorFits(system, l, ResultError(system, l).value)
  {
  }

  ghost predicate AllOk(systems: seq<CompiledSystem>, locals: seq<Local>)
    requires |systems| == |locals|
  {
    forall i :: 0 <= i < |systems| ==> ResultOk(systems[i].def, locals[i])
  }

  /** System i is the first whose result is wrong, and the error is about it. */
  ghost predicate FirstWrong(systems: seq<CompiledSystem>, locals: seq<Local>, i: nat, e: FrameError)
    requires |systems| == |locals|
  {
    && i < |systems| && AllOk(systems[..i], locals[..i])
    && !ResultOk(systems[i].def, locals[i]) && ErrorFits(systems[i].def, locals[i], e)
  }

  /** A wave passes exactly when every result is right; otherwise the error is about the first that is not. */
  lemma {:induction false} FirstErrorExactly(systems: seq<CompiledSystem>, locals: seq<Local>)
    requires |systems| == |locals|
    ensures FirstError(systems, locals).None? <==> AllOk(systems, locals)
    ensures FirstError(systems, locals).Some? ==>
      exists i: nat :: FirstWrong(systems, locals, i, FirstError(systems, locals).value)
  {
    if systems != [] {
      ResultErrorExactly(systems[0].def, locals[0]);
      FirstErrorExactly(systems[1..], locals[1..]);
      if ResultError(systems[0].def, locals[0]).Some? {
        assert FirstWrong(systems, locals, 0, FirstError(systems, locals).value);
      } else if FirstError(systems[1..], locals[1..]).Some? {
        var i: nat :| FirstWrong(systems[1..], locals[1..], i, FirstError(systems[1..], locals[1..]).value);
        OneLater(systems, locals, i, FirstError(systems, locals).value);
      } else {
        RestOk(systems, locals);
      }
      if AllOk(systems, locals) {
        RestOk(systems, locals);
      }
    }
  }

  lemma RestOk(systems: seq<CompiledSystem>, locals: seq<Local>)
    requires |systems| == |locals| > 0
    ensures AllOk(systems, locals) <==> ResultOk(systems[0].def, locals[0]) && AllOk(systems[1..], locals[1..])
  {
    if ResultOk(systems[0].def, locals[0]) && AllOk(systems[1..], locals[1..]) {
      forall i | 0 <= i < |systems| ensures ResultOk(systems[i].def, locals[i]) {
        if i > 0 {
          assert systems[1..][i - 1] == systems[i] && locals[1..][i - 1] == locals[i];
        }
      }
    }
  }

  lemma OneLater(systems: seq<CompiledSystem>, locals: seq<Local>, i: nat, e: FrameError)
    requires |systems| == |locals| > 0 && ResultOk(systems[0].def, locals[0])
    requires FirstWrong(systems[1..], locals[1..], i, e)
    ensures FirstWrong(systems, locals, i + 1, e)
  {
    var n := i + 1;
    var heads, results := systems[..n], locals[..n];
    assert heads[1..] == systems[1..][..i] && results[1..] == locals[1..][..i];
    RestOk(heads, results);
  }

  /** How many commands the first i systems staged. */
  function StagedBefore(locals: seq<Local>, i: nat): nat
    requires i <= |locals|
  {
    if i == 0 then 0 else StagedBefore(locals, i - 1) + |locals[i - 1].commands|
  }

  lemma {:induction false} StagedBeforeTail(locals: seq<Local>, i: nat)
    requires locals != [] && i < |locals|
    ensures StagedBefore(locals, i + 1) == |locals[0].commands| + StagedBefore(locals[1..], i)
  {
    if i > 0 {
      StagedBeforeTail(locals, i - 1);
    }
  }

  lemma {:induction false} CollectCount(systems: seq<CompiledSystem>, locals: seq<Local>)
    requires |systems| == |locals|
    ensures |Collect(systems, locals)| == StagedBefore(locals, |locals|)
  {
    if systems != [] {
      CollectCount(systems[1..], locals[1..]);
      StagedBeforeTail(locals, |locals| - 1);
    }
  }

  /** Every command of every system is collected once, in the order of the systems and of staging, with its tags. */
  lemma {:induction false} CollectAt(systems: seq<CompiledSystem>, locals: seq<Local>, i: nat, k: nat)
    requires |systems| == |locals| && i < |systems| && k < |locals[i].commands|
    ensures |Collect(systems, locals)| == StagedBefore(locals, |locals|)
    ensures var place := StagedBefore(locals, i) + k;
      && place < |Collect(systems, locals)|
      && Collect(systems, locals)[place] == Envelope(systems[i].order, k, locals[i].commands[k])
  {
    CollectCount(systems, locals);
    var first, rest := Wrap(systems[0].order, locals[0].commands), Collect(systems[1..], locals[1..]);
    assert Collect(systems, locals) == first + rest;
    if i > 0 {
      StagedBeforeTail(locals, i - 1);
      CollectAt(systems[1..], locals[1..], i - 1, k);
      var place := StagedBefore(locals[1..], i - 1) + k;
      assert (first + rest)[|first| + place] == rest[place];
    }
  }

  /**
   * A wave that finishes succeeds exactly when every result is right, and then it stages every command of every
   * system; otherwise it fails with the error of the first that is not, and stages nothing.
   */
  lemma WaveExactly(env: Env, systems: seq<CompiledSystem>, dirtyAfter: seq<Mask>, schedule: seq<nat>, w: WorldState)
    ensures var r := WaveRun(env, systems, dirtyAfter, schedule, w);
      var (locals, columns) := Interleave(Programs(env, systems), w.columns, schedule);
      && (r.Hung? <==> !AllHalted(locals))
      && (r.Done? <==> AllHalted(locals) && AllOk(systems, locals))
      && (r.Done? ==>
            && r.world.columns == columns && r.world.dirty == w.dirty + Elements(dirtyAfter)
            && |r.world.queue| == |w.queue| + StagedBefore(locals, |locals|) && w.queue <= r.world.queue
            && multiset(r.world.queue[|w.queue|..]) == multiset(Collect(systems, locals))
            && InOrder(r.world.queue[|w.queue|..]))
      && (r.Failed? ==> r.world == w.(columns := columns) && exists i: nat :: FirstWrong(systems, locals, i, r.error))
  {
    var (locals, columns) := Interleave(Programs(env, systems), w.columns, schedule);
    FirstErrorExactly(systems, locals);
    CollectCount(systems, locals);
    SortSorts(Collect(systems, locals));
    var sorted := SortEnvelopes(Collect(systems, locals));
    assert |multiset(sorted)| == |multiset(Collect(systems, locals))|;
    assert (w.queue + sorted)[|w.queue|..] == sorted;
  }

  class Executor {
    const plan: seq<PlanNode>

    constructor (plan: seq<PlanNode>)
      ensures this.plan == plan
    {
      this.plan := plan;
    }

    /**
     * Runs the plan. It returns None when the frame succeeds and the error
     * otherwise; either way the world is left as FrameRun says. A wave that
     * never finishes never returns, which the precondition leaves out.
     */
    method RunFrame(env: Env, world: World, schedules: seq<seq<nat>>) returns (error: Option<FrameError>)
      requires |schedules| == |plan|
      requires !FrameRun(env, plan, schedules, world.State()).Hung?
      modifies world
      ensures FrameRun(env, plan, schedules, old(world.State()))
              == if error.None? then Done(world.State()) else Failed(error.value, world.State())
    {
      ghost var start := world.State();
      for k := 0 to |plan|
        invariant NodesRun(env, plan[..k], schedules[..k], start) == Done(world.State())
        invariant !NodesRun(env, plan, schedules, start).Hung?
      {
        assert plan[..k + 1][..k] == plan[..k] && schedules[..k + 1][..k] == schedules[..k];
        StopsEarly(env, plan, schedules, start, k + 1);
        if plan[k].SyncNode? {
          var ok := world.Sync(env);
          if !ok {
            return Some(SyncFailed);
          }
        } else {
          var mismatch := Mismatch(world.dirty, plan[k].systems);
          if mismatch.Some? {
            return Some(PlanMismatch(mismatch.value));
          }
          error := RunWave(env, world, plan[k].systems, plan[k].dirtyAfter, schedules[k]);
          if error.Some? {
            return;
          }
        }
      }
      assert plan[..|plan|] == plan && schedules[..|plan|] == schedules;
      error := if |world.queue| != 0 then Some(PendingCommands) else None;
    }

    /** One step of one system per turn of the schedule, then the results in index order. */
    method RunWave(env: Env, world: World, systems: seq<CompiledSystem>, dirtyAfter: seq<Mask>, schedule: seq<nat>)
        returns (error: Option<FrameError>)
      requires !WaveRun(env, systems, dirtyAfter, schedule, world.State()).Hung?
      modifies world
      ensures WaveRun(env, systems, dirtyAfter, schedule, old(world.State()))
              == if error.None? then Done(world.State()) else Failed(error.value, world.State())
    {
      var locals := seq(|systems|, _ => START);
      for k := 0 to |schedule|
        invariant |locals| == |systems|
        invariant world.queue == old(world.queue) && world.dirty == old(world.dirty)
        invariant (locals, world.columns) == Interleave(Programs(env, systems), old(world.columns), schedule[..k])
      {
        assert schedule[..k + 1][..k] == schedule[..k];
        var turn := schedule[k];
        if turn < |systems| {
          var next := StepOf(env.program(systems[turn].def), locals[turn], world.columns);
          locals := locals[turn := next.0];
          world.columns := next.1;
        }
      }
      assert schedule[..|schedule|] == schedule;
      error := FirstError(systems, locals);
      if error.None? {
        world.Stage(SortEnvelopes(Collect(systems, locals)), dirtyAfter);
      }
    }
  }

  /** Running on cannot undo a failure, a hang or what was done before. */
  lemma {:induction false} StopsEarly(env: Env, nodes: seq<PlanNode>, schedules: seq<seq<nat>>, w: WorldState, k: nat)
    requires |schedules| == |nodes| && k <= |nodes|
    ensures var part := NodesRun(env, nodes[..k], schedules[..k], w);
            !part.Done? ==> NodesRun(env, nodes, schedules, w) == part
    decreases |nodes|
  {
    if k == |nodes| {
      assert nodes[..k] == nodes && schedules[..k] == schedules;
    } else {
      var n := |nodes| - 1;
      StopsEarly(env, nodes[..n], schedules[..n], w, k);
      assert nodes[..n][..k] == nodes[..k] && schedules[..n][..k] == schedules[..k];
    }
  }

  // ---------------------------------------------------------- the simulation

  /** Commands are pending only while something is dirty. */
  ghost predicate PendingIsDirty(w: WorldState) {
    w.queue != [] ==> w.dirty != {}
  }

  lemma {:induction false} CommandsAreDeclared(systems: seq<CompiledSystem>, locals: seq<Local>)
    requires |systems| == |locals| && FirstError(systems, locals).None?
    ensures Collect(systems, locals) != [] ==> exists i :: 0 <= i < |systems| && |systems[i].def.access.structural| > 0
  {
    if systems != [] {
      CommandsAreDeclared(systems[1..], locals[1..]);
      if |locals[0].commands| > 0 {
        assert |systems[0].def.access.structural| > 0;
      } else if Collect(systems, locals) != [] {
        assert Collect(systems[1..], locals[1..]) != [];
        var i :| 0 <= i < |systems[1..]| && |systems[1..][i].def.access.structural| > 0;
        assert systems[i + 1] == systems[1..][i];
      }
    }
  }

  lemma NodeSimulates(env: Env, node: PlanNode, schedule: seq<nat>, w: WorldState)
    requires SoundWave(node) && PendingIsDirty(w)
    requires node.WaveNode? ==> WaveGuarded(w.dirty, node.systems)
    ensures var r := NodeRun(env, node, schedule, w);
            && (r.Done? ==> r.world.dirty == NodeDirty(w.dirty, node) && PendingIsDirty(r.world))
            && !(r.Failed? && (r.error.PlanMismatch? || r.error.PendingCommands?))
  {
    if node.WaveNode? {
      MismatchMeans(w.dirty, node.systems);
      var locals := Interleave(Programs(env, node.systems), w.columns, schedule).0;
      var r := NodeRun(env, node, schedule, w);
      FirstErrorKind(node.systems, locals);
      if r.Done? {
        CommandsAreDeclared(node.systems, locals);
        SortSorts(Collect(node.systems, locals));
        if Collect(node.systems, locals) != [] {
          var i :| 0 <= i < |node.systems| && |node.systems[i].def.access.structural| > 0;
          var mask := node.systems[i].def.access.structural[0];
          assert mask in node.dirtyAfter;
          assert mask in r.world.dirty;
        } else {
          assert SortEnvelopes<Command>([]) == [];
        }
      }
    }
  }

  lemma {:induction false} FirstErrorKind(systems: seq<CompiledSystem>, locals: seq<Local>)
    requires |systems| == |locals|
    ensures var e := FirstError(systems, locals);
            e.Some? ==> !e.value.PlanMismatch? && !e.value.PendingCommands? && !e.value.SyncFailed?
  {
    if systems != [] {
      FirstErrorKind(systems[1..], locals[1..]);
    }
  }

  ghost predicate AllSound(nodes: seq<PlanNode>) {
    forall k :: 0 <= k < |nodes| ==> SoundWave(nodes[k])
  }

  lemma SoundPrefix(nodes: seq<PlanNode>)
    requires nodes != [] && Guarded(nodes) && AllSound(nodes)
    ensures Guarded(nodes[..|nodes| - 1]) && AllSound(nodes[..|nodes| - 1])
  {
    var less := nodes[..|nodes| - 1];
    forall k | 0 <= k < |less| && less[k].WaveNode? ensures WaveGuarded(DirtyAfter({}, less[..k]), less[k].systems) {
      assert less[..k] == nodes[..k] && less[k] == nodes[k];
      assert WaveGuarded(DirtyAfter({}, nodes[..k]), nodes[k].systems);
    }
  }

  /** At every node the world is dirty exactly as the compiler foresaw, and the mismatch error is unreachable. */
  lemma {:induction false} RuntimeFollowsPlan(env: Env, nodes: seq<PlanNode>, schedules: seq<seq<nat>>,
                                              columns: Columns)
    requires |schedules| == |nodes| && Guarded(nodes) && AllSound(nodes)
    ensures var r := NodesRun(env, nodes, schedules, WorldState(columns, [], {}));
            && (r.Done? ==> r.world.dirty == DirtyAfter({}, nodes) && PendingIsDirty(r.world))
            && !(r.Failed? && (r.error.PlanMismatch? || r.error.PendingCommands?))
  {
    if nodes != [] {
      var n := |nodes| - 1;
      var w := WorldState(columns, [], {});
      SoundPrefix(nodes);
      RuntimeFollowsPlan(env, nodes[..n], schedules[..n], columns);
      var before := NodesRun(env, nodes[..n], schedules[..n], w);
      if before.Done? {
        if nodes[n].WaveNode? {
          assert WaveGuarded(DirtyAfter({}, nodes[..n]), nodes[n].systems);
        }
        NodeSimulates(env, nodes[n], schedules[n], before.world);
      }
    }
  }

  /**
   * A frame of a compiled plan from a clean world never reports a plan
   * mismatch or pending commands, and when it succeeds nothing is pending or dirty.
   */
  lemma FramesEndClean(env: Env, phases: Phases, plan: seq<PlanNode>, schedules: seq<seq<nat>>, columns: Columns)
    requires IsPlan(phases, plan) && |schedules| == |plan|
    ensures var r := FrameRun(env, plan, schedules, WorldState(columns, [], {}));
            && (r.Done? ==> r.world.queue == [] && r.world.dirty == {})
            && (r.Failed? ==> !r.error.PlanMismatch? && !r.error.PendingCommands?)
  {
    PlansAreSound(phases, plan);
    RuntimeFollowsPlan(env, plan, schedules, columns);
  }
}
