// A frame that runs whole waves at once, under any interleaving, does what
// the same frame does with the systems one after the other in plan order.
module SerialEquivalence {
  import opened Options
  import opened Sequences
  import opened SchedulerTypes
  import opened PlanCompiler
  import opened Concurrency
  import opened Envelopes
  import opened Executor

  /** A wave of one system. */
  function Single(node: PlanNode, system: CompiledSystem): PlanNode
    requires node.WaveNode?
  {
    WaveNode(node.phase, node.wave, [system], system.def.access.structural)
  }

  ghost function SplitNode(node: PlanNode): (nodes: seq<PlanNode>)
    ensures node.SyncNode? ==> nodes == [node]
    ensures node.WaveNode? ==> |nodes| == |node.systems| && forall k :: 0 <= k < |nodes| ==>
      nodes[k] == Single(node, node.systems[k])
  {
    match node
    case SyncNode(_) => [node]
    case WaveNode(_, _, systems, _) => seq(|systems|, k requires 0 <= k < |systems| => Single(node, systems[k]))
  }

  /** The plan with every wave taken apart, in plan order, and the syncs where they were. */
  ghost function Split(nodes: seq<PlanNode>): seq<PlanNode> {
    if nodes == [] then []
    else Split(nodes[..|nodes| - 1]) + SplitNode(nodes[|nodes| - 1])
  }

  /** The same world, or the same error. */
  ghost predicate SameOutcome(a: FrameResult, b: FrameResult) {
    (a.Done? && b.Done? && a.world == b.world) || (a.Failed? && b.Failed? && a.error == b.error)
  }

  /** Every system of the plan keeps to its declared access. */
  ghost predicate SystemsObey(env: Env, nodes: seq<PlanNode>) {
    forall k :: 0 <= k < |nodes| && nodes[k].WaveNode? ==> WaveObeys(env, nodes[k].systems)
  }

  ghost predicate WaveObeys(env: Env, systems: seq<CompiledSystem>) {
    forall i :: 0 <= i < |systems| ==> Obeys(systems[i].def.access, env.program(systems[i].def))
  }

  // ------------------------------------------------------------ one wave

  lemma WaveApart(node: PlanNode)
    requires node.WaveNode? && SoundWave(node)
    ensures Apart(Accesses(node.systems))
  {
    var systems := node.systems;
    forall i, j | 0 <= i < |systems| && 0 <= j < |systems| && i != j
      ensures systems[i].def.access.writeMask !! systems[j].def.access.Footprint()
    {
      if i < j {
        assert !SystemsConflict(systems[j].def.access, systems[i].def.access);
      } else {
        assert !SystemsConflict(systems[i].def.access, systems[j].def.access);
      }
      Disjoint(systems[i].def.access.writeMask, systems[j].def.access.Footprint());
    }
  }

  lemma Disjoint(a: Mask, b: Mask)
    requires a * b == {}
    ensures a !! b
  {
    forall c ensures c !in a || c !in b {
      assert c !in a * b;
    }
  }

  /** The effects these systems declare. */
  ghost function Effects(systems: seq<CompiledSystem>): set<Mask> {
    Structural(Defs(systems))
  }

  lemma EffectsMore(systems: seq<CompiledSystem>, system: CompiledSystem)
    ensures Effects(systems + [system]) == Effects(systems) + Elements(system.def.access.structural)
  {
    var n, wave := |systems|, Defs(systems + [system]);
    StructuralGrows(wave, n);
    assert wave[..n + 1] == wave && wave[..n] == Defs(systems);
  }

  /** No system queries what an earlier one of the same wave may dirty. */
  lemma StillGuarded(node: PlanNode, dirty: set<Mask>, k: nat)
    requires node.WaveNode? && SoundWave(node) && WaveGuarded(dirty, node.systems) && k < |node.systems|
    ensures !Touches(dirty + Effects(node.systems[..k]), node.systems[k].def.access.queries)
  {
    var systems, queries := node.systems, node.systems[k].def.access.queries;
    assert !Touches(dirty, queries);
    forall mask, q | mask in Effects(systems[..k]) && 0 <= q < |queries| ensures !Contains(mask, queries[q]) {
      var i, m :| 0 <= i < k && 0 <= m < |Defs(systems[..k])[i].access.structural|
          && Defs(systems[..k])[i].access.structural[m] == mask;
      var earlier := systems[i].def.access;
      assert !SystemsConflict(systems[k].def.access, earlier);
      assert !Touches(Elements(earlier.structural), queries);
      assert mask in Elements(earlier.structural);
    }
  }

  lemma {:induction false} CollectMore(systems: seq<CompiledSystem>, locals: seq<Local>, system: CompiledSystem,
                                       l: Local)
    requires |systems| == |locals|
    ensures Collect(systems + [system], locals + [l]) == Collect(systems, locals) + Wrap(system.order, l.commands)
    ensures FirstError(systems + [system], locals + [l]) ==
            if FirstError(systems, locals).Some? then FirstError(systems, locals) else ResultError(system.def, l)
  {
    if systems == [] {
      assert Collect([system], [l]) == Wrap(system.order, l.commands) + Collect([], []);
    } else {
      CollectMore(systems[1..], locals[1..], system, l);
      assert (systems + [system])[1..] == systems[1..] + [system];
      assert (locals + [l])[1..] == locals[1..] + [l];
      assert Collect(systems + [system], locals + [l])
          == Wrap(systems[0].order, locals[0].commands)
              + (Collect(systems[1..], locals[1..]) + Wrap(system.order, l.commands));
    }
  }

  /** Commands collected in index order are in commit order already. */
  lemma {:induction false} CollectInOrder(systems: seq<CompiledSystem>, locals: seq<Local>)
    requires |systems| == |locals|
    requires forall i, j :: 0 <= i < j < |systems| ==> systems[i].order < systems[j].order
    ensures InOrder(Collect(systems, locals))
    ensures forall e :: e in Collect(systems, locals) ==>
      exists i :: 0 <= i < |systems| && e.systemOrder == systems[i].order
  {
    if systems != [] {
      var first, rest := Wrap(systems[0].order, locals[0].commands), Collect(systems[1..], locals[1..]);
      CollectInOrder(systems[1..], locals[1..]);
      forall e | e in rest ensures exists i :: 1 <= i < |systems| && e.systemOrder == systems[i].order {
        var i :| 0 <= i < |systems[1..]| && e.systemOrder == systems[1..][i].order;
        assert e.systemOrder == systems[i + 1].order;
      }
      forall e | e in first ensures e.systemOrder == systems[0].order {
      }
      forall i, j | 0 <= i < j < |first + rest| ensures Before((first + rest)[i], (first + rest)[j]) {
        if j >= |first| {
          assert (first + rest)[j] in rest;
          if i >= |first| {
            assert Before(rest[i - |first|], rest[j - |first|]);
          }
        }
      }
    }
  }

  /** Where the taken-apart wave stands after its first k systems. */
  ghost predicate Standing(env: Env, systems: seq<CompiledSystem>, w: WorldState, locals: seq<Local>, now: WorldState) {
    && |locals| == |systems|
    && Finished(Accesses(systems), Programs(env, systems), w.columns, locals, now.columns)
    && FirstError(systems, locals).None?
    && now.queue == w.queue + Collect(systems, locals)
    && now.dirty == w.dirty + Effects(systems)
  }

  /** It failed at the last of these systems, for a reason the whole wave has too. */
  ghost predicate Broken(env: Env, systems: seq<CompiledSystem>, w: WorldState, locals: seq<Local>, columns: Columns,
                         error: FrameError) {
    && |locals| == |systems|
    && Finished(Accesses(systems), Programs(env, systems), w.columns, locals, columns)
    && FirstError(systems, locals) == Some(error)
  }

  lemma SingleStage(system: CompiledSystem, l: Local, w: WorldState)
    ensures StageResults([system], system.def.access.structural, [l], w) ==
            if ResultError(system.def, l).Some? then Failed(ResultError(system.def, l).value, w)
            else Done(WorldState(w.columns, w.queue + Wrap(system.order, l.commands),
                                 w.dirty + Elements(system.def.access.structural)))
  {
    SingleCollect(system, l);
  }

  lemma SingleCollect(system: CompiledSystem, l: Local)
    ensures SortEnvelopes(Collect([system], [l])) == Wrap(system.order, l.commands)
    ensures FirstError([system], [l]) == ResultError(system.def, l)
  {
    var systems, locals := [system], [l];
    CollectMore([], [], system, l);
    assert [] + systems == systems && [] + locals == locals;
    CollectInOrder(systems, locals);
    SortedStays(Collect(systems, locals));
  }

  lemma SingleRun(env: Env, node: PlanNode, system: CompiledSystem, schedule: seq<nat>, w: WorldState)
    requires node.WaveNode? && !Touches(w.dirty, system.def.access.queries)
    requires Obeys(system.def.access, env.program(system.def))
    ensures var r := NodeRun(env, Single(node, system), schedule, w);
            var end := Interleave([env.program(system.def)], w.columns, schedule);
            if !AllHalted(end.0) then r.Hung?
            else
              && Finished([system.def.access], [env.program(system.def)], w.columns, [end.0[0]], end.1)
              && r == if ResultError(system.def, end.0[0]).Some?
                  then Failed(ResultError(system.def, end.0[0]).value, w.(columns := end.1))
                      else Done(WorldState(end.1, w.queue + Wrap(system.order, end.0[0].commands),
                                           w.dirty + Elements(system.def.access.structural)))
  {
    var programs := [env.program(system.def)];
    assert Programs(env, [system]) == programs;
    assert Mismatch(w.dirty, [system]).None? by { MismatchMeans(w.dirty, [system]); }
    var end := Interleave(programs, w.columns, schedule);
    if AllHalted(end.0) {
      InterleavedFinishes([system.def.access], programs, w.columns, schedule);
      assert end.0 == [end.0[0]];
      SingleStage(system, end.0[0], w.(columns := end.1));
    }
  }

  lemma PrefixObeys(env: Env, node: PlanNode, k: nat)
    requires node.WaveNode? && SoundWave(node) && WaveObeys(env, node.systems) && k <= |node.systems|
    ensures Apart(Accesses(node.systems[..k])) && AllObey(Accesses(node.systems[..k]), Programs(env, node.systems[..k]))
  {
    WaveApart(node);
    forall i, j | 0 <= i < k && 0 <= j < k && i != j
      ensures Accesses(node.systems[..k])[i].writeMask !! Accesses(node.systems[..k])[j].Footprint()
    {
      assert Accesses(node.systems)[i].writeMask !! Accesses(node.systems)[j].Footprint();
    }
  }

  /** One more system of the wave, on its own. */
  lemma StandingNext(env: Env, node: PlanNode, k: nat, w: WorldState, locals: seq<Local>, now: WorldState,
                     schedule: seq<nat>)
    requires node.WaveNode? && SoundWave(node) && WaveGuarded(w.dirty, node.systems) && WaveObeys(env, node.systems)
    requires k < |node.systems| && Standing(env, node.systems[..k], w, locals, now)
    ensures var r := NodeRun(env, Single(node, node.systems[k]), schedule, now);
            || r.Hung?
            || (r.Done? && Stands(env, node.systems[..k + 1], w, r.world))
            || (r.Failed? && Breaks(env, node.systems[..k + 1], w, r.world.columns, r.error))
  {
    var system := node.systems[k];
    StillGuarded(node, w.dirty, k);
    SingleRun(env, node, system, schedule, now);
    if !NodeRun(env, Single(node, system), schedule, now).Hung? {
      var end := Interleave([env.program(system.def)], now.columns, schedule);
      PrefixFinishes(env, node, k, w, locals, now, end.0[0], end.1);
      assert node.systems[..k + 1] == node.systems[..k] + [system];
      OneMore(env, node.systems[..k], system, w, locals, now, end.0[0],
              NodeRun(env, Single(node, system), schedule, now));
    }
  }

  lemma OneMore(env: Env, less: seq<CompiledSystem>, system: CompiledSystem, w: WorldState, locals: seq<Local>,
                now: WorldState, l: Local, r: FrameResult)
    requires Standing(env, less, w, locals, now) && !r.Hung?
    requires Finished(Accesses(less + [system]), Programs(env, less + [system]), w.columns, locals + [l],
                      r.world.columns)
    requires r == if ResultError(system.def, l).Some? then Failed(ResultError(system.def, l).value, r.world)
                  else Done(WorldState(r.world.columns, now.queue + Wrap(system.order, l.commands),
                                       now.dirty + Elements(system.def.access.structural)))
    ensures r.Done? ==> Stands(env, less + [system], w, r.world)
    ensures r.Failed? ==> Breaks(env, less + [system], w, r.world.columns, r.error)
  {
    CollectMore(less, locals, system, l);
    if r.Done? {
      StandsLonger(env, less, system, w, locals, now, l, r.world);
    } else {
      assert Broken(env, less + [system], w, locals + [l], r.world.columns, r.error);
    }
  }

  lemma StandsLonger(env: Env, less: seq<CompiledSystem>, system: CompiledSystem, w: WorldState, locals: seq<Local>,
                     now: WorldState,
                     l: Local, next: WorldState)
    requires Standing(env, less, w, locals, now) && ResultError(system.def, l).None?
    requires Finished(Accesses(less + [system]), Programs(env, less + [system]), w.columns, locals + [l], next.columns)
    requires next.queue == now.queue + Wrap(system.order, l.commands)
    requires next.dirty == now.dirty + Elements(system.def.access.structural)
    ensures Stands(env, less + [system], w, next)
  {
    CollectMore(less, locals, system, l);
    EffectsMore(less, system);
    assert next.queue == w.queue + (Collect(less, locals) + Wrap(system.order, l.commands));
    assert Standing(env, less + [system], w, locals + [l], next);
  }

  lemma PrefixFinishes(env: Env, node: PlanNode, k: nat, w: WorldState, locals: seq<Local>, now: WorldState, l: Local,
                       columns: Columns)
    requires node.WaveNode? && SoundWave(node) && WaveObeys(env, node.systems)
    requires k < |node.systems| && Standing(env, node.systems[..k], w, locals, now)
    requires Finished([node.systems[k].def.access], [env.program(node.systems[k].def)], now.columns, [l], columns)
    ensures Finished(Accesses(node.systems[..k + 1]), Programs(env, node.systems[..k + 1]), w.columns, locals + [l],
                     columns)
  {
    var system, less := node.systems[k], node.systems[..k];
    var access, program := system.def.access, env.program(system.def);
    PrefixObeys(env, node, k + 1);
    assert Accesses(node.systems[..k + 1]) == Accesses(less) + [access];
    assert Programs(env, node.systems[..k + 1]) == Programs(env, less) + [program];
    FinishedThenOne(Accesses(less), Programs(env, less), w.columns, locals, now.columns, access, program, l, columns);
  }

  ghost predicate Stands(env: Env, systems: seq<CompiledSystem>, w: WorldState, now: WorldState) {
    exists locals :: Standing(env, systems, w, locals, now)
  }

  ghost predicate Breaks(env: Env, systems: seq<CompiledSystem>, w: WorldState, columns: Columns, error: FrameError) {
    exists locals :: Broken(env, systems, w, locals, columns, error)
  }

  /** The first k systems of a wave, one after the other. */
  ghost predicate SplitStands(env: Env, node: PlanNode, k: nat, w: WorldState, r: FrameResult)
    requires node.WaveNode? && k <= |node.systems|
  {
    || r.Hung?
    || (r.Done? && Stands(env, node.systems[..k], w, r.world))
    || (r.Failed? && exists j :: 0 < j <= k && Breaks(env, node.systems[..j], w, r.world.columns, r.error))
  }

  lemma {:induction false} SplitWaveRuns(env: Env, node: PlanNode, k: nat, w: WorldState, schedules: seq<seq<nat>>)
    requires node.WaveNode? && SoundWave(node) && WaveGuarded(w.dirty, node.systems) && WaveObeys(env, node.systems)
    requires k <= |node.systems| && |schedules| == k
    ensures SplitStands(env, node, k, w, NodesRun(env, SplitNode(node)[..k], schedules, w))
  {
    if k == 0 {
      assert node.systems[..0] == [];
      assert Collect([], []) == [] && Effects([]) == {};
      assert Standing(env, node.systems[..0], w, [], w);
    } else {
      var n := k - 1;
      var before := NodesRun(env, SplitNode(node)[..n], schedules[..n], w);
      SplitWaveRuns(env, node, n, w, schedules[..n]);
      assert SplitNode(node)[..k][..n] == SplitNode(node)[..n];
      if before.Done? {
        var locals :| Standing(env, node.systems[..n], w, locals, before.world);
        StandingNext(env, node, n, w, locals, before.world, schedules[n]);
      }
    }
  }

  lemma {:induction false} FirstErrorOfPrefix(systems: seq<CompiledSystem>, locals: seq<Local>, j: nat)
    requires |systems| == |locals| && j <= |systems|
    requires FirstError(systems[..j], locals[..j]).Some?
    ensures FirstError(systems, locals) == FirstError(systems[..j], locals[..j])
  {
    if ResultError(systems[0].def, locals[0]).None? {
      assert systems[..j][1..] == systems[1..][..j - 1] && locals[..j][1..] == locals[1..][..j - 1];
      FirstErrorOfPrefix(systems[1..], locals[1..], j - 1);
    }
  }

  lemma SamePrefixEnds(env: Env, systems: seq<CompiledSystem>, w: WorldState, locals: seq<Local>, columns: Columns,
                       j: nat, part: seq<Local>, mid: Columns)
    requires j <= |systems| == |locals| && |part| == j
    requires Finished(Accesses(systems), Programs(env, systems), w.columns, locals, columns)
    requires Finished(Accesses(systems[..j]), Programs(env, systems[..j]), w.columns, part, mid)
    ensures part == locals[..j]
  {
    forall i | 0 <= i < j ensures part[i] == locals[i] {
      assert EndsAlone(Accesses(systems)[i], Programs(env, systems)[i], w.columns, locals[i], columns);
      assert EndsAlone(Accesses(systems[..j])[i], Programs(env, systems[..j])[i], w.columns, part[i], mid);
      SameEnd(systems[i].def.access, env.program(systems[i].def), w.columns, locals[i], columns, part[i], mid);
    }
  }

  /** A wave that finishes leaves every system where it would end alone. */
  lemma WaveFinishes(env: Env, node: PlanNode, schedule: seq<nat>, w: WorldState)
    requires node.WaveNode? && SoundWave(node) && WaveGuarded(w.dirty, node.systems) && WaveObeys(env, node.systems)
    requires !NodeRun(env, node, schedule, w).Hung?
    ensures var end := Interleave(Programs(env, node.systems), w.columns, schedule);
            && AllHalted(end.0)
            && Finished(Accesses(node.systems), Programs(env, node.systems), w.columns, end.0, end.1)
            && NodeRun(env, node, schedule, w)
                == StageResults(node.systems, node.dirtyAfter, end.0, w.(columns := end.1))
  {
    var systems := node.systems;
    MismatchMeans(w.dirty, systems);
    PrefixObeys(env, node, |systems|);
    assert systems[..|systems|] == systems;
    InterleavedFinishes(Accesses(systems), Programs(env, systems), w.columns, schedule);
  }

  lemma DoneAlike(env: Env, node: PlanNode, schedule: seq<nat>, w: WorldState, locals: seq<Local>, now: WorldState)
    requires node.WaveNode? && SoundWave(node) && WaveGuarded(w.dirty, node.systems) && WaveObeys(env, node.systems)
    requires !NodeRun(env, node, schedule, w).Hung? && Standing(env, node.systems, w, locals, now)
    ensures NodeRun(env, node, schedule, w) == Done(now)
  {
    var systems := node.systems;
    var end := Interleave(Programs(env, systems), w.columns, schedule);
    WaveFinishes(env, node, schedule, w);
    FinishedIsUnique(Accesses(systems), Programs(env, systems), w.columns, end.0, end.1, locals, now.columns);
    CollectInOrder(systems, locals);
    SortedStays(Collect(systems, locals));
    SameDirty(node);
  }

  lemma FailedAlike(env: Env, node: PlanNode, schedule: seq<nat>, w: WorldState, j: nat, part: seq<Local>,
                    columns: Columns, error: FrameError)
    requires node.WaveNode? && SoundWave(node) && WaveGuarded(w.dirty, node.systems) && WaveObeys(env, node.systems)
    requires !NodeRun(env, node, schedule, w).Hung?
    requires j <= |node.systems| && Broken(env, node.systems[..j], w, part, columns, error)
    ensures var r := NodeRun(env, node, schedule, w); r.Failed? && r.error == error
  {
    var end := Interleave(Programs(env, node.systems), w.columns, schedule);
    WaveFinishes(env, node, schedule, w);
    SamePrefixEnds(env, node.systems, w, end.0, end.1, j, part, columns);
    FirstErrorOfPrefix(node.systems, end.0, j);
  }

  /** A whole wave at once against the same wave taken apart. */
  lemma WaveIsSerial(env: Env, node: PlanNode, schedule: seq<nat>, schedules: seq<seq<nat>>, w: WorldState)
    requires node.WaveNode? && SoundWave(node) && WaveGuarded(w.dirty, node.systems) && WaveObeys(env, node.systems)
    requires |schedules| == |SplitNode(node)|
    requires !NodeRun(env, node, schedule, w).Hung? && !NodesRun(env, SplitNode(node), schedules, w).Hung?
    ensures SameOutcome(NodeRun(env, node, schedule, w), NodesRun(env, SplitNode(node), schedules, w))
  {
    var systems := node.systems;
    var r := NodesRun(env, SplitNode(node), schedules, w);
    assert systems[..|systems|] == systems && SplitNode(node)[..|systems|] == SplitNode(node);
    SplitWaveRuns(env, node, |systems|, w, schedules);
    if r.Done? {
      var locals :| Standing(env, systems, w, locals, r.world);
      DoneAlike(env, node, schedule, w, locals, r.world);
    } else {
      var j :| 0 < j <= |systems| && Breaks(env, systems[..j], w, r.world.columns, r.error);
      var part :| Broken(env, systems[..j], w, part, r.world.columns, r.error);
      FailedAlike(env, node, schedule, w, j, part, r.world.columns, r.error);
    }
  }

  lemma SameDirty(node: PlanNode)
    requires node.WaveNode? && SoundWave(node)
    ensures Elements(node.dirtyAfter) == Effects(node.systems)
  {
    forall mask ensures mask in node.dirtyAfter <==> mask in Effects(node.systems) {
      if mask in node.dirtyAfter {
        var i :| 0 <= i < |node.systems| && mask in node.systems[i].def.access.structural;
        var m :| 0 <= m < |node.systems[i].def.access.structural| && node.systems[i].def.access.structural[m] == mask;
        assert Defs(node.systems)[i].access.structural[m] == mask;
      }
    }
  }

  // ----------------------------------------------------------- whole frames

  lemma {:induction false} NodesRunAppend(env: Env, a: seq<PlanNode>, sa: seq<seq<nat>>, b: seq<PlanNode>,
                                          sb: seq<seq<nat>>, w: WorldState)
    requires |a| == |sa| && |b| == |sb|
    ensures NodesRun(env, a + b, sa + sb, w) ==
            var r := NodesRun(env, a, sa, w); if r.Done? then NodesRun(env, b, sb, r.world) else r
  {
    if b == [] {
      AppendNothing(a);
      AppendNothing(sa);
    } else {
      var n := |b| - 1;
      NodesRunAppend(env, a, sa, b[..n], sb[..n], w);
      InitOfAppend(a, b);
      InitOfAppend(sa, sb);
    }
  }

  lemma CommitsLast(env: Env, nodes: seq<PlanNode>, schedules: seq<seq<nat>>, node: PlanNode, schedule: seq<nat>,
                    w: WorldState)
    requires |schedules| == |nodes|
    ensures Commits(env, nodes + [node], schedules + [schedule], w)
         == Commits(env, nodes, schedules, w) + CommitOf(node, NodesRun(env, nodes, schedules, w))
  {
    assert (nodes + [node])[..|nodes|] == nodes && (schedules + [schedule])[..|nodes|] == schedules;
  }

  lemma CommitsAppendOne(env: Env, a: seq<PlanNode>, sa: seq<seq<nat>>, b: seq<PlanNode>, sb: seq<seq<nat>>,
                         node: PlanNode, schedule: seq<nat>, w: WorldState)
    requires |a| == |sa| && |b| == |sb|
    requires Commits(env, a + b, sa + sb, w) == Commits(env, a, sa, w)
      + LaterCommits(env, NodesRun(env, a, sa, w), b, sb)
    ensures Commits(env, (a + b) + [node], (sa + sb) + [schedule], w)
         == Commits(env, a, sa, w) + LaterCommits(env, NodesRun(env, a, sa, w), b + [node], sb + [schedule])
  {
    var r := NodesRun(env, a, sa, w);
    NodesRunAppend(env, a, sa, b, sb, w);
    CommitsLast(env, a + b, sa + sb, node, schedule, w);
    if r.Done? {
      CommitsLast(env, b, sb, node, schedule, r.world);
    }
  }

  lemma {:induction false} CommitsAppend(env: Env, a: seq<PlanNode>, sa: seq<seq<nat>>, b: seq<PlanNode>,
                                         sb: seq<seq<nat>>, w: WorldState)
    requires |a| == |sa| && |b| == |sb|
    ensures Commits(env, a + b, sa + sb, w) == Commits(env, a, sa, w)
      + LaterCommits(env, NodesRun(env, a, sa, w), b, sb)
  {
    if b == [] {
      AppendNothing(a);
      AppendNothing(sa);
    } else {
      var n := |b| - 1;
      AppendLast(a, b);
      AppendLast(sa, sb);
      CommitsAppend(env, a, sa, b[..n], sb[..n], w);
      CommitsAppendOne(env, a, sa, b[..n], sb[..n], b[n], sb[n], w);
    }
  }

  ghost function LaterCommits(env: Env, before: FrameResult, nodes: seq<PlanNode>,
                              schedules: seq<seq<nat>>): seq<seq<Envelope<Command>>>
    requires |schedules| == |nodes|
  {
    if before.Done? then Commits(env, nodes, schedules, before.world) else []
  }

  lemma {:induction false} WavesCommitNothing(env: Env, nodes: seq<PlanNode>, schedules: seq<seq<nat>>, w: WorldState)
    requires |schedules| == |nodes| && forall k :: 0 <= k < |nodes| ==> nodes[k].WaveNode?
    ensures Commits(env, nodes, schedules, w) == []
  {
    if nodes != [] {
      WavesCommitNothing(env, nodes[..|nodes| - 1], schedules[..|nodes| - 1], w);
    }
  }

  /** Taking the last node apart does not change what it commits. */
  lemma SplitNodeCommits(env: Env, node: PlanNode, serial: seq<seq<nat>>, w: WorldState)
    requires |serial| == |SplitNode(node)|
    ensures Commits(env, SplitNode(node), serial, w) == CommitOf(node, Done(w))
  {
    if node.WaveNode? {
      WavesCommitNothing(env, SplitNode(node), serial, w);
    } else {
      assert SplitNode(node)[..0] == [] && Commits(env, [], serial[..0], w) == []
          && NodesRun(env, [], serial[..0], w) == Done(w);
    }
  }

  /** Running two lists of nodes under the two parts of a list of schedules. */
  lemma RunInTwo(env: Env, a: seq<PlanNode>, b: seq<PlanNode>, serial: seq<seq<nat>>, w: WorldState)
    requires |serial| == |a| + |b|
    ensures var r := NodesRun(env, a, serial[..|a|], w);
            && NodesRun(env, a + b, serial, w) == (if r.Done? then NodesRun(env, b, serial[|a|..], r.world) else r)
            && Commits(env, a + b, serial, w)
                == Commits(env, a, serial[..|a|], w) + LaterCommits(env, r, b, serial[|a|..])
  {
    assert serial == serial[..|a|] + serial[|a|..];
    NodesRunAppend(env, a, serial[..|a|], b, serial[|a|..], w);
    CommitsAppend(env, a, serial[..|a|], b, serial[|a|..], w);
  }

  lemma SplitRun(env: Env, nodes: seq<PlanNode>, serial: seq<seq<nat>>, w: WorldState)
    requires nodes != [] && |serial| == |Split(nodes)|
    ensures var n := |nodes| - 1;
            var m := |Split(nodes[..n])|;
            && m + |SplitNode(nodes[n])| == |serial|
            && var r := NodesRun(env, Split(nodes[..n]), serial[..m], w);
            && NodesRun(env, Split(nodes), serial, w)
                == (if r.Done? then NodesRun(env, SplitNode(nodes[n]), serial[m..], r.world) else r)
            && Commits(env, Split(nodes), serial, w)
                == Commits(env, Split(nodes[..n]), serial[..m], w) + CommitOf(nodes[n], r)
  {
    var n := |nodes| - 1;
    var a := Split(nodes[..n]);
    RunInTwo(env, a, SplitNode(nodes[n]), serial, w);
    var r := NodesRun(env, a, serial[..|a|], w);
    if r.Done? {
      SplitNodeCommits(env, nodes[n], serial[|a|..], r.world);
    }
  }

  lemma ObeyPrefix(env: Env, nodes: seq<PlanNode>)
    requires nodes != [] && SystemsObey(env, nodes)
    ensures SystemsObey(env, nodes[..|nodes| - 1])
  {
    var n := |nodes| - 1;
    forall k | 0 <= k < n && nodes[..n][k].WaveNode? ensures WaveObeys(env, nodes[..n][k].systems) {
      assert nodes[..n][k] == nodes[k];
    }
  }

  lemma {:induction false} NodesAreSerial(env: Env, nodes: seq<PlanNode>, schedules: seq<seq<nat>>,
                                          serial: seq<seq<nat>>, columns: Columns)
    requires |schedules| == |nodes| && |serial| == |Split(nodes)|
    requires Guarded(nodes) && AllSound(nodes) && SystemsObey(env, nodes)
    requires !NodesRun(env, nodes, schedules, WorldState(columns, [], {})).Hung?
    requires !NodesRun(env, Split(nodes), serial, WorldState(columns, [], {})).Hung?
    ensures SameOutcome(NodesRun(env, nodes, schedules, WorldState(columns, [], {})),
                        NodesRun(env, Split(nodes), serial, WorldState(columns, [], {})))
    ensures Commits(env, nodes, schedules, WorldState(columns, [], {}))
      == Commits(env, Split(nodes), serial, WorldState(columns, [], {}))
  {
    if nodes != [] {
      var n := |nodes| - 1;
      var w := WorldState(columns, [], {});
      var m := |Split(nodes[..n])|;
      SplitRun(env, nodes, serial, w);
      SoundPrefix(nodes);
      ObeyPrefix(env, nodes);
      NodesAreSerial(env, nodes[..n], schedules[..n], serial[..m], columns);
      RuntimeFollowsPlan(env, nodes[..n], schedules[..n], columns);
      var before := NodesRun(env, nodes[..n], schedules[..n], w);
      if before.Done? {
        LastNodeIsSerial(env, nodes, schedules[n], serial[m..], before.world);
      }
    }
  }

  lemma LastNodeIsSerial(env: Env, nodes: seq<PlanNode>, schedule: seq<nat>, serial: seq<seq<nat>>, w: WorldState)
    requires nodes != [] && Guarded(nodes) && AllSound(nodes) && SystemsObey(env, nodes)
    requires |serial| == |SplitNode(nodes[|nodes| - 1])| && w.dirty == DirtyAfter({}, nodes[..|nodes| - 1])
    requires !NodeRun(env, nodes[|nodes| - 1], schedule, w).Hung?
      && !NodesRun(env, SplitNode(nodes[|nodes| - 1]), serial, w).Hung?
    ensures SameOutcome(NodeRun(env, nodes[|nodes| - 1], schedule, w),
                        NodesRun(env, SplitNode(nodes[|nodes| - 1]), serial, w))
  {
    var n := |nodes| - 1;
    if nodes[n].WaveNode? {
      assert WaveGuarded(DirtyAfter({}, nodes[..n]), nodes[n].systems);
      assert SoundWave(nodes[n]) && WaveObeys(env, nodes[n].systems);
      WaveIsSerial(env, nodes[n], schedule, serial, w);
    } else {
      assert NodesRun(env, [], serial[..0], w) == Done(w);
      assert SplitNode(nodes[n])[..0] == [];
    }
  }

  // ---------------------------------------------------- running alone ends

  ghost function Zeros(n: nat): (zeros: seq<nat>)
    ensures |zeros| == n && forall k :: 0 <= k < n ==> zeros[k] == 0
  {
    seq(n, _ => 0)
  }

  /** The turns each system of a wave had, to be taken on its own. */
  ghost function Alone(schedule: seq<nat>, n: nat): (schedules: seq<seq<nat>>)
    ensures |schedules| == n && forall k :: 0 <= k < n ==> schedules[k] == Zeros(Turns(schedule, k))
  {
    seq(n, k requires 0 <= k < n => Zeros(Turns(schedule, k)))
  }

  lemma {:induction false} AloneIsSolo(program: Program, columns: Columns, n: nat)
    ensures Interleave([program], columns, Zeros(n)) == ([Solo(program, columns, n).0], Solo(program, columns, n).1)
  {
    if n == 0 {
      assert Zeros(n) == [];
      assert seq(1, _ => START) == [START];
    } else {
      AloneIsSolo(program, columns, n - 1);
      assert Zeros(n)[..n - 1] == Zeros(n - 1) && Zeros(n)[n - 1] == 0;
      var s := Solo(program, columns, n - 1);
      assert [s.0][0 := Solo(program, columns, n).0] == [Solo(program, columns, n).0];
    }
  }

  /** What a wave's first k systems wrote is nothing the next one looks at. */
  lemma NextSeesStart(env: Env, node: PlanNode, k: nat, w: WorldState, locals: seq<Local>, now: WorldState)
    requires node.WaveNode? && SoundWave(node) && k < |node.systems| && Standing(env, node.systems[..k], w, locals, now)
    ensures AgreeOn(node.systems[k].def.access.Footprint(), w.columns, now.columns)
  {
    WaveApart(node);
    forall c: Component | c in node.systems[k].def.access.Footprint() ensures w.columns[c] == now.columns[c] {
      forall i | 0 <= i < k ensures c !in Accesses(node.systems[..k])[i].writeMask {
        assert Accesses(node.systems)[i].writeMask !! Accesses(node.systems)[k].Footprint();
      }
    }
  }

  /** A system that returns in a finished wave returns on its own after as many turns. */
  lemma NextReturns(env: Env, node: PlanNode, schedule: seq<nat>, k: nat, w: WorldState, locals: seq<Local>,
                    now: WorldState)
    requires node.WaveNode? && SoundWave(node) && WaveGuarded(w.dirty, node.systems) && WaveObeys(env, node.systems)
    requires !NodeRun(env, node, schedule, w).Hung?
    requires k < |node.systems| && Standing(env, node.systems[..k], w, locals, now)
    ensures !NodeRun(env, Single(node, node.systems[k]), Zeros(Turns(schedule, k)), now).Hung?
  {
    var access, program, turns := node.systems[k].def.access, env.program(node.systems[k].def), Turns(schedule, k);
    PrefixObeys(env, node, |node.systems|);
    assert node.systems[..|node.systems|] == node.systems;
    InterleavedAsAlone(Accesses(node.systems), Programs(env, node.systems), w.columns, schedule);
    WaveFinishes(env, node, schedule, w);
    var end := Interleave(Programs(env, node.systems), w.columns, schedule);
    assert AsAlone(access, program, w.columns, end.0[k], end.1, turns);
    NextSeesStart(env, node, k, w, locals, now);
    SoloFromAlike(access, program, w.columns, now.columns, turns);
    AloneIsSolo(program, now.columns, turns);
    StillGuarded(node, w.dirty, k);
    SingleRun(env, node, node.systems[k], Zeros(turns), now);
  }

  lemma NextFinishes(env: Env, node: PlanNode, schedule: seq<nat>, k: nat, w: WorldState, before: FrameResult)
    requires node.WaveNode? && SoundWave(node) && WaveGuarded(w.dirty, node.systems) && WaveObeys(env, node.systems)
    requires !NodeRun(env, node, schedule, w).Hung?
    requires k < |node.systems| && before.Done? && SplitStands(env, node, k, w, before)
    ensures !NodeRun(env, Single(node, node.systems[k]), Zeros(Turns(schedule, k)), before.world).Hung?
  {
    var locals :| Standing(env, node.systems[..k], w, locals, before.world);
    NextReturns(env, node, schedule, k, w, locals, before.world);
  }

  lemma NodesRunLast(env: Env, nodes: seq<PlanNode>, schedules: seq<seq<nat>>, k: nat, w: WorldState)
    requires k < |nodes| && |schedules| == k + 1
    ensures var before := NodesRun(env, nodes[..k], schedules[..k], w);
            NodesRun(env, nodes[..k + 1], schedules, w) == if before.Done?
                then NodeRun(env, nodes[k], schedules[k], before.world) else before
  {
    assert nodes[..k + 1][..k] == nodes[..k];
  }

  lemma {:induction false} SplitWaveFinishes(env: Env, node: PlanNode, schedule: seq<nat>, k: nat, w: WorldState)
    requires node.WaveNode? && SoundWave(node) && WaveGuarded(w.dirty, node.systems) && WaveObeys(env, node.systems)
    requires !NodeRun(env, node, schedule, w).Hung? && k <= |node.systems|
    ensures !NodesRun(env, SplitNode(node)[..k], Alone(schedule, k), w).Hung?
  {
    if k > 0 {
      var n := k - 1;
      var before := NodesRun(env, SplitNode(node)[..n], Alone(schedule, n), w);
      SplitWaveFinishes(env, node, schedule, n, w);
      SplitWaveRuns(env, node, n, w, Alone(schedule, n));
      assert Alone(schedule, k)[..n] == Alone(schedule, n);
      NodesRunLast(env, SplitNode(node), Alone(schedule, k), n, w);
      if before.Done? {
        NextFinishes(env, node, schedule, n, w, before);
      }
    }
  }

  ghost function AloneNode(node: PlanNode, schedule: seq<nat>): (serial: seq<seq<nat>>)
    ensures |serial| == |SplitNode(node)|
  {
    match node
    case SyncNode(_) => [schedule]
    case WaveNode(_, _, systems, _) => Alone(schedule, |systems|)
  }

  /** The serial schedules that give every system the turns it had. */
  ghost function Serialized(nodes: seq<PlanNode>, schedules: seq<seq<nat>>): (serial: seq<seq<nat>>)
    requires |schedules| == |nodes|
    ensures |serial| == |Split(nodes)|
  {
    if nodes == [] then []
    else
      var n := |nodes| - 1;
      Serialized(nodes[..n], schedules[..n]) + AloneNode(nodes[n], schedules[n])
  }

  lemma LastNodeFinishes(env: Env, node: PlanNode, schedule: seq<nat>, w: WorldState)
    requires SoundWave(node) && !NodeRun(env, node, schedule, w).Hung?
    requires node.WaveNode? ==> WaveGuarded(w.dirty, node.systems) && WaveObeys(env, node.systems)
    ensures !NodesRun(env, SplitNode(node), AloneNode(node, schedule), w).Hung?
  {
    if node.WaveNode? {
      SplitWaveFinishes(env, node, schedule, |node.systems|, w);
      assert SplitNode(node)[..|node.systems|] == SplitNode(node);
    } else {
      assert SplitNode(node)[..0] == [] && NodesRun(env, [], [], w) == Done(w);
    }
  }

  lemma {:induction false} NodesFinishSerially(env: Env, nodes: seq<PlanNode>, schedules: seq<seq<nat>>,
                                               columns: Columns)
    requires |schedules| == |nodes| && Guarded(nodes) && AllSound(nodes) && SystemsObey(env, nodes)
    requires !NodesRun(env, nodes, schedules, WorldState(columns, [], {})).Hung?
    ensures !NodesRun(env, Split(nodes), Serialized(nodes, schedules), WorldState(columns, [], {})).Hung?
  {
    if nodes != [] {
      var n, w, serial := |nodes| - 1, WorldState(columns, [], {}), Serialized(nodes, schedules);
      var less := Serialized(nodes[..n], schedules[..n]);
      SoundPrefix(nodes);
      ObeyPrefix(env, nodes);
      NodesFinishSerially(env, nodes[..n], schedules[..n], columns);
      NodesAreSerial(env, nodes[..n], schedules[..n], less, columns);
      RuntimeFollowsPlan(env, nodes[..n], schedules[..n], columns);
      SplitRun(env, nodes, serial, w);
      assert serial[..|less|] == less && serial[|less|..] == AloneNode(nodes[n], schedules[n]);
      var before := NodesRun(env, nodes[..n], schedules[..n], w);
      if before.Done? {
        if nodes[n].WaveNode? {
          assert WaveGuarded(DirtyAfter({}, nodes[..n]), nodes[n].systems);
        }
        LastNodeFinishes(env, nodes[n], schedules[n], before.world);
      }
    }
  }

  /** Whenever a frame finishes, its systems also finish one by one, each after the turns it had. */
  lemma FramesFinishSerially(env: Env, phases: Phases, plan: seq<PlanNode>, schedules: seq<seq<nat>>, columns: Columns)
    requires IsPlan(phases, plan) && SystemsObey(env, plan) && |schedules| == |plan|
    requires !FrameRun(env, plan, schedules, WorldState(columns, [], {})).Hung?
    ensures !FrameRun(env, Split(plan), Serialized(plan, schedules), WorldState(columns, [], {})).Hung?
  {
    PlansAreSound(phases, plan);
    NodesFinishSerially(env, plan, schedules, columns);
  }

  // -------------------------------------------------------- in plan order

  lemma {:induction false} SystemsAppend(a: seq<PlanNode>, b: seq<PlanNode>)
    ensures SystemsOf(a + b) == SystemsOf(a) + SystemsOf(b)
  {
    if b == [] {
      AppendNothing(a);
    } else {
      SystemsAppend(a, b[..|b| - 1]);
      InitOfAppend(a, b);
      AppendAppend(SystemsOf(a), SystemsOf(b[..|b| - 1]), NodeSystems(b[|b| - 1]));
    }
  }

  lemma {:induction false} SplitNodeSystems(node: PlanNode, k: nat)
    requires node.WaveNode? && k <= |node.systems|
    ensures SystemsOf(SplitNode(node)[..k]) == node.systems[..k]
  {
    if k > 0 {
      SplitNodeSystems(node, k - 1);
      assert SplitNode(node)[..k][..k - 1] == SplitNode(node)[..k - 1];
    }
  }

  lemma SplitNodeKeepsSystems(node: PlanNode)
    ensures SystemsOf(SplitNode(node)) == NodeSystems(node)
  {
    if node.WaveNode? {
      SplitNodeSystems(node, |node.systems|);
      assert SplitNode(node)[..|node.systems|] == SplitNode(node);
    } else {
      assert SplitNode(node)[..0] == [];
    }
  }

  lemma {:induction false} SplitKeepsSystems(nodes: seq<PlanNode>)
    ensures SystemsOf(Split(nodes)) == SystemsOf(nodes)
  {
    if nodes != [] {
      var n := |nodes| - 1;
      SplitKeepsSystems(nodes[..n]);
      SystemsAppend(Split(nodes[..n]), SplitNode(nodes[n]));
      SplitNodeKeepsSystems(nodes[n]);
    }
  }

  /** Taken apart, a compiled plan runs its systems by order: the k-th has order k. */
  lemma SplitIsByOrder(phases: Phases, plan: seq<PlanNode>)
    requires IsPlan(phases, plan)
    ensures SystemsOf(Split(plan)) == SystemsOf(plan) && Consecutive(SystemsOf(Split(plan)))
  {
    PlansAreSound(phases, plan);
    SplitKeepsSystems(plan);
  }

  /**
   * Serial equivalence. For every compiled plan whose systems obey their
   * access declarations, and all schedules under which both frames finish,
   * running the waves at once and running their systems one by one, by order,
   * hand the same queues over to be committed, in the same order, and end in
   * the same world or report the same error. Serial schedules that finish
   * exist whenever the frame does.
   */
  lemma FramesAreSerial(env: Env, phases: Phases, plan: seq<PlanNode>, schedules: seq<seq<nat>>, serial: seq<seq<nat>>,
                        columns: Columns)
    requires IsPlan(phases, plan) && SystemsObey(env, plan)
    requires |schedules| == |plan| && |serial| == |Split(plan)|
    requires !FrameRun(env, plan, schedules, WorldState(columns, [], {})).Hung?
    ensures var together := FrameRun(env, plan, schedules, WorldState(columns, [], {}));
            var alone := FrameRun(env, Split(plan), serial, WorldState(columns, [], {}));
            alone.Hung? || (SameOutcome(together, alone)
                            && Commits(env, plan, schedules, WorldState(columns, [], {}))
                                == Commits(env, Split(plan), serial, WorldState(columns, [], {})))
    ensures !FrameRun(env, Split(plan), Serialized(plan, schedules), WorldState(columns, [], {})).Hung?
  {
    PlansAreSound(phases, plan);
    FramesFinishSerially(env, phases, plan, schedules, columns);
    if !FrameRun(env, Split(plan), serial, WorldState(columns, [], {})).Hung? {
      NodesAreSerial(env, plan, schedules, serial, columns);
    }
  }
}
