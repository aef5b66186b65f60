// What a frame commits: every command that its systems staged, once, ordered
// by system and then by staging, whatever the schedules were.
module FrameCommits {
  import opened Options
  import opened Sequences
  import opened SchedulerTypes
  import opened PlanCompiler
  import opened Concurrency
  import opened Envelopes
  import opened Executor
  import opened SerialEquivalence

  type Queue = seq<Envelope<Command>>

  ghost function Flatten(queues: seq<Queue>): Queue {
    if queues == [] then [] else Flatten(queues[..|queues| - 1]) + queues[|queues| - 1]
  }

  /** The commands of a wave that ends well, in the order of its systems and of staging. */
  ghost function StagedBy(env: Env, node: PlanNode, schedule: seq<nat>, before: FrameResult): Queue {
    if node.WaveNode? && before.Done? && NodeRun(env, node, schedule, before.world).Done? then
      Collect(node.systems, Interleave(Programs(env, node.systems), before.world.columns, schedule).0)
    else []
  }

  /** Everything that was staged, wave after wave. */
  ghost function StagedIn(env: Env, nodes: seq<PlanNode>, schedules: seq<seq<nat>>, w: WorldState): Queue
    requires |schedules| == |nodes|
  {
    if nodes == [] then []
    else
      var n := |nodes| - 1;
      StagedIn(env, nodes[..n], schedules[..n], w)
        + StagedBy(env, nodes[n], schedules[n], NodesRun(env, nodes[..n], schedules[..n], w))
  }

  // ------------------------------------------------------------- one sync

  /**
   * With nothing queued a sync forgets what is dirty. Otherwise the queue is
   * committed in order: either all of it, or the columns stay and it is kept.
   */
  lemma SyncExactly(env: Env, w: WorldState)
    ensures var r := SyncNodeRun(env, w);
      if w.queue == [] then r.Done? && r.world.columns == w.columns && r.world.queue == [] && r.world.dirty == {}
      else
        exists queue: Queue :: InOrder(queue) && multiset(queue) == multiset(w.queue)
          && (InOrder(w.queue) ==> queue == w.queue)
          && if env.commit(w.columns, queue).Some?
             then r.Done? && Some(r.world.columns) == env.commit(w.columns, queue)
                  && r.world.queue == [] && r.world.dirty == {}
             else r.Failed? && r.error == SyncFailed && r.world.columns == w.columns && r.world.queue == queue
                  && r.world.dirty == w.dirty
  {
    SortSorts(w.queue);
    if InOrder(w.queue) {
      SortedStays(w.queue);
    }
    assert InOrder(SortEnvelopes(w.queue)) && multiset(SortEnvelopes(w.queue)) == multiset(w.queue);
  }

  /** A wave is refused exactly when one of its systems queries what is dirty; the first such system is named. */
  lemma {:induction false} MismatchExactly(dirty: set<Mask>, systems: seq<CompiledSystem>)
    ensures Mismatch(dirty, systems) == None <==> !SomeQueried(dirty, systems)
    ensures Mismatch(dirty, systems) != None ==> exists i: nat :: FirstQuerying(dirty, systems, i)
                                                   && Mismatch(dirty, systems) == Some(systems[i].def.id)
  {
    MismatchMeans(dirty, systems);
    GuardedMeans(dirty, systems);
    if Mismatch(dirty, systems) != None {
      TouchedExactly(dirty, systems[0].def.access.queries);
      if Touches(dirty, systems[0].def.access.queries) {
        assert FirstQuerying(dirty, systems, 0);
      } else {
        MismatchExactly(dirty, systems[1..]);
        var i: nat :| FirstQuerying(dirty, systems[1..], i)
          && Mismatch(dirty, systems[1..]) == Some(systems[1..][i].def.id);
        LaterQuerying(dirty, systems, i);
      }
    }
  }

  /** The i-th system queries what is dirty, and none before it does. */
  ghost predicate FirstQuerying(dirty: set<Mask>, systems: seq<CompiledSystem>, i: nat) {
    && i < |systems| && !Unqueried(dirty, systems[i].def.access.queries)
    && forall j :: 0 <= j < i ==> Unqueried(dirty, systems[j].def.access.queries)
  }

  lemma LaterQuerying(dirty: set<Mask>, systems: seq<CompiledSystem>, i: nat)
    requires systems != [] && Unqueried(dirty, systems[0].def.access.queries) && FirstQuerying(dirty, systems[1..], i)
    ensures FirstQuerying(dirty, systems, i + 1)
  {
    forall j | 0 <= j < i + 1 ensures Unqueried(dirty, systems[j].def.access.queries) {
      if j > 0 {
        assert systems[1..][j - 1] == systems[j];
      }
    }
  }

  /** A node is a sync, or a wave that is refused with the first system that queries what is dirty, or run. */
  lemma NodeExactly(env: Env, node: PlanNode, schedule: seq<nat>, w: WorldState)
    ensures var r := NodeRun(env, node, schedule, w);
      if node.SyncNode? then r == SyncNodeRun(env, w)
      else if SomeQueried(w.dirty, node.systems) then
        exists i: nat :: FirstQuerying(w.dirty, node.systems, i) && r == Failed(PlanMismatch(node.systems[i].def.id), w)
      else r == WaveRun(env, node.systems, node.dirtyAfter, schedule, w)
  {
    if node.WaveNode? {
      MismatchExactly(w.dirty, node.systems);
    }
  }

  // ----------------------------------------------------------- whole frames

  /** A frame of more nodes goes on only from a frame that has ended well so far. */
  lemma NodesExactly(env: Env, nodes: seq<PlanNode>, node: PlanNode, schedules: seq<seq<nat>>, schedule: seq<nat>,
                     w: WorldState)
    requires |schedules| == |nodes|
    ensures NodesRun(env, [], [], w) == Done(w)
    ensures var before := NodesRun(env, nodes, schedules, w);
      NodesRun(env, nodes + [node], schedules + [schedule], w) ==
        if before.Done? then NodeRun(env, node, schedule, before.world) else before
  {
    InitOfAppend(nodes, [node]);
    InitOfAppend(schedules, [schedule]);
    AppendNothing(nodes);
    AppendNothing(schedules);
  }

  /** A frame that leaves commands queued has failed, whatever its nodes said; no other frame fails for that. */
  lemma FrameExactly(env: Env, plan: seq<PlanNode>, schedules: seq<seq<nat>>, w: WorldState)
    requires |schedules| == |plan|
    ensures var nodes, frame := NodesRun(env, plan, schedules, w), FrameRun(env, plan, schedules, w);
      && (frame.Done? <==> nodes.Done? && nodes.world.queue == [])
      && (frame.Done? ==> frame == nodes)
      && (nodes.Done? && nodes.world.queue != [] ==> frame == Failed(PendingCommands, nodes.world))
      && (!nodes.Done? ==> frame == nodes)
  {
  }

  /** In order, and from systems with orders from low on and below high. */
  ghost predicate Ranged(queue: Queue, low: nat, high: nat) {
    InOrder(queue) && forall i :: 0 <= i < |queue| ==> low <= queue[i].systemOrder < high
  }

  lemma RangedAppend(a: Queue, b: Queue, low: nat, middle: nat, high: nat)
    requires Ranged(a, low, middle) && Ranged(b, middle, high) && low <= middle <= high
    ensures Ranged(a + b, low, high)
  {
    forall i, j | 0 <= i < j < |a + b| ensures Before((a + b)[i], (a + b)[j]) {
      if j < |a| {
        assert Before(a[i], a[j]);
      } else if i >= |a| {
        assert Before(b[i - |a|], b[j - |a|]);
      }
    }
  }

  ghost predicate NumberedFrom(systems: seq<CompiledSystem>, low: nat) {
    forall i :: 0 <= i < |systems| ==> systems[i].order == low + i
  }

  /** What a wave stages carries the orders of its systems. */
  lemma CollectRanged(systems: seq<CompiledSystem>, locals: seq<Local>, low: nat)
    requires |locals| == |systems| && NumberedFrom(systems, low)
    ensures Ranged(Collect(systems, locals), low, low + |systems|)
    ensures SortEnvelopes(Collect(systems, locals)) == Collect(systems, locals)
  {
    CollectInOrder(systems, locals);
    SortedStays(Collect(systems, locals));
    forall i | 0 <= i < |Collect(systems, locals)|
      ensures low <= Collect(systems, locals)[i].systemOrder < low + |systems|
    {
      assert Collect(systems, locals)[i] in Collect(systems, locals);
    }
  }

  lemma NumberedParts(a: seq<CompiledSystem>, b: seq<CompiledSystem>)
    requires Consecutive(a + b)
    ensures Consecutive(a) && NumberedFrom(b, |a|)
  {
    forall i | 0 <= i < |a| ensures a[i].order == i {
      assert (a + b)[i] == a[i];
    }
    forall i | 0 <= i < |b| ensures b[i].order == |a| + i {
      assert (a + b)[|a| + i] == b[i];
    }
  }

  /** What was committed and what is still queued is what was staged so far, in order. */
  ghost predicate Accounts(committed: Queue, queue: Queue, staged: Queue, count: nat) {
    && staged == committed + queue && Ranged(staged, 0, count)
  }

  lemma QueueInOrder(committed: Queue, queue: Queue, staged: Queue, count: nat)
    requires Accounts(committed, queue, staged, count)
    ensures InOrder(queue) && SortEnvelopes(queue) == queue
  {
    forall i, j | 0 <= i < j < |queue| ensures Before(queue[i], queue[j]) {
      assert Before(staged[|committed| + i], staged[|committed| + j]);
    }
    SortedStays(queue);
  }

  lemma OneMoreCommit(queues: seq<Queue>, queue: Queue)
    ensures Flatten(queues + [queue]) == Flatten(queues) + queue
    ensures Flatten(queues + []) == Flatten(queues)
  {
    InitOfAppend(queues, [queue]);
    AppendNothing(queues);
  }

  /** More is queued. */
  lemma QueueAccounts(committed: Queue, queue: Queue, staged: Queue, more: Queue, count: nat, count': nat)
    requires Accounts(committed, queue, staged, count) && Ranged(more, count, count') && count <= count'
    ensures Accounts(committed, queue + more, staged + more, count')
  {
    RangedAppend(staged, more, 0, count, count');
    AppendAppend(committed, queue, more);
  }

  lemma WaveAccounts(env: Env, node: PlanNode, schedule: seq<nat>, w: WorldState, committed: Queue, staged: Queue,
                     count: nat)
    requires node.WaveNode? && NodeRun(env, node, schedule, w).Done? && NumberedFrom(node.systems, count)
    requires Accounts(committed, w.queue, staged, count)
    ensures Accounts(committed, NodeRun(env, node, schedule, w).world.queue,
                     staged + StagedBy(env, node, schedule, Done(w)), count + |node.systems|)
  {
    var locals := Interleave(Programs(env, node.systems), w.columns, schedule).0;
    CollectRanged(node.systems, locals, count);
    QueueAccounts(committed, w.queue, staged, Collect(node.systems, locals), count, count + |node.systems|);
  }

  lemma SyncAccounts(env: Env, w: WorldState, commits: seq<Queue>, staged: Queue, count: nat, node: PlanNode)
    requires SyncNodeRun(env, w).Done? && Accounts(Flatten(commits), w.queue, staged, count) && node.SyncNode?
    ensures Accounts(Flatten(commits + CommitOf(node, Done(w))), SyncNodeRun(env, w).world.queue, staged, count)
  {
    QueueInOrder(Flatten(commits), w.queue, staged, count);
    OneMoreCommit(commits, w.queue);
    AppendNothing(staged);
  }

  /** One node keeps the account, if it ends well. */
  lemma NodeAccounts(env: Env, node: PlanNode, schedule: seq<nat>, w: WorldState, commits: seq<Queue>, staged: Queue,
                     count: nat)
    requires Accounts(Flatten(commits), w.queue, staged, count) && NodeRun(env, node, schedule, w).Done?
    requires NumberedFrom(NodeSystems(node), count)
    ensures Accounts(Flatten(commits + CommitOf(node, Done(w))), NodeRun(env, node, schedule, w).world.queue,
                     staged + StagedBy(env, node, schedule, Done(w)), count + |NodeSystems(node)|)
  {
    if node.WaveNode? {
      AppendNothing(commits);
      WaveAccounts(env, node, schedule, w, Flatten(commits), staged, count);
    } else {
      AppendNothing(staged);
      SyncAccounts(env, w, commits, staged, count, node);
    }
  }

  lemma {:induction false} NodesAccount(env: Env, nodes: seq<PlanNode>, schedules: seq<seq<nat>>, w: WorldState)
    requires |schedules| == |nodes| && w.queue == [] && Consecutive(SystemsOf(nodes))
    requires NodesRun(env, nodes, schedules, w).Done?
    ensures Accounts(Flatten(Commits(env, nodes, schedules, w)), NodesRun(env, nodes, schedules, w).world.queue,
                     StagedIn(env, nodes, schedules, w), |SystemsOf(nodes)|)
  {
    if nodes != [] {
      var n := |nodes| - 1;
      var before := NodesRun(env, nodes[..n], schedules[..n], w);
      NumberedParts(SystemsOf(nodes[..n]), NodeSystems(nodes[n]));
      NodesAccount(env, nodes[..n], schedules[..n], w);
      NodeAccounts(env, nodes[n], schedules[n], before.world, Commits(env, nodes[..n], schedules[..n], w),
                   StagedIn(env, nodes[..n], schedules[..n], w), |SystemsOf(nodes[..n])|);
    }
  }

  /**
   * A frame of a compiled plan that succeeds commits every command that its
   * waves staged, each once: all in all ordered by system, and by staging
   * within a system.
   */
  lemma FramesCommitWhatIsStaged(env: Env, phases: Phases, plan: seq<PlanNode>, schedules: seq<seq<nat>>,
                                 columns: Columns)
    requires IsPlan(phases, plan) && |schedules| == |plan|
    requires FrameRun(env, plan, schedules, WorldState(columns, [], {})).Done?
    ensures var w := WorldState(columns, [], {});
      Flatten(Commits(env, plan, schedules, w)) == StagedIn(env, plan, schedules, w)
      && ByTags(StagedIn(env, plan, schedules, w))
  {
    var w := WorldState(columns, [], {});
    PlansAreSound(phases, plan);
    NodesAccount(env, plan, schedules, w);
    AppendNothing(Flatten(Commits(env, plan, schedules, w)));
    InOrderExactly(StagedIn(env, plan, schedules, w));
  }
}
