// Packing the systems of one phase into waves: repeatedly take the systems
// whose predecessors are all placed, in registration order, and put into the
// wave every one that conflicts with none already in it.
module WaveCompiler {
  import opened Sequences
  import opened SchedulerTypes
  import opened Digraph
  import opened Ordering

  function Ids(systems: seq<SystemDef>): set<string> {
    set k | 0 <= k < |systems| :: systems[k].id
  }

  ghost predicate DistinctIds(systems: seq<SystemDef>) {
    forall i, j :: 0 <= i < j < |systems| ==> systems[i].id != systems[j].id
  }

  ghost predicate DistinctOrders(systems: seq<SystemDef>) {
    forall i, j :: 0 <= i < j < |systems| ==> systems[i].order != systems[j].order
  }

  /** Every after/before name belongs to this phase. */
  ghost predicate LocalReferences(systems: seq<SystemDef>) {
    forall k :: 0 <= k < |systems| ==>
        Elements(systems[k].after) <= Ids(systems) && Elements(systems[k].before) <= Ids(systems)
  }

  /** Some definition puts x before y. */
  ghost predicate Declares(systems: seq<SystemDef>, x: string, y: string) {
    exists k :: 0 <= k < |systems| && DefDeclares(systems[k], x, y)
  }

  ghost predicate DefDeclares(def: SystemDef, x: string, y: string) {
    (def.id == y && x in def.after) || (def.id == x && y in def.before)
  }

  ghost function SystemGraph(systems: seq<SystemDef>): Graph {
    map y | y in Ids(systems) :: set x | x in Ids(systems) && Declares(systems, x, y)
  }

  /** The definition filed under each id: the last one registered. */
  ghost function Local(systems: seq<SystemDef>): map<string, SystemDef> {
    if systems == [] then map[]
    else Local(systems[..|systems| - 1])[systems[|systems| - 1].id := systems[|systems| - 1]]
  }

  lemma {:induction false} LocalIds(systems: seq<SystemDef>)
    ensures Local(systems).Keys == Ids(systems)
    ensures forall id :: id in Local(systems) ==> Local(systems)[id].id == id && Local(systems)[id] in systems
  {
    if systems != [] {
      var n := |systems| - 1;
      LocalIds(systems[..n]);
      assert systems == systems[..n] + [systems[n]];
      forall id ensures id in Ids(systems) <==> id in Ids(systems[..n]) || id == systems[n].id {
        if id in Ids(systems) {
          var k :| 0 <= k < |systems| && systems[k].id == id;
          if k < n { assert systems[..n][k].id == id; }
        }
        if id in Ids(systems[..n]) {
          var k :| 0 <= k < n && systems[..n][k].id == id;
          assert systems[k].id == id;
        }
      }
    }
  }

  // ---------------------------------------------------------------- waves

  /**
   * What may run at the same time, in plain terms: neither writes a column the other looks at, neither may
   * dirty an archetype the other queries, and at most one of them has structural effects.
   */
  ghost predicate Independent(a: AccessSpec, b: AccessSpec) {
    && (forall c :: c in a.writeMask ==> c !in b.readMask && c !in b.writeMask)
    && (forall c :: c in b.writeMask ==> c !in a.readMask && c !in a.writeMask)
    && Unqueried(Elements(a.structural), b.queries)
    && Unqueried(Elements(b.structural), a.queries)
    && (a.structural == [] || b.structural == [])
  }

  lemma NotIntersecting(a: AccessSpec, b: AccessSpec)
    ensures !Intersects(a.writeMask, b.readMask + b.writeMask) <==>
      forall c :: c in a.writeMask ==> c !in b.readMask && c !in b.writeMask
  {
    if c :| c in a.writeMask && (c in b.readMask || c in b.writeMask) {
      assert c in a.writeMask * (b.readMask + b.writeMask);
    }
  }

  /** The conflict test refuses exactly what is not independent. */
  lemma ConflictExactly(a: AccessSpec, b: AccessSpec)
    ensures !SystemsConflict(a, b) <==> Independent(a, b)
  {
    NotIntersecting(a, b);
    NotIntersecting(b, a);
    TouchedExactly(Elements(a.structural), b.queries);
    TouchedExactly(Elements(b.structural), a.queries);
  }

  ghost predicate Compatible(wave: seq<SystemDef>, candidate: SystemDef) {
    forall i :: 0 <= i < |wave| ==> !SystemsConflict(candidate.access, wave[i].access)
  }

  ghost predicate PairwiseCompatible(wave: seq<SystemDef>) {
    forall i, j :: 0 <= i < j < |wave| ==> !SystemsConflict(wave[j].access, wave[i].access)
  }

  /** The greedy choice: a candidate is left for later exactly when it conflicts with one chosen before it. */
  ghost function Pack(candidates: seq<SystemDef>): seq<SystemDef> {
    if candidates == [] then []
    else
      var n := |candidates| - 1;
      var wave := Pack(candidates[..n]);
      if Compatible(wave, candidates[n]) then wave + [candidates[n]] else wave
  }

  lemma {:induction false} PackProperties(candidates: seq<SystemDef>)
    ensures PairwiseCompatible(Pack(candidates))
    ensures forall i :: 0 <= i < |Pack(candidates)| ==> Pack(candidates)[i] in candidates
    ensures |Pack(candidates)| <= |candidates|
    ensures candidates != [] ==> |Pack(candidates)| > 0 && Pack(candidates)[0] == candidates[0]
  {
    if candidates != [] {
      var n := |candidates| - 1;
      PackProperties(candidates[..n]);
      assert candidates == candidates[..n] + [candidates[n]];
    }
  }

  /** A candidate is left for later exactly when it is not independent of one kept before it. */
  lemma {:induction false} PackLeaves(candidates: seq<SystemDef>, k: nat)
    requires k < |candidates| && DistinctIds(candidates)
    ensures candidates[k] !in Pack(candidates) <==>
      exists j :: 0 <= j < k && candidates[j] in Pack(candidates)
                  && !Independent(candidates[k].access, candidates[j].access)
  {
    PackAt(candidates, k);
    var kept := Pack(candidates[..k]);
    PackProperties(candidates[..k]);
    if candidates[k] !in Pack(candidates) {
      var i :| 0 <= i < |kept| && SystemsConflict(candidates[k].access, kept[i].access);
      ConflictExactly(candidates[k].access, kept[i].access);
      assert kept[i] in candidates[..k];
      var j :| 0 <= j < k && candidates[..k][j] == kept[i];
      PackAt(candidates, j);
      PackGrows(candidates, k);
      assert candidates[j] in Pack(candidates);
    }
    if j :|
      && 0 <= j < k && candidates[j] in Pack(candidates)
      && !Independent(candidates[k].access, candidates[j].access)
    {
      PackSplits(candidates, k, candidates[j]);
      ConflictExactly(candidates[k].access, candidates[j].access);
      assert candidates[j] in kept;
      var i :| 0 <= i < |kept| && kept[i] == candidates[j];
      assert !Compatible(kept, candidates[k]);
    }
  }

  /** Whether the k-th candidate is kept depends on what was kept before it. */
  lemma {:induction false} PackAt(candidates: seq<SystemDef>, k: nat)
    requires k < |candidates| && DistinctIds(candidates)
    ensures candidates[k] in Pack(candidates) <==> Compatible(Pack(candidates[..k]), candidates[k])
    decreases |candidates|
  {
    var n := |candidates| - 1;
    PackProperties(candidates[..n]);
    if k < n {
      var init, c := candidates[..n], candidates[k];
      PackAt(init, k);
      assert init[..k] == candidates[..k] && init[k] == c;
      assert c.id != candidates[n].id;
      assert c in Pack(candidates) <==> c in Pack(init);
    }
  }

  lemma {:induction false} PackGrows(candidates: seq<SystemDef>, k: nat)
    requires k <= |candidates|
    ensures forall def :: def in Pack(candidates[..k]) ==> def in Pack(candidates)
    decreases |candidates|
  {
    if k == |candidates| {
      TakeAll(candidates);
    } else {
      PackGrows(candidates[..|candidates| - 1], k);
      assert candidates[..|candidates| - 1][..k] == candidates[..k];
    }
  }

  /** What is kept in the end and comes before k was kept among the first k. */
  lemma PackSplits(candidates: seq<SystemDef>, k: nat, def: SystemDef)
    requires k <= |candidates| && DistinctIds(candidates) && def in candidates[..k] && def in Pack(candidates)
    ensures def in Pack(candidates[..k])
  {
    var j :| 0 <= j < k && candidates[..k][j] == def;
    PackAt(candidates, j);
    PackAt(candidates[..k], j);
    assert candidates[..k][..j] == candidates[..j];
  }

  lemma {:induction false} PackNoRepeats(candidates: seq<SystemDef>)
    requires DistinctIds(candidates)
    ensures DistinctIds(Pack(candidates))
  {
    if candidates != [] {
      var n := |candidates| - 1;
      PackNoRepeats(candidates[..n]);
      PackProperties(candidates[..n]);
      forall i | 0 <= i < |Pack(candidates[..n])| ensures Pack(candidates[..n])[i].id != candidates[n].id {
        assert Pack(candidates[..n])[i] in candidates[..n];
      }
    }
  }

  ghost function Placed(waves: seq<seq<SystemDef>>): set<string> {
    if waves == [] then {} else Placed(waves[..|waves| - 1]) + Ids(waves[|waves| - 1])
  }

  /** Not placed yet, with every predecessor placed. */
  ghost predicate ReadyToPlace(graph: Graph, placed: set<string>, id: string) {
    id in graph && id !in placed && graph[id] <= placed
  }

  ghost function OrderOf(local: map<string, SystemDef>): Key {
    id => if id in local then local[id].order else 0
  }

  ghost predicate ReadyList(graph: Graph, local: map<string, SystemDef>, placed: set<string>, ready: seq<string>) {
    && Ascending(OrderOf(local), ready) && NoRepeats(ready)
    && forall id :: id in ready <==> ReadyToPlace(graph, placed, id)
  }

  function Defs(local: map<string, SystemDef>, ids: seq<string>): (defs: seq<SystemDef>)
    requires forall k :: 0 <= k < |ids| ==> ids[k] in local
    ensures |defs| == |ids| && forall k :: 0 <= k < |ids| ==> defs[k] == local[ids[k]]
  {
    seq(|ids|, k requires 0 <= k < |ids| => local[ids[k]])
  }

  /** `wave` is what the greedy packing makes of the systems that are ready once `placed` are placed. */
  ghost predicate IsNextWave(systems: seq<SystemDef>, placed: set<string>, wave: seq<SystemDef>) {
    exists ready: seq<string> ::
      && ready != [] && ReadyList(SystemGraph(systems), Local(systems), placed, ready)
      && (forall k :: 0 <= k < |ready| ==> ready[k] in Local(systems))
      && wave == Pack(Defs(Local(systems), ready))
  }

  ghost predicate Waves(systems: seq<SystemDef>, waves: seq<seq<SystemDef>>) {
    forall i :: 0 <= i < |waves| ==> IsNextWave(systems, Placed(waves[..i]), waves[i])
  }

  /** All that a wave being next says about its members. */
  lemma NextWaveProperties(systems: seq<SystemDef>, placed: set<string>, wave: seq<SystemDef>)
    requires IsNextWave(systems, placed, wave)
    ensures wave != [] && PairwiseCompatible(wave) && DistinctIds(wave)
    ensures forall i :: 0 <= i < |wave| ==> wave[i] in systems && ReadyToPlace(SystemGraph(systems), placed, wave[i].id)
    ensures forall i :: 0 <= i < |wave| ==> wave[i].id in Local(systems) && wave[i] == Local(systems)[wave[i].id]
  {
    var ready: seq<string> :| ready != [] && ReadyList(SystemGraph(systems), Local(systems), placed, ready)
      && (forall k :: 0 <= k < |ready| ==> ready[k] in Local(systems))
      && wave == Pack(Defs(Local(systems), ready));
    var candidates := Defs(Local(systems), ready);
    LocalIds(systems);
    PackProperties(candidates);
    forall i, j | 0 <= i < j < |candidates| ensures candidates[i].id != candidates[j].id {
      assert candidates[i] == Local(systems)[ready[i]] && candidates[j] == Local(systems)[ready[j]];
    }
    PackNoRepeats(candidates);
    forall i | 0 <= i < |wave|
      ensures wave[i] in systems && ReadyToPlace(SystemGraph(systems), placed, wave[i].id)
      ensures wave[i].id in Local(systems) && wave[i] == Local(systems)[wave[i].id]
    {
      assert wave[i] in candidates;
      var k :| 0 <= k < |candidates| && candidates[k] == wave[i];
      assert wave[i] == Local(systems)[ready[k]] && ready[k] in ready;
    }
  }

  /** One packing only: with distinct orders, no map iteration order can change the waves. */
  lemma NextWaveIsUnique(systems: seq<SystemDef>, placed: set<string>, a: seq<SystemDef>, b: seq<SystemDef>)
    requires DistinctOrders(systems) && IsNextWave(systems, placed, a) && IsNextWave(systems, placed, b)
    ensures a == b
  {
    var local := Local(systems);
    var ra: seq<string> :| ra != [] && ReadyList(SystemGraph(systems), local, placed, ra)
      && (forall k :: 0 <= k < |ra| ==> ra[k] in local) && a == Pack(Defs(local, ra));
    var rb: seq<string> :| rb != [] && ReadyList(SystemGraph(systems), local, placed, rb)
      && (forall k :: 0 <= k < |rb| ==> rb[k] in local) && b == Pack(Defs(local, rb));
    LocalIds(systems);
    forall x, y | x in ra && y in ra && x != y ensures OrderOf(local)(x) != OrderOf(local)(y) {
      var i :| 0 <= i < |systems| && systems[i] == local[x];
      var j :| 0 <= j < |systems| && systems[j] == local[y];
      assert systems[i].id == x && systems[j].id == y;
      if i < j { assert systems[i].order != systems[j].order; } else { assert systems[j].order != systems[i].order; }
    }
    forall name ensures name in ra <==> name in rb {
      assert name in ra <==> ReadyToPlace(SystemGraph(systems), placed, name);
    }
    SortedIsUnique(OrderOf(local), ra, rb);
  }

  lemma WaveAt(systems: seq<SystemDef>, waves: seq<seq<SystemDef>>, i: nat)
    requires Waves(systems, waves) && i < |waves|
    ensures IsNextWave(systems, Placed(waves[..i]), waves[i])
  {
  }

  lemma SameWaveAt(systems: seq<SystemDef>, a: seq<seq<SystemDef>>, b: seq<seq<SystemDef>>, i: nat)
    requires DistinctOrders(systems) && Waves(systems, a) && Waves(systems, b)
    requires i < |a| && i < |b| && a[..i] == b[..i]
    ensures a[i] == b[i]
  {
    WaveAt(systems, a, i);
    WaveAt(systems, b, i);
    NextWaveIsUnique(systems, Placed(a[..i]), a[i], b[i]);
  }

  lemma {:induction false} WavesAreUnique(systems: seq<SystemDef>, a: seq<seq<SystemDef>>, b: seq<seq<SystemDef>>,
                                          n: nat)
    requires DistinctOrders(systems) && Waves(systems, a) && Waves(systems, b)
    requires n <= |a| && n <= |b|
    ensures a[..n] == b[..n]
  {
    if n > 0 {
      WavesAreUnique(systems, a, b, n - 1);
      SameWaveAt(systems, a, b, n - 1);
      SamePrefixGrows(a, b, n - 1);
    }
  }

  lemma SamePrefixGrows<T>(a: seq<T>, b: seq<T>, i: nat)
    requires i < |a| && i < |b| && a[..i] == b[..i] && a[i] == b[i]
    ensures a[..i + 1] == b[..i + 1]
  {
    assert a[..i + 1] == a[..i] + [a[i]] && b[..i + 1] == b[..i] + [b[i]];
  }

  /** Which wave places a system. */
  ghost predicate InWave(waves: seq<seq<SystemDef>>, i: int, id: string) {
    0 <= i < |waves| && id in Ids(waves[i])
  }

  lemma {:induction false} PlacedMeans(waves: seq<seq<SystemDef>>, id: string)
    ensures id in Placed(waves) <==> exists i :: InWave(waves, i, id)
  {
    if waves != [] {
      var n := |waves| - 1;
      PlacedMeans(waves[..n], id);
      if id in Placed(waves[..n]) {
        var i :| InWave(waves[..n], i, id);
        assert InWave(waves, i, id);
      } else if id in Ids(waves[n]) {
        assert InWave(waves, n, id);
      }
      if i :| InWave(waves, i, id) {
        if i < n {
          assert InWave(waves[..n], i, id);
        }
      }
    }
  }

  /** No system is placed twice. */
  lemma PlacedOnce(systems: seq<SystemDef>, waves: seq<seq<SystemDef>>, i: nat, j: nat, id: string)
    requires Waves(systems, waves) && InWave(waves, i, id) && InWave(waves, j, id)
    ensures i == j
  {
    if i < j {
      PlacedTwice(systems, waves, i, j, id);
    } else if j < i {
      PlacedTwice(systems, waves, j, i, id);
    }
  }

  lemma PlacedTwice(systems: seq<SystemDef>, waves: seq<seq<SystemDef>>, i: nat, j: nat, id: string)
    requires Waves(systems, waves) && InWave(waves, i, id) && i < j
    ensures !InWave(waves, j, id)
  {
    if InWave(waves, j, id) {
      var k :| 0 <= k < |waves[j]| && waves[j][k].id == id;
      assert IsNextWave(systems, Placed(waves[..j]), waves[j]);
      NextWaveProperties(systems, Placed(waves[..j]), waves[j]);
      assert InWave(waves[..j], i, id);
      PlacedMeans(waves[..j], id);
      assert false;
    }
  }

  /** A declared predecessor is always in a strictly earlier wave. */
  lemma EdgesGoForward(systems: seq<SystemDef>, waves: seq<seq<SystemDef>>, x: string, y: string, j: nat)
    returns (i: nat)
    requires Waves(systems, waves) && Edge(SystemGraph(systems), x, y) && InWave(waves, j, y)
    ensures i < j && InWave(waves, i, x)
  {
    var k :| 0 <= k < |waves[j]| && waves[j][k].id == y;
    assert IsNextWave(systems, Placed(waves[..j]), waves[j]);
    NextWaveProperties(systems, Placed(waves[..j]), waves[j]);
    assert x in Placed(waves[..j]);
    PlacedMeans(waves[..j], x);
    i :| InWave(waves[..j], i, x);
    assert InWave(waves, i, x);
  }

  /** Waves that place everything rule out cycles. */
  lemma WavesAreAcyclic(systems: seq<SystemDef>, waves: seq<seq<SystemDef>>)
    requires Waves(systems, waves) && Placed(waves) == Ids(systems)
    ensures !Cyclic(SystemGraph(systems))
  {
    var number := (id: string) => WaveOf(waves, id);
    forall x, y | Edge(SystemGraph(systems), x, y) ensures number(x) < number(y) {
      PlacedMeans(waves, y);
      var j :| InWave(waves, j, y);
      var i := EdgesGoForward(systems, waves, x, y, j);
      WaveOfIs(systems, waves, i, x);
      WaveOfIs(systems, waves, j, y);
    }
    NumberedIsAcyclic(SystemGraph(systems), number);
  }

  ghost function WaveOf(waves: seq<seq<SystemDef>>, id: string): int {
    if i :| InWave(waves, i, id) then i else -1
  }

  lemma WaveOfIs(systems: seq<SystemDef>, waves: seq<seq<SystemDef>>, i: nat, id: string)
    requires Waves(systems, waves) && InWave(waves, i, id)
    ensures WaveOf(waves, id) == i
  {
    PlacedOnce(systems, waves, i, WaveOf(waves, id), id);
  }

  /** With nothing ready and something left, the rest wait for one another. */
  lemma BlockedIsCyclic(systems: seq<SystemDef>, placed: set<string>)
    requires forall id :: !ReadyToPlace(SystemGraph(systems), placed, id)
    requires Ids(systems) - placed != {}
    ensures Cyclic(SystemGraph(systems))
  {
    var graph := SystemGraph(systems);
    var left := Ids(systems) - placed;
    forall y | y in left ensures Fed(graph, left, y) {
      assert !ReadyToPlace(graph, placed, y);
      var x :| x in graph[y] && x !in placed;
      assert Edge(graph, x, y);
    }
    StuckIsCyclic(graph, left);
  }

  // ------------------------------------------------------------ the edges

  /** indegree and out agree with the predecessor sets collected so far. */
  ghost predicate Tracks(graph: Graph, nodes: set<string>, indegree: map<string, int>, out: map<string, seq<string>>) {
    && graph.Keys == indegree.Keys == out.Keys == nodes
    && forall y {:trigger TracksAt(graph, nodes, indegree, out, y)} :: y in nodes ==>
        TracksAt(graph, nodes, indegree, out, y)
  }

  ghost predicate TracksAt(graph: Graph, nodes: set<string>, indegree: map<string, int>, out: map<string, seq<string>>,
                           y: string) {
    && y in graph && y in indegree && y in out
    && graph[y] <= nodes && indegree[y] == |graph[y]| && OutList(graph, y, out[y])
  }

  ghost predicate OutList(graph: Graph, x: string, dependants: seq<string>) {
    NoRepeats(dependants) && forall y :: y in dependants <==> Edge(graph, x, y)
  }

  /** Enter one edge unless it is there already; false when an end is not in this phase. */
  method AddEdge(nodes: set<string>, ghost graph: Graph, indegree0: map<string, int>, out0: map<string, seq<string>>,
                 from: string, to: string)
    returns (local: bool, indegree: map<string, int>, out: map<string, seq<string>>)
    requires Tracks(graph, nodes, indegree0, out0)
    ensures local <==> from in nodes && to in nodes
    ensures local ==> Tracks(graph[to := graph[to] + {from}], nodes, indegree, out)
  {
    indegree, out := indegree0, out0;
    if from !in nodes || to !in nodes {
      return false, indegree, out;
    }
    local := true;
    assert TracksAt(graph, nodes, indegree0, out0, from) && TracksAt(graph, nodes, indegree0, out0, to);
    if to in out[from] {
      assert graph[to] + {from} == graph[to];
      assert graph[to := graph[to] + {from}] == graph;
      return;
    }
    out := out[from := out[from] + [to]];
    indegree := indegree[to := indegree[to] + 1];
    ghost var graph' := graph[to := graph[to] + {from}];
    assert !Edge(graph, from, to);
    forall x | x in nodes ensures TracksAt(graph', nodes, indegree, out, x) {
      assert TracksAt(graph, nodes, indegree0, out0, x);
      forall y ensures Edge(graph', x, y) <==> Edge(graph, x, y) || (x == from && y == to) {
      }
    }
  }

  /** The edges are those of `systems`, and those of `def` that its lists so far declare. */
  ghost predicate Holds(graph: Graph, nodes: set<string>, systems: seq<SystemDef>, def: SystemDef, after: seq<string>,
                        before: seq<string>) {
    graph.Keys == nodes && forall x, y {:trigger Edge(graph, x, y)} :: x in nodes && y in nodes ==>
      (Edge(graph, x, y) <==> Declares(systems, x, y) || (def.id == y && x in after) || (def.id == x && y in before))
  }

  method AddAfter(nodes: set<string>, ghost systems: seq<SystemDef>, def: SystemDef, ghost graph0: Graph,
                  indegree0: map<string, int>, out0: map<string, seq<string>>)
    returns (local: bool, ghost graph: Graph, indegree: map<string, int>, out: map<string, seq<string>>)
    requires def.id in nodes && Tracks(graph0, nodes, indegree0, out0) && Holds(graph0, nodes, systems, def, [], [])
    ensures local <==> Elements(def.after) <= nodes
    ensures local ==> Tracks(graph, nodes, indegree, out) && Holds(graph, nodes, systems, def, def.after, [])
  {
    graph, indegree, out := graph0, indegree0, out0;
    for k := 0 to |def.after|
      invariant Tracks(graph, nodes, indegree, out) && Holds(graph, nodes, systems, def, def.after[..k], [])
      invariant forall i :: 0 <= i < k ==> def.after[i] in nodes
    {
      local, indegree, out := AddEdge(nodes, graph, indegree, out, def.after[k], def.id);
      if !local {
        NotWithin(def.after, k, nodes);
        return;
      }
      HoldsGrows(graph, nodes, systems, def, def.after[..k], [], def.after[k], def.id);
      assert def.after[..k + 1] == def.after[..k] + [def.after[k]];
      graph := graph[def.id := graph[def.id] + {def.after[k]}];
    }
    assert def.after[..|def.after|] == def.after;
    local := true;
  }

  method AddBefore(nodes: set<string>, ghost systems: seq<SystemDef>, def: SystemDef, ghost graph0: Graph,
                   indegree0: map<string, int>, out0: map<string, seq<string>>)
    returns (local: bool, ghost graph: Graph, indegree: map<string, int>, out: map<string, seq<string>>)
    requires def.id in nodes && Tracks(graph0, nodes, indegree0, out0)
      && Holds(graph0, nodes, systems, def, def.after, [])
    ensures local <==> Elements(def.before) <= nodes
    ensures local ==> Tracks(graph, nodes, indegree, out) && Holds(graph, nodes, systems, def, def.after, def.before)
  {
    graph, indegree, out := graph0, indegree0, out0;
    for k := 0 to |def.before|
      invariant Tracks(graph, nodes, indegree, out) && Holds(graph, nodes, systems, def, def.after, def.before[..k])
      invariant forall i :: 0 <= i < k ==> def.before[i] in nodes
    {
      local, indegree, out := AddEdge(nodes, graph, indegree, out, def.id, def.before[k]);
      if !local {
        NotWithin(def.before, k, nodes);
        return;
      }
      HoldsGrows(graph, nodes, systems, def, def.after, def.before[..k], def.id, def.before[k]);
      assert def.before[..k + 1] == def.before[..k] + [def.before[k]];
      graph := graph[def.before[k] := graph[def.before[k]] + {def.id}];
    }
    assert def.before[..|def.before|] == def.before;
    local := true;
  }

  lemma NotWithin(names: seq<string>, k: nat, nodes: set<string>)
    requires k < |names| && names[k] !in nodes
    ensures !(Elements(names) <= nodes)
  {
    assert names[k] in Elements(names);
  }

  /** Both lists of one definition. */
  method AddDef(nodes: set<string>, ghost systems: seq<SystemDef>, def: SystemDef, ghost graph0: Graph,
                indegree0: map<string, int>, out0: map<string, seq<string>>)
    returns (local: bool, ghost graph: Graph, indegree: map<string, int>, out: map<string, seq<string>>)
    requires def.id in nodes && Tracks(graph0, nodes, indegree0, out0) && Holds(graph0, nodes, systems, def, [], [])
    ensures local <==> Elements(def.after) <= nodes && Elements(def.before) <= nodes
    ensures local ==> Tracks(graph, nodes, indegree, out) && Holds(graph, nodes, systems, def, def.after, def.before)
  {
    local, graph, indegree, out := AddAfter(nodes, systems, def, graph0, indegree0, out0);
    if local {
      local, graph, indegree, out := AddBefore(nodes, systems, def, graph, indegree, out);
    }
  }

  lemma HoldsGrows(graph: Graph, nodes: set<string>, systems: seq<SystemDef>, def: SystemDef, after: seq<string>,
                   before: seq<string>, from: string, to: string)
    requires Holds(graph, nodes, systems, def, after, before) && from in nodes && to in nodes
    ensures to == def.id ==> Holds(graph[to := graph[to] + {from}], nodes, systems, def, after + [from], before)
    ensures from == def.id ==> Holds(graph[to := graph[to] + {from}], nodes, systems, def, after, before + [to])
  {
    var graph' := graph[to := graph[to] + {from}];
    forall x, y ensures Edge(graph', x, y) <==> Edge(graph, x, y) || (x == from && y == to) {
    }
  }

  lemma DeclaresMore(systems: seq<SystemDef>, k: nat, x: string, y: string)
    requires k < |systems|
    ensures Declares(systems[..k + 1], x, y) <==> Declares(systems[..k], x, y) || DefDeclares(systems[k], x, y)
  {
    var more, less := systems[..k + 1], systems[..k];
    if i :| 0 <= i < |more| && DefDeclares(more[i], x, y) {
      if i < k {
        assert DefDeclares(less[i], x, y);
      }
    }
    if i :| 0 <= i < |less| && DefDeclares(less[i], x, y) {
      assert DefDeclares(more[i], x, y);
    }
    if DefDeclares(systems[k], x, y) {
      assert DefDeclares(more[k], x, y);
    }
  }

  ghost predicate Collected(graph: Graph, nodes: set<string>, systems: seq<SystemDef>) {
    graph.Keys == nodes && forall x, y {:trigger Edge(graph, x, y)} :: x in nodes && y in nodes ==>
      (Edge(graph, x, y) <==> Declares(systems, x, y))
  }

  lemma CollectedGrows(graph: Graph, nodes: set<string>, systems: seq<SystemDef>, k: nat)
    requires k < |systems| && Holds(graph, nodes, systems[..k], systems[k], systems[k].after, systems[k].before)
    ensures Collected(graph, nodes, systems[..k + 1])
  {
    forall x, y | x in nodes && y in nodes ensures Edge(graph, x, y) <==> Declares(systems[..k + 1], x, y) {
      DeclaresMore(systems, k, x, y);
    }
  }

  ghost predicate ReferencesWithin(nodes: set<string>, def: SystemDef) {
    Elements(def.after) <= nodes && Elements(def.before) <= nodes
  }

  ghost predicate ReferencesUpTo(nodes: set<string>, systems: seq<SystemDef>, k: nat)
    requires k <= |systems|
  {
    k == 0 || (ReferencesUpTo(nodes, systems, k - 1) && ReferencesWithin(nodes, systems[k - 1]))
  }

  lemma {:induction false} ReferencesMean(nodes: set<string>, systems: seq<SystemDef>, k: nat)
    requires k <= |systems|
    ensures ReferencesUpTo(nodes, systems, k) <==>
      forall i {:trigger ReferencesWithin(nodes, systems[i])} :: 0 <= i < k ==> ReferencesWithin(nodes, systems[i])
  {
    if k > 0 {
      ReferencesMean(nodes, systems, k - 1);
    }
  }

  lemma ReferencesAreLocal(systems: seq<SystemDef>)
    ensures LocalReferences(systems) <==> ReferencesUpTo(Ids(systems), systems, |systems|)
  {
    ReferencesMean(Ids(systems), systems, |systems|);
    if ReferencesUpTo(Ids(systems), systems, |systems|) {
      forall i | 0 <= i < |systems|
          ensures Elements(systems[i].after) <= Ids(systems) && Elements(systems[i].before) <= Ids(systems) {
        assert ReferencesWithin(Ids(systems), systems[i]);
      }
    }
  }

  lemma {:induction false} ReferencesStop(nodes: set<string>, systems: seq<SystemDef>, k: nat, n: nat)
    requires k <= n <= |systems| && !ReferencesUpTo(nodes, systems, k)
    ensures !ReferencesUpTo(nodes, systems, n)
  {
    if k < n {
      ReferencesStop(nodes, systems, k, n - 1);
    }
  }

  /** One more definition's edges. */
  method CollectOne(systems: seq<SystemDef>, nodes: set<string>, k: nat, ghost graph0: Graph,
                    indegree0: map<string, int>, out0: map<string, seq<string>>)
    returns (local: bool, ghost graph: Graph, indegree: map<string, int>, out: map<string, seq<string>>)
    requires k < |systems| && systems[k].id in nodes
    requires Tracks(graph0, nodes, indegree0, out0) && Collected(graph0, nodes, systems[..k])
    ensures local <==> ReferencesWithin(nodes, systems[k])
    ensures local ==> Tracks(graph, nodes, indegree, out) && Collected(graph, nodes, systems[..k + 1])
  {
    CollectedHolds(graph0, nodes, systems[..k], systems[k]);
    local, graph, indegree, out := AddDef(nodes, systems[..k], systems[k], graph0, indegree0, out0);
    if local {
      CollectedGrows(graph, nodes, systems, k);
    }
  }

  lemma CollectedHolds(graph: Graph, nodes: set<string>, systems: seq<SystemDef>, def: SystemDef)
    requires Collected(graph, nodes, systems)
    ensures Holds(graph, nodes, systems, def, [], [])
  {
  }

  /** Before any definition there are no edges. */
  lemma NothingCollected(nodes: set<string>)
    ensures var graph: Graph := map y | y in nodes :: {};
      && Collected(graph, nodes, [])
      && Tracks(graph, nodes, map y | y in nodes :: 0, map y | y in nodes :: [])
  {
  }

  lemma TracksGraph(systems: seq<SystemDef>, graph: Graph, indegree: map<string, int>, out: map<string, seq<string>>)
    requires Tracks(graph, Ids(systems), indegree, out) && Collected(graph, Ids(systems), systems)
    ensures graph == SystemGraph(systems)
  {
    forall y | y in graph ensures graph[y] <= Ids(systems) {
      assert TracksAt(graph, Ids(systems), indegree, out, y);
    }
    GraphsEqual(systems, graph);
  }

  /** Edges of every definition in turn. */
  method CollectAll(systems: seq<SystemDef>, nodes: set<string>)
    returns (local: bool, ghost graph: Graph, indegree: map<string, int>, out: map<string, seq<string>>)
    requires forall k :: 0 <= k < |systems| ==> systems[k].id in nodes
    ensures local <==> ReferencesUpTo(nodes, systems, |systems|)
    ensures local ==> Tracks(graph, nodes, indegree, out) && Collected(graph, nodes, systems)
  {
    graph := map y | y in nodes :: {};
    indegree := map y | y in nodes :: 0;
    out := map y | y in nodes :: [];
    NothingCollected(nodes);
    assert systems[..0] == [];
    for k := 0 to |systems|
      invariant Tracks(graph, nodes, indegree, out) && Collected(graph, nodes, systems[..k])
      invariant ReferencesUpTo(nodes, systems, k)
    {
      local, graph, indegree, out := CollectOne(systems, nodes, k, graph, indegree, out);
      if !local {
        ReferencesStop(nodes, systems, k + 1, |systems|);
        return;
      }
    }
    TakeAll(systems);
    local := true;
  }

  /** The edges of a phase, on its ids. */
  method CollectEdges(systems: seq<SystemDef>, nodes: set<string>)
    returns (local: bool, indegree: map<string, int>, out: map<string, seq<string>>)
    requires nodes == Ids(systems)
    ensures local <==> LocalReferences(systems)
    ensures local ==> Tracks(SystemGraph(systems), nodes, indegree, out)
  {
    ReferencesAreLocal(systems);
    ghost var graph;
    local, graph, indegree, out := CollectAll(systems, nodes);
    if local {
      TracksGraph(systems, graph, indegree, out);
    }
  }

  lemma GraphsEqual(systems: seq<SystemDef>, graph: Graph)
    requires Collected(graph, Ids(systems), systems) && forall y {:trigger graph[y]} :: y in graph ==>
      graph[y] <= Ids(systems)
    ensures graph == SystemGraph(systems)
  {
    forall y | y in graph ensures graph[y] == SystemGraph(systems)[y] {
      forall x ensures x in graph[y] <==> x in SystemGraph(systems)[y] {
        assert x in graph[y] <==> Edge(graph, x, y);
      }
    }
  }

  // ------------------------------------------------------------- the loop

  /** indegree counts, for the systems not placed yet, the predecessors not placed yet. */
  ghost predicate Degrees(graph: Graph, placed: set<string>, indegree: map<string, int>) {
    && indegree.Keys == graph.Keys - placed
    && forall y {:trigger DegreeAt(graph, placed, indegree, y)} :: y in indegree ==>
        DegreeAt(graph, placed, indegree, y)
  }

  ghost predicate DegreeAt(graph: Graph, placed: set<string>, indegree: map<string, int>, y: string) {
    y in graph && y in indegree && indegree[y] == |graph[y] - placed|
  }

  ghost predicate Closed(graph: Graph, placed: set<string>) {
    forall y {:trigger graph[y]} :: y in graph && y in placed ==> graph[y] <= placed
  }

  /** A placed system is dropped and its dependants decremented. */
  method PlaceOne(ghost graph: Graph, ghost placed: set<string>, indegree0: map<string, int>, id: string,
                  dependants: seq<string>)
    returns (indegree: map<string, int>)
    requires Degrees(graph, placed, indegree0) && Closed(graph, placed)
    requires id in indegree0 && graph[id] <= placed && OutList(graph, id, dependants)
    ensures Degrees(graph, placed + {id}, indegree) && Closed(graph, placed + {id})
  {
    indegree := indegree0 - {id};
    for k := 0 to |dependants|
      invariant indegree.Keys == graph.Keys - (placed + {id})
      invariant forall y {:trigger indegree[y]} :: y in indegree ==>
        indegree[y] == indegree0[y] - if y in dependants[..k] then 1 else 0
    {
      var next := dependants[k];
      assert Edge(graph, id, next);
      assert next in graph && id in graph[next];
      assert next !in placed && next != id;
      indegree := indegree[next := indegree[next] - 1];
      assert dependants[..k + 1] == dependants[..k] + [next];
    }
    assert dependants[..|dependants|] == dependants;
    forall y | y in indegree ensures DegreeAt(graph, placed + {id}, indegree, y) {
      assert DegreeAt(graph, placed, indegree0, y);
      Shrinks(graph[y], placed, id);
      assert y in dependants <==> Edge(graph, id, y);
    }
  }

  lemma NoneLeft(preds: set<string>, placed: set<string>)
    ensures |preds - placed| == 0 <==> preds <= placed
  {
    if |preds - placed| == 0 {
      forall x | x in preds ensures x in placed {
        assert x !in preds - placed;
      }
    }
  }

  lemma Shrinks(preds: set<string>, placed: set<string>, id: string)
    requires id !in placed
    ensures |preds - (placed + {id})| == |preds - placed| - if id in preds then 1 else 0
  {
    if id in preds {
      assert preds - placed == (preds - (placed + {id})) + {id};
    } else {
      assert preds - placed == preds - (placed + {id});
    }
  }

  /** The systems whose count is zero, gathered in any order and then sorted. */
  method CollectReady(ghost graph: Graph, ghost placed: set<string>, indegree: map<string, int>,
                      local: map<string, SystemDef>)
    returns (ready: seq<string>)
    requires Degrees(graph, placed, indegree)
    ensures ReadyList(graph, local, placed, ready)
  {
    var left := indegree.Keys;
    ready := [];
    while left != {}
      invariant left <= indegree.Keys && NoRepeats(ready)
      invariant forall id :: id in ready <==> id in indegree.Keys - left && indegree[id] == 0
      decreases |left|
    {
      var id :| id in left;
      left := left - {id};
      if indegree[id] == 0 {
        ready := ready + [id];
      }
    }
    forall id ensures id in ready <==> ReadyToPlace(graph, placed, id) {
      if id in indegree {
        assert DegreeAt(graph, placed, indegree, id);
        NoneLeft(graph[id], placed);
      }
    }
    var key := (id: string) => if id in local then local[id].order else 0;
    SortedSame(key, ready);
    SortedNoRepeats(key, ready);
    ready := Sorted(key, ready);
    assert forall name :: key(name) == OrderOf(local)(name);
  }

  method PackWave(local: map<string, SystemDef>, ready: seq<string>) returns (wave: seq<SystemDef>)
    requires forall k :: 0 <= k < |ready| ==> ready[k] in local
    ensures wave == Pack(Defs(local, ready))
  {
    wave := [];
    var candidates := Defs(local, ready);
    for k := 0 to |candidates|
      invariant wave == Pack(candidates[..k])
    {
      assert candidates[..k + 1][..k] == candidates[..k];
      var compatible := true;
      for i := 0 to |wave|
        invariant compatible
        invariant forall j :: 0 <= j < i ==> !SystemsConflict(candidates[k].access, wave[j].access)
      {
        if SystemsConflict(candidates[k].access, wave[i].access) {
          compatible := false;
          break;
        }
      }
      if compatible {
        wave := wave + [candidates[k]];
      }
    }
    assert candidates[..|candidates|] == candidates;
  }

  /** A whole wave is placed. */
  method PlaceWave(ghost systems: seq<SystemDef>, ghost graph: Graph, ghost placed: set<string>,
                   indegree0: map<string, int>,
                   out: map<string, seq<string>>, wave: seq<SystemDef>)
    returns (indegree: map<string, int>)
    requires Degrees(graph, placed, indegree0) && Closed(graph, placed) && DistinctIds(wave)
    requires out.Keys == graph.Keys && forall x {:trigger out[x]} :: x in out ==> OutList(graph, x, out[x])
    requires forall i :: 0 <= i < |wave| ==> ReadyToPlace(graph, placed, wave[i].id)
    ensures Degrees(graph, placed + Ids(wave), indegree) && Closed(graph, placed + Ids(wave))
  {
    indegree := indegree0;
    assert placed + Ids(wave[..0]) == placed;
    for k := 0 to |wave|
      invariant Degrees(graph, placed + Ids(wave[..k]), indegree) && Closed(graph, placed + Ids(wave[..k]))
    {
      var id := wave[k].id;
      assert ReadyToPlace(graph, placed, id);
      IdsGrow(wave, k);
      indegree := PlaceOne(graph, placed + Ids(wave[..k]), indegree, id, out[id]);
      assert placed + Ids(wave[..k]) + {id} == placed + Ids(wave[..k + 1]);
    }
    assert wave[..|wave|] == wave;
  }

  lemma IdsGrow(wave: seq<SystemDef>, k: nat)
    requires k < |wave|
    ensures Ids(wave[..k + 1]) == Ids(wave[..k]) + {wave[k].id}
    ensures DistinctIds(wave) ==> wave[k].id !in Ids(wave[..k])
  {
    forall id ensures id in Ids(wave[..k + 1]) <==> id in Ids(wave[..k]) || id == wave[k].id {
      if id in Ids(wave[..k + 1]) {
        var i :| 0 <= i < k + 1 && wave[..k + 1][i].id == id;
        if i < k { assert wave[..k][i].id == id; }
      }
      if id in Ids(wave[..k]) {
        var i :| 0 <= i < k && wave[..k][i].id == id;
        assert wave[..k + 1][i].id == id;
      }
      assert wave[..k + 1][k].id == wave[k].id;
    }
  }

  lemma InIds(systems: seq<SystemDef>, id: string)
    ensures id in Ids(systems) <==> exists i :: 0 <= i < |systems| && systems[i].id == id
  {
  }

  lemma DistinctIdsMore(systems: seq<SystemDef>, k: nat)
    requires k < |systems|
    ensures DistinctIds(systems[..k + 1]) <==> DistinctIds(systems[..k]) && systems[k].id !in Ids(systems[..k])
  {
    var more, less := systems[..k + 1], systems[..k];
    assert forall i :: 0 <= i < k ==> less[i] == more[i];
    InIds(less, systems[k].id);
  }

  lemma CountStep(ids: set<string>, id: string, more: set<string>, n: nat, distinct: bool, distinctMore: bool)
    requires more == ids + {id} && |ids| <= n && (|ids| == n <==> distinct)
      && (distinctMore <==> distinct && id !in ids)
    ensures |more| <= n + 1 && (|more| == n + 1 <==> distinctMore)
  {
    if id in ids {
      assert more == ids;
    }
  }

  lemma {:induction false} IdsCountUpTo(systems: seq<SystemDef>, k: nat)
    requires k <= |systems|
    ensures |Ids(systems[..k])| <= k
    ensures |Ids(systems[..k])| == k <==> DistinctIds(systems[..k])
  {
    if k == 0 {
      assert Ids(systems[..0]) == {};
    } else {
      var n := k - 1;
      IdsCountUpTo(systems, n);
      IdsGrow(systems, n);
      DistinctIdsMore(systems, n);
      CountStep(Ids(systems[..n]), systems[n].id, Ids(systems[..k]), n, DistinctIds(systems[..n]),
                DistinctIds(systems[..k]));
    }
  }

  lemma IdsCount(systems: seq<SystemDef>)
    ensures |Ids(systems)| <= |systems|
    ensures |Ids(systems)| == |systems| <==> DistinctIds(systems)
  {
    IdsCountUpTo(systems, |systems|);
    TakeAll(systems);
  }

  /** Where the main loop stands. */
  ghost predicate Progress(systems: seq<SystemDef>, waves: seq<seq<SystemDef>>, indegree: map<string, int>,
                           remaining: int) {
    && Waves(systems, waves) && Placed(waves) <= Ids(systems)
    && Degrees(SystemGraph(systems), Placed(waves), indegree) && Closed(SystemGraph(systems), Placed(waves))
    && remaining == |systems| - |Placed(waves)|
  }

  lemma WaveAppended(systems: seq<SystemDef>, waves: seq<seq<SystemDef>>, wave: seq<SystemDef>)
    requires Waves(systems, waves) && IsNextWave(systems, Placed(waves), wave)
    ensures Waves(systems, waves + [wave]) && Placed(waves + [wave]) == Placed(waves) + Ids(wave)
  {
    var longer := waves + [wave];
    assert longer[..|waves|] == waves;
    forall i | 0 <= i < |longer| ensures IsNextWave(systems, Placed(longer[..i]), longer[i]) {
      if i < |waves| {
        assert longer[..i] == waves[..i];
        WaveAt(systems, waves, i);
      }
    }
  }

  lemma PlacedCount(systems: seq<SystemDef>, waves: seq<seq<SystemDef>>, wave: seq<SystemDef>)
    requires IsNextWave(systems, Placed(waves), wave)
    ensures |Placed(waves) + Ids(wave)| == |Placed(waves)| + |wave|
    ensures Ids(wave) <= Ids(systems) && |wave| > 0
  {
    NextWaveProperties(systems, Placed(waves), wave);
    IdsCount(wave);
    assert Placed(waves) !! Ids(wave);
  }

  /** One round of the main loop. */
  method NextWave(systems: seq<SystemDef>, local: map<string, SystemDef>, out: map<string, seq<string>>,
                  waves0: seq<seq<SystemDef>>, indegree0: map<string, int>, remaining0: int)
    returns (stuck: bool, waves: seq<seq<SystemDef>>, indegree: map<string, int>, remaining: int)
    requires local == Local(systems) && out.Keys == Ids(systems)
    requires forall x {:trigger out[x]} :: x in out ==> OutList(SystemGraph(systems), x, out[x])
    requires Progress(systems, waves0, indegree0, remaining0)
    ensures stuck ==> forall id :: !ReadyToPlace(SystemGraph(systems), Placed(waves0), id)
    ensures !stuck ==> Progress(systems, waves, indegree, remaining) && remaining < remaining0
  {
    waves, indegree, remaining := waves0, indegree0, remaining0;
    var wave := PickWave(systems, local, Placed(waves0), indegree0);
    if |wave| == 0 {
      return true, waves, indegree, remaining;
    }
    NextWaveProperties(systems, Placed(waves), wave);
    WaveAppended(systems, waves, wave);
    PlacedCount(systems, waves, wave);
    indegree := PlaceWave(systems, SystemGraph(systems), Placed(waves), indegree, out, wave);
    waves, remaining, stuck := waves + [wave], remaining - |wave|, false;
  }

  /** The ready systems, packed into a wave; empty exactly when none is ready. */
  method PickWave(ghost systems: seq<SystemDef>, local: map<string, SystemDef>, ghost placed: set<string>,
                  indegree: map<string, int>)
    returns (wave: seq<SystemDef>)
    requires local == Local(systems) && Degrees(SystemGraph(systems), placed, indegree)
    ensures wave == [] ==> forall id :: !ReadyToPlace(SystemGraph(systems), placed, id)
    ensures wave != [] ==> IsNextWave(systems, placed, wave)
  {
    LocalIds(systems);
    var ready := CollectReady(SystemGraph(systems), placed, indegree, local);
    if |ready| == 0 {
      forall id ensures !ReadyToPlace(SystemGraph(systems), placed, id) {
        assert id !in ready;
      }
      return [];
    }
    forall k | 0 <= k < |ready| ensures ready[k] in local {
      assert ready[k] in ready && ReadyToPlace(SystemGraph(systems), placed, ready[k]);
    }
    wave := PackWave(local, ready);
    assert IsNextWave(systems, placed, wave);
    NextWaveProperties(systems, placed, wave);
  }

  method LocalDefs(systems: seq<SystemDef>) returns (local: map<string, SystemDef>)
    ensures local == Local(systems) && local.Keys == Ids(systems)
  {
    local := map[];
    for k := 0 to |systems|
      invariant local == Local(systems[..k])
    {
      assert systems[..k + 1][..k] == systems[..k];
      local := local[systems[k].id := systems[k]];
    }
    assert systems[..|systems|] == systems;
    LocalIds(systems);
  }

  lemma Started(systems: seq<SystemDef>, indegree: map<string, int>, out: map<string, seq<string>>)
    requires Tracks(SystemGraph(systems), Ids(systems), indegree, out)
    ensures Progress(systems, [], indegree, |systems|)
    ensures out.Keys == Ids(systems)
    ensures forall x {:trigger out[x]} :: x in out ==> OutList(SystemGraph(systems), x, out[x])
  {
    StartedDegrees(SystemGraph(systems), Ids(systems), indegree, out);
    assert Placed([]) == {};
  }

  lemma StartedDegrees(graph: Graph, nodes: set<string>, indegree: map<string, int>, out: map<string, seq<string>>)
    requires Tracks(graph, nodes, indegree, out)
    ensures Degrees(graph, {}, indegree)
    ensures forall x {:trigger out[x]} :: x in out ==> OutList(graph, x, out[x])
  {
    forall y | y in indegree ensures DegreeAt(graph, {}, indegree, y) {
      StartedAt(graph, nodes, indegree, out, y);
    }
    forall x | x in out ensures OutList(graph, x, out[x]) {
      StartedAt(graph, nodes, indegree, out, x);
    }
  }

  lemma StartedAt(graph: Graph, nodes: set<string>, indegree: map<string, int>, out: map<string, seq<string>>,
                  y: string)
    requires Tracks(graph, nodes, indegree, out) && y in nodes
    ensures DegreeAt(graph, {}, indegree, y) && y in out && OutList(graph, y, out[y])
  {
    assert TracksAt(graph, nodes, indegree, out, y);
    assert graph[y] - {} == graph[y];
  }

  lemma StuckMeans(systems: seq<SystemDef>, placed: set<string>)
    requires placed <= Ids(systems) && |placed| < |systems|
    requires forall id :: !ReadyToPlace(SystemGraph(systems), placed, id)
    ensures Cyclic(SystemGraph(systems)) || !DistinctIds(systems)
  {
    if Ids(systems) <= placed {
      IdsCount(systems);
      assert Ids(systems) == placed;
    } else {
      var id :| id in Ids(systems) && id !in placed;
      assert id in Ids(systems) - placed;
      BlockedIsCyclic(systems, placed);
    }
  }

  /** The main loop, once the edges are known. */
  method PlaceAll(systems: seq<SystemDef>, local: map<string, SystemDef>, indegree0: map<string, int>,
                  out: map<string, seq<string>>)
    returns (stuck: bool, waves: seq<seq<SystemDef>>)
    requires local == Local(systems) && Tracks(SystemGraph(systems), Ids(systems), indegree0, out)
    ensures stuck <==> Cyclic(SystemGraph(systems)) || !DistinctIds(systems)
    ensures !stuck ==> Waves(systems, waves) && Placed(waves) == Ids(systems)
  {
    var indegree, remaining := indegree0, |systems|;
    waves := [];
    Started(systems, indegree, out);
    while remaining > 0
      invariant Progress(systems, waves, indegree, remaining)
      decreases remaining
    {
      ghost var waves0 := waves;
      stuck, waves, indegree, remaining := NextWave(systems, local, out, waves, indegree, remaining);
      if stuck {
        StuckMeans(systems, Placed(waves0));
        return;
      }
    }
    stuck := false;
    AllPlaced(systems, waves, indegree, remaining);
  }

  /**
   * The waves of one phase. It fails exactly when a reference leaves the
   * phase, the declared order is cyclic, or two systems share an id.
   */
  method CompilePhase(systems: seq<SystemDef>) returns (r: Result<seq<seq<SystemDef>>, CompileError>)
    ensures r == Err(ForeignSystem) <==> !LocalReferences(systems)
    ensures r == Err(SystemCycle) <==>
      LocalReferences(systems) && (Cyclic(SystemGraph(systems)) || !DistinctIds(systems))
    ensures r.Err? ==> r.error in {ForeignSystem, SystemCycle}
    ensures r.Ok? ==> Waves(systems, r.value) && Placed(r.value) == Ids(systems)
  {
    var local := LocalDefs(systems);
    var references, indegree, out := CollectEdges(systems, local.Keys);
    if !references {
      return Err(ForeignSystem);
    }
    var stuck, waves := PlaceAll(systems, local, indegree, out);
    r := if stuck then Err(SystemCycle) else Ok(waves);
  }

  lemma AllPlaced(systems: seq<SystemDef>, waves: seq<seq<SystemDef>>, indegree: map<string, int>, remaining: int)
    requires Progress(systems, waves, indegree, remaining) && remaining <= 0
    ensures Placed(waves) == Ids(systems) && DistinctIds(systems) && !Cyclic(SystemGraph(systems))
  {
    IdsCount(systems);
    if exists id :: id in Ids(systems) && id !in Placed(waves) {
      var id :| id in Ids(systems) && id !in Placed(waves);
      Fewer(Placed(waves), Ids(systems), id);
    }
    WavesAreAcyclic(systems, waves);
  }

  lemma Fewer(a: set<string>, b: set<string>, x: string)
    requires a <= b && x in b && x !in a
    ensures |a| < |b|
  {
    assert b == a + (b - a) && x in b - a;
  }

  /** A successful compilation: every system in exactly one wave, waves free of conflict, every edge to a later wave. */
  /** Any two members of a wave are independent. */
  ghost predicate AllIndependent(wave: seq<SystemDef>) {
    forall i, j :: 0 <= i < |wave| && 0 <= j < |wave| && i != j ==> Independent(wave[i].access, wave[j].access)
  }

  lemma CompatibleAreIndependent(wave: seq<SystemDef>)
    requires PairwiseCompatible(wave)
    ensures AllIndependent(wave)
  {
    forall i, j | 0 <= i < j < |wave|
      ensures Independent(wave[i].access, wave[j].access) && Independent(wave[j].access, wave[i].access)
    {
      ConflictExactly(wave[j].access, wave[i].access);
    }
  }

  /** Some other member of the wave that goes first is not independent of the system. */
  ghost predicate HeldBack(wave: seq<SystemDef>, def: SystemDef) {
    exists other :: other in wave && other != def && other.order <= def.order && !Independent(def.access, other.access)
  }

  lemma CandidateIsKeptOrHeldBack(candidates: seq<SystemDef>, k: nat)
    requires k < |candidates| && DistinctIds(candidates)
    requires forall i, j :: 0 <= i < j < |candidates| ==> candidates[i].order <= candidates[j].order
    ensures candidates[k] in Pack(candidates) <==> !HeldBack(Pack(candidates), candidates[k])
  {
    var wave, def := Pack(candidates), candidates[k];
    PackLeaves(candidates, k);
    if def in wave {
      PackProperties(candidates);
      CompatibleAreIndependent(wave);
      var i :| 0 <= i < |wave| && wave[i] == def;
    } else {
      var j :| 0 <= j < k && candidates[j] in wave && !Independent(def.access, candidates[j].access);
    }
  }

  lemma CandidatesInOrder(systems: seq<SystemDef>, placed: set<string>, ready: seq<string>)
    requires ReadyList(SystemGraph(systems), Local(systems), placed, ready)
    requires forall k :: 0 <= k < |ready| ==> ready[k] in Local(systems)
    ensures DistinctIds(Defs(Local(systems), ready))
    ensures var candidates := Defs(Local(systems), ready);
      forall i, j :: 0 <= i < j < |candidates| ==> candidates[i].order <= candidates[j].order
  {
    var local := Local(systems);
    LocalIds(systems);
    forall i, j | 0 <= i < j < |ready|
      ensures local[ready[i]].id != local[ready[j]].id && local[ready[i]].order <= local[ready[j]].order
    {
      assert OrderOf(local)(ready[i]) <= OrderOf(local)(ready[j]);
    }
  }

  /** A system that is ready for a wave is in it unless a member that goes first is not independent of it. */
  lemma ReadyIsPlacedOrHeldBack(systems: seq<SystemDef>, placed: set<string>, wave: seq<SystemDef>, def: SystemDef)
    requires DistinctIds(systems) && IsNextWave(systems, placed, wave)
    requires def in systems && ReadyToPlace(SystemGraph(systems), placed, def.id)
    ensures def in wave <==> !HeldBack(wave, def)
  {
    var ready: seq<string> :| ready != [] && ReadyList(SystemGraph(systems), Local(systems), placed, ready)
      && (forall k :: 0 <= k < |ready| ==> ready[k] in Local(systems)) && wave == Pack(Defs(Local(systems), ready));
    var candidates := Defs(Local(systems), ready);
    CandidatesInOrder(systems, placed, ready);
    assert def.id in ready;
    var k :| 0 <= k < |ready| && ready[k] == def.id;
    LocalIds(systems);
    SameIdSameDef(systems, candidates[k], def);
    CandidateIsKeptOrHeldBack(candidates, k);
  }

  /** What after and before say holds between waves. */
  lemma DeclaredOrderHolds(systems: seq<SystemDef>, waves: seq<seq<SystemDef>>, def: SystemDef, other: string)
    requires Waves(systems, waves) && Placed(waves) == Ids(systems) && DistinctIds(systems) && LocalReferences(systems)
    requires def in systems
    ensures other in def.after ==> 0 <= WaveOf(waves, other) < WaveOf(waves, def.id)
    ensures other in def.before ==> 0 <= WaveOf(waves, def.id) < WaveOf(waves, other)
  {
    var k :| 0 <= k < |systems| && systems[k] == def;
    CompiledWaves(systems, waves);
    assert def.id in Ids(systems);
    if other in def.after || other in def.before {
      assert other in Elements(def.after) || other in Elements(def.before);
      PlacedMeans(waves, other);
    }
    if other in def.after {
      assert DefDeclares(systems[k], other, def.id);
      assert Edge(SystemGraph(systems), other, def.id);
      var i :| InWave(waves, i, other);
      WaveOfIs(systems, waves, i, other);
    }
    if other in def.before {
      assert DefDeclares(systems[k], def.id, other);
      assert Edge(SystemGraph(systems), def.id, other);
    }
  }

  /** If a system is placed in wave n, a declared predecessor not placed before wave n - 1 is in wave n - 1. */
  lemma UnplacedPredecessor(systems: seq<SystemDef>, waves: seq<seq<SystemDef>>, n: nat, other: string, id: string)
    requires Waves(systems, waves) && 0 < n < |waves| && InWave(waves, n, id) && Edge(SystemGraph(systems), other, id)
    requires other !in Placed(waves[..n - 1])
    ensures WaveOf(waves, other) == n - 1
  {
    var i := EdgesGoForward(systems, waves, other, id, n);
    WaveOfIs(systems, waves, i, other);
    if i < n - 1 {
      assert InWave(waves[..n - 1], i, other);
      PlacedMeans(waves[..n - 1], other);
    }
  }

  /** Something declared to go before the system is in wave n. */
  ghost predicate PrecededIn(systems: seq<SystemDef>, waves: seq<seq<SystemDef>>, n: int, id: string) {
    exists other :: Declares(systems, other, id) && WaveOf(waves, other) == n
  }

  lemma WaitsForPredecessor(systems: seq<SystemDef>, waves: seq<seq<SystemDef>>, id: string, n: nat)
    requires Waves(systems, waves) && 0 < n < |waves| && InWave(waves, n, id) && id in Ids(systems)
    requires !(SystemGraph(systems)[id] <= Placed(waves[..n - 1]))
    ensures PrecededIn(systems, waves, n - 1, id)
  {
    var other :| other in SystemGraph(systems)[id] && other !in Placed(waves[..n - 1]);
    UnplacedPredecessor(systems, waves, n, other, id);
    assert Declares(systems, other, id);
  }

  lemma WaitsForConflict(systems: seq<SystemDef>, waves: seq<seq<SystemDef>>, def: SystemDef, n: nat)
    requires Waves(systems, waves) && DistinctIds(systems) && def in systems && 0 < n < |waves| && def in waves[n]
    requires ReadyToPlace(SystemGraph(systems), Placed(waves[..n - 1]), def.id)
    ensures HeldBack(waves[n - 1], def)
  {
    WaveAt(systems, waves, n - 1);
    NotInEarlierWave(systems, waves, n, def);
    ReadyIsPlacedOrHeldBack(systems, Placed(waves[..n - 1]), waves[n - 1], def);
  }

  lemma UnplacedInEarlier(systems: seq<SystemDef>, waves: seq<seq<SystemDef>>, id: string, n: nat)
    requires Waves(systems, waves) && 0 < n < |waves| && InWave(waves, n, id)
    ensures id !in Placed(waves[..n - 1])
  {
    if id in Placed(waves[..n - 1]) {
      PlacedMeans(waves[..n - 1], id);
      var i :| InWave(waves[..n - 1], i, id);
      assert InWave(waves, i, id);
      PlacedOnce(systems, waves, i, n, id);
    }
  }

  /** No system waits without a reason: a declared predecessor in the wave before its own, or a member of that wave. */
  lemma WaitsForAReason(systems: seq<SystemDef>, waves: seq<seq<SystemDef>>, def: SystemDef, n: nat)
    requires Waves(systems, waves) && DistinctIds(systems) && def in systems && 0 < n < |waves| && def in waves[n]
    ensures PrecededIn(systems, waves, n - 1, def.id) || HeldBack(waves[n - 1], def)
  {
    DefIsIn(systems, def);
    DefIsIn(waves[n], def);
    UnplacedInEarlier(systems, waves, def.id, n);
    if SystemGraph(systems)[def.id] <= Placed(waves[..n - 1]) {
      WaitsForConflict(systems, waves, def, n);
    } else {
      WaitsForPredecessor(systems, waves, def.id, n);
    }
  }

  lemma DefIsIn(systems: seq<SystemDef>, def: SystemDef)
    requires def in systems
    ensures def.id in Ids(systems)
  {
    var k :| 0 <= k < |systems| && systems[k] == def;
  }

  lemma NotInEarlierWave(systems: seq<SystemDef>, waves: seq<seq<SystemDef>>, n: nat, def: SystemDef)
    requires Waves(systems, waves) && 0 < n < |waves| && def in waves[n]
    ensures def !in waves[n - 1]
  {
    if def in waves[n - 1] {
      assert InWave(waves, n - 1, def.id) && InWave(waves, n, def.id);
      PlacedOnce(systems, waves, n - 1, n, def.id);
    }
  }

  lemma CompiledWaves(systems: seq<SystemDef>, waves: seq<seq<SystemDef>>)
    requires Waves(systems, waves) && Placed(waves) == Ids(systems) && DistinctIds(systems)
    ensures forall i :: 0 <= i < |waves| ==> waves[i] != [] && PairwiseCompatible(waves[i]) && DistinctIds(waves[i])
    ensures forall i :: 0 <= i < |waves| ==> AllIndependent(waves[i])
    ensures forall i, def :: 0 <= i < |waves| && def in waves[i] ==> def in systems
    ensures forall def :: def in systems ==> 0 <= WaveOf(waves, def.id) < |waves| && def in waves[WaveOf(waves, def.id)]
    ensures forall i, def :: 0 <= i < |waves| && def in waves[i] ==> i == WaveOf(waves, def.id)
    ensures forall x, y :: Edge(SystemGraph(systems), x, y) ==> WaveOf(waves, x) < WaveOf(waves, y)
  {
    forall i | 0 <= i < |waves|
      ensures waves[i] != [] && PairwiseCompatible(waves[i]) && DistinctIds(waves[i]) && AllIndependent(waves[i])
      ensures forall def :: def in waves[i] ==> def in systems && i == WaveOf(waves, def.id)
    {
      WaveAt(systems, waves, i);
      NextWaveProperties(systems, Placed(waves[..i]), waves[i]);
      CompatibleAreIndependent(waves[i]);
      forall def | def in waves[i] ensures def in systems && i == WaveOf(waves, def.id) {
        var k :| 0 <= k < |waves[i]| && waves[i][k] == def;
        assert InWave(waves, i, def.id);
        WaveOfIs(systems, waves, i, def.id);
      }
    }
    forall def | def in systems ensures 0 <= WaveOf(waves, def.id) < |waves| && def in waves[WaveOf(waves, def.id)] {
      SystemIsPlaced(systems, waves, def);
    }
    forall x, y | Edge(SystemGraph(systems), x, y) ensures WaveOf(waves, x) < WaveOf(waves, y) {
      PlacedMeans(waves, y);
      var j :| InWave(waves, j, y);
      var i := EdgesGoForward(systems, waves, x, y, j);
      WaveOfIs(systems, waves, i, x);
      WaveOfIs(systems, waves, j, y);
    }
  }

  lemma SystemIsPlaced(systems: seq<SystemDef>, waves: seq<seq<SystemDef>>, def: SystemDef)
    requires Waves(systems, waves) && Placed(waves) == Ids(systems) && DistinctIds(systems) && def in systems
    ensures 0 <= WaveOf(waves, def.id) < |waves| && def in waves[WaveOf(waves, def.id)]
  {
    var n :| 0 <= n < |systems| && systems[n] == def;
    assert def.id in Ids(systems);
    PlacedMeans(waves, def.id);
    var i :| InWave(waves, i, def.id);
    WaveOfIs(systems, waves, i, def.id);
    WaveAt(systems, waves, i);
    NextWaveProperties(systems, Placed(waves[..i]), waves[i]);
    var k :| 0 <= k < |waves[i]| && waves[i][k].id == def.id;
    SameIdSameDef(systems, waves[i][k], def);
  }

  lemma SameIdSameDef(systems: seq<SystemDef>, a: SystemDef, b: SystemDef)
    requires DistinctIds(systems) && a in systems && b in systems && a.id == b.id
    ensures a == b
  {
    var m :| 0 <= m < |systems| && systems[m] == a;
    var n :| 0 <= n < |systems| && systems[n] == b;
    assert m == n;
  }

  /**
   * The builder's duplicate check never fires, and a phase given the same id twice never compiles,
   * whatever the systems.
   */
  lemma SharedIdDoesNotCompile()
    ensures var access := AccessSpec([], {}, {}, []);
            var systems := [SystemDef("a", access, [], [], 0), SystemDef("a", access, [], [], 1)];
            LocalReferences(systems) && !Cyclic(SystemGraph(systems)) && !DistinctIds(systems)
  {
    var access := AccessSpec([], {}, {}, []);
    var systems := [SystemDef("a", access, [], [], 0), SystemDef("a", access, [], [], 1)];
    NumberedIsAcyclic(SystemGraph(systems), (id: string) => 0);
    assert systems[0].id == systems[1].id;
  }
}
