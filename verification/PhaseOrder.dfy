// Ordering the phases: Kahn's algorithm with the earliest-registered ready
// phase first, whatever order the maps are iterated in.
module PhaseOrder {
  import opened Sequences
  import opened SchedulerTypes
  import opened Digraph
  import opened Ordering

  /** As AddPhase leaves them: filed under their own id, no two with the same order. */
  ghost predicate Registered(phases: Phases) {
    && (forall id :: id in phases ==> phases[id].id == id)
    && (forall a, b :: a in phases && b in phases && a != b ==> phases[a].order != phases[b].order)
  }

  ghost predicate KnownDependencies(phases: Phases) {
    forall id {:trigger Within(phases, phases[id].after)} :: id in phases ==> Within(phases, phases[id].after)
  }

  ghost function PhaseGraph(phases: Phases): Graph {
    map id | id in phases :: Elements(phases[id].after)
  }

  function OrderOf(phases: Phases): Key {
    id => if id in phases then phases[id].order else 0
  }

  /** Not ordered yet, and everything it comes after has been. */
  ghost predicate Ready(phases: Phases, done: set<string>, id: string) {
    id in phases && id !in done && Elements(phases[id].after) <= done
  }

  /** The ready phase that was registered first. */
  ghost predicate IsNext(phases: Phases, done: set<string>, id: string) {
    Ready(phases, done, id) && forall other :: Ready(phases, done, other) ==> phases[id].order <= phases[other].order
  }

  /** Every phase in turn is the earliest-registered ready one. */
  ghost predicate Greedy(phases: Phases, order: seq<string>) {
    forall i :: 0 <= i < |order| ==> IsNext(phases, Elements(order[..i]), order[i])
  }

  ghost predicate Covers(phases: Phases, order: seq<string>) {
    Elements(order) == phases.Keys
  }

  /** Dependencies come before dependants. */
  ghost predicate Topological(phases: Phases, order: seq<string>) {
    forall i :: 0 <= i < |order| ==> order[i] in phases && Elements(phases[order[i]].after) <= Elements(order[..i])
  }

  lemma GreedyIsTopological(phases: Phases, order: seq<string>)
    requires Greedy(phases, order)
    ensures Topological(phases, order) && NoRepeats(order)
  {
    forall i | 0 <= i < |order| ensures order[i] in phases && Elements(phases[order[i]].after) <= Elements(order[..i]) {
      assert IsNext(phases, Elements(order[..i]), order[i]);
    }
    forall i, j | 0 <= i < j < |order| ensures order[i] != order[j] {
      assert IsNext(phases, Elements(order[..j]), order[j]);
      assert order[..j][i] == order[i];
    }
  }

  /** A phase that comes before one registered earlier does so because that one waits for it or for one in between. */
  lemma EarlierWaits(phases: Phases, order: seq<string>, i: nat, j: nat)
    requires Greedy(phases, order) && i < j < |order|
    ensures order[i] in phases && order[j] in phases
    ensures phases[order[j]].order < phases[order[i]].order ==>
      exists k :: i <= k < j && order[k] in phases[order[j]].after
  {
    GreedyIsTopological(phases, order);
    assert IsNext(phases, Elements(order[..i]), order[i]);
    if phases[order[j]].order < phases[order[i]].order {
      assert !Ready(phases, Elements(order[..i]), order[j]);
      assert order[j] !in Elements(order[..i]);
      var name :| name in phases[order[j]].after && name !in Elements(order[..i]);
      forall m | 0 <= m < i ensures order[m] != name {
        assert order[..i][m] in Elements(order[..i]);
      }
      assert name in Elements(order[..j]);
      var k :| 0 <= k < j && order[..j][k] == name;
    }
  }

  /** There is only one greedy order of a given length: no iteration order can change it. */
  lemma {:induction false} GreedyIsUnique(phases: Phases, a: seq<string>, b: seq<string>)
    requires Registered(phases) && Greedy(phases, a) && Greedy(phases, b) && |a| == |b|
    ensures a == b
  {
    if a != [] {
      var n := |a| - 1;
      GreedyPrefix(phases, a, n);
      GreedyPrefix(phases, b, n);
      GreedyIsUnique(phases, a[..n], b[..n]);
      assert IsNext(phases, Elements(a[..n]), a[n]) && IsNext(phases, Elements(b[..n]), b[n]);
      assert a == a[..n] + [a[n]] && b == b[..n] + [b[n]];
    }
  }

  lemma GreedyPrefix(phases: Phases, order: seq<string>, n: nat)
    requires Greedy(phases, order) && n <= |order|
    ensures Greedy(phases, order[..n])
  {
    forall i | 0 <= i < n ensures IsNext(phases, Elements(order[..n][..i]), order[..n][i]) {
      assert order[..n][..i] == order[..i];
      assert IsNext(phases, Elements(order[..i]), order[i]);
    }
  }

  /** Position of a phase in an order. */
  ghost function Position(order: seq<string>, id: string): int {
    if order == [] || order[0] == id then 0 else 1 + Position(order[1..], id)
  }

  lemma {:induction false} PositionAt(order: seq<string>, i: nat)
    requires NoRepeats(order) && i < |order|
    ensures Position(order, order[i]) == i
  {
    if i > 0 {
      assert order[0] != order[i];
      assert order[1..][i - 1] == order[i];
      PositionAt(order[1..], i - 1);
    }
  }

  /** A complete topological order exists only without cycles. */
  lemma OrderedIsAcyclic(phases: Phases, order: seq<string>)
    requires Topological(phases, order) && NoRepeats(order) && Covers(phases, order)
    ensures !Cyclic(PhaseGraph(phases))
  {
    var number := (id: string) => Position(order, id);
    forall x, y | Edge(PhaseGraph(phases), x, y) ensures number(x) < number(y) {
      assert y in Elements(order);
      var j :| 0 <= j < |order| && order[j] == y;
      assert x in Elements(order[..j]);
      var i :| 0 <= i < j && order[i] == x;
      PositionAt(order, i);
      PositionAt(order, j);
    }
    NumberedIsAcyclic(PhaseGraph(phases), number);
  }

  /** When nothing is ready, the phases that are left all wait for one another. */
  lemma BlockedIsCyclic(phases: Phases, done: set<string>)
    requires KnownDependencies(phases)
    requires forall id :: !Ready(phases, done, id)
    requires phases.Keys - done != {}
    ensures Cyclic(PhaseGraph(phases))
  {
    var left := phases.Keys - done;
    forall y | y in left ensures Fed(PhaseGraph(phases), left, y) {
      assert !Ready(phases, done, y) && Within(phases, phases[y].after);
      var k :| 0 <= k < |phases[y].after| && phases[y].after[k] !in done;
      assert Edge(PhaseGraph(phases), phases[y].after[k], y);
    }
    StuckIsCyclic(PhaseGraph(phases), left);
  }

  /** How often `id` occurs. */
  ghost function Occurs(names: seq<string>, id: string): nat {
    if names == [] then 0
    else Occurs(names[..|names| - 1], id) + (if names[|names| - 1] == id then 1 else 0)
  }

  /** Dependencies, with repetition, that are not done yet. */
  ghost function Waiting(after: seq<string>, done: set<string>): nat {
    if after == [] then 0
    else Waiting(after[..|after| - 1], done) + (if after[|after| - 1] in done then 0 else 1)
  }

  lemma {:induction false} WaitingZero(after: seq<string>, done: set<string>)
    ensures Waiting(after, done) == 0 <==> Elements(after) <= done
  {
    if after != [] {
      var n := |after| - 1;
      WaitingZero(after[..n], done);
      assert after == after[..n] + [after[n]];
      assert Elements(after) == Elements(after[..n]) + {after[n]};
    }
  }

  lemma {:induction false} WaitingNone(after: seq<string>)
    ensures Waiting(after, {}) == |after|
  {
    if after != [] {
      WaitingNone(after[..|after| - 1]);
    }
  }

  lemma {:induction false} WaitingDone(after: seq<string>, done: set<string>, id: string)
    requires id !in done
    ensures Waiting(after, done + {id}) == Waiting(after, done) - Occurs(after, id)
  {
    if after != [] {
      WaitingDone(after[..|after| - 1], done, id);
    }
  }

  lemma {:induction false} OccursIn(names: seq<string>, id: string)
    ensures Occurs(names, id) > 0 <==> id in names
  {
    if names != [] {
      var n := |names| - 1;
      OccursIn(names[..n], id);
      assert names == names[..n] + [names[n]];
    }
  }

  /** indegree and out after the registration loops: how often each phase waits, and for whom. */
  ghost predicate Counted(phases: Phases, done: set<string>, indegree: map<string, int>) {
    indegree.Keys == phases.Keys && forall id {:trigger indegree[id]} :: id in phases ==>
        indegree[id] == Waiting(phases[id].after, done)
  }

  ghost predicate OutEdges(phases: Phases, out: map<string, seq<string>>) {
    out.Keys == phases.Keys
    && (forall d :: d in out ==> Within(phases, out[d]))
    && (forall d, id {:trigger Occurs(out[d], id)} :: d in out && id in phases ==>
        Occurs(out[d], id) == Occurs(phases[id].after, d))
  }

  /** The ready list holds exactly the ready phases, earliest-registered first. */
  ghost predicate ReadyList(phases: Phases, done: set<string>, ready: seq<string>) {
    && Ascending(OrderOf(phases), ready)
    && NoRepeats(ready)
    && forall id :: id in ready <==> Ready(phases, done, id)
  }

  lemma CountedReady(phases: Phases, done: set<string>, indegree: map<string, int>, id: string)
    requires Counted(phases, done, indegree)
    ensures Ready(phases, done, id) <==> id in phases && id !in done && indegree[id] == 0
  {
    if id in phases {
      WaitingZero(phases[id].after, done);
    }
  }

  /** Every phase has a list of dependants, and all of them are phases. */
  ghost predicate OutWithin(phases: Phases, out: map<string, seq<string>>) {
    out.Keys == phases.Keys && forall d :: d in out ==> Within(phases, out[d])
  }

  ghost predicate Within(phases: Phases, names: seq<string>) {
    forall k :: 0 <= k < |names| ==> names[k] in phases
  }

  /** `out` is `out0` with `id` entered under the first `k` of its dependencies. */
  ghost predicate Entered(phases: Phases, out0: map<string, seq<string>>, out: map<string, seq<string>>, id: string,
                          after: seq<string>) {
    out0.Keys == out.Keys == phases.Keys
    && forall d, other {:trigger Occurs(out[d], other)} :: d in out && other in phases ==>
        Occurs(out[d], other) == Occurs(out0[d], other) + if other == id then Occurs(after, d) else 0
  }

  lemma EnterNone(phases: Phases, out: map<string, seq<string>>, id: string, none: seq<string>)
    requires out.Keys == phases.Keys && none == []
    ensures Entered(phases, out, out, id, none)
  {
    forall d ensures Occurs(none, d) == 0 {
    }
  }

  lemma EnterOne(phases: Phases, out0: map<string, seq<string>>, out: map<string, seq<string>>, id: string,
                 after: seq<string>, dependency: string)
    requires id in phases && dependency in phases && Entered(phases, out0, out, id, after) && OutWithin(phases, out)
    ensures Entered(phases, out0, out[dependency := out[dependency] + [id]], id, after + [dependency])
    ensures OutWithin(phases, out[dependency := out[dependency] + [id]])
  {
    AppendOccurs(out[dependency], id);
    AppendOccurs(after, dependency);
  }

  /** One phase's dependencies are entered; nothing recorded for other phases changes. */
  method CountPhase(phases: Phases, id: string, out0: map<string, seq<string>>)
    returns (known: bool, count: int, out: map<string, seq<string>>)
    requires id in phases && OutWithin(phases, out0)
    ensures known <==> Within(phases, phases[id].after)
    ensures known ==>
      count == |phases[id].after| && OutWithin(phases, out) && Entered(phases, out0, out, id, phases[id].after)
  {
    count, out := 0, out0;
    var after := phases[id].after;
    EnterNone(phases, out0, id, after[..0]);
    for k := 0 to |after|
      invariant count == k && OutWithin(phases, out)
      invariant Within(phases, after[..k]) && Entered(phases, out0, out, id, after[..k])
    {
      assert after[..k + 1] == after[..k] + [after[k]];
      if after[k] !in phases {
        return false, count, out;
      }
      EnterOne(phases, out0, out, id, after[..k], after[k]);
      out := out[after[k] := out[after[k]] + [id]];
      count := count + 1;
    }
    assert after[..|after|] == after;
    known := true;
  }

  /** The dependencies of the phases outside `left` are entered. */
  ghost predicate EnteredAll(phases: Phases, left: set<string>, indegree: map<string, int>,
                             out: map<string, seq<string>>) {
    && indegree.Keys == phases.Keys && OutWithin(phases, out)
    && (forall id {:trigger Within(phases, phases[id].after)} :: id in phases && id !in left ==>
        Within(phases, phases[id].after))
    && (forall id {:trigger indegree[id]} :: id in phases ==>
        indegree[id] == if id in left then 0 else |phases[id].after|)
    && (forall d, id {:trigger Occurs(out[d], id)} :: d in out && id in phases ==>
        Occurs(out[d], id) == if id in left then 0 else Occurs(phases[id].after, d))
  }

  lemma EnterPhase(phases: Phases, left: set<string>, indegree: map<string, int>, out: map<string, seq<string>>,
                   id: string, out': map<string, seq<string>>)
    requires EnteredAll(phases, left, indegree, out) && id in phases && id in left
    requires Within(phases, phases[id].after) && OutWithin(phases, out')
      && Entered(phases, out, out', id, phases[id].after)
    ensures EnteredAll(phases, left - {id}, indegree[id := |phases[id].after|], out')
  {
  }

  /** The registration loops over all phases, in any order. */
  method CountDependencies(phases: Phases)
      returns (known: bool, indegree: map<string, int>, out: map<string, seq<string>>)
    ensures known <==> KnownDependencies(phases)
    ensures known ==> Counted(phases, {}, indegree) && OutEdges(phases, out)
  {
    indegree := map id | id in phases :: 0;
    out := map id | id in phases :: [];
    var left := phases.Keys;
    while left != {}
      invariant left <= phases.Keys && EnteredAll(phases, left, indegree, out)
      decreases |left|
    {
      var id :| id in left;
      var count, out';
      known, count, out' := CountPhase(phases, id, out);
      if !known {
        return;
      }
      EnterPhase(phases, left, indegree, out, id, out');
      left, indegree, out := left - {id}, indegree[id := count], out';
    }
    known := true;
    forall id | id in phases ensures indegree[id] == Waiting(phases[id].after, {}) {
      WaitingNone(phases[id].after);
    }
  }

  lemma AppendOccurs(names: seq<string>, id: string)
    ensures forall other :: Occurs(names + [id], other) == Occurs(names, other) + if other == id then 1 else 0
    ensures Elements(names + [id]) == Elements(names) + {id}
  {
    assert (names + [id])[..|names|] == names;
  }

  /** The phases with no dependencies, gathered in any order and then sorted. */
  method FirstReady(phases: Phases, indegree: map<string, int>) returns (ready: seq<string>)
    requires Counted(phases, {}, indegree)
    ensures ReadyList(phases, {}, ready)
  {
    var left := indegree.Keys;
    ready := [];
    while left != {}
      invariant left <= indegree.Keys
      invariant NoRepeats(ready)
      invariant forall id :: id in ready <==> id in indegree.Keys - left && indegree[id] == 0
      decreases |left|
    {
      var id :| id in left;
      left := left - {id};
      if indegree[id] == 0 {
        ready := ready + [id];
      }
    }
    SortedSame(OrderOf(phases), ready);
    SortedNoRepeats(OrderOf(phases), ready);
    forall id ensures id in ready <==> Ready(phases, {}, id) {
      CountedReady(phases, {}, indegree, id);
    }
    ready := Sorted(OrderOf(phases), ready);
  }

  /** What one dependant's decrement does to the ready list. */
  ghost predicate MidStep(phases: Phases, done: set<string>, current: string, indegree: map<string, int>,
                          ready: seq<string>, passed: seq<string>) {
    && indegree.Keys == phases.Keys
    && (forall id {:trigger indegree[id]} :: id in phases ==>
        indegree[id] == Waiting(phases[id].after, done) - Occurs(passed, id))
    && Ascending(OrderOf(phases), ready) && NoRepeats(ready)
    && (forall id :: id in ready <==> id in phases && id !in done && id != current && indegree[id] == 0)
  }

  lemma MidStart(phases: Phases, done: set<string>, indegree: map<string, int>, ready: seq<string>)
    requires ready != [] && Counted(phases, done, indegree) && ReadyList(phases, done, ready)
    ensures MidStep(phases, done, ready[0], indegree, ready[1..], [])
    ensures IsNext(phases, done, ready[0])
  {
    assert ready[0] in ready;
    forall id ensures id in ready[1..] <==> id in phases && id !in done && id != ready[0] && indegree[id] == 0 {
      CountedReady(phases, done, indegree, id);
      assert id in ready <==> id == ready[0] || id in ready[1..];
    }
    forall other | Ready(phases, done, other) ensures phases[ready[0]].order <= phases[other].order {
      assert other in ready;
      var k :| 0 <= k < |ready| && ready[k] == other;
    }
  }

  lemma MidNext(phases: Phases, done: set<string>, current: string, indegree: map<string, int>, ready: seq<string>,
                passed: seq<string>, next: string)
    requires MidStep(phases, done, current, indegree, ready, passed)
    requires next in phases && next !in done && next != current && indegree[next] > 0
    ensures indegree[next] != 1 ==>
      MidStep(phases, done, current, indegree[next := indegree[next] - 1], ready, passed + [next])
    ensures indegree[next] == 1 ==>
      MidStep(phases, done, current, indegree[next := 0], Sorted(OrderOf(phases), ready + [next]), passed + [next])
  {
    AppendOccurs(passed, next);
    if indegree[next] == 1 {
      assert next !in ready;
      SortedSame(OrderOf(phases), ready + [next]);
      SortedNoRepeats(OrderOf(phases), ready + [next]);
    }
  }

  lemma MidEnd(phases: Phases, done: set<string>, current: string, indegree: map<string, int>, ready: seq<string>,
               passed: seq<string>)
    requires MidStep(phases, done, current, indegree, ready, passed) && current !in done
    requires ListsDependants(phases, current, passed)
    ensures Counted(phases, done + {current}, indegree) && ReadyList(phases, done + {current}, ready)
  {
    forall id | id in phases ensures indegree[id] == Waiting(phases[id].after, done + {current}) {
      WaitingDone(phases[id].after, done, current);
    }
    forall id ensures id in ready <==> Ready(phases, done + {current}, id) {
      CountedReady(phases, done + {current}, indegree, id);
    }
  }

  /** Every phase is listed as often as it names the current one. */
  ghost predicate ListsDependants(phases: Phases, current: string, dependants: seq<string>) {
    forall id {:trigger Occurs(dependants, id)} :: id in phases ==>
        Occurs(dependants, id) == Occurs(phases[id].after, current)
  }

  ghost predicate DoneIsClosed(phases: Phases, done: set<string>) {
    forall d :: d in done ==> d in phases && Elements(phases[d].after) <= done
  }

  /** A dependant of the current phase still waits for it, so it is neither done nor ready. */
  lemma DependantWaits(phases: Phases, done: set<string>, current: string, indegree: map<string, int>,
                       ready: seq<string>,
                       dependants: seq<string>, k: nat)
    requires k < |dependants| && Within(phases, dependants)
    requires MidStep(phases, done, current, indegree, ready, dependants[..k])
    requires ListsDependants(phases, current, dependants) && Ready(phases, done, current) && DoneIsClosed(phases, done)
    ensures dependants[k] in phases && dependants[k] !in done && dependants[k] != current && indegree[dependants[k]] > 0
  {
    var next := dependants[k];
    OccursPrefix(dependants, k, next);
    OccursIn(phases[next].after, current);
    assert current in Elements(phases[next].after);
    WaitingDone(phases[next].after, done, current);
  }

  lemma {:induction false} OccursPrefix(names: seq<string>, k: nat, id: string)
    requires k < |names| && names[k] == id
    ensures Occurs(names[..k], id) < Occurs(names, id)
    decreases |names|
  {
    var n := |names| - 1;
    if k < n {
      OccursPrefix(names[..n], k, id);
      assert names[..n][..k] == names[..k];
    }
  }

  /** One dependant is decremented, and joins the sorted list if it became ready. */
  method ReleaseOne(phases: Phases, ghost done: set<string>, ghost current: string, ghost passed: seq<string>,
                    next: string,
                    indegree0: map<string, int>, ready0: seq<string>)
    returns (indegree: map<string, int>, ready: seq<string>)
    requires MidStep(phases, done, current, indegree0, ready0, passed)
    requires next in phases && next !in done && next != current && indegree0[next] > 0
    ensures MidStep(phases, done, current, indegree, ready, passed + [next])
  {
    MidNext(phases, done, current, indegree0, ready0, passed, next);
    indegree, ready := indegree0[next := indegree0[next] - 1], ready0;
    if indegree[next] == 0 {
      ready := Sorted(OrderOf(phases), ready + [next]);
    }
  }

  /** Dependants of the phase just ordered are decremented; those that become ready join the sorted list. */
  method Release(phases: Phases, ghost done: set<string>, current: string, dependants: seq<string>,
                 indegree0: map<string, int>, ready0: seq<string>)
    returns (indegree: map<string, int>, ready: seq<string>)
    requires MidStep(phases, done, current, indegree0, ready0, []) && Ready(phases, done, current)
      && Within(phases, dependants)
    requires ListsDependants(phases, current, dependants) && DoneIsClosed(phases, done)
    ensures Counted(phases, done + {current}, indegree) && ReadyList(phases, done + {current}, ready)
  {
    indegree, ready := indegree0, ready0;
    for k := 0 to |dependants|
      invariant MidStep(phases, done, current, indegree, ready, dependants[..k])
    {
      DependantWaits(phases, done, current, indegree, ready, dependants, k);
      TakeMore(dependants, k);
      indegree, ready := ReleaseOne(phases, done, current, dependants[..k], dependants[k], indegree, ready);
    }
    TakeAll(dependants);
    MidEnd(phases, done, current, indegree, ready, dependants);
  }

  lemma GreedyExtends(phases: Phases, order: seq<string>, id: string)
    requires Greedy(phases, order) && IsNext(phases, Elements(order), id)
    ensures Greedy(phases, order + [id])
    ensures Elements(order + [id]) == Elements(order) + {id}
  {
    var longer := order + [id];
    forall i | 0 <= i < |longer| ensures IsNext(phases, Elements(longer[..i]), longer[i]) {
      assert longer[..i] == order[..i];
      if i == |order| {
        assert order[..i] == order;
      } else {
        assert IsNext(phases, Elements(order[..i]), order[i]);
      }
    }
  }

  /** Whatever is done was ordered after everything it depends on. */
  lemma OrderedIsClosed(phases: Phases, order: seq<string>)
    requires Greedy(phases, order)
    ensures DoneIsClosed(phases, Elements(order))
  {
    GreedyIsTopological(phases, order);
    forall d | d in Elements(order) ensures d in phases && Elements(phases[d].after) <= Elements(order) {
      var i :| 0 <= i < |order| && order[i] == d;
      assert Elements(order[..i]) <= Elements(order);
    }
  }

  /** A list without repeats that covers the phases is as long as there are phases, and only then. */
  lemma {:induction false} CountDistinct(order: seq<string>, nodes: set<string>)
    requires NoRepeats(order) && Elements(order) <= nodes
    ensures |order| == |nodes| <==> Elements(order) == nodes
    ensures |order| <= |nodes|
    decreases |order|
  {
    if order == [] {
      assert Elements(order) == {};
    } else {
      var n := |order| - 1;
      assert order == order[..n] + [order[n]];
      assert Elements(order) == Elements(order[..n]) + {order[n]};
      assert order[n] !in order[..n];
      CountDistinct(order[..n], nodes - {order[n]});
    }
  }

  /** Where the main loop stands: what is ordered so far, and who is ready next. */
  ghost predicate Progress(phases: Phases, order: seq<string>, indegree: map<string, int>, ready: seq<string>) {
    && Greedy(phases, order) && NoRepeats(order) && Elements(order) <= phases.Keys
    && Counted(phases, Elements(order), indegree) && ReadyList(phases, Elements(order), ready)
  }

  /** One round of the main loop: the first ready phase is ordered and its dependants released. */
  method OrderNext(phases: Phases, out: map<string, seq<string>>, order0: seq<string>, indegree0: map<string, int>,
                   ready0: seq<string>)
    returns (order: seq<string>, indegree: map<string, int>, ready: seq<string>)
    requires OutEdges(phases, out) && ready0 != [] && Progress(phases, order0, indegree0, ready0)
    ensures Progress(phases, order, indegree, ready) && order == order0 + [ready0[0]]
  {
    var current := ready0[0];
    ghost var done := Elements(order0);
    MidStart(phases, done, indegree0, ready0);
    OrderedIsClosed(phases, order0);
    GreedyExtends(phases, order0, current);
    GreedyIsTopological(phases, order0 + [current]);
    indegree, ready := Release(phases, done, current, out[current], indegree0, ready0[1..]);
    order := order0 + [current];
  }

  /** With nobody ready, either everything is ordered or there is a cycle. */
  lemma Finished(phases: Phases, order: seq<string>, indegree: map<string, int>)
    requires KnownDependencies(phases) && Progress(phases, order, indegree, [])
    ensures |order| == |phases| <==> !Cyclic(PhaseGraph(phases))
    ensures |order| == |phases| ==> Covers(phases, order)
  {
    CountDistinct(order, phases.Keys);
    GreedyIsTopological(phases, order);
    if |order| == |phases| {
      OrderedIsAcyclic(phases, order);
    } else {
      forall id ensures !Ready(phases, Elements(order), id) {
        assert id !in [];
      }
      assert |phases| == |phases.Keys|;
      var missing :| missing in phases.Keys && missing !in Elements(order);
      assert missing in phases.Keys - Elements(order);
      BlockedIsCyclic(phases, Elements(order));
    }
  }

  lemma ProgressBounded(phases: Phases, order: seq<string>, indegree: map<string, int>, ready: seq<string>)
    requires Progress(phases, order, indegree, ready)
    ensures |order| <= |phases|
  {
    CountDistinct(order, phases.Keys);
  }

  /**
   * The order of the phases: the unique greedy one. It fails exactly when a
   * dependency is unknown or the dependencies are cyclic.
   */
  method SortedPhases(phases: Phases) returns (r: Result<seq<string>, CompileError>)
    requires Registered(phases)
    ensures r == Err(UnknownPhase) <==> !KnownDependencies(phases)
    ensures r == Err(PhaseCycle) <==> KnownDependencies(phases) && Cyclic(PhaseGraph(phases))
    ensures r.Err? ==> r.error in {UnknownPhase, PhaseCycle}
    ensures r.Ok? ==> Greedy(phases, r.value) && Covers(phases, r.value) && NoRepeats(r.value)
  {
    var known, indegree, out := CountDependencies(phases);
    if !known {
      return Err(UnknownPhase);
    }
    var ready := FirstReady(phases, indegree);
    var order: seq<string> := [];
    assert Elements(order) == {};
    while |ready| > 0
      invariant |order| <= |phases| && Progress(phases, order, indegree, ready)
      decreases |phases| - |order|
    {
      order, indegree, ready := OrderNext(phases, out, order, indegree, ready);
      ProgressBounded(phases, order, indegree, ready);
    }
    assert ready == [];
    Finished(phases, order, indegree);
    if |order| != |phases| {
      return Err(PhaseCycle);
    }
    return Ok(order);
  }
}
