// Registering phases and systems.
module Builder {
  import opened SchedulerTypes
  import PhaseOrder
  import WaveCompiler

  class Builder {
    var phases: Phases
    var phaseOrder: seq<string>
    var systems: map<string, SystemDef>
    var nextOrder: nat

    /** Phases are filed under their id in registration order; system orders are distinct everywhere. */
    ghost predicate Valid()
      reads this
    {
      && phases.Keys == Elements(phaseOrder)
      && (forall i, j :: 0 <= i < j < |phaseOrder| ==> phaseOrder[i] != phaseOrder[j])
      && (forall i :: 0 <= i < |phaseOrder| ==>
          phaseOrder[i] != "" && phases[phaseOrder[i]].id == phaseOrder[i] && phases[phaseOrder[i]].order == i)
      && systems == map[]
      && (forall p :: p in phases ==>
          OrdersBelow(phases[p].systems, nextOrder) && WaveCompiler.DistinctOrders(phases[p].systems))
    }

    constructor ()
      ensures Valid() && phases == map[] && nextOrder == 0
    {
      phases, phaseOrder, systems, nextOrder := map[], [], map[], 0;
    }

    method AddPhase(id: string, after: seq<string>) returns (ok: bool)
      requires Valid()
      modifies this
      ensures Valid() && nextOrder == old(nextOrder)
      ensures ok <==> id != "" && id !in old(phases)
      ensures phases == if ok then old(phases)[id := PhaseDef(id, after, |old(phaseOrder)|, [])] else old(phases)
      ensures phaseOrder == if ok then old(phaseOrder) + [id] else old(phaseOrder)
    {
      if id == "" || id in phases {
        return false;
      }
      forall i | 0 <= i < |phaseOrder| ensures phaseOrder[i] in phases {
        assert phaseOrder[i] in Elements(phaseOrder);
      }
      phases := phases[id := PhaseDef(id, after, |phaseOrder|, [])];
      phaseOrder := phaseOrder + [id];
      ok := true;
    }

    /**
     * The duplicate check reads a map that nothing ever fills: an id that is
     * already registered, in this phase or another, is accepted again.
     */
    method AddSystem(phase: string, id: string, access: AccessSpec, after: seq<string>, before: seq<string>)
        returns (ok: bool)
      requires Valid()
      modifies this
      ensures Valid() && phaseOrder == old(phaseOrder)
      ensures ok <==> phase in old(phases) && id != "" && Sensible(access)
      ensures ok ==> nextOrder == old(nextOrder) + 1
      ensures ok ==> phases == old(phases)[phase := old(phases)[phase].(
                systems := old(phases)[phase].systems + [SystemDef(id, access, after, before, old(nextOrder))])]
      ensures !ok ==> phases == old(phases) && nextOrder == old(nextOrder)
    {
      ValidatesExactly(access);
      if phase !in phases || id == "" || id in systems || !access.Validate() {
        return false;
      }
      var def := SystemDef(id, access, after, before, nextOrder);
      forall i | 0 <= i < |phaseOrder| ensures phaseOrder[i] in phases {
        assert phaseOrder[i] in Elements(phaseOrder);
      }
      nextOrder := nextOrder + 1;
      phases := phases[phase := phases[phase].(systems := phases[phase].systems + [def])];
      ok := true;
    }
  }

  ghost predicate OrdersBelow(systems: seq<SystemDef>, bound: nat) {
    forall k :: 0 <= k < |systems| ==> systems[k].order < bound
  }

  /** What compilation needs of a builder. */
  lemma ValidIsRegistered(b: Builder)
    requires b.Valid()
    ensures PhaseOrder.Registered(b.phases)
  {
    forall x, y | x in b.phases && y in b.phases && x != y ensures b.phases[x].order != b.phases[y].order {
      assert x in Elements(b.phaseOrder) && y in Elements(b.phaseOrder);
      var i :| 0 <= i < |b.phaseOrder| && b.phaseOrder[i] == x;
      var j :| 0 <= j < |b.phaseOrder| && b.phaseOrder[j] == y;
    }
    forall x | x in b.phases ensures b.phases[x].id == x {
      assert x in Elements(b.phaseOrder);
      var i :| 0 <= i < |b.phaseOrder| && b.phaseOrder[i] == x;
    }
  }
}
