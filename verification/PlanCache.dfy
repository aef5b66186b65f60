// The bounded memory of plans that failed or completed.
module PlanCache {
  import opened ControllerTypes

  const CAPACITY := 16

  datatype ExitReason = ExitNone | ExitCompleted | ExitCancelled | ExitFailed

  datatype Plan = Plan(goal: GoalType, action: Action, target: GoalTarget, reason: ExitReason, correlation: nat,
                       hash: nat, craftCount: int, placeItem: string)

  const NO_PLAN := Plan(Idle, NoAction, NO_TARGET, ExitNone, 0, 0, 0, "")

  /** The newest plans, oldest first. */
  type History = h: seq<Plan> | |h| <= CAPACITY

  function Newest(plans: seq<Plan>): History {
    if |plans| <= CAPACITY then plans else plans[|plans| - CAPACITY..]
  }

  /** Once full, the oldest plan makes room. */
  function Remember(h: History, plan: Plan): History {
    if |h| == CAPACITY then h[1..] + [plan] else h + [plan]
  }

  function RememberAll(h: History, plans: seq<Plan>): History {
    if plans == [] then h else Remember(RememberAll(h, plans[..|plans| - 1]), plans[|plans| - 1])
  }

  /** After any plans were added, the cache holds the newest sixteen of all of them. */
  lemma {:induction false} CacheIsTheNewest(h: History, plans: seq<Plan>)
    ensures RememberAll(h, plans) == Newest(h + plans)
  {
    if plans == [] {
      assert h + plans == h;
    } else {
      var n := |plans| - 1;
      CacheIsTheNewest(h, plans[..n]);
      assert h + plans == (h + plans[..n]) + [plans[n]];
    }
  }

  class FailedPlanCache {
    const entries: array<Plan>
    var count: nat

    ghost predicate Valid()
      reads this
    {
      entries.Length == CAPACITY
    }

    constructor ()
      ensures Valid() && fresh(entries) && Contents() == []
    {
      entries := new Plan[CAPACITY](_ => NO_PLAN);
      count := 0;
    }

    /** The number of valid entries, whatever the count says. */
    function Len(): (n: nat)
      reads this
      ensures n <= CAPACITY
    {
      if count > CAPACITY then CAPACITY else count
    }

    ghost function Contents(): History
      requires Valid()
      reads this, entries
    {
      entries[..Len()]
    }

    /** A full cache shifts down by one in place. */
    method Add(plan: Plan)
      requires Valid()
      modifies this, entries
      ensures Valid() && Contents() == Remember(old(Contents()), plan)
    {
      var n := Len();
      if n == CAPACITY {
        for k := 0 to CAPACITY - 1
          invariant forall j :: 0 <= j < k ==> entries[j] == old(entries[j + 1])
          invariant forall j :: k <= j < CAPACITY ==> entries[j] == old(entries[j])
        {
          entries[k] := entries[k + 1];
        }
        entries[CAPACITY - 1] := plan;
        count := CAPACITY;
        assert Contents() == Remember(old(Contents()), plan);
      } else {
        entries[n] := plan;
        count := n + 1;
      }
    }
  }
}
