// Which of its targets the crafting behavior works on, round after round.
module CraftDecision {
  import opened Options
  import opened Sequences
  import opened CraftRegistry
  import opened CraftPlanning
  import opened CraftSemantics
  import opened CraftSoundness
  import opened CraftExactness
  import opened CraftReplanning
  import opened CraftPlanner

  const TARGETS: seq<string> := [CRAFTING_TABLE, "wooden_pickaxe", "wooden_axe", "stone_pickaxe", "wooden_sword"]

  /** A target that is held, or that nothing can be done about. */
  ghost predicate Skipped(reg: Registry, items: Counts, target: string) {
    items(target) >= 1 || Steps(reg, items, target) == []
  }

  /** The place of the first target to work on; the number of targets when there is none. */
  ghost function Choice(reg: Registry, items: Counts, targets: seq<string>): (k: nat)
    ensures k <= |targets|
    ensures k < |targets| ==> !Skipped(reg, items, targets[k])
    ensures forall j :: 0 <= j < k ==> Skipped(reg, items, targets[j])
  {
    if targets == [] || !Skipped(reg, items, targets[0]) then 0
    else 1 + Choice(reg, items, targets[1..])
  }

  // ------------------------------------------------------------ the decision

  /** Some stack has this name, be it empty. */
  ghost predicate HasStack(slots: seq<InventorySlot>, name: string) {
    exists i :: 0 <= i < |slots| && IsStack(slots[i], name)
  }

  predicate IsStack(slot: InventorySlot, name: string) {
    slot.item.Some? && slot.item.value.name == name
  }

  /** Some stack of this name holds something. */
  ghost predicate HasRealStack(slots: seq<InventorySlot>, name: string) {
    exists i :: 0 <= i < |slots| && IsStack(slots[i], name) && slots[i].item.value.count > 0
  }

  /** An item counts as held exactly when it has a name and some stack of it holds something. */
  lemma {:induction false} HeldMeansRealStack(slots: seq<InventorySlot>, name: string)
    ensures Held(slots, name) >= 1 <==> name != "" && HasRealStack(slots, name)
  {
    if slots != [] {
      var rest := slots[1..];
      HeldMeansRealStack(rest, name);
      HeldNonNegative(rest, name);
      if HasRealStack(rest, name) {
        var i :| 0 <= i < |rest| && IsStack(rest[i], name) && rest[i].item.value.count > 0;
        assert slots[i + 1] == rest[i];
      }
      if HasRealStack(slots, name) {
        var i :| 0 <= i < |slots| && IsStack(slots[i], name) && slots[i].item.value.count > 0;
        assert i > 0 ==> rest[i - 1] == slots[i];
      }
    }
  }

  method HasItem(slots: seq<InventorySlot>, name: string) returns (has: bool)
    ensures has <==> HasStack(slots, name)
  {
    for i := 0 to |slots|
      invariant forall j :: 0 <= j < i ==> !IsStack(slots[j], name)
    {
      if slots[i].item.Some? && slots[i].item.value.name == name {
        return true;
      }
    }
    has := false;
  }

  /** A target the decision passes over: an empty stack of it is enough. */
  ghost predicate PassedOver(reg: Registry, slots: seq<InventorySlot>, target: string) {
    HasStack(slots, target) || Steps(reg, HeldCounts(slots), target) == []
  }

  ghost function Decided(reg: Registry, slots: seq<InventorySlot>, targets: seq<string>): (k: nat)
    ensures k <= |targets|
    ensures k < |targets| ==> !PassedOver(reg, slots, targets[k])
    ensures forall j :: 0 <= j < k ==> PassedOver(reg, slots, targets[j])
  {
    if targets == [] || !PassedOver(reg, slots, targets[0]) then 0
    else 1 + Decided(reg, slots, targets[1..])
  }

  /** The first step towards the first target that is not passed over, if there is one. */
  method CraftStepNow(reg: Registry, targets: seq<string>, slots: seq<InventorySlot>) returns (step: Option<CraftStep>)
    ensures var k := Decided(reg, slots, targets);
      step == if k < |targets| then Some(Steps(reg, HeldCounts(slots), targets[k])[0]) else None
  {
    for k := 0 to |targets|
      invariant forall j :: 0 <= j < k ==> PassedOver(reg, slots, targets[j])
    {
      var has := HasItem(slots, targets[k]);
      if !has {
        var steps := CraftSteps(reg, targets[k], slots);
        if |steps| != 0 {
          return Some(steps[0]);
        }
      }
    }
    step := None;
  }

  /**
   * The decision takes the first target that is not held and can be reached
   * exactly when there is no stack of that target. It would be an empty one:
   * the planner does not count it, and the decision does.
   */
  lemma DecidedIsChoice(reg: Registry, slots: seq<InventorySlot>, targets: seq<string>)
    ensures var k := Choice(reg, HeldCounts(slots), targets);
      && (Decided(reg, slots, targets) == k <==> k == |targets| || !HasStack(slots, targets[k]))
      && Decided(reg, slots, targets) >= k
  {
    var k := Choice(reg, HeldCounts(slots), targets);
    forall j | 0 <= j < k ensures PassedOver(reg, slots, targets[j]) {
      HeldMeansRealStack(slots, targets[j]);
    }
    if k < |targets| && HasStack(slots, targets[k]) {
      assert PassedOver(reg, slots, targets[k]);
    }
  }

  /** With planks for a table and an empty stack of tables, the decision goes past the table it could craft. */
  lemma EmptyStackMisleads()
    ensures var slots := [InventorySlot(Some(ItemStack("oak_planks", 4))),
      InventorySlot(Some(ItemStack(CRAFTING_TABLE, 0)))];
      Choice(Recipes(), HeldCounts(slots), TARGETS) == 0 && Decided(Recipes(), slots, TARGETS) > 0
  {
    var planks, table := InventorySlot(Some(ItemStack("oak_planks", 4))),
        InventorySlot(Some(ItemStack(CRAFTING_TABLE, 0)));
    var slots, items := [planks, table], HeldCounts([planks, table]);
    HeldInTwo(planks, table, "oak_planks");
    HeldInTwo(planks, table, CRAFTING_TABLE);
    assert items("oak_planks") == 4 && items(CRAFTING_TABLE) == 0;
    assert IsStack(slots[1], CRAFTING_TABLE);
    TableFromPlanks(items);
    DecidedIsChoice(Recipes(), slots, TARGETS);
  }

  lemma HeldInTwo(a: InventorySlot, b: InventorySlot, name: string)
    ensures Held([a, b], name) == SlotHolds(a, name) + SlotHolds(b, name)
  {
    assert [a, b][1..] == [b] && [b][1..] == [];
    assert Held([], name) == 0;
    assert Held([b], name) == SlotHolds(b, name) + Held([b][1..], name);
  }

  lemma TableFromPlanks(items: Counts)
    requires items("oak_planks") == 4 && items(CRAFTING_TABLE) == 0
    ensures Steps(Recipes(), items, CRAFTING_TABLE) == [CraftStep(CRAFTING_TABLE, 1, false)]
  {
    var reg, recipe := Recipes(), Recipes()[CRAFTING_TABLE];
    var planks, stack := recipe.ingredients, {CRAFTING_TABLE};
    assert planks == [Ingredient("oak_planks", 4)] && planks[1..] == [] && Tools(recipe) == [];
    assert DivideRoundUp(1, 1) == 1;
    assert Plan(reg, stack, items, "oak_planks", 4) == Planned(true, items, []);
    HeadThenOthers(reg, stack, items, planks, 1);
    assert PlanIngredients(reg, stack, items, planks, 1).ok
        && PlanIngredients(reg, stack, items, planks, 1).steps == [];
    assert PlanParts(reg, stack, items, recipe, 1).ok && PlanParts(reg, stack, items, recipe, 1).steps == [];
    assert {} + {CRAFTING_TABLE} == stack;
  }

  // --------------------------------------------------------------- stability

  ghost predicate NeverConsumed(reg: Registry, targets: seq<string>) {
    forall j :: 0 <= j < |targets| ==> !IsIngredient(reg, targets[j])
  }

  lemma {:induction false} KeptByRun(reg: Registry, items: Counts, crafts: seq<string>, name: string)
    requires Runs(reg, items, crafts) && !IsIngredient(reg, name)
    ensures Net(reg, crafts, name) >= 0
  {
    if crafts != [] {
      NotConsumed(reg, crafts[0], name);
      KeptByRun(reg, Crafted(reg, items, crafts[0]), crafts[1..], name);
    }
  }

  /** What a run of crafts leaves out of reach was out of reach before it. */
  lemma ReachedBefore(reg: Registry, items: Counts, crafts: seq<string>, more: seq<string>, target: string)
    requires Runs(reg, items, crafts) && Reaches(reg, End(reg, items, crafts), target, more)
    ensures Reaches(reg, items, target, crafts + more)
  {
    RunsOn(reg, items, crafts, End(reg, items, crafts), more);
    NetAppend(reg, crafts, more, target);
  }

  /** Crafting brings no skipped target back: held ones stay held, and no way to one opens. */
  lemma SkippedStays(reg: Registry, items: Counts, crafts: seq<string>, target: string)
    requires Acyclic(reg) && ToolsKept(reg) && NonNegative(items) && !IsIngredient(reg, target)
    requires Runs(reg, items, crafts) && Skipped(reg, items, target)
    ensures Skipped(reg, End(reg, items, crafts), target)
    ensures items(target) >= 1 ==> End(reg, items, crafts)(target) >= 1
  {
    var after := End(reg, items, crafts);
    KeptByRun(reg, items, crafts, target);
    RunsNonNegative(reg, items, crafts);
    if !Skipped(reg, after, target) {
      PlannerIsExact(reg, after, target);
      var more :| Reaches(reg, after, target, more);
      ReachedBefore(reg, items, crafts, more, target);
      PlannerIsExact(reg, items, target);
      assert false;
    }
  }

  /** The counts after the first step towards the chosen target; none is taken when there is no choice. */
  ghost function Worked(reg: Registry, items: Counts, targets: seq<string>): Counts {
    var k := Choice(reg, items, targets);
    if k == |targets| then items else End(reg, items, Expand([Steps(reg, items, targets[k])[0]]))
  }

  lemma FirstStepRuns(reg: Registry, items: Counts, target: string)
    requires Acyclic(reg) && ToolsKept(reg) && NonNegative(items) && Steps(reg, items, target) != []
    ensures Runs(reg, items, Expand([Steps(reg, items, target)[0]]))
  {
    var steps := Steps(reg, items, target);
    StepsCanBeCarriedOut(reg, items, target);
    assert steps == [steps[0]] + steps[1..];
    ExpandAppend([steps[0]], steps[1..]);
    RunsPrefix(reg, items, Expand([steps[0]]), Expand(steps[1..]));
  }

  /**
   * One round: the choice never goes back, and the target worked on stays the
   * choice, with the rest of its plan, until its last step makes it held.
   */
  lemma ChoiceStays(reg: Registry, items: Counts, targets: seq<string>)
    requires Acyclic(reg) && ToolsKept(reg) && NonNegative(items) && NeverConsumed(reg, targets)
    requires Choice(reg, items, targets) < |targets|
    ensures var k, after := Choice(reg, items, targets), Worked(reg, items, targets);
      var steps := Steps(reg, items, targets[k]);
      && NonNegative(after) && Choice(reg, after, targets) >= k
      && if |steps| == 1 then after(targets[k]) >= 1 && Choice(reg, after, targets) > k
         else after(targets[k]) < 1 && Choice(reg, after, targets) == k && Steps(reg, after, targets[k]) == steps[1..]
  {
    var k, after := Choice(reg, items, targets), Worked(reg, items, targets);
    var steps := Steps(reg, items, targets[k]);
    FirstStepRuns(reg, items, targets[k]);
    FirstStepKeepsNonNegative(reg, items, targets[k]);
    ReplanningIsStable(reg, items, targets[k]);
    forall j | 0 <= j < k ensures Skipped(reg, after, targets[j]) {
      SkippedStays(reg, items, Expand([steps[0]]), targets[j]);
    }
    if |steps| == 1 {
      LastStepYields(reg, items, targets[k]);
    } else {
      StepsCanBeCarriedOut(reg, after, targets[k]);
    }
  }

  /** The counts after `rounds` rounds of deciding afresh and carrying out only the step decided on. */
  ghost function WorkedFor(reg: Registry, items: Counts, targets: seq<string>, rounds: nat): Counts {
    if rounds == 0 then items else WorkedFor(reg, Worked(reg, items, targets), targets, rounds - 1)
  }

  /** Target k has been worked on by the first `rounds` of these steps, and is the choice until they are done. */
  ghost predicate Pursued(reg: Registry, targets: seq<string>, k: nat, steps: seq<CraftStep>, rounds: nat,
                          after: Counts)
    requires k < |targets| && rounds <= |steps|
  {
    && (rounds < |steps| ==> Choice(reg, after, targets) == k && Steps(reg, after, targets[k]) == steps[rounds..])
    && (after(targets[k]) >= 1 <==> rounds == |steps|)
    && (rounds == |steps| ==> Choice(reg, after, targets) > k)
  }

  lemma PursuedFromNext(reg: Registry, targets: seq<string>, k: nat, steps: seq<CraftStep>, rounds: nat, after: Counts)
    requires k < |targets| && 0 < rounds <= |steps| && Pursued(reg, targets, k, steps[1..], rounds - 1, after)
    ensures Pursued(reg, targets, k, steps, rounds, after)
  {
    DropOfTail(steps, rounds);
  }

  /** The first round, and what is left to do after it. */
  lemma FirstRoundOf(reg: Registry, items: Counts, targets: seq<string>, k: nat, steps: seq<CraftStep>)
    requires Acyclic(reg) && ToolsKept(reg) && NonNegative(items) && NeverConsumed(reg, targets)
    requires k < |targets| && Choice(reg, items, targets) == k && Steps(reg, items, targets[k]) == steps
    ensures steps != [] && Pursued(reg, targets, k, steps, 0, items)
    ensures var next := Worked(reg, items, targets);
      && NonNegative(next)
      && if |steps| == 1 then Pursued(reg, targets, k, steps, 1, next)
         else Choice(reg, next, targets) == k && Steps(reg, next, targets[k]) == steps[1..]
  {
    ChoiceStays(reg, items, targets);
    StepsCanBeCarriedOut(reg, items, targets[k]);
  }

  lemma {:induction false} Pursues(reg: Registry, items: Counts, targets: seq<string>, k: nat, steps: seq<CraftStep>,
                                   rounds: nat)
    requires Acyclic(reg) && ToolsKept(reg) && NonNegative(items) && NeverConsumed(reg, targets)
    requires k < |targets| && Choice(reg, items, targets) == k && Steps(reg, items, targets[k]) == steps
    requires rounds <= |steps|
    ensures Pursued(reg, targets, k, steps, rounds, WorkedFor(reg, items, targets, rounds))
    decreases rounds
  {
    FirstRoundOf(reg, items, targets, k, steps);
    if rounds > 0 {
      var next := Worked(reg, items, targets);
      if |steps| > 1 {
        Pursues(reg, next, targets, k, steps[1..], rounds - 1);
        PursuedFromNext(reg, targets, k, steps, rounds, WorkedFor(reg, next, targets, rounds - 1));
      } else {
        assert WorkedFor(reg, next, targets, 0) == next;
      }
    }
  }

  /**
   * The chosen target is worked on round after round, by the steps of its first plan, and is held
   * exactly when they are all done.
   */
  lemma ChoiceIsFinished(reg: Registry, items: Counts, targets: seq<string>, rounds: nat)
    requires Acyclic(reg) && ToolsKept(reg) && NonNegative(items) && NeverConsumed(reg, targets)
    requires Choice(reg, items, targets) < |targets|
    requires rounds <= |Steps(reg, items, targets[Choice(reg, items, targets)])|
    ensures var k := Choice(reg, items, targets);
      Pursued(reg, targets, k, Steps(reg, items, targets[k]), rounds, WorkedFor(reg, items, targets, rounds))
  {
    var k := Choice(reg, items, targets);
    Pursues(reg, items, targets, k, Steps(reg, items, targets[k]), rounds);
  }

  // --------------------------------------------------- decisions carried out

  lemma StepsAlike(reg: Registry, a: Counts, b: Counts, target: string)
    requires Same(a, b)
    ensures Steps(reg, a, target) == Steps(reg, b, target)
    ensures Skipped(reg, a, target) <==> Skipped(reg, b, target)
  {
    PlanAlike(reg, {}, a, b, target, 1);
    assert a(target) == b(target);
  }

  lemma ChoiceAlike(reg: Registry, a: Counts, b: Counts, targets: seq<string>)
    requires Same(a, b)
    ensures Choice(reg, a, targets) == Choice(reg, b, targets)
  {
    forall j | 0 <= j < |targets| ensures Skipped(reg, a, targets[j]) <==> Skipped(reg, b, targets[j]) {
      StepsAlike(reg, a, b, targets[j]);
    }
  }

  /** The next inventory holds what carrying out the step decided on makes of this one, in whatever stacks. */
  ghost predicate CarriedOut(reg: Registry, targets: seq<string>, slots: seq<InventorySlot>, next: seq<InventorySlot>) {
    var k := Decided(reg, slots, targets);
    k < |targets| ==>
      Same(HeldCounts(next), End(reg, HeldCounts(slots), Expand([Steps(reg, HeldCounts(slots), targets[k])[0]])))
  }

  ghost predicate AllCarriedOut(reg: Registry, targets: seq<string>, inventories: seq<seq<InventorySlot>>) {
    |inventories| <= 1 ||
      (CarriedOut(reg, targets, inventories[0], inventories[1]) && AllCarriedOut(reg, targets, inventories[1..]))
  }

  /** Every round but the last decides on target k. */
  ghost predicate AlwaysDecides(reg: Registry, targets: seq<string>, k: nat, inventories: seq<seq<InventorySlot>>) {
    |inventories| <= 1 || (Decided(reg, inventories[0], targets) == k
                           && AlwaysDecides(reg, targets, k, inventories[1..]))
  }

  /** In no round but the last is there a stack of this name. */
  ghost predicate NeverStacked(name: string, inventories: seq<seq<InventorySlot>>) {
    |inventories| <= 1 || (!HasStack(inventories[0], name) && NeverStacked(name, inventories[1..]))
  }

  lemma HeldCountsNonNegative(slots: seq<InventorySlot>)
    ensures NonNegative(HeldCounts(slots))
  {
    forall n ensures HeldCounts(slots)(n) >= 0 {
      HeldNonNegative(slots, n);
    }
  }

  /** Carrying out a decision for the choice leaves the inventory where the choice stays, or its target held. */
  lemma CarriedOutStays(reg: Registry, targets: seq<string>, k: nat, slots: seq<InventorySlot>,
                        next: seq<InventorySlot>)
    requires Acyclic(reg) && ToolsKept(reg) && NeverConsumed(reg, targets) && k < |targets|
    requires Choice(reg, HeldCounts(slots), targets) == k == Decided(reg, slots, targets)
    requires CarriedOut(reg, targets, slots, next)
    ensures var steps, after := Steps(reg, HeldCounts(slots), targets[k]), HeldCounts(next);
      && steps != []
      && if |steps| == 1 then after(targets[k]) >= 1
         else Choice(reg, after, targets) == k && Steps(reg, after, targets[k]) == steps[1..]
  {
    var worked := Worked(reg, HeldCounts(slots), targets);
    HeldCountsNonNegative(slots);
    ChoiceStays(reg, HeldCounts(slots), targets);
    ChoiceAlike(reg, HeldCounts(next), worked, targets);
    StepsAlike(reg, HeldCounts(next), worked, targets[k]);
  }

  /**
   * Whatever stacks they come in, inventories that follow the decisions: the
   * target that is the choice at first stays decided on for as many rounds as
   * its plan has steps exactly when no stack of it, which would be empty,
   * turns up before; and then it is held at the end.
   */
  lemma {:induction false} DecisionStays(reg: Registry, targets: seq<string>, k: nat, steps: seq<CraftStep>,
                                         inventories: seq<seq<InventorySlot>>)
    requires Acyclic(reg) && ToolsKept(reg) && NeverConsumed(reg, targets)
    requires |inventories| == |steps| + 1 > 1 && AllCarriedOut(reg, targets, inventories)
    requires k < |targets| && Choice(reg, HeldCounts(inventories[0]), targets) == k
    requires Steps(reg, HeldCounts(inventories[0]), targets[k]) == steps
    ensures AlwaysDecides(reg, targets, k, inventories) <==> NeverStacked(targets[k], inventories)
    ensures AlwaysDecides(reg, targets, k, inventories) ==> HeldCounts(inventories[|steps|])(targets[k]) >= 1
    decreases |steps|
  {
    var slots, later := inventories[0], inventories[1..];
    DecidedIsChoice(reg, slots, targets);
    if Decided(reg, slots, targets) == k {
      CarriedOutStays(reg, targets, k, slots, later[0]);
      if |steps| > 1 {
        DecisionStays(reg, targets, k, steps[1..], later);
      }
    }
  }

  /** The behavior's targets are never ingredients of the static recipes. */
  lemma StaticTargetsQualify()
    ensures NeverConsumed(Recipes(), TARGETS) && "" !in TARGETS
  {
    forall j | 0 <= j < |TARGETS| ensures !IsIngredient(Recipes(), TARGETS[j]) {
      if IsIngredient(Recipes(), TARGETS[j]) {
        var item, k :| item in Recipes() && 0 <= k < |Recipes()[item].ingredients|
            && Recipes()[item].ingredients[k].itemName == TARGETS[j];
        StaticIngredients(item, k);
        assert false;
      }
    }
  }
}
