// The mutable planner and its entry points, proved against CraftPlanning.
module CraftPlanner {
  import opened Options
  import opened Sequences
  import opened CraftRegistry
  import opened CraftPlanning
  import CraftExactness
  import CraftReplanning

  datatype ItemStack = ItemStack(name: string, count: int)

  /** A slot of the inventory; an empty slot holds no item. */
  datatype InventorySlot = InventorySlot(item: Option<ItemStack>)

  ghost function Of(items: map<string, int>): Counts {
    n => if n in items then items[n] else 0
  }

  function GetOr(items: map<string, int>, name: string): int {
    if name in items then items[name] else 0
  }

  /** How many of `name` the slots hold; unnamed and non-positive stacks are ignored. */
  ghost function Held(slots: seq<InventorySlot>, name: string): int {
    if slots == [] then 0 else SlotHolds(slots[0], name) + Held(slots[1..], name)
  }

  ghost function SlotHolds(slot: InventorySlot, name: string): (n: int)
    ensures n >= 0
  {
    if slot.item.Some? && slot.item.value.name == name && name != "" && slot.item.value.count > 0
    then slot.item.value.count else 0
  }

  /** What is held of a name is held in its slots one by one. */
  lemma {:induction false} HeldAdds(a: seq<InventorySlot>, b: seq<InventorySlot>, name: string)
    ensures Held(a + b, name) == Held(a, name) + Held(b, name)
  {
    if a == [] {
      AppendNothing(b);
    } else {
      TailOfAppend(a, b);
      HeldAdds(a[1..], b, name);
    }
  }

  /** A single slot holds its stack, if that has a name and holds something. */
  lemma HeldOne(slot: InventorySlot, name: string)
    ensures Held([slot], name) ==
      if slot.item.Some? && name != "" && slot.item.value.name == name && slot.item.value.count > 0
      then slot.item.value.count else 0
  {
    assert [slot][1..] == [];
  }

  ghost function HeldCounts(slots: seq<InventorySlot>): Counts {
    n => Held(slots, n)
  }

  class Planner {
    const reg: Registry
    var items: map<string, int>
    var steps: seq<CraftStep>
    var stack: set<string>

    constructor (reg: Registry, items: map<string, int>)
      ensures this.reg == reg && this.items == items && steps == [] && stack == {}
    {
      this.reg, this.items, steps, stack := reg, items, [], {};
    }

    /** The planner's counts and appended steps are the ones in `p`. */
    ghost predicate Shows(before: seq<CraftStep>, p: Planned)
      reads this
    {
      steps == before + p.steps && CraftReplanning.Same(Of(items), p.items)
    }

    method Plan(target: string, required: int) returns (ok: bool)
      modifies this
      ensures stack == old(stack)
      ensures ok == CraftPlanning.Plan(reg, stack, Of(old(items)), target, required).ok
      ensures Shows(old(steps), CraftPlanning.Plan(reg, stack, Of(old(items)), target, required))
      decreases reg.Keys - stack, 1, 0
    {
      if required <= 0 || GetOr(items, target) >= required {
        return true;
      }
      if target in stack {
        return false;
      }
      if target !in reg || reg[target].outputCount <= 0 {
        return false;
      }
      ok := PlanFresh(target, required);
    }

    /** The target has a recipe, is too few and is not being planned already. */
    method PlanFresh(target: string, required: int) returns (ok: bool)
      requires target in reg && reg[target].outputCount > 0 && target !in stack
      requires required > 0 && GetOr(items, target) < required
      modifies this
      ensures stack == old(stack)
      ensures ok == CraftPlanning.Plan(reg, stack, Of(old(items)), target, required).ok
      ensures Shows(old(steps), CraftPlanning.Plan(reg, stack, Of(old(items)), target, required))
      decreases reg.Keys - stack, 0, 0
    {
      var recipe := reg[target];
      var crafts := DivideRoundUp(required - GetOr(items, target), recipe.outputCount);
      ghost var inner := PlanParts(reg, stack + {target}, Of(items), recipe, crafts);
      stack := stack + {target};
      ok := PlanRecipe(target, recipe, crafts);
      stack := stack - {target};
      if ok {
        AddedCounts(items, inner.items, target, recipe.outputCount * crafts);
        AppendAppend(old(steps), inner.steps, [CraftStep(target, crafts, recipe.needsTable)]);
        items := items[target := GetOr(items, target) + recipe.outputCount * crafts];
        steps := steps + [CraftStep(target, crafts, recipe.needsTable)];
      }
    }

    /** The table, the prerequisites and the ingredients of `crafts` crafts of `target`. */
    method PlanRecipe(target: string, recipe: Recipe, crafts: int) returns (ok: bool)
      requires target in stack && target in reg
      modifies this
      ensures stack == old(stack)
      ensures ok == PlanParts(reg, stack, Of(old(items)), recipe, crafts).ok
      ensures Shows(old(steps), PlanParts(reg, stack, Of(old(items)), recipe, crafts))
      decreases reg.Keys - stack, 3, 0
    {
      ghost var before, start := steps, Of(items);
      ghost var tools := PlanTools(reg, stack, start, Tools(recipe));
      ok := PlanAllTools(recipe);
      if !ok {
        return false;
      }
      ghost var after := steps;
      CraftReplanning.IngredientsAlike(reg, stack, tools.items, Of(items), recipe.ingredients, crafts);
      ok := PlanAllIngredients(recipe.ingredients, crafts);
      assert steps == before + (tools.steps + PlanIngredients(reg, stack, tools.items, recipe.ingredients,
          crafts).steps);
    }

    method PlanAllTools(recipe: Recipe) returns (ok: bool)
      modifies this
      ensures stack == old(stack)
      ensures ok == PlanTools(reg, stack, Of(old(items)), Tools(recipe)).ok
      ensures Shows(old(steps), PlanTools(reg, stack, Of(old(items)), Tools(recipe)))
      decreases reg.Keys - stack, 2, 1
    {
      if recipe.needsTable {
        ghost var now, before := Of(items), steps;
        ok := Plan(CRAFTING_TABLE, 1);
        ToolStep(reg, stack, now, Tools(recipe), Of(items));
        if !ok {
          return false;
        }
        ghost var table := CraftPlanning.Plan(reg, stack, now, CRAFTING_TABLE, 1).steps;
        ghost var rest := PlanTools(reg, stack, Of(items), recipe.prerequisites).steps;
        assert Tools(recipe)[1..] == recipe.prerequisites;
        ok := PlanPrerequisites(recipe.prerequisites);
        assert steps == before + (table + rest);
      } else {
        assert Tools(recipe) == recipe.prerequisites;
        ok := PlanPrerequisites(recipe.prerequisites);
      }
    }

    method PlanPrerequisites(prerequisites: seq<Ingredient>) returns (ok: bool)
      modifies this
      ensures stack == old(stack)
      ensures ok == PlanTools(reg, stack, Of(old(items)), prerequisites).ok
      ensures Shows(old(steps), PlanTools(reg, stack, Of(old(items)), prerequisites))
      decreases reg.Keys - stack, 2, 0
    {
      ghost var all := PlanTools(reg, stack, Of(items), prerequisites);
      ghost var done: seq<CraftStep> := [];
      for i := 0 to |prerequisites|
        invariant stack == old(stack) && steps == old(steps) + done
        invariant CraftReplanning.Alike(all, After(done, PlanTools(reg, stack, Of(items), prerequisites[i..])))
      {
        ghost var now := Of(items);
        ok := Plan(prerequisites[i].itemName, prerequisites[i].count);
        ToolStep(reg, stack, now, prerequisites[i..], Of(items));
        ghost var first := CraftPlanning.Plan(reg, stack, now, prerequisites[i].itemName, prerequisites[i].count);
        assert prerequisites[i..][1..] == prerequisites[i + 1..];
        Regroup(old(steps), done, first.steps, PlanTools(reg, stack, Of(items), prerequisites[i + 1..]).steps);
        if !ok {
          return false;
        }
        done := done + first.steps;
      }
      ok := true;
    }

    method PlanAllIngredients(ingredients: seq<Ingredient>, crafts: int) returns (ok: bool)
      modifies this
      ensures stack == old(stack)
      ensures ok == PlanIngredients(reg, stack, Of(old(items)), ingredients, crafts).ok
      ensures Shows(old(steps), PlanIngredients(reg, stack, Of(old(items)), ingredients, crafts))
      decreases reg.Keys - stack, 2, 0
    {
      ghost var all := PlanIngredients(reg, stack, Of(items), ingredients, crafts);
      ghost var done: seq<CraftStep> := [];
      for i := 0 to |ingredients|
        invariant stack == old(stack) && steps == old(steps) + done
        invariant CraftReplanning.Alike(all, After(done,
                                                   PlanIngredients(reg, stack, Of(items), ingredients[i..], crafts)))
      {
        ghost var now := Of(items);
        ok := PlanIngredient(ingredients[i], crafts);
        IngredientStep(reg, stack, now, ingredients[i..], crafts, Of(items));
        ghost var first := PlanIngredients(reg, stack, now, [ingredients[i]], crafts);
        assert ingredients[i..][1..] == ingredients[i + 1..];
        Regroup(old(steps), done, first.steps,
                PlanIngredients(reg, stack, Of(items), ingredients[i + 1..], crafts).steps);
        if !ok {
          return false;
        }
        done := done + first.steps;
      }
      ok := true;
    }

    /** One round of the ingredient loop: plan what `crafts` crafts need of it, then deduct it. */
    method PlanIngredient(ingredient: Ingredient, crafts: int) returns (ok: bool)
      modifies this
      ensures stack == old(stack)
      ensures ok == PlanIngredients(reg, stack, Of(old(items)), [ingredient], crafts).ok
      ensures Shows(old(steps), PlanIngredients(reg, stack, Of(old(items)), [ingredient], crafts))
      decreases reg.Keys - stack, 1, 1
    {
      if ingredient.count <= 0 {
        return false;
      }
      ok := Plan(ingredient.itemName, ingredient.count * crafts);
      if ok {
        items := items[ingredient.itemName := GetOr(items, ingredient.itemName) - ingredient.count * crafts];
      }
    }
  }

  lemma AddedCounts(items: map<string, int>, counts: Counts, name: string, more: int)
    requires CraftReplanning.Same(Of(items), counts)
    ensures CraftReplanning.Same(Of(items[name := GetOr(items, name) + more]), Add(counts, name, more))
  {
  }

  lemma Regroup(before: seq<CraftStep>, done: seq<CraftStep>, first: seq<CraftStep>, rest: seq<CraftStep>)
    ensures (before + done) + first == before + (done + first)
    ensures done + (first + rest) == (done + first) + rest
  {
  }

  /** The first tool is planned and left the counts `next`. */
  lemma ToolStep(reg: Registry, stack: set<string>, now: Counts, tools: seq<Ingredient>, next: Counts)
    requires tools != []
    requires CraftReplanning.Same(next, CraftPlanning.Plan(reg, stack, now, tools[0].itemName, tools[0].count).items)
    ensures var p := CraftPlanning.Plan(reg, stack, now, tools[0].itemName, tools[0].count);
            CraftReplanning.Alike(PlanTools(reg, stack, now, tools),
                                  if p.ok then After(p.steps, PlanTools(reg, stack, next, tools[1..])) else p)
  {
    CraftReplanning.ToolsAlike(reg, stack, CraftPlanning.Plan(reg, stack, now, tools[0].itemName, tools[0].count).items,
                               next, tools[1..]);
  }

  /** The first ingredient is planned and deducted, and left the counts `next`. */
  lemma IngredientStep(reg: Registry, stack: set<string>, now: Counts, ingredients: seq<Ingredient>, crafts: int,
                       next: Counts)
    requires ingredients != []
    requires CraftReplanning.Same(next, PlanIngredients(reg, stack, now, [ingredients[0]], crafts).items)
    ensures var p := PlanIngredients(reg, stack, now, [ingredients[0]], crafts);
            CraftReplanning.Alike(PlanIngredients(reg, stack, now, ingredients, crafts),
                                  if p.ok then After(p.steps,
                                                     PlanIngredients(reg, stack, next, ingredients[1..], crafts))
                                                         else p)
  {
    var p := PlanIngredients(reg, stack, now, [ingredients[0]], crafts);
    if p.ok {
      CraftReplanning.IngredientsAlike(reg, stack, p.items, next, ingredients[1..], crafts);
    }
  }

  lemma {:induction false} HeldNonNegative(slots: seq<InventorySlot>, name: string)
    ensures Held(slots, name) >= 0
  {
    if slots != [] {
      HeldNonNegative(slots[1..], name);
    }
  }

  method InventoryCounts(slots: seq<InventorySlot>) returns (items: map<string, int>)
    ensures CraftReplanning.Same(Of(items), HeldCounts(slots))
  {
    items := map[];
    for i := 0 to |slots|
      invariant forall n :: Of(items)(n) + Held(slots[i..], n) == Held(slots, n)
    {
      assert slots[i..][0] == slots[i] && slots[i..][1..] == slots[i + 1..];
      var slot := slots[i];
      if slot.item.None? || slot.item.value.name == "" || slot.item.value.count <= 0 {
        continue;
      }
      items := items[slot.item.value.name := GetOr(items, slot.item.value.name) + slot.item.value.count];
    }
  }

  /** The planner run once for `target`; its steps are discarded when it fails. */
  method CraftSteps(reg: Registry, target: string, slots: seq<InventorySlot>) returns (steps: seq<CraftStep>)
    ensures steps == Steps(reg, HeldCounts(slots), target)
  {
    if target !in reg {
      return [];
    }
    var items := InventoryCounts(slots);
    var planner := new Planner(reg, items);
    var ok := planner.Plan(target, 1);
    CraftReplanning.PlanAlike(reg, {}, Of(items), HeldCounts(slots), target, 1);
    steps := if ok then planner.steps else [];
  }

  /** With the static recipes: true exactly when the target is not held and some sequence of crafts reaches it. */
  method CanCraft(target: string, slots: seq<InventorySlot>) returns (can: bool)
    ensures can <==>
      Held(slots, target) < 1 && exists crafts :: CraftExactness.Reaches(Recipes(), HeldCounts(slots), target, crafts)
  {
    var steps := CraftSteps(Recipes(), target, slots);
    can := |steps| > 0;
    StaticRegistryQualifies();
    forall n ensures HeldCounts(slots)(n) >= 0 {
      HeldNonNegative(slots, n);
    }
    CraftExactness.PlannerIsExact(Recipes(), HeldCounts(slots), target);
  }
}
