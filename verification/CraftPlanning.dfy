// What the craft planner computes, as a function of the registry and the
// item counts. CraftPlanner.dfy proves the mutable planner equal to it.
module CraftPlanning {
  import opened CraftRegistry

  /** Item counts; an item that was never seen counts zero. Counts can go negative on a cyclic registry. */
  type Counts = string -> int

  function Add(items: Counts, name: string, amount: int): Counts {
    n => if n == name then items(n) + amount else items(n)
  }

  datatype CraftStep = CraftStep(itemName: string, count: int, needsTable: bool)

  /** The planner after a call: whether it succeeded, its counts, and the steps it appended. */
  datatype Planned = Planned(ok: bool, items: Counts, steps: seq<CraftStep>)

  function DivideRoundUp(value: int, divisor: int): (r: int)
    requires value > 0 && divisor > 0
    ensures r >= 1
    ensures divisor * (r - 1) < value <= divisor * r
  {
    (value + divisor - 1) / divisor
  }

  ghost function After(steps: seq<CraftStep>, p: Planned): Planned {
    p.(steps := steps + p.steps)
  }

  /** Make `required` of `target` available; items on the stack are being planned already. */
  ghost function Plan(reg: Registry, stack: set<string>, items: Counts, target: string, required: int): Planned
    decreases reg.Keys - stack, 0, 0
  {
    if required <= 0 || items(target) >= required then Planned(true, items, [])
    else if target in stack || target !in reg || reg[target].outputCount <= 0 then Planned(false, items, [])
    else
      var recipe := reg[target];
      var crafts := DivideRoundUp(required - items(target), recipe.outputCount);
      var inner := PlanParts(reg, stack + {target}, items, recipe, crafts);
      if !inner.ok then inner
      else Planned(true,
                   Add(inner.items, target, recipe.outputCount * crafts),
                   inner.steps + [CraftStep(target, crafts, recipe.needsTable)])
  }

  /** Tools first, then the ingredients of `crafts` crafts, which are deducted at once. */
  ghost function PlanParts(reg: Registry, stack: set<string>, items: Counts, recipe: Recipe, crafts: int): Planned
    decreases reg.Keys - stack, 2, 0
  {
    var tools := PlanTools(reg, stack, items, Tools(recipe));
    if !tools.ok then tools
    else After(tools.steps, PlanIngredients(reg, stack, tools.items, recipe.ingredients, crafts))
  }

  ghost function PlanTools(reg: Registry, stack: set<string>, items: Counts, tools: seq<Ingredient>): Planned
    decreases reg.Keys - stack, 1, |tools|
  {
    if tools == [] then Planned(true, items, [])
    else
      var first := Plan(reg, stack, items, tools[0].itemName, tools[0].count);
      if !first.ok then first
      else After(first.steps, PlanTools(reg, stack, first.items, tools[1..]))
  }

  ghost function PlanIngredients(reg: Registry, stack: set<string>, items: Counts, ingredients: seq<Ingredient>,
                                 crafts: int): Planned
    decreases reg.Keys - stack, 1, |ingredients|
  {
    if ingredients == [] then Planned(true, items, [])
    else if ingredients[0].count <= 0 then Planned(false, items, [])
    else
      var first := Plan(reg, stack, items, ingredients[0].itemName, ingredients[0].count * crafts);
      if !first.ok then first
      else
        var used := Add(first.items, ingredients[0].itemName, -(ingredients[0].count * crafts));
        After(first.steps, PlanIngredients(reg, stack, used, ingredients[1..], crafts))
  }

  /** Ingredients are planned one after the other, each deducted before the next. */
  lemma HeadThenOthers(reg: Registry, stack: set<string>, items: Counts, ingredients: seq<Ingredient>, crafts: int)
    requires ingredients != [] && ingredients[0].count > 0
    ensures var name, need := ingredients[0].itemName, ingredients[0].count * crafts;
      var first := Plan(reg, stack, items, name, need);
      PlanIngredients(reg, stack, items, ingredients, crafts) ==
        if !first.ok then first
        else After(first.steps, PlanIngredients(reg, stack, Add(first.items, name, -need), ingredients[1..], crafts))
  {
  }

  // ------------------------------------------------------- what steps say

  /** Every step crafts a registered item at least once, and says whether its recipe needs a table. */
  ghost predicate Labelled(reg: Registry, steps: seq<CraftStep>) {
    forall k :: 0 <= k < |steps| ==>
      && steps[k].itemName in reg && steps[k].count >= 1
      && steps[k].needsTable == reg[steps[k].itemName].needsTable
  }

  lemma {:induction false} PlanIsLabelled(reg: Registry, stack: set<string>, items: Counts, target: string,
                                          required: int)
    ensures Labelled(reg, Plan(reg, stack, items, target, required).steps)
    decreases reg.Keys - stack, 0, 0
  {
    if required > 0 && items(target) < required && target !in stack && target in reg && reg[target].outputCount > 0 {
      var crafts := DivideRoundUp(required - items(target), reg[target].outputCount);
      PartsAreLabelled(reg, stack + {target}, items, reg[target], crafts);
    }
  }

  lemma {:induction false} PartsAreLabelled(reg: Registry, stack: set<string>, items: Counts, recipe: Recipe,
                                            crafts: int)
    ensures Labelled(reg, PlanParts(reg, stack, items, recipe, crafts).steps)
    decreases reg.Keys - stack, 2, 0
  {
    ToolsAreLabelled(reg, stack, items, Tools(recipe));
    var tools := PlanTools(reg, stack, items, Tools(recipe));
    if tools.ok {
      IngredientsAreLabelled(reg, stack, tools.items, recipe.ingredients, crafts);
    }
  }

  lemma {:induction false} ToolsAreLabelled(reg: Registry, stack: set<string>, items: Counts, tools: seq<Ingredient>)
    ensures Labelled(reg, PlanTools(reg, stack, items, tools).steps)
    decreases reg.Keys - stack, 1, |tools|
  {
    if tools != [] {
      PlanIsLabelled(reg, stack, items, tools[0].itemName, tools[0].count);
      var first := Plan(reg, stack, items, tools[0].itemName, tools[0].count);
      if first.ok {
        ToolsAreLabelled(reg, stack, first.items, tools[1..]);
      }
    }
  }

  lemma {:induction false} IngredientsAreLabelled(reg: Registry, stack: set<string>, items: Counts,
                                                  ingredients: seq<Ingredient>, crafts: int)
    ensures Labelled(reg, PlanIngredients(reg, stack, items, ingredients, crafts).steps)
    decreases reg.Keys - stack, 1, |ingredients|
  {
    if ingredients != [] && ingredients[0].count > 0 {
      var name, need := ingredients[0].itemName, ingredients[0].count * crafts;
      PlanIsLabelled(reg, stack, items, name, need);
      var first := Plan(reg, stack, items, name, need);
      if first.ok {
        IngredientsAreLabelled(reg, stack, Add(first.items, name, -need), ingredients[1..], crafts);
      }
    }
  }

  /** The steps offered for one `target`: none when there is no recipe, no plan, or nothing to craft. */
  ghost function Steps(reg: Registry, items: Counts, target: string): seq<CraftStep> {
    if target !in reg then []
    else
      var p := Plan(reg, {}, items, target, 1);
      if p.ok then p.steps else []
  }
}
