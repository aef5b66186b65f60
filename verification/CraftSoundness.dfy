// A plan that is returned can be carried out: although ingredients are
// deducted long before the step that consumes them, running the steps in
// order never lacks an ingredient or a tool.
module CraftSoundness {
  import opened CraftRegistry
  import opened CraftPlanning
  import opened CraftSemantics

  /** Items ranked `bound` or higher keep their counts, and items that are never ingredients only grow. */
  ghost predicate Frame(reg: Registry, rank: Ranking, bound: nat, before: Counts, after: Counts) {
    && NonNegative(after)
    && (forall n {:trigger rank(n)} :: rank(n) >= bound ==> after(n) == before(n))
    && (forall n {:trigger IsIngredient(reg, n)} :: !IsIngredient(reg, n) ==> after(n) >= before(n))
  }

  /** The steps run from `items`, and what they leave is the planner's counts plus what is still reserved. */
  ghost predicate Carries(reg: Registry, items: Counts, p: Planned, reserved: Counts) {
    && Runs(reg, items, Expand(p.steps))
    && forall n :: items(n) + Net(reg, Expand(p.steps), n) == p.items(n) + reserved(n)
  }

  ghost function Nothing(): Counts {
    n => 0
  }

  ghost function Reserved(ingredients: seq<Ingredient>, crafts: int): Counts {
    n => crafts * Consumes(ingredients, n)
  }

  lemma CarriesThen(reg: Registry, items: Counts, first: Planned, used: Counts, rest: Planned, r1: Counts, r2: Counts)
    requires NonNegative(r1)
    requires Carries(reg, items, first, Nothing())
    requires forall n :: first.items(n) == used(n) + r1(n)
    requires Carries(reg, used, rest, r2)
    ensures Carries(reg, items, After(first.steps, rest), n => r1(n) + r2(n))
  {
    ExpandAppend(first.steps, rest.steps);
    RunsOn(reg, items, Expand(first.steps), used, Expand(rest.steps));
    forall n ensures items(n) + Net(reg, Expand(first.steps + rest.steps), n) == rest.items(n) + r1(n) + r2(n) {
      NetAppend(reg, Expand(first.steps), Expand(rest.steps), n);
    }
  }

  /** Crafting what was reserved for it. */
  lemma CarriesCraft(reg: Registry, rank: Ranking, items: Counts, inner: Planned, item: string, crafts: nat)
    requires Ranked(reg, rank) && ToolsKept(reg) && item in reg && Usable(reg[item])
    requires NonNegative(inner.items) && InHand(inner.items, Tools(reg[item]))
    requires Carries(reg, items, inner, Reserved(reg[item].ingredients, crafts))
    ensures Carries(reg, items,
                    Planned(true, Add(inner.items, item, reg[item].outputCount * crafts),
                            inner.steps + [CraftStep(item, crafts, reg[item].needsTable)]),
                    Nothing())
  {
    var step := CraftStep(item, crafts, reg[item].needsTable);
    ExpandAppend(inner.steps, [step]);
    assert Expand([step]) == Repeat(item, crafts);
    var ready := End(reg, items, Expand(inner.steps));
    forall n ensures ready(n) >= crafts * Consumes(reg[item].ingredients, n) && ready(n) >= inner.items(n) {
      ConsumesNonNegative(reg[item].ingredients, n);
      assert crafts * Consumes(reg[item].ingredients, n) >= 0;
    }
    RunsRepeat(reg, ready, item, crafts);
    RunsOn(reg, items, Expand(inner.steps), ready, Repeat(item, crafts));
    forall n ensures items(n) + Net(reg, Expand(inner.steps + [step]), n)
        == Add(inner.items, item, reg[item].outputCount * crafts)(n) {
      NetAppend(reg, Expand(inner.steps), Repeat(item, crafts), n);
      NetRepeat(reg, item, crafts, n);
      SplitGain(reg, item, crafts, n);
    }
  }

  lemma SplitGain(reg: Registry, item: string, crafts: int, n: string)
    requires item in reg
    ensures crafts * Gain(reg, item, n) == (if n == item then reg[item].outputCount * crafts
                                            else 0) - crafts * Consumes(reg[item].ingredients, n)
  {
    var c := Consumes(reg[item].ingredients, n);
    if n == item {
      assert crafts * (reg[item].outputCount - c) == crafts * reg[item].outputCount - crafts * c;
    } else {
      assert crafts * (0 - c) == - (crafts * c);
    }
  }

  lemma {:induction false} PlanSound(reg: Registry, rank: Ranking, stack: set<string>, items: Counts, target: string,
                                     required: int)
    requires Ranked(reg, rank) && ToolsKept(reg) && NonNegative(items)
    requires Plan(reg, stack, items, target, required).ok
    ensures Frame(reg, rank, rank(target) + 1, items, Plan(reg, stack, items, target, required).items)
    ensures Carries(reg, items, Plan(reg, stack, items, target, required), Nothing())
    ensures Plan(reg, stack, items, target, required).items(target) >= required
    decreases reg.Keys - stack, 0, 0
  {
    if required <= 0 || items(target) >= required {
    } else {
      var recipe := reg[target];
      var crafts := DivideRoundUp(required - items(target), recipe.outputCount);
      var inner := PlanParts(reg, stack + {target}, items, recipe, crafts);
      PartsSound(reg, rank, stack + {target}, items, target, crafts);
      CarriesCraft(reg, rank, items, inner, target, crafts);
    }
  }

  lemma {:induction false} PartsSound(reg: Registry, rank: Ranking, stack: set<string>, items: Counts, target: string,
                                      crafts: int)
    requires Ranked(reg, rank) && ToolsKept(reg) && NonNegative(items)
    requires target in reg && reg[target].outputCount > 0 && crafts >= 1
    requires PlanParts(reg, stack, items, reg[target], crafts).ok
    ensures Usable(reg[target])
    ensures var p := PlanParts(reg, stack, items, reg[target], crafts);
            && Frame(reg, rank, rank(target), items, p.items)
            && InHand(p.items, Tools(reg[target]))
            && Carries(reg, items, p, Reserved(reg[target].ingredients, crafts))
    decreases reg.Keys - stack, 2, 0
  {
    var recipe := reg[target];
    var tools := PlanTools(reg, stack, items, Tools(recipe));
    forall k | 0 <= k < |Tools(recipe)| ensures !IsIngredient(reg, Tools(recipe)[k].itemName) {
      ToolNotConsumed(reg, target, k);
    }
    ToolsSound(reg, rank, stack, items, Tools(recipe), rank(target));
    IngredientsSound(reg, rank, stack, tools.items, target, recipe.ingredients, crafts);
    var ings := PlanIngredients(reg, stack, tools.items, recipe.ingredients, crafts);
    CarriesThen(reg, items, tools, tools.items, ings, Nothing(), Reserved(recipe.ingredients, crafts));
  }

  lemma {:induction false} ToolsSound(reg: Registry, rank: Ranking, stack: set<string>, items: Counts,
                                      tools: seq<Ingredient>, bound: nat)
    requires Ranked(reg, rank) && ToolsKept(reg) && NonNegative(items)
    requires forall k :: 0 <= k < |tools| ==> rank(tools[k].itemName) < bound && !IsIngredient(reg, tools[k].itemName)
    requires PlanTools(reg, stack, items, tools).ok
    ensures Frame(reg, rank, bound, items, PlanTools(reg, stack, items, tools).items)
    ensures Carries(reg, items, PlanTools(reg, stack, items, tools), Nothing())
    ensures InHand(PlanTools(reg, stack, items, tools).items, tools)
    decreases reg.Keys - stack, 1, |tools|
  {
    if tools == [] {
    } else {
      var first := Plan(reg, stack, items, tools[0].itemName, tools[0].count);
      var rest := PlanTools(reg, stack, first.items, tools[1..]);
      PlanSound(reg, rank, stack, items, tools[0].itemName, tools[0].count);
      ToolsSound(reg, rank, stack, first.items, tools[1..], bound);
      CarriesThen(reg, items, first, first.items, rest, Nothing(), Nothing());
      forall k | 0 <= k < |tools| ensures rest.items(tools[k].itemName) >= tools[k].count {
        if k > 0 {
          assert tools[k] == tools[1..][k - 1];
        }
      }
    }
  }

  lemma {:induction false} IngredientsSound(reg: Registry, rank: Ranking, stack: set<string>, items: Counts,
                                            target: string, ingredients: seq<Ingredient>, crafts: int)
    requires Ranked(reg, rank) && ToolsKept(reg) && NonNegative(items) && crafts >= 1
    requires target in reg && IsSuffix(ingredients, reg[target].ingredients)
    requires PlanIngredients(reg, stack, items, ingredients, crafts).ok
    ensures forall k :: 0 <= k < |ingredients| ==> ingredients[k].count > 0
    ensures Frame(reg, rank, rank(target), items, PlanIngredients(reg, stack, items, ingredients, crafts).items)
    ensures Carries(reg, items, PlanIngredients(reg, stack, items, ingredients, crafts), Reserved(ingredients, crafts))
    decreases reg.Keys - stack, 1, |ingredients|
  {
    if ingredients == [] {
    } else {
      var head := ingredients[0];
      var need := head.count * crafts;
      SuffixHead(reg, rank, target, ingredients);
      var first := Plan(reg, stack, items, head.itemName, need);
      PlanSound(reg, rank, stack, items, head.itemName, need);
      DeductedNonNegative(first.items, head.itemName, need);
      var used := Add(first.items, head.itemName, -need);
      var rest := PlanIngredients(reg, stack, used, ingredients[1..], crafts);
      IngredientsSound(reg, rank, stack, used, target, ingredients[1..], crafts);
      HeadThenRest(reg, rank, items, target, ingredients, crafts, first, rest);
    }
  }

  lemma DeductedNonNegative(items: Counts, name: string, need: int)
    requires NonNegative(items) && items(name) >= need
    ensures NonNegative(Add(items, name, -need))
  {
  }

  lemma HeadThenRest(reg: Registry, rank: Ranking, items: Counts, target: string, ingredients: seq<Ingredient>,
                     crafts: int,
                     first: Planned, rest: Planned)
    requires Ranked(reg, rank) && crafts >= 1
    requires target in reg && ingredients != [] && IsSuffix(ingredients, reg[target].ingredients)
    requires ingredients[0].count > 0
    requires forall k :: 0 <= k < |ingredients[1..]| ==> ingredients[1..][k].count > 0
    requires var need := ingredients[0].count * crafts;
             var used := Add(first.items, ingredients[0].itemName, -need);
             && Frame(reg, rank, rank(ingredients[0].itemName) + 1, items, first.items)
             && Carries(reg, items, first, Nothing())
             && Frame(reg, rank, rank(target), used, rest.items)
             && Carries(reg, used, rest, Reserved(ingredients[1..], crafts))
    ensures forall k :: 0 <= k < |ingredients| ==> ingredients[k].count > 0
    ensures Frame(reg, rank, rank(target), items, rest.items)
    ensures Carries(reg, items, After(first.steps, rest), Reserved(ingredients, crafts))
  {
    SuffixHead(reg, rank, target, ingredients);
    forall k | 0 <= k < |ingredients| ensures ingredients[k].count > 0 {
      if k > 0 {
        assert ingredients[k] == ingredients[1..][k - 1];
      }
    }
    HeadCarries(reg, items, ingredients, crafts, first, rest);
  }

  lemma CarriesSame(reg: Registry, items: Counts, p: Planned, a: Counts, b: Counts)
    requires Carries(reg, items, p, a) && forall n :: b(n) == a(n)
    ensures Carries(reg, items, p, b)
  {
  }

  lemma HeadCarries(reg: Registry, items: Counts, ingredients: seq<Ingredient>, crafts: int, first: Planned,
                    rest: Planned)
    requires ingredients != [] && ingredients[0].count > 0 && crafts >= 1
    requires Carries(reg, items, first, Nothing())
    requires Carries(reg, Add(first.items, ingredients[0].itemName, -(ingredients[0].count * crafts)), rest,
                     Reserved(ingredients[1..], crafts))
    ensures Carries(reg, items, After(first.steps, rest), Reserved(ingredients, crafts))
  {
    var name, need := ingredients[0].itemName, ingredients[0].count * crafts;
    var taken := (n: string) => if n == name then need else 0;
    var both := (n: string) => taken(n) + Reserved(ingredients[1..], crafts)(n);
    CarriesThen(reg, items, first, Add(first.items, name, -need), rest, taken, Reserved(ingredients[1..], crafts));
    forall n ensures Reserved(ingredients, crafts)(n) == both(n) {
      ReserveHead(ingredients, crafts, n);
    }
    CarriesSame(reg, items, After(first.steps, rest), both, Reserved(ingredients, crafts));
  }

  ghost predicate IsSuffix(part: seq<Ingredient>, whole: seq<Ingredient>) {
    |part| <= |whole| && part == whole[|whole| - |part|..]
  }

  lemma SuffixHead(reg: Registry, rank: Ranking, target: string, ingredients: seq<Ingredient>)
    requires Ranked(reg, rank)
    requires target in reg && ingredients != [] && IsSuffix(ingredients, reg[target].ingredients)
    ensures IsIngredient(reg, ingredients[0].itemName)
    ensures rank(ingredients[0].itemName) < rank(target)
    ensures IsSuffix(ingredients[1..], reg[target].ingredients)
  {
    var whole := reg[target].ingredients;
    assert ingredients[0] == whole[|whole| - |ingredients|];
  }

  lemma ReserveHead(ingredients: seq<Ingredient>, crafts: int, n: string)
    requires ingredients != []
    ensures crafts * Consumes(ingredients, n) == crafts * Consumes(ingredients[1..], n)
            + (if ingredients[0].itemName == n then ingredients[0].count * crafts else 0)
  {
    var a := if ingredients[0].itemName == n then ingredients[0].count else 0;
    assert crafts * (a + Consumes(ingredients[1..], n)) == crafts * a + crafts * Consumes(ingredients[1..], n);
  }

  /** The steps offered for an item can be carried out from the counts they were planned for, and yield it. */
  lemma StepsCanBeCarriedOut(reg: Registry, items: Counts, target: string)
    requires Acyclic(reg) && ToolsKept(reg) && NonNegative(items)
    requires Steps(reg, items, target) != []
    ensures items(target) < 1
    ensures Runs(reg, items, Expand(Steps(reg, items, target)))
    ensures End(reg, items, Expand(Steps(reg, items, target)))(target) >= 1
  {
    var rank :| Ranked(reg, rank);
    PlanSound(reg, rank, {}, items, target, 1);
  }
}
