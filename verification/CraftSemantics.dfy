// Crafting itself, independent of any planner: one craft at a time, from an
// inventory, under the registry's rules.
module CraftSemantics {
  import opened CraftRegistry
  import opened CraftPlanning

  /** How many of `name` one craft with these ingredients consumes. */
  ghost function Consumes(ingredients: seq<Ingredient>, name: string): int {
    if ingredients == [] then 0
    else (if ingredients[0].itemName == name then ingredients[0].count else 0) + Consumes(ingredients[1..], name)
  }

  /** The change one craft of `item` makes to the count of `name`. */
  ghost function Gain(reg: Registry, item: string, name: string): int {
    if item !in reg then 0
    else (if item == name then reg[item].outputCount else 0) - Consumes(reg[item].ingredients, name)
  }

  ghost predicate InHand(items: Counts, tools: seq<Ingredient>) {
    forall k :: 0 <= k < |tools| ==> items(tools[k].itemName) >= tools[k].count
  }

  ghost predicate Craftable(reg: Registry, items: Counts, item: string) {
    && item in reg
    && Usable(reg[item])
    && InHand(items, Tools(reg[item]))
    && forall n :: items(n) >= Consumes(reg[item].ingredients, n)
  }

  ghost function Crafted(reg: Registry, items: Counts, item: string): Counts {
    n => items(n) + Gain(reg, item, n)
  }

  /** Each craft in order is possible on the counts the ones before it left. */
  ghost predicate Runs(reg: Registry, items: Counts, crafts: seq<string>) {
    crafts == [] || (Craftable(reg, items, crafts[0]) && Runs(reg, Crafted(reg, items, crafts[0]), crafts[1..]))
  }

  /** The change a list of crafts makes to the count of `name`. */
  ghost function Net(reg: Registry, crafts: seq<string>, name: string): int {
    if crafts == [] then 0 else Gain(reg, crafts[0], name) + Net(reg, crafts[1..], name)
  }

  /** Counts after a list of crafts. */
  ghost function End(reg: Registry, items: Counts, crafts: seq<string>): Counts {
    n => items(n) + Net(reg, crafts, n)
  }

  ghost function Repeat(item: string, times: nat): seq<string> {
    if times == 0 then [] else [item] + Repeat(item, times - 1)
  }

  /** The single crafts that a list of steps stands for. */
  ghost function Expand(steps: seq<CraftStep>): seq<string> {
    if steps == [] then []
    else (if steps[0].count > 0 then Repeat(steps[0].itemName, steps[0].count) else []) + Expand(steps[1..])
  }

  ghost function Times(crafts: seq<string>, item: string): nat {
    multiset(crafts)[item]
  }

  ghost predicate NonNegative(items: Counts) {
    forall n :: items(n) >= 0
  }

  ghost predicate AtLeast(a: Counts, b: Counts) {
    forall n :: a(n) >= b(n)
  }

  lemma {:induction false} ConsumesNonNegative(ingredients: seq<Ingredient>, name: string)
    requires forall k :: 0 <= k < |ingredients| ==> ingredients[k].count > 0
    ensures Consumes(ingredients, name) >= 0
    ensures Consumes(ingredients, name) > 0 <==> exists k :: 0 <= k < |ingredients| && ingredients[k].itemName == name
  {
    if ingredients == [] {
    } else {
      ConsumesNonNegative(ingredients[1..], name);
      if k :| 0 <= k < |ingredients[1..]| && ingredients[1..][k].itemName == name {
        assert ingredients[k + 1].itemName == name;
      }
      if k :| 0 <= k < |ingredients| && ingredients[k].itemName == name {
        if k > 0 {
          assert ingredients[1..][k - 1].itemName == name;
        }
      }
    }
  }

  lemma {:induction false} ExpandAppend(a: seq<CraftStep>, b: seq<CraftStep>)
    ensures Expand(a + b) == Expand(a) + Expand(b)
  {
    if a == [] {
      assert a + b == b;
    } else {
      assert (a + b)[1..] == a[1..] + b;
      ExpandAppend(a[1..], b);
    }
  }

  lemma {:induction false} NetAppend(reg: Registry, a: seq<string>, b: seq<string>, name: string)
    ensures Net(reg, a + b, name) == Net(reg, a, name) + Net(reg, b, name)
  {
    if a == [] {
      assert a + b == b;
    } else {
      assert (a + b)[1..] == a[1..] + b;
      NetAppend(reg, a[1..], b, name);
    }
  }

  /** More items never stop a run. */
  lemma {:induction false} RunsWithMore(reg: Registry, more: Counts, items: Counts, crafts: seq<string>)
    requires AtLeast(more, items)
    requires Runs(reg, items, crafts)
    ensures Runs(reg, more, crafts)
  {
    if crafts != [] {
      forall k | 0 <= k < |Tools(reg[crafts[0]])|
        ensures more(Tools(reg[crafts[0]])[k].itemName) >= Tools(reg[crafts[0]])[k].count
      {
        assert items(Tools(reg[crafts[0]])[k].itemName) >= Tools(reg[crafts[0]])[k].count;
      }
      RunsWithMore(reg, Crafted(reg, more, crafts[0]), Crafted(reg, items, crafts[0]), crafts[1..]);
    }
  }

  /** A run continues from any counts at least as large as the ones it reached. */
  lemma {:induction false} RunsOn(reg: Registry, items: Counts, a: seq<string>, mid: Counts, b: seq<string>)
    requires Runs(reg, items, a)
    requires forall n :: items(n) + Net(reg, a, n) >= mid(n)
    requires Runs(reg, mid, b)
    ensures Runs(reg, items, a + b)
  {
    if a == [] {
      assert a + b == b;
      RunsWithMore(reg, items, mid, b);
    } else {
      assert (a + b)[1..] == a[1..] + b;
      RunsOn(reg, Crafted(reg, items, a[0]), a[1..], mid, b);
    }
  }

  lemma {:induction false} RunsPrefix(reg: Registry, items: Counts, a: seq<string>, b: seq<string>)
    requires Runs(reg, items, a + b)
    ensures Runs(reg, items, a)
    ensures Runs(reg, End(reg, items, a), b)
  {
    if a == [] {
      assert a + b == b;
      RunsWithMore(reg, End(reg, items, a), items, b);
    } else {
      assert (a + b)[1..] == a[1..] + b;
      var next := Crafted(reg, items, a[0]);
      RunsPrefix(reg, next, a[1..], b);
      RunsWithMore(reg, End(reg, items, a), End(reg, next, a[1..]), b);
    }
  }

  lemma {:induction false} RunsNonNegative(reg: Registry, items: Counts, crafts: seq<string>)
    requires NonNegative(items) && Runs(reg, items, crafts)
    ensures NonNegative(End(reg, items, crafts))
  {
    if crafts != [] {
      RunsNonNegative(reg, Crafted(reg, items, crafts[0]), crafts[1..]);
      assert forall n :: End(reg, items, crafts)(n) == End(reg, Crafted(reg, items, crafts[0]), crafts[1..])(n);
    }
  }

  lemma {:induction false} NetRepeat(reg: Registry, item: string, times: nat, name: string)
    ensures Net(reg, Repeat(item, times), name) == times * Gain(reg, item, name)
  {
    if times > 0 {
      assert Repeat(item, times)[1..] == Repeat(item, times - 1);
      NetRepeat(reg, item, times - 1, name);
      assert times * Gain(reg, item, name) == (times - 1) * Gain(reg, item, name) + Gain(reg, item, name);
    }
  }

  /** `times` crafts in a row succeed when the ingredients for all of them and the tools are in hand. */
  lemma {:induction false} RunsRepeat(reg: Registry, items: Counts, item: string, times: nat)
    requires ToolsKept(reg) && item in reg && Usable(reg[item])
    requires InHand(items, Tools(reg[item]))
    requires forall n :: items(n) >= times * Consumes(reg[item].ingredients, n)
    ensures Runs(reg, items, Repeat(item, times))
  {
    if times > 0 {
      var recipe := reg[item];
      forall n ensures Consumes(recipe.ingredients, n) >= 0 {
        ConsumesNonNegative(recipe.ingredients, n);
      }
      forall n ensures items(n) >= Consumes(recipe.ingredients, n)
          && Crafted(reg, items, item)(n) >= (times - 1) * Consumes(recipe.ingredients, n) {
        Scale(times, Consumes(recipe.ingredients, n));
      }
      forall k | 0 <= k < |Tools(recipe)|
          ensures Crafted(reg, items, item)(Tools(recipe)[k].itemName) >= Tools(recipe)[k].count {
        ToolNotConsumed(reg, item, k);
        assert items(Tools(recipe)[k].itemName) >= Tools(recipe)[k].count;
      }
      RunsRepeat(reg, Crafted(reg, items, item), item, times - 1);
      assert Repeat(item, times)[1..] == Repeat(item, times - 1);
    }
  }

  lemma Scale(times: int, c: int)
    requires times >= 1 && c >= 0
    ensures times * c >= c && times * c - c == (times - 1) * c
  {
  }

  lemma ToolNotConsumed(reg: Registry, item: string, k: nat)
    requires ToolsKept(reg) && item in reg && k < |Tools(reg[item])|
    ensures !IsIngredient(reg, Tools(reg[item])[k].itemName)
    ensures forall other :: other in reg && Usable(reg[other]) ==>
              Consumes(reg[other].ingredients, Tools(reg[item])[k].itemName) == 0
  {
    var tool := Tools(reg[item])[k].itemName;
    assert IsTool(reg, tool);
    forall other | other in reg && Usable(reg[other]) ensures Consumes(reg[other].ingredients, tool) == 0 {
      NotConsumed(reg, other, tool);
    }
  }

  lemma NotConsumed(reg: Registry, item: string, name: string)
    requires item in reg && Usable(reg[item]) && !IsIngredient(reg, name)
    ensures Consumes(reg[item].ingredients, name) == 0
  {
    ConsumesNonNegative(reg[item].ingredients, name);
  }

  // ---------------------------------------------- crafting in plain terms

  ghost predicate DistinctNames(ingredients: seq<Ingredient>) {
    forall i, j :: 0 <= i < j < |ingredients| ==> ingredients[i].itemName != ingredients[j].itemName
  }

  /** Ingredients with distinct names are consumed in their counts, and nothing else is. */
  lemma {:induction false} ConsumesExactly(ingredients: seq<Ingredient>, name: string)
    requires DistinctNames(ingredients)
    ensures forall k :: 0 <= k < |ingredients| && ingredients[k].itemName == name ==>
      Consumes(ingredients, name) == ingredients[k].count
    ensures (forall k :: 0 <= k < |ingredients| ==> ingredients[k].itemName != name) ==>
      Consumes(ingredients, name) == 0
  {
    if ingredients != [] {
      var rest := ingredients[1..];
      ConsumesExactly(rest, name);
      forall k | 0 <= k < |ingredients| && ingredients[k].itemName == name
        ensures Consumes(ingredients, name) == ingredients[k].count
      {
        if k > 0 {
          assert rest[k - 1].itemName == name;
        } else {
          assert forall j :: 0 <= j < |rest| ==> rest[j].itemName == ingredients[j + 1].itemName;
        }
      }
    }
  }

  /** The table and the prerequisites are in hand, and the ingredients in the counts that the recipe asks for. */
  ghost predicate HasEverything(items: Counts, recipe: Recipe) {
    && (recipe.needsTable ==> items("crafting_table") >= 1)
    && (forall k :: 0 <= k < |recipe.prerequisites| ==>
          items(recipe.prerequisites[k].itemName) >= recipe.prerequisites[k].count)
    && forall k :: 0 <= k < |recipe.ingredients| ==>
         items(recipe.ingredients[k].itemName) >= recipe.ingredients[k].count
  }

  lemma InHandExactly(items: Counts, recipe: Recipe)
    ensures InHand(items, Tools(recipe)) <==>
      && (recipe.needsTable ==> items("crafting_table") >= 1)
      && forall k :: 0 <= k < |recipe.prerequisites| ==>
           items(recipe.prerequisites[k].itemName) >= recipe.prerequisites[k].count
  {
    var tools, shift := Tools(recipe), if recipe.needsTable then 1 else 0;
    forall k | 0 <= k < |recipe.prerequisites| ensures recipe.prerequisites[k] == tools[shift + k] {
    }
    if recipe.needsTable {
      assert tools[0] == Ingredient("crafting_table", 1);
    }
    forall k | shift <= k < |tools| ensures tools[k] == recipe.prerequisites[k - shift] {
    }
  }

  /** A craft is possible exactly with everything at hand, for a recipe that yields something and takes something. */
  lemma CraftableExactly(reg: Registry, items: Counts, item: string)
    requires NonNegative(items) && (item in reg ==> DistinctNames(reg[item].ingredients))
    ensures Craftable(reg, items, item) <==>
      && item in reg && reg[item].outputCount > 0
      && (forall k :: 0 <= k < |reg[item].ingredients| ==> reg[item].ingredients[k].count > 0)
      && HasEverything(items, reg[item])
  {
    if item in reg {
      var ingredients := reg[item].ingredients;
      InHandExactly(items, reg[item]);
      forall n ensures items(n) >= Consumes(ingredients, n) <==>
          forall k :: 0 <= k < |ingredients| && ingredients[k].itemName == n ==> items(n) >= ingredients[k].count {
        ConsumesExactly(ingredients, n);
      }
      if forall n :: items(n) >= Consumes(ingredients, n) {
        forall k | 0 <= k < |ingredients| ensures items(ingredients[k].itemName) >= ingredients[k].count {
          ConsumesExactly(ingredients, ingredients[k].itemName);
        }
      }
    }
  }

  /** A craft adds the output and takes the ingredients; no other count changes. */
  lemma CraftedExactly(reg: Registry, items: Counts, item: string, name: string)
    requires item in reg && DistinctNames(reg[item].ingredients)
    ensures var output := if name == item then reg[item].outputCount else 0;
      var ingredients := reg[item].ingredients;
      && (forall k :: 0 <= k < |ingredients| && ingredients[k].itemName == name ==>
            Crafted(reg, items, item)(name) == items(name) + output - ingredients[k].count)
      && ((forall k :: 0 <= k < |ingredients| ==> ingredients[k].itemName != name) ==>
            Crafted(reg, items, item)(name) == items(name) + output)
  {
    ConsumesExactly(reg[item].ingredients, name);
  }

  lemma OneIngredient(reg: Registry, items: Counts, item: string, output: int, a: Ingredient)
    requires NonNegative(items) && output > 0 && a.count > 0
    requires item in reg && reg[item] == Recipe(output, [a], [], false)
    ensures Craftable(reg, items, item) <==> items(a.itemName) >= a.count
  {
    CraftableExactly(reg, items, item);
    assert reg[item].ingredients[0] == a;
  }

  lemma TwoIngredients(reg: Registry, items: Counts, item: string, a: Ingredient, b: Ingredient, tools: seq<Ingredient>)
    requires NonNegative(items) && a.count > 0 && b.count > 0 && a.itemName != b.itemName && |tools| <= 1
    requires item in reg && reg[item] == Recipe(1, [a, b], tools, true)
    ensures Craftable(reg, items, item) <==>
      && items(a.itemName) >= a.count && items(b.itemName) >= b.count && items("crafting_table") >= 1
      && (tools != [] ==> items(tools[0].itemName) >= tools[0].count)
  {
    CraftableExactly(reg, items, item);
    var recipe := reg[item];
    assert recipe.ingredients[0] == a && recipe.ingredients[1] == b;
    assert tools != [] ==> recipe.prerequisites[0] == tools[0];
  }

  /** What the static recipes take that need no table. */
  lemma StaticRecipesByHand(items: Counts)
    requires NonNegative(items)
    ensures Craftable(Recipes(), items, "oak_planks") <==> items("oak_log") >= 1
    ensures Craftable(Recipes(), items, "crafting_table") <==> items("oak_planks") >= 4
    ensures Craftable(Recipes(), items, "stick") <==> items("oak_planks") >= 2
  {
    OneIngredient(Recipes(), items, "oak_planks", 4, Ingredient("oak_log", 1));
    OneIngredient(Recipes(), items, "crafting_table", 1, Ingredient("oak_planks", 4));
    OneIngredient(Recipes(), items, "stick", 4, Ingredient("oak_planks", 2));
  }

  /** What the static recipes take that need a table. */
  lemma StaticRecipesAtTheTable(items: Counts)
    requires NonNegative(items)
    ensures Craftable(Recipes(), items, "wooden_pickaxe") <==>
      items("oak_planks") >= 3 && items("stick") >= 2 && items("crafting_table") >= 1
    ensures Craftable(Recipes(), items, "wooden_axe") <==>
      items("oak_planks") >= 3 && items("stick") >= 2 && items("crafting_table") >= 1
    ensures Craftable(Recipes(), items, "stone_pickaxe") <==>
      items("cobblestone") >= 3 && items("stick") >= 2 && items("crafting_table") >= 1 && items("wooden_pickaxe") >= 1
  {
    var planks, sticks := Ingredient("oak_planks", 3), Ingredient("stick", 2);
    TwoIngredients(Recipes(), items, "wooden_pickaxe", planks, sticks, []);
    TwoIngredients(Recipes(), items, "wooden_axe", planks, sticks, []);
    TwoIngredients(Recipes(), items, "stone_pickaxe", Ingredient("cobblestone", 3), sticks,
                   [Ingredient("wooden_pickaxe", 1)]);
  }

  /** What each of them yields; only planks and sticks come in fours. */
  lemma StaticYields(item: string)
    requires item in Recipes()
    ensures item in ["oak_planks", "crafting_table", "stick", "wooden_pickaxe", "wooden_axe", "stone_pickaxe"]
    ensures Gain(Recipes(), item, item) == if item == "oak_planks" || item == "stick" then 4 else 1
  {
  }
}
