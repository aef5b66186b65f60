// The static recipe table and the vocabulary shared by the crafting modules.
module CraftRegistry {

  /** An item and the quantity of it that a recipe asks for. */
  datatype Ingredient = Ingredient(itemName: string, count: int)

  datatype Recipe = Recipe(
    outputCount: int,
    ingredients: seq<Ingredient>,
    prerequisites: seq<Ingredient>,
    needsTable: bool)

  /** One recipe per output item. */
  type Registry = map<string, Recipe>

  const CRAFTING_TABLE := "crafting_table"

  /** The recipes retained for the utility AI. */
  function Recipes(): Registry {
    map[
      "oak_planks" := Recipe(4, [Ingredient("oak_log", 1)], [], false),
      CRAFTING_TABLE := Recipe(1, [Ingredient("oak_planks", 4)], [], false),
      "stick" := Recipe(4, [Ingredient("oak_planks", 2)], [], false),
      "wooden_pickaxe" := Recipe(1, [Ingredient("oak_planks", 3), Ingredient("stick", 2)], [], true),
      "wooden_axe" := Recipe(1, [Ingredient("oak_planks", 3), Ingredient("stick", 2)], [], true),
      "stone_pickaxe" := Recipe(1, [Ingredient("cobblestone", 3), Ingredient("stick", 2)],
                                [Ingredient("wooden_pickaxe", 1)], true)
    ]
  }

  /** What must be in hand, unconsumed, while a recipe is crafted: the table first, then the prerequisites. */
  function Tools(recipe: Recipe): seq<Ingredient> {
    (if recipe.needsTable then [Ingredient(CRAFTING_TABLE, 1)] else []) + recipe.prerequisites
  }

  /** A recipe the planner is willing to use: it yields something and every ingredient has a positive count. */
  predicate Usable(recipe: Recipe) {
    && recipe.outputCount > 0
    && forall k :: 0 <= k < |recipe.ingredients| ==> recipe.ingredients[k].count > 0
  }

  /** A level for every item name. */
  type Ranking = string -> nat

  /** rank strictly decreases from an item to everything its recipe mentions. */
  ghost predicate Ranked(reg: Registry, rank: Ranking) {
    forall item :: item in reg ==>
      && (forall k :: 0 <= k < |Tools(reg[item])| ==> rank(Tools(reg[item])[k].itemName) < rank(item))
      && (forall k :: 0 <= k < |reg[item].ingredients| ==> rank(reg[item].ingredients[k].itemName) < rank(item))
  }

  ghost predicate Acyclic(reg: Registry) {
    exists rank: Ranking :: Ranked(reg, rank)
  }

  ghost predicate IsTool(reg: Registry, name: string) {
    exists item, k :: item in reg && 0 <= k < |Tools(reg[item])| && Tools(reg[item])[k].itemName == name
  }

  ghost predicate IsIngredient(reg: Registry, name: string) {
    exists item, k :: item in reg && 0 <= k < |reg[item].ingredients| && reg[item].ingredients[k].itemName == name
  }

  /** Tables and prerequisites are never ingredients, so crafting never uses one up. */
  ghost predicate ToolsKept(reg: Registry) {
    forall name {:trigger IsTool(reg, name)} :: IsTool(reg, name) ==> !IsIngredient(reg, name)
  }

  function StaticRank(name: string): nat {
    if name == "oak_planks" then 1
    else if name == CRAFTING_TABLE || name == "stick" then 2
    else if name == "wooden_pickaxe" || name == "wooden_axe" then 3
    else if name == "stone_pickaxe" then 4
    else 0
  }

  lemma StaticRanked(item: string)
    requires item in Recipes()
    ensures forall k :: 0 <= k < |Tools(Recipes()[item])| ==>
      StaticRank(Tools(Recipes()[item])[k].itemName) < StaticRank(item)
    ensures forall k :: 0 <= k < |Recipes()[item].ingredients| ==>
      StaticRank(Recipes()[item].ingredients[k].itemName) < StaticRank(item)
    ensures Usable(Recipes()[item])
  {
  }

  lemma StaticTools(item: string, k: nat)
    requires item in Recipes() && k < |Tools(Recipes()[item])|
    ensures Tools(Recipes()[item])[k].itemName in [CRAFTING_TABLE, "wooden_pickaxe"]
  {
  }

  lemma StaticIngredients(item: string, k: nat)
    requires item in Recipes() && k < |Recipes()[item].ingredients|
    ensures Recipes()[item].ingredients[k].itemName in ["oak_log", "oak_planks", "stick", "cobblestone"]
    ensures Recipes()[item].ingredients[k].itemName !in [CRAFTING_TABLE, "wooden_pickaxe"]
  {
  }

  /** The static registry meets the hypotheses of the planner theorems. */
  lemma StaticRegistryQualifies()
    ensures Acyclic(Recipes())
    ensures ToolsKept(Recipes())
    ensures forall item :: item in Recipes() ==> Usable(Recipes()[item])
  {
    var reg := Recipes();
    forall item | item in reg {
      StaticRanked(item);
    }
    assert Ranked(reg, StaticRank);
    forall name | IsTool(reg, name) ensures !IsIngredient(reg, name) {
      var item, k :| item in reg && 0 <= k < |Tools(reg[item])| && Tools(reg[item])[k].itemName == name;
      StaticTools(item, k);
      if IsIngredient(reg, name) {
        var item', k' :| item' in reg && 0 <= k' < |reg[item'].ingredients|
            && reg[item'].ingredients[k'].itemName == name;
        StaticIngredients(item', k');
        assert false;
      }
    }
  }
}
