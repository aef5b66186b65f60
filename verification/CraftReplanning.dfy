// Planning afresh after every step follows the original plan to its end.
module CraftReplanning {
  import opened Sequences
  import opened CraftRegistry
  import opened CraftPlanning
  import opened CraftSemantics
  import opened CraftSoundness

  ghost predicate Same(a: Counts, b: Counts) {
    forall n :: a(n) == b(n)
  }

  /** Equal outcomes, with counts compared item by item. */
  ghost predicate Alike(a: Planned, b: Planned) {
    a.ok == b.ok && a.steps == b.steps && Same(a.items, b.items)
  }

  lemma {:induction false} PlanAlike(reg: Registry, stack: set<string>, a: Counts, b: Counts, target: string,
                                     required: int)
    requires Same(a, b)
    ensures Alike(Plan(reg, stack, a, target, required), Plan(reg, stack, b, target, required))
    decreases reg.Keys - stack, 0, 0
  {
    assert a(target) == b(target);
    if !(required <= 0 || a(target) >= required) && target !in stack && target in reg && reg[target].outputCount > 0 {
      var crafts := DivideRoundUp(required - a(target), reg[target].outputCount);
      PartsAlike(reg, stack + {target}, a, b, reg[target], crafts);
    }
  }

  lemma {:induction false} PartsAlike(reg: Registry, stack: set<string>, a: Counts, b: Counts, recipe: Recipe,
                                      crafts: int)
    requires Same(a, b)
    ensures Alike(PlanParts(reg, stack, a, recipe, crafts), PlanParts(reg, stack, b, recipe, crafts))
    decreases reg.Keys - stack, 2, 0
  {
    ToolsAlike(reg, stack, a, b, Tools(recipe));
    var ta, tb := PlanTools(reg, stack, a, Tools(recipe)), PlanTools(reg, stack, b, Tools(recipe));
    if ta.ok {
      IngredientsAlike(reg, stack, ta.items, tb.items, recipe.ingredients, crafts);
    }
  }

  lemma {:induction false} ToolsAlike(reg: Registry, stack: set<string>, a: Counts, b: Counts, tools: seq<Ingredient>)
    requires Same(a, b)
    ensures Alike(PlanTools(reg, stack, a, tools), PlanTools(reg, stack, b, tools))
    decreases reg.Keys - stack, 1, |tools|
  {
    if tools != [] {
      PlanAlike(reg, stack, a, b, tools[0].itemName, tools[0].count);
      var fa := Plan(reg, stack, a, tools[0].itemName, tools[0].count);
      var fb := Plan(reg, stack, b, tools[0].itemName, tools[0].count);
      if fa.ok {
        ToolsAlike(reg, stack, fa.items, fb.items, tools[1..]);
      }
    }
  }

  lemma {:induction false} IngredientsAlike(reg: Registry, stack: set<string>, a: Counts, b: Counts,
                                            ingredients: seq<Ingredient>, crafts: int)
    requires Same(a, b)
    ensures Alike(PlanIngredients(reg, stack, a, ingredients, crafts),
                  PlanIngredients(reg, stack, b, ingredients, crafts))
    decreases reg.Keys - stack, 1, |ingredients|
  {
    if ingredients != [] && ingredients[0].count > 0 {
      var name, need := ingredients[0].itemName, ingredients[0].count * crafts;
      PlanAlike(reg, stack, a, b, name, need);
      var fa, fb := Plan(reg, stack, a, name, need), Plan(reg, stack, b, name, need);
      if fa.ok {
        IngredientsAlike(reg, stack, Add(fa.items, name, -need), Add(fb.items, name, -need), ingredients[1..], crafts);
      }
    }
  }

  /** Every step is a positive number of crafts of a usable recipe, ranked no higher than `bound`. */
  ghost predicate Orderly(reg: Registry, rank: Ranking, bound: int, steps: seq<CraftStep>) {
    forall i :: 0 <= i < |steps| ==> StepOrderly(reg, rank, bound, steps[i])
  }

  ghost predicate StepOrderly(reg: Registry, rank: Ranking, bound: int, step: CraftStep) {
    step.count >= 1 && step.itemName in reg && Usable(reg[step.itemName]) && rank(step.itemName) <= bound
  }

  lemma {:induction false} PlanOrderly(reg: Registry, rank: Ranking, stack: set<string>, items: Counts, target: string,
                                       required: int)
    requires Ranked(reg, rank) && ToolsKept(reg) && NonNegative(items)
    requires Plan(reg, stack, items, target, required).ok
    ensures Orderly(reg, rank, rank(target), Plan(reg, stack, items, target, required).steps)
    decreases reg.Keys - stack, 0, 0
  {
    if !(required <= 0 || items(target) >= required) {
      var crafts := DivideRoundUp(required - items(target), reg[target].outputCount);
      PartsSound(reg, rank, stack + {target}, items, target, crafts);
      PartsOrderly(reg, rank, stack + {target}, items, target, crafts);
    }
  }

  lemma {:induction false} PartsOrderly(reg: Registry, rank: Ranking, stack: set<string>, items: Counts, target: string,
                                        crafts: int)
    requires Ranked(reg, rank) && ToolsKept(reg) && NonNegative(items)
    requires target in reg && reg[target].outputCount > 0 && crafts >= 1
    requires PlanParts(reg, stack, items, reg[target], crafts).ok
    ensures Orderly(reg, rank, rank(target) - 1, PlanParts(reg, stack, items, reg[target], crafts).steps)
    decreases reg.Keys - stack, 2, 0
  {
    forall k | 0 <= k < |Tools(reg[target])| ensures !IsIngredient(reg, Tools(reg[target])[k].itemName) {
      ToolNotConsumed(reg, target, k);
    }
    ToolsOrderly(reg, rank, stack, items, Tools(reg[target]), rank(target));
    ToolsSound(reg, rank, stack, items, Tools(reg[target]), rank(target));
    IngredientsOrderly(reg, rank, stack, PlanTools(reg, stack, items, Tools(reg[target])).items, target,
                       reg[target].ingredients, crafts);
  }

  lemma {:induction false} ToolsOrderly(reg: Registry, rank: Ranking, stack: set<string>, items: Counts,
                                        tools: seq<Ingredient>, bound: nat)
    requires Ranked(reg, rank) && ToolsKept(reg) && NonNegative(items)
    requires forall k :: 0 <= k < |tools| ==> rank(tools[k].itemName) < bound
    requires PlanTools(reg, stack, items, tools).ok
    ensures Orderly(reg, rank, bound - 1, PlanTools(reg, stack, items, tools).steps)
    decreases reg.Keys - stack, 1, |tools|
  {
    if tools != [] {
      PlanOrderly(reg, rank, stack, items, tools[0].itemName, tools[0].count);
      PlanSound(reg, rank, stack, items, tools[0].itemName, tools[0].count);
      ToolsOrderly(reg, rank, stack, Plan(reg, stack, items, tools[0].itemName, tools[0].count).items, tools[1..],
                   bound);
    }
  }

  lemma {:induction false} IngredientsOrderly(reg: Registry, rank: Ranking, stack: set<string>, items: Counts,
                                              target: string,
                                              ingredients: seq<Ingredient>, crafts: int)
    requires Ranked(reg, rank) && ToolsKept(reg) && NonNegative(items) && crafts >= 1
    requires target in reg && IsSuffix(ingredients, reg[target].ingredients)
    requires PlanIngredients(reg, stack, items, ingredients, crafts).ok
    ensures Orderly(reg, rank, rank(target) - 1, PlanIngredients(reg, stack, items, ingredients, crafts).steps)
    decreases reg.Keys - stack, 1, |ingredients|
  {
    if ingredients != [] {
      var name, need := ingredients[0].itemName, ingredients[0].count * crafts;
      SuffixHead(reg, rank, target, ingredients);
      PlanOrderly(reg, rank, stack, items, name, need);
      PlanSound(reg, rank, stack, items, name, need);
      var first := Plan(reg, stack, items, name, need);
      DeductedNonNegative(first.items, name, need);
      IngredientsOrderly(reg, rank, stack, Add(first.items, name, -need), target, ingredients[1..], crafts);
    }
  }

  /** `after` is `before` with the crafts of one step carried out. */
  ghost predicate Shifted(reg: Registry, before: Counts, after: Counts, step: CraftStep) {
    forall n :: after(n) == before(n) + step.count * Gain(reg, step.itemName, n)
  }

  /** Planning again after the first step gives the other steps and the same counts. */
  ghost predicate Resumes(old_: Planned, new_: Planned) {
    old_.steps != [] && new_.ok && new_.steps == old_.steps[1..] && Same(old_.items, new_.items)
  }

  lemma ResumesAfter(a: Planned, b: Planned, restA: Planned, restB: Planned)
    requires Resumes(a, b) && restA.ok && Alike(restA, restB)
    ensures Resumes(After(a.steps, restA), After(b.steps, restB))
  {
    assert (a.steps + restA.steps)[1..] == a.steps[1..] + restA.steps;
  }

  lemma ResumesLater(a: Planned, b: Planned)
    requires Resumes(a, b)
    ensures Resumes(After([], a), After([], b))
  {
    assert [] + a.steps == a.steps && [] + b.steps == b.steps;
  }

  lemma GainOfLower(reg: Registry, rank: Ranking, step: CraftStep, bound: int, name: string)
    requires Ranked(reg, rank) && StepOrderly(reg, rank, bound, step) && rank(name) > bound
    ensures step.count * Gain(reg, step.itemName, name) == 0
  {
    ConsumesNonNegative(reg[step.itemName].ingredients, name);
    assert Gain(reg, step.itemName, name) == 0;
  }

  lemma GainOfTool(reg: Registry, rank: Ranking, step: CraftStep, bound: int, name: string)
    requires StepOrderly(reg, rank, bound, step) && !IsIngredient(reg, name)
    ensures step.count * Gain(reg, step.itemName, name) >= 0
  {
    NotConsumed(reg, step.itemName, name);
    assert Gain(reg, step.itemName, name) >= 0;
  }

  /** The first step of a plan leaves no count below zero. */
  lemma FirstStepAffordable(reg: Registry, rank: Ranking, bound: int, items: Counts, p: Planned, reserved: Counts,
                            name: string)
    requires NonNegative(items) && Carries(reg, items, p, reserved)
    requires p.steps != [] && Orderly(reg, rank, bound, p.steps)
    ensures items(name) + p.steps[0].count * Gain(reg, p.steps[0].itemName, name) >= 0
  {
    var first := p.steps[0];
    assert StepOrderly(reg, rank, bound, first);
    assert Expand(p.steps) == Repeat(first.itemName, first.count) + Expand(p.steps[1..]);
    RunsPrefix(reg, items, Repeat(first.itemName, first.count), Expand(p.steps[1..]));
    RunsNonNegative(reg, items, Repeat(first.itemName, first.count));
    assert End(reg, items, Repeat(first.itemName, first.count))(name) >= 0;
    NetRepeat(reg, first.itemName, first.count, name);
  }

  lemma {:induction false} PlanResumes(reg: Registry, rank: Ranking, stack: set<string>, items: Counts, shifted: Counts,
                                       target: string, required: int)
    requires Ranked(reg, rank) && ToolsKept(reg) && NonNegative(items)
    requires var p := Plan(reg, stack, items, target, required);
             p.ok && p.steps != [] && Shifted(reg, items, shifted, p.steps[0])
    ensures Resumes(Plan(reg, stack, items, target, required), Plan(reg, stack, shifted, target, required))
    decreases reg.Keys - stack, 0, 0
  {
    var recipe := reg[target];
    var crafts := DivideRoundUp(required - items(target), recipe.outputCount);
    var inner := PlanParts(reg, stack + {target}, items, recipe, crafts);
    PartsSound(reg, rank, stack + {target}, items, target, crafts);
    if inner.steps == [] {
      forall n ensures shifted(n) == Plan(reg, stack, items, target, required).items(n) {
        SplitGain(reg, target, crafts, n);
      }
      assert shifted(target) >= required by {
        assert inner.items(target) == items(target);
      }
    } else {
      PartsOrderly(reg, rank, stack + {target}, items, target, crafts);
      GainOfLower(reg, rank, inner.steps[0], rank(target) - 1, target);
      PartsResume(reg, rank, stack + {target}, items, shifted, target, crafts);
    }
  }

  lemma {:induction false} PartsResume(reg: Registry, rank: Ranking, stack: set<string>, items: Counts, shifted: Counts,
                                       target: string, crafts: int)
    requires Ranked(reg, rank) && ToolsKept(reg) && NonNegative(items)
    requires target in reg && reg[target].outputCount > 0 && crafts >= 1
    requires var p := PlanParts(reg, stack, items, reg[target], crafts);
             p.ok && p.steps != [] && Shifted(reg, items, shifted, p.steps[0])
    ensures Resumes(PlanParts(reg, stack, items, reg[target], crafts),
                    PlanParts(reg, stack, shifted, reg[target], crafts))
    decreases reg.Keys - stack, 2, 0
  {
    var recipe := reg[target];
    var p := PlanParts(reg, stack, items, recipe, crafts);
    var tools := PlanTools(reg, stack, items, Tools(recipe));
    PartsOrderly(reg, rank, stack, items, target, crafts);
    forall k | 0 <= k < |Tools(recipe)| ensures !IsIngredient(reg, Tools(recipe)[k].itemName) {
      ToolNotConsumed(reg, target, k);
    }
    ToolsResume(reg, rank, stack, items, shifted, Tools(recipe), rank(target), p.steps[0]);
    var tools' := PlanTools(reg, stack, shifted, Tools(recipe));
    var ings, ings' := PlanIngredients(reg, stack, tools.items, recipe.ingredients, crafts),
        PlanIngredients(reg, stack, tools'.items, recipe.ingredients, crafts);
    if tools.steps == [] {
      assert p.steps == ings.steps;
      IngredientsResume(reg, rank, stack, items, shifted, target, recipe.ingredients, crafts);
      ResumesLater(ings, ings');
    } else {
      IngredientsAlike(reg, stack, tools.items, tools'.items, recipe.ingredients, crafts);
      ResumesAfter(tools, tools', ings, ings');
    }
  }

  lemma {:induction false} ToolsResume(reg: Registry, rank: Ranking, stack: set<string>, items: Counts, shifted: Counts,
                                       tools: seq<Ingredient>, bound: nat, step: CraftStep)
    requires Ranked(reg, rank) && ToolsKept(reg) && NonNegative(items)
    requires forall k :: 0 <= k < |tools| ==> rank(tools[k].itemName) < bound && !IsIngredient(reg, tools[k].itemName)
    requires PlanTools(reg, stack, items, tools).ok
    requires StepOrderly(reg, rank, bound, step) && Shifted(reg, items, shifted, step)
    requires var s := PlanTools(reg, stack, items, tools).steps; s != [] ==> s[0] == step
    ensures var s := PlanTools(reg, stack, items, tools).steps;
            if s == [] then PlanTools(reg, stack, shifted, tools) == Planned(true, shifted, [])
                && PlanTools(reg, stack, items, tools).items == items
            else Resumes(PlanTools(reg, stack, items, tools), PlanTools(reg, stack, shifted, tools))
    decreases reg.Keys - stack, 1, |tools|
  {
    if tools != [] {
      var name, need := tools[0].itemName, tools[0].count;
      var first := Plan(reg, stack, items, name, need);
      var rest := PlanTools(reg, stack, first.items, tools[1..]);
      PlanSound(reg, rank, stack, items, name, need);
      forall k | 0 <= k < |tools[1..]|
          ensures rank(tools[1..][k].itemName) < bound && !IsIngredient(reg, tools[1..][k].itemName) {
        assert tools[1..][k] == tools[k + 1];
      }
      if first.steps == [] {
        NoStepsNoChange(reg, stack, items, name, need);
        GainOfTool(reg, rank, step, bound, name);
        assert shifted(name) >= items(name);
        assert first.steps + rest.steps == rest.steps;
        ToolsResume(reg, rank, stack, items, shifted, tools[1..], bound, step);
      } else {
        PlanResumes(reg, rank, stack, items, shifted, name, need);
        var first' := Plan(reg, stack, shifted, name, need);
        ToolsAlike(reg, stack, first.items, first'.items, tools[1..]);
        ResumesAfter(first, first', rest, PlanTools(reg, stack, first'.items, tools[1..]));
      }
    }
  }

  lemma NoStepsNoChange(reg: Registry, stack: set<string>, items: Counts, target: string, required: int)
    requires Plan(reg, stack, items, target, required).ok && Plan(reg, stack, items, target, required).steps == []
    ensures Plan(reg, stack, items, target, required).items == items
    ensures required <= 0 || items(target) >= required
  {
  }

  /** The head needed no steps and still needs none: the others resume. */
  lemma HeadInHandResumes(reg: Registry, stack: set<string>, items: Counts, shifted: Counts,
                          ingredients: seq<Ingredient>, crafts: int)
    requires ingredients != [] && ingredients[0].count > 0
    requires var name, need := ingredients[0].itemName, ingredients[0].count * crafts;
      && items(name) >= need && shifted(name) >= need
      && Resumes(PlanIngredients(reg, stack, Add(items, name, -need), ingredients[1..], crafts),
                 PlanIngredients(reg, stack, Add(shifted, name, -need), ingredients[1..], crafts))
    ensures Resumes(PlanIngredients(reg, stack, items, ingredients, crafts),
                    PlanIngredients(reg, stack, shifted, ingredients, crafts))
  {
    var name, need := ingredients[0].itemName, ingredients[0].count * crafts;
    HeadThenOthers(reg, stack, items, ingredients, crafts);
    HeadThenOthers(reg, stack, shifted, ingredients, crafts);
    ResumesLater(PlanIngredients(reg, stack, Add(items, name, -need), ingredients[1..], crafts),
                 PlanIngredients(reg, stack, Add(shifted, name, -need), ingredients[1..], crafts));
  }

  /** The head resumes, and the others are planned as before. */
  lemma HeadResumes(reg: Registry, stack: set<string>, items: Counts, shifted: Counts, ingredients: seq<Ingredient>,
                    crafts: int)
    requires ingredients != [] && ingredients[0].count > 0
    requires PlanIngredients(reg, stack, items, ingredients, crafts).ok
    requires Resumes(Plan(reg, stack, items, ingredients[0].itemName, ingredients[0].count * crafts),
                     Plan(reg, stack, shifted, ingredients[0].itemName, ingredients[0].count * crafts))
    ensures Resumes(PlanIngredients(reg, stack, items, ingredients, crafts),
                    PlanIngredients(reg, stack, shifted, ingredients, crafts))
  {
    var name, need := ingredients[0].itemName, ingredients[0].count * crafts;
    var first, first' := Plan(reg, stack, items, name, need), Plan(reg, stack, shifted, name, need);
    var used, used' := Add(first.items, name, -need), Add(first'.items, name, -need);
    HeadThenOthers(reg, stack, items, ingredients, crafts);
    HeadThenOthers(reg, stack, shifted, ingredients, crafts);
    IngredientsAlike(reg, stack, used, used', ingredients[1..], crafts);
    ResumesAfter(first, first', PlanIngredients(reg, stack, used, ingredients[1..], crafts),
                 PlanIngredients(reg, stack, used', ingredients[1..], crafts));
  }

  /** When the head needs no steps, the first step comes from the others and leaves enough of the head. */
  lemma HeadStaysInHand(reg: Registry, rank: Ranking, stack: set<string>, items: Counts, shifted: Counts,
                        target: string,
                        ingredients: seq<Ingredient>, crafts: int)
    requires Ranked(reg, rank) && ToolsKept(reg) && NonNegative(items) && crafts >= 1
    requires target in reg && ingredients != [] && IsSuffix(ingredients, reg[target].ingredients)
      && ingredients[0].count > 0
    requires items(ingredients[0].itemName) >= ingredients[0].count * crafts
    requires var used := Add(items, ingredients[0].itemName, -(ingredients[0].count * crafts));
             var others := PlanIngredients(reg, stack, used, ingredients[1..], crafts);
             others.ok && others.steps != [] && Shifted(reg, items, shifted, others.steps[0])
    ensures shifted(ingredients[0].itemName) >= ingredients[0].count * crafts
  {
    var name, need := ingredients[0].itemName, ingredients[0].count * crafts;
    var used := Add(items, name, -need);
    SuffixHead(reg, rank, target, ingredients);
    DeductedNonNegative(items, name, need);
    IngredientsSound(reg, rank, stack, used, target, ingredients[1..], crafts);
    IngredientsOrderly(reg, rank, stack, used, target, ingredients[1..], crafts);
    FirstStepAffordable(reg, rank, rank(target) - 1, used, PlanIngredients(reg, stack, used, ingredients[1..], crafts),
                        Reserved(ingredients[1..], crafts), name);
  }

  lemma {:induction false} IngredientsResume(reg: Registry, rank: Ranking, stack: set<string>, items: Counts,
                                             shifted: Counts,
                                             target: string, ingredients: seq<Ingredient>, crafts: int)
    requires Ranked(reg, rank) && ToolsKept(reg) && NonNegative(items) && crafts >= 1
    requires target in reg && IsSuffix(ingredients, reg[target].ingredients)
    requires var p := PlanIngredients(reg, stack, items, ingredients, crafts);
             p.ok && p.steps != [] && Shifted(reg, items, shifted, p.steps[0])
    ensures Resumes(PlanIngredients(reg, stack, items, ingredients, crafts),
                    PlanIngredients(reg, stack, shifted, ingredients, crafts))
    decreases reg.Keys - stack, 1, |ingredients|
  {
    var name, need := ingredients[0].itemName, ingredients[0].count * crafts;
    var first := Plan(reg, stack, items, name, need);
    SuffixHead(reg, rank, target, ingredients);
    HeadThenOthers(reg, stack, items, ingredients, crafts);
    if first.steps == [] {
      NoStepsNoChange(reg, stack, items, name, need);
      var used := Add(items, name, -need);
      AppendNothing(PlanIngredients(reg, stack, used, ingredients[1..], crafts).steps);
      HeadStaysInHand(reg, rank, stack, items, shifted, target, ingredients, crafts);
      IngredientsResume(reg, rank, stack, used, Add(shifted, name, -need), target, ingredients[1..], crafts);
      HeadInHandResumes(reg, stack, items, shifted, ingredients, crafts);
    } else {
      PlanResumes(reg, rank, stack, items, shifted, name, need);
      HeadResumes(reg, stack, items, shifted, ingredients, crafts);
    }
  }

  /** After the first step, planning again offers exactly the rest of the plan. */
  lemma ReplanningIsStable(reg: Registry, items: Counts, target: string)
    requires Acyclic(reg) && ToolsKept(reg) && NonNegative(items)
    requires Steps(reg, items, target) != []
    ensures Steps(reg, items, target)[0].count >= 1
    ensures var steps := Steps(reg, items, target);
            Steps(reg, End(reg, items, Expand([steps[0]])), target) == steps[1..]
  {
    var rank :| Ranked(reg, rank);
    var steps := Steps(reg, items, target);
    PlanOrderly(reg, rank, {}, items, target, 1);
    assert StepOrderly(reg, rank, rank(target), steps[0]);
    assert Expand([steps[0]]) == Repeat(steps[0].itemName, steps[0].count);
    forall n ensures End(reg, items, Expand([steps[0]]))(n)
        == items(n) + steps[0].count * Gain(reg, steps[0].itemName, n) {
      NetRepeat(reg, steps[0].itemName, steps[0].count, n);
    }
    PlanResumes(reg, rank, {}, items, End(reg, items, Expand([steps[0]])), target, 1);
  }

  /** Counts after `rounds` rounds of planning afresh and carrying out only the first step. */
  ghost function Rounds(reg: Registry, items: Counts, target: string, rounds: nat): Counts {
    if rounds == 0 || Steps(reg, items, target) == [] then items
    else Rounds(reg, End(reg, items, Expand([Steps(reg, items, target)[0]])), target, rounds - 1)
  }

  lemma FirstStepKeepsNonNegative(reg: Registry, items: Counts, target: string)
    requires Acyclic(reg) && ToolsKept(reg) && NonNegative(items) && Steps(reg, items, target) != []
    ensures NonNegative(End(reg, items, Expand([Steps(reg, items, target)[0]])))
  {
    var steps := Steps(reg, items, target);
    StepsCanBeCarriedOut(reg, items, target);
    assert steps == [steps[0]] + steps[1..];
    ExpandAppend([steps[0]], steps[1..]);
    RunsPrefix(reg, items, Expand([steps[0]]), Expand(steps[1..]));
    RunsNonNegative(reg, items, Expand([steps[0]]));
  }

  lemma LastStepYields(reg: Registry, items: Counts, target: string)
    requires Acyclic(reg) && ToolsKept(reg) && NonNegative(items) && |Steps(reg, items, target)| == 1
    ensures End(reg, items, Expand([Steps(reg, items, target)[0]]))(target) >= 1
  {
    var steps := Steps(reg, items, target);
    StepsCanBeCarriedOut(reg, items, target);
    assert steps == [steps[0]];
  }

  /** The target has been worked on by the first `rounds` of these steps. */
  ghost predicate Follows(reg: Registry, target: string, steps: seq<CraftStep>, rounds: nat, after: Counts)
    requires rounds <= |steps|
  {
    Steps(reg, after, target) == steps[rounds..] && (after(target) >= 1 <==> rounds == |steps|)
  }

  lemma FollowsFromNext(reg: Registry, target: string, steps: seq<CraftStep>, rounds: nat, after: Counts)
    requires 0 < rounds <= |steps| && Follows(reg, target, steps[1..], rounds - 1, after)
    ensures Follows(reg, target, steps, rounds, after)
  {
    DropOfTail(steps, rounds);
  }

  /** One round, and what is left to do after it. */
  lemma RoundFollows(reg: Registry, items: Counts, target: string, steps: seq<CraftStep>)
    requires Acyclic(reg) && ToolsKept(reg) && NonNegative(items) && Steps(reg, items, target) == steps != []
    ensures Follows(reg, target, steps, 0, items)
    ensures var next := End(reg, items, Expand([steps[0]]));
      && NonNegative(next) && Steps(reg, next, target) == steps[1..]
      && (|steps| == 1 ==> Follows(reg, target, steps, 1, next))
  {
    StepsCanBeCarriedOut(reg, items, target);
    ReplanningIsStable(reg, items, target);
    FirstStepKeepsNonNegative(reg, items, target);
    if |steps| == 1 {
      LastStepYields(reg, items, target);
    }
  }

  lemma {:induction false} RoundsFollow(reg: Registry, items: Counts, target: string, steps: seq<CraftStep>,
                                        rounds: nat)
    requires Acyclic(reg) && ToolsKept(reg) && NonNegative(items) && Steps(reg, items, target) == steps != []
    requires rounds <= |steps|
    ensures Follows(reg, target, steps, rounds, Rounds(reg, items, target, rounds))
    decreases rounds
  {
    RoundFollows(reg, items, target, steps);
    if rounds > 0 {
      var next := End(reg, items, Expand([steps[0]]));
      if |steps| > 1 {
        RoundsFollow(reg, next, target, steps[1..], rounds - 1);
        FollowsFromNext(reg, target, steps, rounds, Rounds(reg, next, target, rounds - 1));
      } else {
        assert Rounds(reg, next, target, 0) == next;
      }
    }
  }

  /** One step a round holds the target after exactly as many rounds as the first plan has steps, never before. */
  lemma OneStepARoundFinishes(reg: Registry, items: Counts, target: string, rounds: nat)
    requires Acyclic(reg) && ToolsKept(reg) && NonNegative(items) && Steps(reg, items, target) != []
    requires rounds <= |Steps(reg, items, target)|
    ensures Follows(reg, target, Steps(reg, items, target), rounds, Rounds(reg, items, target, rounds))
  {
    RoundsFollow(reg, items, target, Steps(reg, items, target), rounds);
  }
}
