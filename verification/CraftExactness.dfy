// The planner finds a plan whenever any sequence of crafts reaches the
// target, and never crafts an item more often than such a sequence does.
module CraftExactness {
  import opened CraftRegistry
  import opened CraftPlanning
  import opened CraftSemantics
  import opened CraftSoundness

  /** Taking one occurrence out of a list takes one out of its bag. */
  lemma DropOne(crafts: seq<string>, item: string) returns (before: seq<string>, after: seq<string>)
    requires item in crafts
    ensures crafts == before + [item] + after
    ensures multiset(crafts) == multiset(before + after) + multiset{item}
  {
    var i :| 0 <= i < |crafts| && crafts[i] == item;
    before, after := crafts[..i], crafts[i + 1..];
    assert crafts == before + [item] + after;
  }

  lemma Cancel(a: multiset<string>, b: multiset<string>, x: string)
    requires a + multiset{x} == b + multiset{x}
    ensures a == b
  {
    assert a == (a + multiset{x}) - multiset{x};
    assert b == (b + multiset{x}) - multiset{x};
  }

  lemma {:induction false} NetPermuted(reg: Registry, a: seq<string>, b: seq<string>, name: string)
    requires multiset(a) == multiset(b)
    ensures Net(reg, a, name) == Net(reg, b, name)
  {
    if a == [] {
      assert |b| == |multiset(b)| == 0;
    } else {
      assert a == [a[0]] + a[1..];
      assert multiset(a) == multiset{a[0]} + multiset(a[1..]);
      assert a[0] in multiset(b);
      var before, after := DropOne(b, a[0]);
      Cancel(multiset(a[1..]), multiset(before + after), a[0]);
      NetPermuted(reg, a[1..], before + after, name);
      NetAppend(reg, before, after, name);
      NetAppend(reg, before + [a[0]], after, name);
      NetAppend(reg, before, [a[0]], name);
    }
  }

  /** Splitting a bag of crafts splits its net effect. */
  lemma NetSplit(reg: Registry, whole: seq<string>, a: seq<string>, b: seq<string>, name: string)
    requires multiset(whole) == multiset(a) + multiset(b)
    ensures Net(reg, whole, name) == Net(reg, a, name) + Net(reg, b, name)
  {
    assert multiset(a + b) == multiset(whole);
    NetPermuted(reg, whole, a + b, name);
    NetAppend(reg, a, b, name);
  }

  lemma RepeatBag(item: string, times: nat)
    requires times > 0
    ensures multiset(Repeat(item, times)) == multiset{item} + multiset(Repeat(item, times - 1))
  {
  }

  lemma AddBack(whole: multiset<string>, others: multiset<string>, rest: multiset<string>, part: multiset<string>,
                item: string)
    requires whole == others + multiset{item} && others == rest + part
    ensures whole == rest + (multiset{item} + part)
  {
  }

  lemma {:induction false} TakeOut(crafts: seq<string>, item: string, times: nat) returns (rest: seq<string>)
    requires Times(crafts, item) >= times
    ensures multiset(crafts) == multiset(rest) + multiset(Repeat(item, times))
    ensures forall other :: other in rest ==> other in crafts
    decreases times
  {
    if times == 0 {
      rest := crafts;
    } else {
      assert item in multiset(crafts);
      var before, after := DropOne(crafts, item);
      rest := TakeOut(before + after, item, times - 1);
      RepeatBag(item, times);
      AddBack(multiset(crafts), multiset(before + after), multiset(rest), multiset(Repeat(item, times - 1)), item);
      forall other | other in rest ensures other in crafts {
        assert other in before + after;
      }
    }
  }

  ghost predicate AllUsable(reg: Registry, crafts: seq<string>) {
    forall item :: item in crafts ==> item in reg && Usable(reg[item])
  }

  lemma OneMore(a: int, n: int)
    ensures a * (n + 1) == a * n + a
  {
  }

  /** No more of an item appears than its own crafts produce. */
  lemma {:induction false} NetAtMost(reg: Registry, crafts: seq<string>, name: string)
    requires AllUsable(reg, crafts)
    ensures Net(reg, crafts, name) <= (if name in reg then reg[name].outputCount * Times(crafts, name) else 0)
    ensures Times(crafts, name) > 0 ==> name in reg
  {
    if crafts != [] {
      assert crafts == [crafts[0]] + crafts[1..];
      assert AllUsable(reg, crafts[1..]);
      NetAtMost(reg, crafts[1..], name);
      assert crafts[0] in crafts;
      ConsumesNonNegative(reg[crafts[0]].ingredients, name);
      if crafts[0] == name {
        OneMore(reg[name].outputCount, Times(crafts[1..], name));
      }
    }
  }

  /**
   * The crafts in `left`, on top of `items`, could still cover what the calls
   * in progress are going to deduct (`owed`) and every tool they need.
   */
  ghost predicate Supports(reg: Registry, stack: set<string>, items: Counts, left: seq<string>, owed: Counts) {
    && AllUsable(reg, left)
    && (forall n :: n !in stack ==> items(n) + Net(reg, left, n) >= owed(n))
    && (forall item :: item in left ==> ToolsReachable(reg, stack, items, left, Tools(reg[item])))
  }

  ghost predicate ToolsReachable(reg: Registry, stack: set<string>, items: Counts, left: seq<string>,
                                 tools: seq<Ingredient>) {
    forall k :: 0 <= k < |tools| && tools[k].itemName !in stack ==>
      items(tools[k].itemName) + Net(reg, left, tools[k].itemName) >= tools[k].count
  }

  ghost predicate Above(rank: Ranking, stack: set<string>, bound: nat) {
    forall s :: s in stack ==> rank(s) >= bound
  }

  /** What is left after a part of the plan took `crafts` out of `left`. */
  ghost predicate Leaves(left: seq<string>, crafts: seq<string>, rest: seq<string>) {
    multiset(left) == multiset(rest) + multiset(crafts)
  }

  lemma LeavesMembers(left: seq<string>, crafts: seq<string>, rest: seq<string>)
    requires Leaves(left, crafts, rest)
    ensures forall item :: item in rest || item in crafts ==> item in left
  {
    forall item | item in rest || item in crafts ensures item in left {
      assert item in multiset(rest) || item in multiset(crafts);
      assert item in multiset(left);
    }
  }

  /** A sound part keeps what is left sufficient, less what it has reserved. */
  lemma SupportsAfter(reg: Registry, stack: set<string>, items: Counts, left: seq<string>, owed: Counts,
                      p: Planned, reserved: Counts, rest: seq<string>, still: Counts)
    requires ToolsKept(reg) && Supports(reg, stack, items, left, owed)
    requires Carries(reg, items, p, reserved) && Leaves(left, Expand(p.steps), rest)
    requires forall n :: still(n) == owed(n) - reserved(n)
    requires forall n {:trigger IsIngredient(reg, n)} :: !IsIngredient(reg, n) ==> reserved(n) == 0
    ensures Supports(reg, stack, p.items, rest, still)
    ensures forall n :: p.items(n) + Net(reg, rest, n) == items(n) + Net(reg, left, n) - reserved(n)
  {
    LeavesMembers(left, Expand(p.steps), rest);
    forall n ensures p.items(n) + Net(reg, rest, n) == items(n) + Net(reg, left, n) - reserved(n) {
      NetSplit(reg, left, rest, Expand(p.steps), n);
    }
    forall item | item in rest ensures ToolsReachable(reg, stack, p.items, rest, Tools(reg[item])) {
      assert ToolsReachable(reg, stack, items, left, Tools(reg[item]));
      forall k | 0 <= k < |Tools(reg[item])| && Tools(reg[item])[k].itemName !in stack
        ensures p.items(Tools(reg[item])[k].itemName) + Net(reg, rest, Tools(reg[item])[k].itemName)
          >= Tools(reg[item])[k].count
      {
        ToolNotConsumed(reg, item, k);
      }
    }
  }

  /** Enough crafts of the target are left for the planner's round-up. */
  lemma EnoughLeft(reg: Registry, items: Counts, left: seq<string>, target: string, required: int)
    requires AllUsable(reg, left)
    requires items(target) < required && items(target) + Net(reg, left, target) >= required
    ensures target in reg && Usable(reg[target])
    ensures Times(left, target) >= DivideRoundUp(required - items(target), reg[target].outputCount)
  {
    NetAtMost(reg, left, target);
    assert Times(left, target) > 0;
    assert target in left;
    var o, t := reg[target].outputCount, Times(left, target);
    var k := DivideRoundUp(required - items(target), o);
    if t < k {
      assert o * t <= o * (k - 1) by { Monotone(o, t, k - 1); }
      assert false;
    }
  }

  lemma Monotone(o: int, a: int, b: int)
    requires o >= 0 && a <= b
    ensures o * a <= o * b
  {
  }

  lemma NetInside(reg: Registry, left: seq<string>, target: string, crafts: nat, inside: seq<string>, n: string)
    requires Leaves(left, Repeat(target, crafts), inside) && target in reg && n != target
    ensures Net(reg, inside, n) == Net(reg, left, n) + crafts * Consumes(reg[target].ingredients, n)
  {
    NetSplit(reg, left, inside, Repeat(target, crafts), n);
    NetRepeat(reg, target, crafts, n);
    SplitGain(reg, target, crafts, n);
  }

  /** Setting the target's own crafts aside: its ingredients become owed, its tools stay reachable. */
  lemma SupportsInside(reg: Registry, rank: Ranking, stack: set<string>, items: Counts, left: seq<string>, owed: Counts,
                       target: string, crafts: nat, inside: seq<string>)
    requires Ranked(reg, rank) && ToolsKept(reg) && Supports(reg, stack, items, left, owed)
    requires Leaves(left, Repeat(target, crafts), inside) && crafts >= 1 && target in left
    requires Above(rank, stack, rank(target) + 1)
    ensures Supports(reg, stack + {target}, items, inside, n => owed(n) + Reserved(reg[target].ingredients, crafts)(n))
    ensures forall k :: 0 <= k < |Tools(reg[target])| ==>
              items(Tools(reg[target])[k].itemName) + Net(reg, inside, Tools(reg[target])[k].itemName)
                  >= Tools(reg[target])[k].count
  {
    LeavesMembers(left, Repeat(target, crafts), inside);
    forall n | n != target
        ensures Net(reg, inside, n) == Net(reg, left, n) + crafts * Consumes(reg[target].ingredients, n) {
      NetInside(reg, left, target, crafts, inside, n);
    }
    forall item | item in left ensures ToolsReachable(reg, stack + {target}, items, inside, Tools(reg[item])) {
      forall k | 0 <= k < |Tools(reg[item])| && Tools(reg[item])[k].itemName !in stack + {target}
        ensures items(Tools(reg[item])[k].itemName) + Net(reg, inside, Tools(reg[item])[k].itemName)
          >= Tools(reg[item])[k].count
      {
        assert ToolsReachable(reg, stack, items, left, Tools(reg[item]));
        ToolNotConsumed(reg, item, k);
      }
    }
    assert ToolsReachable(reg, stack + {target}, items, inside, Tools(reg[target]));
  }

  lemma {:induction false} PlanComplete(reg: Registry, rank: Ranking, stack: set<string>, items: Counts, target: string,
                                        required: int,
                                        left: seq<string>, owed: Counts)
    returns (rest: seq<string>)
    requires Ranked(reg, rank) && ToolsKept(reg) && NonNegative(items) && NonNegative(owed)
    requires Above(rank, stack, rank(target) + 1)
    requires Supports(reg, stack, items, left, owed)
    requires items(target) + Net(reg, left, target) >= required
    ensures Plan(reg, stack, items, target, required).ok
    ensures Leaves(left, Expand(Plan(reg, stack, items, target, required).steps), rest)
    ensures Supports(reg, stack, Plan(reg, stack, items, target, required).items, rest, owed)
    ensures forall n ::
      Plan(reg, stack, items, target, required).items(n) + Net(reg, rest, n) == items(n) + Net(reg, left, n)
    decreases reg.Keys - stack, 0, 0
  {
    if required <= 0 || items(target) >= required {
      rest := left;
      LeavesAll(left);
    } else {
      EnoughLeft(reg, items, left, target, required);
      var recipe := reg[target];
      var crafts := DivideRoundUp(required - items(target), recipe.outputCount);
      assert target in multiset(left);
      assert target !in stack;
      var inside := TakeOut(left, target, crafts);
      SupportsInside(reg, rank, stack, items, left, owed, target, crafts, inside);
      rest := PartsComplete(reg, rank, stack + {target}, items, target, crafts, inside, owed);
      var inner := PlanParts(reg, stack + {target}, items, recipe, crafts);
      LeavesTarget(left, target, crafts, recipe.needsTable, inside, inner.steps, rest);
      PlanSound(reg, rank, stack, items, target, required);
      SupportsAfter(reg, stack, items, left, owed, Plan(reg, stack, items, target, required), Nothing(), rest, owed);
    }
  }

  lemma {:induction false} PartsComplete(reg: Registry, rank: Ranking, stack: set<string>, items: Counts,
                                         target: string, crafts: int,
                                         left: seq<string>, owed: Counts)
    returns (rest: seq<string>)
    requires Ranked(reg, rank) && ToolsKept(reg) && NonNegative(items) && NonNegative(owed)
    requires target in reg && Usable(reg[target]) && crafts >= 1 && Above(rank, stack, rank(target))
    requires Supports(reg, stack, items, left, n => owed(n) + Reserved(reg[target].ingredients, crafts)(n))
    requires forall k :: 0 <= k < |Tools(reg[target])| ==>
               items(Tools(reg[target])[k].itemName) + Net(reg, left, Tools(reg[target])[k].itemName)
                   >= Tools(reg[target])[k].count
    ensures PlanParts(reg, stack, items, reg[target], crafts).ok
    ensures Leaves(left, Expand(PlanParts(reg, stack, items, reg[target], crafts).steps), rest)
    decreases reg.Keys - stack, 2, 0
  {
    var recipe := reg[target];
    var all := n => owed(n) + Reserved(recipe.ingredients, crafts)(n);
    forall n ensures all(n) >= 0 {
      ReservedNonNegative(recipe.ingredients, crafts, n);
    }
    forall k | 0 <= k < |Tools(recipe)| ensures !IsIngredient(reg, Tools(recipe)[k].itemName) {
      ToolNotConsumed(reg, target, k);
    }
    var mid := ToolsComplete(reg, rank, stack, items, Tools(recipe), rank(target), left, all);
    var tools := PlanTools(reg, stack, items, Tools(recipe));
    ToolsSound(reg, rank, stack, items, Tools(recipe), rank(target));
    rest := IngredientsComplete(reg, rank, stack, tools.items, target, recipe.ingredients, crafts, mid, owed, all);
    LeavesAfter(left, tools.steps, mid, PlanIngredients(reg, stack, tools.items, recipe.ingredients, crafts).steps,
                rest);
  }

  lemma LeavesAll(left: seq<string>)
    ensures Leaves(left, Expand([]), left)
  {
    assert multiset(left) == multiset(left) + multiset(Expand([]));
  }

  /** The crafts of the plan's last step come after those of its parts. */
  lemma LeavesTarget(left: seq<string>, target: string, crafts: nat, needsTable: bool, inside: seq<string>,
                     parts: seq<CraftStep>, rest: seq<string>)
    requires crafts >= 1 && Leaves(left, Repeat(target, crafts), inside) && Leaves(inside, Expand(parts), rest)
    ensures Leaves(left, Expand(parts + [CraftStep(target, crafts, needsTable)]), rest)
  {
    var step := CraftStep(target, crafts, needsTable);
    ExpandAppend(parts, [step]);
    assert Expand([step]) == Repeat(target, crafts);
  }

  lemma LeavesAfter(left: seq<string>, first: seq<CraftStep>, mid: seq<string>, second: seq<CraftStep>,
                    rest: seq<string>)
    requires Leaves(left, Expand(first), mid) && Leaves(mid, Expand(second), rest)
    ensures Leaves(left, Expand(first + second), rest)
  {
    ExpandAppend(first, second);
  }

  lemma ReservedNonNegative(ingredients: seq<Ingredient>, crafts: int, n: string)
    requires crafts >= 1 && forall k :: 0 <= k < |ingredients| ==> ingredients[k].count > 0
    ensures crafts * Consumes(ingredients, n) >= 0
  {
    ConsumesNonNegative(ingredients, n);
  }

  lemma {:induction false} ToolsComplete(reg: Registry, rank: Ranking, stack: set<string>, items: Counts,
                                         tools: seq<Ingredient>, bound: nat,
                                         left: seq<string>, owed: Counts)
    returns (rest: seq<string>)
    requires Ranked(reg, rank) && ToolsKept(reg) && NonNegative(items) && NonNegative(owed) && Above(rank, stack, bound)
    requires forall k :: 0 <= k < |tools| ==> rank(tools[k].itemName) < bound
    requires Supports(reg, stack, items, left, owed)
    requires forall k :: 0 <= k < |tools| ==>
      items(tools[k].itemName) + Net(reg, left, tools[k].itemName) >= tools[k].count
    ensures PlanTools(reg, stack, items, tools).ok
    ensures Leaves(left, Expand(PlanTools(reg, stack, items, tools).steps), rest)
    ensures Supports(reg, stack, PlanTools(reg, stack, items, tools).items, rest, owed)
    decreases reg.Keys - stack, 1, |tools|
  {
    if tools == [] {
      rest := left;
      LeavesAll(left);
    } else {
      var first := Plan(reg, stack, items, tools[0].itemName, tools[0].count);
      var mid := PlanComplete(reg, rank, stack, items, tools[0].itemName, tools[0].count, left, owed);
      PlanSound(reg, rank, stack, items, tools[0].itemName, tools[0].count);
      rest := ToolsComplete(reg, rank, stack, first.items, tools[1..], bound, mid, owed);
      LeavesAfter(left, first.steps, mid, PlanTools(reg, stack, first.items, tools[1..]).steps, rest);
    }
  }

  lemma {:induction false} IngredientsComplete(reg: Registry, rank: Ranking, stack: set<string>, items: Counts,
                                               target: string,
                                               ingredients: seq<Ingredient>, crafts: int,
                                               left: seq<string>, owed: Counts, all: Counts)
    returns (rest: seq<string>)
    requires Ranked(reg, rank) && ToolsKept(reg) && NonNegative(items) && NonNegative(owed)
    requires target in reg && Usable(reg[target]) && crafts >= 1 && Above(rank, stack, rank(target))
    requires IsSuffix(ingredients, reg[target].ingredients)
    requires forall n :: all(n) == owed(n) + Reserved(ingredients, crafts)(n)
    requires Supports(reg, stack, items, left, all)
    ensures PlanIngredients(reg, stack, items, ingredients, crafts).ok
    ensures Leaves(left, Expand(PlanIngredients(reg, stack, items, ingredients, crafts).steps), rest)
    decreases reg.Keys - stack, 1, |ingredients|
  {
    if ingredients == [] {
      rest := left;
      LeavesAll(left);
    } else {
      var head := ingredients[0];
      var need := head.count * crafts;
      SuffixHead(reg, rank, target, ingredients);
      SuffixUsable(reg, target, ingredients);
      assert head.itemName !in stack;
      var later := HeadOwed(ingredients, crafts, owed, all);
      var first := Plan(reg, stack, items, head.itemName, need);
      var mid := PlanComplete(reg, rank, stack, items, head.itemName, need, left, all);
      PlanSound(reg, rank, stack, items, head.itemName, need);
      DeductedNonNegative(first.items, head.itemName, need);
      var used := Add(first.items, head.itemName, -need);
      SupportsDeducted(reg, stack, first.items, mid, all, head.itemName, need, later);
      rest := IngredientsComplete(reg, rank, stack, used, target, ingredients[1..], crafts, mid, owed, later);
      HeadComplete(reg, stack, items, ingredients, crafts, first, left, mid, rest);
    }
  }

  /** The head of the ingredients and the others, put together. */
  lemma HeadComplete(reg: Registry, stack: set<string>, items: Counts, ingredients: seq<Ingredient>, crafts: int,
                     first: Planned,
                     left: seq<string>, mid: seq<string>, rest: seq<string>)
    requires ingredients != [] && ingredients[0].count > 0
    requires first == Plan(reg, stack, items, ingredients[0].itemName, ingredients[0].count * crafts) && first.ok
    requires Leaves(left, Expand(first.steps), mid)
    requires var others := PlanIngredients(reg, stack,
                                           Add(first.items, ingredients[0].itemName, -(ingredients[0].count * crafts)),
                                               ingredients[1..], crafts);
             others.ok && Leaves(mid, Expand(others.steps), rest)
    ensures var whole := PlanIngredients(reg, stack, items, ingredients, crafts);
      whole.ok && Leaves(left, Expand(whole.steps), rest)
  {
    HeadThenOthers(reg, stack, items, ingredients, crafts);
    var others := PlanIngredients(reg, stack,
                                  Add(first.items, ingredients[0].itemName, -(ingredients[0].count * crafts)),
                                      ingredients[1..], crafts);
    LeavesAfter(left, first.steps, mid, others.steps, rest);
  }

  lemma SuffixUsable(reg: Registry, target: string, ingredients: seq<Ingredient>)
    requires target in reg && Usable(reg[target]) && IsSuffix(ingredients, reg[target].ingredients)
    ensures forall k :: 0 <= k < |ingredients| ==> ingredients[k].count > 0
  {
    var whole := reg[target].ingredients;
    forall k | 0 <= k < |ingredients| ensures ingredients[k].count > 0 {
      assert ingredients[k] == whole[|whole| - |ingredients| + k];
    }
  }

  lemma HeadOwed(ingredients: seq<Ingredient>, crafts: int, owed: Counts, all: Counts) returns (later: Counts)
    requires ingredients != [] && crafts >= 1 && NonNegative(owed)
    requires forall k :: 0 <= k < |ingredients| ==> ingredients[k].count > 0
    requires forall n :: all(n) == owed(n) + Reserved(ingredients, crafts)(n)
    ensures forall n :: later(n) == owed(n) + Reserved(ingredients[1..], crafts)(n)
    ensures forall n :: all(n) == later(n) + (if n == ingredients[0].itemName then ingredients[0].count * crafts else 0)
    ensures NonNegative(all) && NonNegative(later)
    ensures all(ingredients[0].itemName) >= ingredients[0].count * crafts
  {
    later := n => owed(n) + Reserved(ingredients[1..], crafts)(n);
    forall n ensures all(n) == later(n) + (if n == ingredients[0].itemName then ingredients[0].count * crafts else 0)
             ensures all(n) >= 0 && later(n) >= 0
    {
      ReserveHead(ingredients, crafts, n);
      ReservedNonNegative(ingredients, crafts, n);
      forall k | 0 <= k < |ingredients[1..]| ensures ingredients[1..][k].count > 0 {
        assert ingredients[1..][k] == ingredients[k + 1];
      }
      ReservedNonNegative(ingredients[1..], crafts, n);
    }
  }

  lemma SupportsDeducted(reg: Registry, stack: set<string>, items: Counts, left: seq<string>, all: Counts,
                         name: string, need: int, later: Counts)
    requires ToolsKept(reg) && IsIngredient(reg, name)
    requires Supports(reg, stack, items, left, all)
    requires forall n :: all(n) == later(n) + (if n == name then need else 0)
    ensures Supports(reg, stack, Add(items, name, -need), left, later)
  {
    forall item | item in left ensures ToolsReachable(reg, stack, Add(items, name, -need), left, Tools(reg[item])) {
      assert ToolsReachable(reg, stack, items, left, Tools(reg[item]));
      forall k | 0 <= k < |Tools(reg[item])| && Tools(reg[item])[k].itemName !in stack
        ensures Add(items, name, -need)(Tools(reg[item])[k].itemName) + Net(reg, left, Tools(reg[item])[k].itemName)
          >= Tools(reg[item])[k].count
      {
        ToolNotConsumed(reg, item, k);
      }
    }
  }

  /** A tool is never used up, so later crafts leave at least as many of it. */
  lemma {:induction false} ToolNetNonNegative(reg: Registry, crafts: seq<string>, tool: string)
    requires AllUsable(reg, crafts) && !IsIngredient(reg, tool)
    ensures Net(reg, crafts, tool) >= 0
  {
    if crafts != [] {
      assert crafts[0] in crafts;
      assert forall item :: item in crafts[1..] ==> item in crafts;
      NotConsumed(reg, crafts[0], tool);
      ToolNetNonNegative(reg, crafts[1..], tool);
    }
  }

  lemma {:induction false} RunsUsable(reg: Registry, items: Counts, crafts: seq<string>)
    requires Runs(reg, items, crafts)
    ensures AllUsable(reg, crafts)
  {
    if crafts != [] {
      RunsUsable(reg, Crafted(reg, items, crafts[0]), crafts[1..]);
    }
  }

  lemma {:induction false} RunsToolsReachable(reg: Registry, items: Counts, crafts: seq<string>, item: string)
    requires ToolsKept(reg) && Runs(reg, items, crafts) && item in crafts
    ensures item in reg && ToolsReachable(reg, {}, items, crafts, Tools(reg[item]))
  {
    RunsUsable(reg, items, crafts);
    assert forall other :: other in crafts[1..] ==> other in crafts;
    if crafts[0] == item {
      forall k | 0 <= k < |Tools(reg[item])|
        ensures items(Tools(reg[item])[k].itemName) + Net(reg, crafts, Tools(reg[item])[k].itemName)
          >= Tools(reg[item])[k].count
      {
        ToolNotConsumed(reg, item, k);
        ToolNetNonNegative(reg, crafts, Tools(reg[item])[k].itemName);
        assert InHand(items, Tools(reg[item]));
      }
    } else {
      var next := Crafted(reg, items, crafts[0]);
      RunsToolsReachable(reg, next, crafts[1..], item);
      forall k | 0 <= k < |Tools(reg[item])|
        ensures items(Tools(reg[item])[k].itemName) + Net(reg, crafts, Tools(reg[item])[k].itemName)
          >= Tools(reg[item])[k].count
      {
        assert ToolsReachable(reg, {}, next, crafts[1..], Tools(reg[item]));
        assert next(Tools(reg[item])[k].itemName) + Net(reg, crafts[1..], Tools(reg[item])[k].itemName)
            >= Tools(reg[item])[k].count;
      }
    }
  }

  /** `crafts` can be carried out from `items` and yields the target. */
  ghost predicate Reaches(reg: Registry, items: Counts, target: string, crafts: seq<string>) {
    Runs(reg, items, crafts) && End(reg, items, crafts)(target) >= 1
  }

  /** The planner's plan uses each item's recipe at most as often as any way of reaching the target does. */
  lemma PlanIsLeast(reg: Registry, items: Counts, target: string, crafts: seq<string>)
    requires Acyclic(reg) && ToolsKept(reg) && NonNegative(items)
    requires items(target) < 1 && Reaches(reg, items, target, crafts)
    ensures Steps(reg, items, target) != []
    ensures forall item :: Times(Expand(Steps(reg, items, target)), item) <= Times(crafts, item)
  {
    var rank :| Ranked(reg, rank);
    RunsUsable(reg, items, crafts);
    RunsNonNegative(reg, items, crafts);
    forall n ensures items(n) + Net(reg, crafts, n) >= 0 {
      assert End(reg, items, crafts)(n) >= 0;
    }
    forall item | item in crafts ensures ToolsReachable(reg, {}, items, crafts, Tools(reg[item])) {
      RunsToolsReachable(reg, items, crafts, item);
    }
    NetAtMost(reg, crafts, target);
    var rest := PlanComplete(reg, rank, {}, items, target, 1, crafts, Nothing());
    PlanSound(reg, rank, {}, items, target, 1);
    forall item ensures Times(Expand(Steps(reg, items, target)), item) <= Times(crafts, item) {
      assert multiset(crafts)[item] == multiset(rest)[item] + multiset(Expand(Steps(reg, items, target)))[item];
    }
  }

  /** Steps are offered exactly when the target is not held and some sequence of crafts reaches it. */
  lemma PlannerIsExact(reg: Registry, items: Counts, target: string)
    requires Acyclic(reg) && ToolsKept(reg) && NonNegative(items)
    ensures Steps(reg, items, target) != [] <==>
      items(target) < 1 && exists crafts :: Reaches(reg, items, target, crafts)
  {
    if Steps(reg, items, target) != [] {
      StepsCanBeCarriedOut(reg, items, target);
      assert Reaches(reg, items, target, Expand(Steps(reg, items, target)));
    }
    if items(target) < 1 && exists crafts :: Reaches(reg, items, target, crafts) {
      var crafts :| Reaches(reg, items, target, crafts);
      PlanIsLeast(reg, items, target, crafts);
    }
  }
}
