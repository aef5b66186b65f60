// Goals, controller actions and the targets a bot's controller is given.
module ControllerTypes {
  import opened Options
  import ChunkStore

  type BlockPosition = ChunkStore.BlockPosition

  datatype GoalType = Idle | Eat | CraftTool | FindFood | Flee | Fight | GatherResource | Hunt | ReturnToShelter

  datatype TargetKind = NoTarget | EntityTarget | BlockTarget | ItemTarget | DestinationTarget

  /** The destination is already truncated to a block. */
  datatype GoalTarget = GoalTarget(kind: TargetKind, entityID: int, block: BlockPosition, item: string,
                                   destination: BlockPosition)

  datatype Action = NoAction | Goto | Break | Attack | Craft | Equip | Place | Consume

  predicate IsOneShot(a: Action) {
    a.Craft? || a.Equip? || a.Consume? || a.Place?
  }

  /** What a behavior decided for this tick. */
  datatype Decision = Decision(goal: GoalType, target: GoalTarget, movement: GoalTarget, action: Action,
                               craftCount: int, placeItem: string)

  const NO_TARGET := GoalTarget(NoTarget, 0, ChunkStore.BlockPosition(0, 0, 0), "", ChunkStore.BlockPosition(0, 0, 0))

  datatype CraftTarget = CraftTarget(itemName: string, count: int)

  datatype PlaceTarget = PlaceTarget(x: int, y: int, z: int, faceX: int, faceY: int, faceZ: int)

  /** Desired targets; in a delta, a missing one means unchanged. */
  datatype ControllerState = ControllerState(
    goto_: Option<BlockPosition>,
    break_: Option<BlockPosition>,
    attack: Option<int>,
    craft: Option<CraftTarget>,
    equip: Option<string>,
    consume: Option<string>,
    place: Option<PlaceTarget>)

  const EMPTY_STATE := ControllerState(None, None, None, None, None, None, None)

  /** Whether a state sets the field of a one-shot action. */
  predicate SetsOneShot(s: ControllerState) {
    s.craft.Some? || s.equip.Some? || s.consume.Some? || s.place.Some?
  }

  function BlockOf(target: GoalTarget): BlockPosition {
    if target.kind.DestinationTarget? then target.destination else target.block
  }

  /** The controller state that carries out a decision. */
  function StateForDecision(d: Decision): ControllerState {
    var moving := EMPTY_STATE.(goto_ := if d.movement.kind.NoTarget? then None else Some(BlockOf(d.movement)));
    match d.action
    case Goto => moving.(goto_ := Some(BlockOf(d.target)))
    case Break => moving.(break_ := Some(BlockOf(d.target)))
    case Attack => moving.(attack := Some(d.target.entityID))
    case Craft => EMPTY_STATE.(craft := Some(CraftTarget(d.target.item, d.craftCount)))
    case Equip => EMPTY_STATE.(equip := Some(d.target.item))
    case Place => EMPTY_STATE.(place := Some(PlaceTarget(d.target.block.x, d.target.block.y, d.target.block.z, 0, 0,
                                                         0)))
    case Consume => EMPTY_STATE.(consume := Some(d.target.item))
    case NoAction => EMPTY_STATE
  }

  /** The field holds the block that the target stands for: its destination if that is its kind, its block otherwise. */
  ghost predicate HoldsBlock(field: Option<BlockPosition>, target: GoalTarget) {
    && field.Some?
    && (target.kind == DestinationTarget ==> field.value == target.destination)
    && (target.kind != DestinationTarget ==> field.value == target.block)
  }

  /** Nothing is asked for. */
  ghost predicate AsksNothing(s: ControllerState) {
    s.goto_ == None && s.break_ == None && s.attack == None && s.craft == None && s.equip == None && s.consume == None
    && s.place == None
  }

  /** Breaking and attacking also go where the decision moves. */
  ghost predicate AlsoMoves(d: Decision) {
    (d.action == Break || d.action == Attack) && d.movement.kind != NoTarget
  }

  /** Field by field, what a state that carries out a decision holds: the action's own target and nothing else. */
  ghost predicate CarriesOut(s: ControllerState, d: Decision) {
    && (s.goto_ != None <==> d.action == Goto || AlsoMoves(d))
    && (d.action == Goto ==> HoldsBlock(s.goto_, d.target))
    && (AlsoMoves(d) ==> HoldsBlock(s.goto_, d.movement))
    && (if d.action == Break then HoldsBlock(s.break_, d.target) else s.break_ == None)
    && (s.attack == if d.action == Attack then Some(d.target.entityID) else None)
    && (s.craft == if d.action == Craft then Some(CraftTarget(d.target.item, d.craftCount)) else None)
    && (s.equip == if d.action == Equip then Some(d.target.item) else None)
    && (s.consume == if d.action == Consume then Some(d.target.item) else None)
    && (s.place == if d.action == Place then
          Some(PlaceTarget(d.target.block.x, d.target.block.y, d.target.block.z, 0, 0, 0)) else None)
  }

  /** Every decision is carried out, and by one state only. */
  lemma DecisionIsCarriedOut(d: Decision, s: ControllerState)
    ensures CarriesOut(s, d) <==> s == StateForDecision(d)
  {
  }

  /** Of break, attack, craft, place and consume only the first that is set survives. */
  function Normalized(s: ControllerState): ControllerState {
    if s.break_.Some? then s.(attack := None, craft := None, place := None, consume := None)
    else if s.attack.Some? then s.(break_ := None, craft := None, place := None, consume := None)
    else if s.craft.Some? then s.(break_ := None, attack := None, place := None, consume := None)
    else if s.place.Some? then s.(break_ := None, attack := None, craft := None, consume := None)
    else if s.consume.Some? then s.(break_ := None, attack := None, craft := None, place := None)
    else s
  }

  /** Each of break, attack, craft, place and consume survives exactly when none before it in this list is set. */
  lemma FirstSurvives(s: ControllerState)
    ensures var n := Normalized(s);
      && n.break_ == s.break_
      && n.attack == (if s.break_ == None then s.attack else None)
      && n.craft == (if s.break_ == None && s.attack == None then s.craft else None)
      && n.place == (if s.break_ == None && s.attack == None && s.craft == None then s.place else None)
      && n.consume ==
         (if s.break_ == None && s.attack == None && s.craft == None && s.place == None then s.consume else None)
      && n.goto_ == s.goto_ && n.equip == s.equip
  {
  }

  predicate Exclusive(s: ControllerState) {
    && (s.break_.Some? ==> s.attack.None? && s.craft.None? && s.place.None? && s.consume.None?)
    && (s.attack.Some? ==> s.craft.None? && s.place.None? && s.consume.None?)
    && (s.craft.Some? ==> s.place.None? && s.consume.None?)
    && (s.place.Some? ==> s.consume.None?)
  }

  /**
   * Normalizing makes the exclusive actions exclusive, changes nothing that already is, and leaves goto
   * and equip alone.
   */
  lemma NormalizedIsExclusive(s: ControllerState)
    ensures Exclusive(Normalized(s))
    ensures Normalized(s) == s <==> Exclusive(s)
    ensures Normalized(s).goto_ == s.goto_ && Normalized(s).equip == s.equip
  {
  }

  /** A decision sets a one-shot field exactly when its action is a one-shot, and then nothing else. */
  lemma DecisionSetsOneField(d: Decision)
    ensures SetsOneShot(StateForDecision(d)) <==> IsOneShot(d.action)
    ensures Exclusive(StateForDecision(d))
    ensures IsOneShot(d.action) ==> FieldOf(StateForDecision(d)) == Some(d.action)
  {
  }

  /** The one-shot action whose field alone is set. */
  function FieldOf(s: ControllerState): Option<Action> {
    if s == EMPTY_STATE.(craft := s.craft) && s.craft.Some? then Some(Craft)
    else if s == EMPTY_STATE.(equip := s.equip) && s.equip.Some? then Some(Equip)
    else if s == EMPTY_STATE.(place := s.place) && s.place.Some? then Some(Place)
    else if s == EMPTY_STATE.(consume := s.consume) && s.consume.Some? then Some(Consume)
    else None
  }
}
