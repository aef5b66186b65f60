// Field deltas between controller states: how they are computed, carried over
// the wire, decoded and merged by the host, and consumed by its ticks.
module ControllerDelta {
  import opened Options
  import opened ControllerTypes

  datatype Field = GotoField | BreakField | AttackField | CraftField | EquipField | PlaceField | ConsumeField

  /** New values, and the fields that are explicitly cleared. */
  datatype Delta = Delta(state: ControllerState, clears: set<Field>)

  /** A delta as it is sent: the cleared fields in a list. */
  datatype Wire = Wire(state: ControllerState, clears: seq<Field>)

  function Listed(fields: seq<Field>): set<Field> {
    set f | f in fields
  }

  function Read(w: Wire): Delta {
    Delta(w.state, Listed(w.clears))
  }

  // ---------------------------------------------------------------- sending

  /** What changed in one field. */
  datatype Change<+T> = Keep | Clear | Set(value: T)

  function ChangeOf<T(==)>(last: Option<T>, cur: Option<T>): Change<T> {
    if last == cur then Keep else if cur.None? then Clear else Set(cur.value)
  }

  function NewValue<T>(c: Change<T>): Option<T> {
    if c.Set? then Some(c.value) else None
  }

  predicate Clears(last: ControllerState, cur: ControllerState, f: Field) {
    match f
    case GotoField => ChangeOf(last.goto_, cur.goto_).Clear?
    case BreakField => ChangeOf(last.break_, cur.break_).Clear?
    case AttackField => ChangeOf(last.attack, cur.attack).Clear?
    case CraftField => ChangeOf(last.craft, cur.craft).Clear?
    case EquipField => ChangeOf(last.equip, cur.equip).Clear?
    case PlaceField => ChangeOf(last.place, cur.place).Clear?
    case ConsumeField => ChangeOf(last.consume, cur.consume).Clear?
  }

  function RawDelta(last: ControllerState, cur: ControllerState): Delta {
    Delta(
      ControllerState(
        NewValue(ChangeOf(last.goto_, cur.goto_)), NewValue(ChangeOf(last.break_, cur.break_)),
            NewValue(ChangeOf(last.attack, cur.attack)),
        NewValue(ChangeOf(last.craft, cur.craft)), NewValue(ChangeOf(last.equip, cur.equip)),
            NewValue(ChangeOf(last.consume, cur.consume)),
        NewValue(ChangeOf(last.place, cur.place))),
      set f: Field | Clears(last, cur, f))
  }

  /** The changed values and cleared fields; none when there are neither. */
  function Diff(last: ControllerState, cur: ControllerState): Option<Delta> {
    var d := RawDelta(last, cur);
    if d.state == EMPTY_STATE && d.clears == {} then None else Some(d)
  }

  /** There is nothing to send exactly when the states are equal. */
  lemma DiffNoneWhenEqual(last: ControllerState, cur: ControllerState)
    ensures Diff(last, cur) == None <==> last == cur
  {
    var clears := RawDelta(last, cur).clears;
    assert forall f: Field :: f in clears <==> Clears(last, cur, f);
    if last != cur && clears == {} {
      assert !Clears(last, cur, GotoField) && !Clears(last, cur, BreakField) && !Clears(last, cur, AttackField);
      assert !Clears(last, cur, CraftField) && !Clears(last, cur, EquipField) && !Clears(last, cur, ConsumeField);
      assert !Clears(last, cur, PlaceField);
    }
  }

  /** One field of the delta: a value if it has a new one, a clear if it lost the old one. */
  method DiffField<T(==)>(last: Option<T>, cur: Option<T>, f: Field, clears: seq<Field>)
      returns (value: Option<T>, clears': seq<Field>)
    ensures value == NewValue(ChangeOf(last, cur))
    ensures forall g :: g in clears' <==> g in clears || (g == f && ChangeOf(last, cur).Clear?)
  {
    value, clears' := None, clears;
    if last != cur {
      if cur.None? {
        clears' := clears + [f];
      } else {
        value := cur;
      }
    }
  }

  /** The delta is filled in field by field. */
  method DiffControllerState(last: ControllerState, cur: ControllerState) returns (delta: Option<Wire>)
    ensures delta.None? <==> Diff(last, cur).None?
    ensures delta.Some? ==> Diff(last, cur) == Some(Read(delta.value))
  {
    var state, clears := EMPTY_STATE, [];
    var goto_, break_, attack, craft, equip, consume, place;
    goto_, clears := DiffField(last.goto_, cur.goto_, GotoField, clears);
    break_, clears := DiffField(last.break_, cur.break_, BreakField, clears);
    attack, clears := DiffField(last.attack, cur.attack, AttackField, clears);
    craft, clears := DiffField(last.craft, cur.craft, CraftField, clears);
    equip, clears := DiffField(last.equip, cur.equip, EquipField, clears);
    consume, clears := DiffField(last.consume, cur.consume, ConsumeField, clears);
    place, clears := DiffField(last.place, cur.place, PlaceField, clears);
    state := ControllerState(goto_, break_, attack, craft, equip, consume, place);
    assert forall f: Field :: f in clears <==> Clears(last, cur, f);
    assert Read(Wire(state, clears)) == RawDelta(last, cur);
    assert |clears| > 0 ==> clears[0] in Read(Wire(state, clears)).clears;
    delta := if state == EMPTY_STATE && |clears| == 0 then None else Some(Wire(state, clears));
  }

  // -------------------------------------------------------------- receiving

  /** The host's record: a field is absent, explicitly null, or a value. */
  datatype HostDelta = HostDelta(
    goto_: Change<BlockPosition>,
    break_: Change<BlockPosition>,
    attack: Change<int>,
    craft: Change<CraftTarget>,
    equip: Change<string>,
    consume: Change<string>,
    place: Change<PlaceTarget>)

  /** A value overrides a clear of the same field. */
  function Decoded<T>(clears: set<Field>, f: Field, value: Option<T>): Change<T> {
    if value.Some? then Set(value.value) else if f in clears then Clear else Keep
  }

  function Decode(d: Delta): HostDelta {
    HostDelta(
      Decoded(d.clears, GotoField, d.state.goto_), Decoded(d.clears, BreakField, d.state.break_),
      Decoded(d.clears, AttackField, d.state.attack), Decoded(d.clears, CraftField, d.state.craft),
      Decoded(d.clears, EquipField, d.state.equip), Decoded(d.clears, ConsumeField, d.state.consume),
      Decoded(d.clears, PlaceField, d.state.place))
  }

  const NO_CHANGE := HostDelta(Keep, Keep, Keep, Keep, Keep, Keep, Keep)

  function Overridden<T>(c: Change<T>, value: Option<T>): Change<T> {
    if value.Some? then Set(value.value) else c
  }

  function WithClear(h: HostDelta, f: Field): HostDelta {
    match f
    case GotoField => h.(goto_ := Clear)
    case BreakField => h.(break_ := Clear)
    case AttackField => h.(attack := Clear)
    case CraftField => h.(craft := Clear)
    case EquipField => h.(equip := Clear)
    case PlaceField => h.(place := Clear)
    case ConsumeField => h.(consume := Clear)
  }

  lemma OneMoreClear(clears: set<Field>, f: Field)
    ensures Decode(Delta(EMPTY_STATE, clears + {f})) == WithClear(Decode(Delta(EMPTY_STATE, clears)), f)
  {
  }

  method DecodeClears(clears: seq<Field>) returns (h: HostDelta)
    ensures h == Decode(Delta(EMPTY_STATE, Listed(clears)))
  {
    h := NO_CHANGE;
    for k := 0 to |clears|
      invariant h == Decode(Delta(EMPTY_STATE, Listed(clears[..k])))
    {
      assert Listed(clears[..k + 1]) == Listed(clears[..k]) + {clears[k]};
      OneMoreClear(Listed(clears[..k]), clears[k]);
      h := WithClear(h, clears[k]);
    }
    assert clears[..|clears|] == clears;
  }

  /** Clears are read first, then the values on top of them. */
  method DecodeControllerState(d: Wire) returns (h: HostDelta)
    ensures h == Decode(Read(d))
  {
    h := DecodeClears(d.clears);
    h := HostDelta(
      Overridden(h.goto_, d.state.goto_), Overridden(h.break_, d.state.break_), Overridden(h.attack, d.state.attack),
      Overridden(h.craft, d.state.craft), Overridden(h.equip, d.state.equip), Overridden(h.consume, d.state.consume),
      Overridden(h.place, d.state.place));
  }

  function Merged<T>(was: Option<T>, c: Change<T>): Option<T> {
    match c
    case Keep => was
    case Clear => None
    case Set(v) => Some(v)
  }

  /** An omitted field keeps its target, null clears it. */
  function Merge(s: ControllerState, h: HostDelta): ControllerState {
    ControllerState(
      Merged(s.goto_, h.goto_), Merged(s.break_, h.break_), Merged(s.attack, h.attack), Merged(s.craft, h.craft),
      Merged(s.equip, h.equip), Merged(s.consume, h.consume), Merged(s.place, h.place))
  }

  /** The wire carries exactly what changed. */
  lemma DecodeRestoresChanges(last: ControllerState, cur: ControllerState)
    ensures Decode(RawDelta(last, cur)) == HostDelta(
      ChangeOf(last.goto_, cur.goto_), ChangeOf(last.break_, cur.break_), ChangeOf(last.attack, cur.attack),
          ChangeOf(last.craft, cur.craft),
      ChangeOf(last.equip, cur.equip), ChangeOf(last.consume, cur.consume), ChangeOf(last.place, cur.place))
  {
    var clears := RawDelta(last, cur).clears;
    assert forall f: Field :: f in clears <==> Clears(last, cur, f);
  }

  /** A field carries its value exactly when that is new, and is cleared exactly when it had one and lost it. */
  ghost predicate Carries<T>(last: Option<T>, cur: Option<T>, sent: Option<T>, cleared: bool) {
    sent == (if cur == last then None else cur) && (cleared <==> last != None && cur == None)
  }

  lemma DeltaExactly(last: ControllerState, cur: ControllerState)
    ensures var Delta(s, clears) := RawDelta(last, cur);
      && Carries(last.goto_, cur.goto_, s.goto_, GotoField in clears)
      && Carries(last.break_, cur.break_, s.break_, BreakField in clears)
      && Carries(last.attack, cur.attack, s.attack, AttackField in clears)
      && Carries(last.craft, cur.craft, s.craft, CraftField in clears)
      && Carries(last.equip, cur.equip, s.equip, EquipField in clears)
      && Carries(last.consume, cur.consume, s.consume, ConsumeField in clears)
      && Carries(last.place, cur.place, s.place, PlaceField in clears)
    ensures Diff(last, cur) != None ==> Diff(last, cur) == Some(RawDelta(last, cur))
  {
    assert forall f: Field :: f in RawDelta(last, cur).clears <==> Clears(last, cur, f);
  }

  /** What a field of the host becomes: a value wins over a clear, and without either the field stays. */
  ghost predicate Becomes<T>(was: Option<T>, sent: Option<T>, cleared: bool, now: Option<T>) {
    now == if sent != None then sent else if cleared then None else was
  }

  /** Decoding and merging any delta, also one that no sender computes. */
  lemma MergeExactly(host: ControllerState, d: Delta)
    ensures var now := Merge(host, Decode(d));
      && Becomes(host.goto_, d.state.goto_, GotoField in d.clears, now.goto_)
      && Becomes(host.break_, d.state.break_, BreakField in d.clears, now.break_)
      && Becomes(host.attack, d.state.attack, AttackField in d.clears, now.attack)
      && Becomes(host.craft, d.state.craft, CraftField in d.clears, now.craft)
      && Becomes(host.equip, d.state.equip, EquipField in d.clears, now.equip)
      && Becomes(host.consume, d.state.consume, ConsumeField in d.clears, now.consume)
      && Becomes(host.place, d.state.place, PlaceField in d.clears, now.place)
  {
  }

  /** Diff, decode and merge take the last state to the current one. */
  lemma DeltaRoundTrip(last: ControllerState, cur: ControllerState)
    ensures Merge(last, Decode(RawDelta(last, cur))) == cur
  {
    DecodeRestoresChanges(last, cur);
  }
}
