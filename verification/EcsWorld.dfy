// The entity world as a value: what create, destroy and migrate do to it, the
// invariant they keep, and the plain map from entity to bundle they refine.
module EcsWorld {
  import opened Options
  import opened SchedulerTypes
  import opened EcsTypes

  datatype Location = Location(mask: Mask, row: nat, generation: nat, alive: bool)

  const NOWHERE := Location({}, 0, 0, false)

  datatype WorldData = WorldData(
    tables: map<Mask, TableData>,
    locations: seq<Location>,
    generations: seq<nat>,
    free: seq<nat>,
    botIndex: map<ProfileID, Entity>)

  /** Index 0 is reserved, so the zero handle never resolves. */
  const EMPTY_WORLD := WorldData(map[], [NOWHERE], [0], [], map[])

  // ------------------------------------------------------------- reading

  predicate Resolves(w: WorldData, e: Entity) {
    e.index != 0 && e.index < |w.locations| && w.locations[e.index].alive
        && w.locations[e.index].generation == e.generation
  }

  /** The table row of a handle that resolves. */
  ghost function BundleOf(w: WorldData, i: nat): Bundle
    requires i < |w.locations| && HasRow(w, i)
  {
    BundleAt(w.tables[w.locations[i].mask], w.locations[i].row)
  }

  ghost predicate HasRow(w: WorldData, i: nat)
    requires i < |w.locations|
  {
    var loc := w.locations[i];
    loc.mask in w.tables && Parallel(w.tables[loc.mask]) && loc.row < |w.tables[loc.mask].entities|
  }

  /** The abstract world: which handles are live, and with what bundle. */
  ghost function Lookup(w: WorldData, e: Entity): Option<Bundle> {
    if Resolves(w, e) && HasRow(w, e.index) then Some(BundleOf(w, e.index)) else None
  }

  // ----------------------------------------------------------- invariant

  ghost predicate TableOk(w: WorldData, m: Mask) {
    m in w.tables && w.tables[m].mask == m && Parallel(w.tables[m])
  }

  /** A live location points at the row that points back at it, and the row holds a sound bundle. */
  ghost predicate LiveOk(w: WorldData, i: nat) {
    && 0 < i < |w.locations| && i < |w.generations|
    && w.locations[i].generation == w.generations[i]
    && HasRow(w, i)
    && w.tables[w.locations[i].mask].entities[w.locations[i].row] == Entity(i, w.generations[i])
    && Sound(BundleOf(w, i))
  }

  /** A row points at the live location that points back at it. */
  ghost predicate RowOk(w: WorldData, hole: nat, m: Mask, r: nat) {
    && m in w.tables && r < |w.tables[m].entities|
    && var e := w.tables[m].entities[r];
    && e.index != hole && e.index < |w.locations|
    && w.locations[e.index] == Location(m, r, e.generation, true)
  }

  ghost predicate IndexOk(w: WorldData, hole: nat, p: ProfileID) {
    && p in w.botIndex
    && var e := w.botIndex[p];
    && e.index != hole && Resolves(w, e) && HasRow(w, e.index) && IsBot(BundleOf(w, e.index), p)
  }

  ghost predicate Indexed(w: WorldData, i: nat)
    requires i < |w.locations|
  {
    HasRow(w, i) && BOT in BundleOf(w, i) && BundleOf(w, i)[BOT].BotData? ==>
      var p := BundleOf(w, i)[BOT].profile; p in w.botIndex && w.botIndex[p] == Entity(i, w.locations[i].generation)
  }

  /** Whether index i is handed out: live, and not the one being moved. */
  ghost predicate Used(w: WorldData, hole: nat, i: nat) {
    i < |w.locations| && i != hole && w.locations[i].alive
  }

  ghost predicate FreeOk(w: WorldData, hole: nat) {
    && (forall k, l :: 0 <= k < l < |w.free| ==> w.free[k] != w.free[l])
    && (forall i :: i in w.free <==> 0 < i < |w.locations| && i != hole && !w.locations[i].alive)
  }

  /** The invariant, except that index `hole` has no row and no profile. */
  ghost predicate InvExcept(w: WorldData, hole: nat) {
    && 1 <= |w.locations| == |w.generations| <= WORD32
    && (forall i :: 0 <= i < |w.generations| ==> w.generations[i] < WORD32)
    && !w.locations[0].alive
    && (forall m {:trigger TableOk(w, m)} :: m in w.tables ==> TableOk(w, m))
    && (forall i {:trigger LiveOk(w, i)} :: Used(w, hole, i) ==> LiveOk(w, i))
    && (forall m, r {:trigger RowOk(w, hole, m, r)} :: m in w.tables && 0 <= r < |w.tables[m].entities| ==>
        RowOk(w, hole, m, r))
    && (forall p {:trigger IndexOk(w, hole, p)} :: p in w.botIndex ==> IndexOk(w, hole, p))
    && (forall i {:trigger Indexed(w, i)} :: Used(w, hole, i) ==> Indexed(w, i))
    && FreeOk(w, hole)
  }

  /**
   * Locations and rows in bijection, columns parallel, the profile index exactly the live bots, free
   * exactly the dead indices.
   */
  ghost predicate Inv(w: WorldData) {
    InvExcept(w, 0)
  }

  lemma EmptyWorldIsSound()
    ensures Inv(EMPTY_WORLD)
    ensures forall e :: Lookup(EMPTY_WORLD, e) == None
  {
  }

  // ---------------------------------------------------------- operations

  datatype EcsError = InvalidBundle | ProfileTaken | Stale | WrongSource

  datatype Created = Made(world: WorldData, entity: Entity) | Refused(error: EcsError)

  datatype Changed = Changed(world: WorldData) | Rejected(error: EcsError)

  ghost function EnsureTable(w: WorldData, m: Mask): WorldData {
    if m in w.tables then w else w.(tables := w.tables[m := EmptyTable(m)])
  }

  /** Reuse the most recently freed index, or append a new one. */
  ghost function Allocate(w: WorldData): (r: (WorldData, Entity))
    requires |w.locations| == |w.generations|
    requires forall k :: 0 <= k < |w.free| ==> w.free[k] < |w.generations|
    ensures r.1.index < |r.0.locations| && r.0.tables == w.tables
  {
    if |w.free| > 0 then
      var index := w.free[|w.free| - 1];
      (w.(free := w.free[..|w.free| - 1]), Entity(index, w.generations[index]))
    else
      (w.(generations := w.generations + [1], locations := w.locations + [NOWHERE]),
       Entity(|w.generations| % WORD32, 1))
  }

  /** There is an index to hand out; only after 2^32 distinct ones is there none. */
  predicate HasRoom(w: WorldData) {
    |w.free| > 0 || |w.generations| < WORD32
  }

  ghost function Attach(w: WorldData, e: Entity, b: Bundle): WorldData
    requires e.index < |w.locations|
    requires b.Keys in w.tables ==> Parallel(w.tables[b.Keys]) && w.tables[b.Keys].mask == b.Keys
  {
    var w1 := EnsureTable(w, b.Keys);
    var t := w1.tables[b.Keys];
    w1.(tables := w1.tables[b.Keys := AddRow(t, e, b)],
        locations := w1.locations[e.index := Location(b.Keys, |t.entities|, e.generation, true)],
        botIndex := if BOT in b && b[BOT].BotData? then w1.botIndex[b[BOT].profile := e] else w1.botIndex)
  }

  ghost function Create(w: WorldData, b: Bundle): Created
    requires Inv(w) && WellTyped(b)
  {
    if !Validate(b) then Refused(InvalidBundle)
    else if BOT in b && b[BOT].profile in w.botIndex then Refused(ProfileTaken)
    else
      assert forall k :: 0 <= k < |w.free| ==> w.free[k] in w.free;
      assert b.Keys in w.tables ==> TableOk(w, b.Keys);
      var (w1, e) := Allocate(w);
      Made(Attach(w1, e, b), e)
  }

  /** The row goes, the last row of its table takes its place, and the profile is forgotten. */
  ghost function Detach(w: WorldData, i: nat): WorldData
    requires i < |w.locations| && HasRow(w, i)
  {
    var loc := w.locations[i];
    var t := w.tables[loc.mask];
    var last := |t.entities| - 1;
    var moved := t.entities[last];
    w.(tables := w.tables[loc.mask := RemoveRow(t, loc.row)],
       locations := if loc.row != last && moved.index < |w.locations|
                    then w.locations[moved.index := w.locations[moved.index].(row := loc.row)] else w.locations,
       botIndex := if BOT in BundleOf(w, i) && BundleOf(w, i)[BOT].BotData?
                   then w.botIndex - {BundleOf(w, i)[BOT].profile} else w.botIndex)
  }

  /** The generation moves on, wrapping at 32 bits, and the index becomes free. */
  ghost function Release(w: WorldData, i: nat): WorldData
    requires i < |w.locations| && i < |w.generations|
  {
    var next := (w.generations[i] + 1) % WORD32;
    w.(generations := w.generations[i := next],
       locations := w.locations[i := Location({}, 0, next, false)],
       free := w.free + [i])
  }

  ghost function Destroy(w: WorldData, e: Entity): Changed
    requires Inv(w)
  {
    if !Resolves(w, e) then Rejected(Stale)
    else
      assert Used(w, 0, e.index) && LiveOk(w, e.index);
      Changed(Release(Detach(w, e.index), e.index))
  }

  ghost function Migrate(w: WorldData, e: Entity, source: Mask, b: Bundle): Changed
    requires Inv(w) && WellTyped(b)
  {
    if !Resolves(w, e) then Rejected(Stale)
    else if w.locations[e.index].mask != source then Rejected(WrongSource)
    else if !Validate(b) then Rejected(InvalidBundle)
    else
      assert Used(w, 0, e.index) && LiveOk(w, e.index);
      assert b.Keys in w.tables ==> TableOk(w, b.Keys);
      Changed(Attach(Detach(w, e.index), e, b))
  }
}
