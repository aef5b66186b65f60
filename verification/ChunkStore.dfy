// The chunk cache of every bot: block reads and writes by absolute position.
module ChunkStore {
  import opened Sequences
  import opened Options
  import opened ChunkSections
  import opened ChunkColumns
  import EcsTypes

  type ProfileID = EcsTypes.ProfileID

  datatype BlockPosition = BlockPosition(x: Int32, y: Int32, z: Int32)

  datatype ChunkPosition = ChunkPosition(x: Int32, z: Int32)

  datatype DimensionType = DimensionType(registryID: Int32, key: string, minY: Int32, height: Int32)

  const NO_DIMENSION := DimensionType(0, "", 0, 0)

  /** What a view knows besides its chunks. */
  datatype Header = Header(
    attemptID: nat,
    dimensionEpoch: nat,
    revision: nat,
    dimensionTypes: seq<DimensionType>,
    activeID: Int32,
    active: DimensionType,
    hasBinding: bool,
    hasActive: bool)

  /**
   * Columns are C: column data here, column objects where they are stored. No chunk map is not the same
   * as an empty one.
   */
  datatype View<C> = View(header: Header, chunks: Option<map<ChunkPosition, C>>)

  type Views = map<ProfileID, View<ColumnData>>

  ghost predicate ViewOk(view: View<ColumnData>) {
    view.chunks.Some? ==> forall at :: at in view.chunks.value ==> ColumnOk(view.chunks.value[at])
  }

  ghost predicate ViewsOk(views: Views) {
    forall p :: p in views ==> ViewOk(views[p])
  }

  // ------------------------------------------------------------ dimensions

  function NewView<C>(attemptID: nat): View<C> {
    View(Header(attemptID, 0, 0, [], 0, NO_DIMENSION, false, false), None)
  }

  function TypeOf(header: Header, id: Int32): Option<DimensionType> {
    if id < 0 || id >= |header.dimensionTypes| || header.dimensionTypes[id].registryID != id then None
    else Some(header.dimensionTypes[id])
  }

  /** The attempt that may still change a view. */
  predicate Current<C>(views: map<ProfileID, View<C>>, p: ProfileID, attemptID: nat) {
    p in views && views[p].header.attemptID == attemptID
  }

  /** New types may activate, deactivate or move the bound dimension; chunks of another geometry are dropped. */
  function WithTypes<C>(view: View<C>, types: seq<DimensionType>): View<C> {
    var was, next := view.header, view.header.(dimensionTypes := types);
    if !was.hasBinding then view.(header := next)
    else
      var found := TypeOf(next, was.activeID);
      if found.None? then view.(header := next.(hasActive := false, active := NO_DIMENSION))
      else
        var bound := next.(hasActive := true, active := found.value);
        if was.hasActive && (was.active.minY != found.value.minY || was.active.height != found.value.height) then
          View(bound.(dimensionEpoch := (was.dimensionEpoch + 1) % COUNT64, revision := (was.revision + 1) % COUNT64),
               None)
        else view.(header := bound)
  }

  function Bound<C>(view: View<C>, id: Int32): Option<View<C>> {
    var found := TypeOf(view.header, id);
    if found.None? then None
    else Some(view.(header := view.header.(activeID := id, active := found.value, hasBinding := true,
                                           hasActive := true)))
  }

  // ---------------------------------------------------------------- blocks

  predicate InHeight<C>(view: View<C>, y: Int32) {
    view.header.active.minY <= y < Wrap32(view.header.active.minY + view.header.active.height)
  }

  function ChunkOf(at: BlockPosition): ChunkPosition {
    ChunkPosition(FloorChunk(at.x), FloorChunk(at.z))
  }

  /** The loaded chunk a block position falls into. */
  predicate Loaded<C>(view: View<C>, at: BlockPosition) {
    view.chunks.Some? && ChunkOf(at) in view.chunks.value
  }

  ghost function BlockOf(view: View<ColumnData>, at: BlockPosition): Option<StateID>
    requires ViewOk(view)
  {
    if !view.header.hasActive || !InHeight(view, at.y) || !Loaded(view, at) then None
    else BlockIn(view.chunks.value[ChunkOf(at)], Local(at.x), at.y, Local(at.z))
  }

  ghost function BlockState(views: Views, p: ProfileID, at: BlockPosition): Option<StateID>
    requires ViewsOk(views)
  {
    if p !in views then None else BlockOf(views[p], at)
  }

  /** One update of one view; None when it is refused. */
  ghost function UpdateView(view: View<ColumnData>, at: BlockPosition, value: StateID): (r: Option<View<ColumnData>>)
    requires ViewOk(view)
    ensures r.Some? ==> ViewOk(r.value)
  {
    if !view.header.hasActive || !InHeight(view, at.y) || !Loaded(view, at) then None
    else
      var chunk := ChunkOf(at);
      SetBlockInOk(view.chunks.value[chunk], Local(at.x), at.y, Local(at.z), value);
      var column := UpdateColumn(view.chunks.value[chunk], Local(at.x), at.y, Local(at.z), value);
      if column.None? then None else Some(view.(chunks := Some(view.chunks.value[chunk := column.value])))
  }

  /** The new views, and whether the call succeeded. */
  ghost function SetBlockState(views: Views, p: ProfileID, attemptID: nat, at: BlockPosition,
                               value: StateID): (r: (Views, bool))
    requires ViewsOk(views)
    ensures ViewsOk(r.0)
  {
    if !Current(views, p, attemptID) then (views, false)
    else
      var view := UpdateView(views[p], at, value);
      if view.None? then (views, false) else (views[p := view.value], true)
  }

  datatype BlockUpdate = BlockUpdate(position: BlockPosition, stateID: StateID)

  /** The updates one after the other, each on the result of the ones before; refused ones are skipped. */
  ghost function Folded(views: Views, p: ProfileID, attemptID: nat, updates: seq<BlockUpdate>): (r: Views)
    requires ViewsOk(views)
    ensures ViewsOk(r)
  {
    if updates == [] then views
    else
      var n := |updates| - 1;
      SetBlockState(Folded(views, p, attemptID, updates[..n]), p, attemptID, updates[n].position, updates[n].stateID).0
  }

  /** A batch may run. */
  predicate BatchAllowed<C>(views: map<ProfileID, View<C>>, p: ProfileID, attemptID: nat) {
    Current(views, p, attemptID) && views[p].header.hasActive && views[p].chunks.Some?
  }

  /** A batch runs exactly for the current attempt, with an active dimension and a chunk map, be it empty. */
  lemma BatchExactly(views: Views, p: ProfileID, attemptID: nat)
    ensures BatchAllowed(views, p, attemptID) <==>
      && p in views && views[p].header.attemptID == attemptID
      && views[p].header.hasActive && views[p].chunks != None
  {
  }

  /** Where no batch may run, no single update succeeds either. */
  lemma {:induction false} RefusedFold(views: Views, p: ProfileID, attemptID: nat, updates: seq<BlockUpdate>)
    requires ViewsOk(views) && !BatchAllowed(views, p, attemptID)
    ensures Folded(views, p, attemptID, updates) == views
  {
    if updates != [] {
      RefusedFold(views, p, attemptID, updates[..|updates| - 1]);
    }
  }

  /** Every id a bot's chunks hold is one the direct form can hold. */
  ghost predicate SmallView(view: View<ColumnData>) {
    view.chunks.Some? ==> forall at :: at in view.chunks.value ==>
        ColumnOk(view.chunks.value[at]) && SmallIds(view.chunks.value[at])
  }

  ghost predicate CountedView(view: View<ColumnData>) {
    view.chunks.Some? ==> forall at :: at in view.chunks.value ==>
        ColumnOk(view.chunks.value[at]) && Counted(view.chunks.value[at])
  }

  ghost predicate SectionRefuses(view: View<ColumnData>, at: BlockPosition, value: StateID) {
    Loaded(view, at) && Refuses(view.chunks.value[ChunkOf(at)], Local(at.x), at.y, Local(at.z), value)
  }

  lemma UpdateKeeps(view: View<ColumnData>, at: BlockPosition, value: StateID)
    requires ViewOk(view) && SmallView(view)
    ensures var r := UpdateView(view, at, value);
      r.Some? ==>
          (ViewOk(r.value) && (CountedView(view) ==> CountedView(r.value))
           && (value < DIRECT_LIMIT ==> SmallView(r.value)))
  {
    if UpdateView(view, at, value).Some? {
      SetBlockInRefines(view.chunks.value[ChunkOf(at)], Local(at.x), at.y, Local(at.z), value);
    }
  }

  /** A set succeeds exactly for the current attempt, at a block that can be read, in a section that can hold the id. */
  lemma SetSucceeds(views: Views, p: ProfileID, attemptID: nat, at: BlockPosition, value: StateID)
    requires ViewsOk(views) && (p in views ==> SmallView(views[p]))
    ensures SetBlockState(views, p, attemptID, at, value).1 <==>
      && p in views && views[p].header.attemptID == attemptID
      && BlockState(views, p, at).Some? && !SectionRefuses(views[p], at, value)
  {
    if p in views && Loaded(views[p], at) {
      SetBlockInRefines(views[p].chunks.value[ChunkOf(at)], Local(at.x), at.y, Local(at.z), value);
    }
  }

  /** Two positions in one chunk with the same local coordinates are the same position. */
  lemma PositionsApart(at: BlockPosition, other: BlockPosition)
    requires ChunkOf(at) == ChunkOf(other) && (Local(at.x), at.y, Local(at.z))
      == (Local(other.x), other.y, Local(other.z))
    ensures at == other
  {
    LocalInjective(at.x, other.x);
    LocalInjective(at.z, other.z);
  }

  lemma ChunkReads(c: ColumnData, at: BlockPosition, value: StateID, other: BlockPosition)
    requires ColumnOk(c) && SmallIds(c) && ChunkOf(other) == ChunkOf(at)
    requires UpdateColumn(c, Local(at.x), at.y, Local(at.z), value).Some?
    ensures var c' := UpdateColumn(c, Local(at.x), at.y, Local(at.z), value).value;
      ColumnOk(c') && BlockIn(c', Local(other.x), other.y, Local(other.z)) ==
        if other == at then Some(value) else BlockIn(c, Local(other.x), other.y, Local(other.z))
  {
    BlockInAfter(c, Local(at.x), at.y, Local(at.z), value, Local(other.x), other.y, Local(other.z));
    if (Local(at.x), at.y, Local(at.z)) == (Local(other.x), other.y, Local(other.z)) {
      PositionsApart(at, other);
    }
  }

  lemma UpdateReads(view: View<ColumnData>, at: BlockPosition, value: StateID, other: BlockPosition)
    requires ViewOk(view) && SmallView(view) && UpdateView(view, at, value).Some?
    ensures BlockOf(UpdateView(view, at, value).value, other) == if other == at then Some(value)
      else BlockOf(view, other)
  {
    if ChunkOf(other) == ChunkOf(at) {
      ChunkReads(view.chunks.value[ChunkOf(at)], at, value, other);
    }
  }

  /** A successful set changes what is read at exactly that position of that profile; a failed one changes nothing. */
  lemma SetRefines(views: Views, p: ProfileID, attemptID: nat, at: BlockPosition, value: StateID, q: ProfileID,
                   other: BlockPosition)
    requires ViewsOk(views) && (p in views ==> SmallView(views[p]))
    ensures var (views', ok) := SetBlockState(views, p, attemptID, at, value);
      && (!ok ==> views' == views)
      && (ok ==>
          BlockState(views', q, other) == if (q, other) == (p, at) then Some(value) else BlockState(views, q, other))
  {
    if SetBlockState(views, p, attemptID, at, value).1 {
      UpdateReads(views[p], at, value, other);
    }
  }

  /** The profile's ids fit the direct form and its non-air counts are exact. */
  ghost predicate Exact(views: Views, p: ProfileID) {
    p in views ==> SmallView(views[p]) && CountedView(views[p])
  }

  /** Counts stay exact over any list of updates with ids the direct form can hold. */
  lemma {:induction false} CountsStayExact(views: Views, p: ProfileID, attemptID: nat, updates: seq<BlockUpdate>)
    requires ViewsOk(views) && Exact(views, p)
    requires forall u :: u in updates ==> u.stateID < DIRECT_LIMIT
    ensures Exact(Folded(views, p, attemptID, updates), p)
  {
    if updates != [] {
      var n := |updates| - 1;
      CountsStayExact(views, p, attemptID, updates[..n]);
      var before := Folded(views, p, attemptID, updates[..n]);
      if Current(before, p, attemptID) {
        UpdateKeeps(before[p], updates[n].position, updates[n].stateID);
      }
    }
  }

  // -------------------------------------------------------------- geometry

  predicate SameGeometry(c: ColumnData, d: DimensionType) {
    c.minY == d.minY && c.height == d.height
  }

  /** Stored columns have the geometry of the active dimension. */
  ghost predicate Matched(view: View<ColumnData>) {
    view.header.hasActive ==> AllFit(view, view.header.active)
  }

  ghost predicate AllFit(view: View<ColumnData>, d: DimensionType) {
    forall at :: at in Columns(view) ==> SameGeometry(Columns(view)[at], d)
  }

  function Columns<C>(view: View<C>): map<ChunkPosition, C> {
    if view.chunks.Some? then view.chunks.value else map[]
  }

  function NextVersion(view: View<ColumnData>, at: ChunkPosition): nat {
    if at in Columns(view) then (Columns(view)[at].version + 1) % COUNT64 else 1
  }

  function Stored(view: View<ColumnData>, at: ChunkPosition, column: ColumnData): View<ColumnData> {
    view.(chunks := Some(Columns(view)[at := column]))
  }

  function Replaced(view: View<ColumnData>, at: ChunkPosition, column: ColumnData): Option<View<ColumnData>> {
    if !view.header.hasActive || !SameGeometry(column, view.header.active) then None
    else Some(Stored(view, at, column.(version := NextVersion(view, at))))
  }

  function Unloaded<C>(view: View<C>, at: ChunkPosition): Option<View<C>> {
    if !view.header.hasActive || view.chunks.None? || at !in view.chunks.value then None
    else Some(view.(chunks := Some(view.chunks.value - {at})))
  }

  /**
   * In a matched view, every block of a loaded chunk inside the dimension's height can be read, except
   * where the chunk overflows.
   */
  lemma ReadableExactly(view: View<ColumnData>, at: BlockPosition)
    requires ViewOk(view) && Matched(view)
    ensures BlockOf(view, at).Some? <==>
      view.header.hasActive && InHeight(view, at.y) && Loaded(view, at) && at.x >= LOWEST_EXACT && at.z >= LOWEST_EXACT
  {
    FloorChunkExact(at.x);
    FloorChunkExact(at.z);
    if view.header.hasActive && InHeight(view, at.y) && Loaded(view, at) {
      assert SameGeometry(Columns(view)[ChunkOf(at)], view.header.active);
      SectionInColumn(view.chunks.value[ChunkOf(at)], at.y);
    }
  }

  lemma SectionInColumn(c: ColumnData, y: Int32)
    requires ColumnOk(c) && c.minY <= y < Wrap32(c.minY + c.height)
    ensures 0 <= Wrap32(y - c.minY) / CHUNK_WIDTH < |c.sections|
  {
    assert y - c.minY < c.height;
  }

  /** A height that passes the largest coordinate wraps, and then no block is inside it. */
  lemma HeightExactly<C>(view: View<C>, y: Int32)
    requires view.header.active.height > 0
    ensures var low, top := view.header.active.minY, view.header.active.minY + view.header.active.height;
      InHeight(view, y) <==> low <= y < top < 0x8000_0000
  {
  }

  /** A column stored in the view. */
  ghost predicate HasColumn(view: View<ColumnData>, chunk: ChunkPosition, c: ColumnData) {
    view.chunks.Some? && chunk in view.chunks.value && view.chunks.value[chunk] == c
  }

  /**
   * In a matched view the block at a position is the state of the column of chunk (x / 16, z / 16) at cell
   * (y - minY) * 256 + z % 16 * 16 + x % 16, counted from the bottom of the column, section after section.
   */
  lemma BlockIsAtItsNumber(view: View<ColumnData>, at: BlockPosition, c: ColumnData)
    requires ViewOk(view) && Matched(view) && view.header.hasActive
    requires HasColumn(view, ChunkPosition(at.x / 16, at.z / 16), c) && at.x >= LOWEST_EXACT && at.z >= LOWEST_EXACT
    ensures StoredBlock(c, at, BlockOf(view, at))
  {
    FloorChunkExact(at.x);
    FloorChunkExact(at.z);
    assert ColumnOk(c) && SameGeometry(Columns(view)[ChunkOf(at)], view.header.active);
    HeightExactly(view, at.y);
    if InHeight(view, at.y) {
      BlockIsNumbered(c, at.x % 16, at.y, at.z % 16);
    }
  }

  /** A column that was just stored reads like that in its chunk, and every other chunk reads as before. */
  lemma StoredBlocks(view: View<ColumnData>, chunk: ChunkPosition, column: ColumnData, at: BlockPosition)
    requires ViewOk(view) && ColumnOk(column) && Replaced(view, chunk, column).Some?
    requires at.x >= LOWEST_EXACT && at.z >= LOWEST_EXACT
    ensures var next := Replaced(view, chunk, column).value;
      && ViewOk(next)
      && ((at.x / 16, at.z / 16) != (chunk.x, chunk.z) ==> BlockOf(next, at) == BlockOf(view, at))
      && ((at.x / 16, at.z / 16) == (chunk.x, chunk.z) ==> StoredBlock(column, at, BlockOf(next, at)))
  {
    FloorChunkExact(at.x);
    FloorChunkExact(at.z);
    var next := Replaced(view, chunk, column).value;
    HeightExactly(next, at.y);
    if ChunkOf(at) == chunk && InHeight(next, at.y) {
      BlockIsNumbered(next.chunks.value[chunk], at.x % 16, at.y, at.z % 16);
    }
  }

  /** What a block of a column reads as. */
  ghost predicate StoredBlock(c: ColumnData, at: BlockPosition, r: Option<StateID>)
    requires ColumnOk(c)
  {
    if c.minY <= at.y < c.minY + c.height < 0x8000_0000 then
      var n := (at.y - c.minY) * 256 + at.z % 16 * 16 + at.x % 16;
      n / 4096 < |c.sections| && r == Some(StateAt(c.sections[n / 4096].states, n % 4096))
    else r == None
  }

  // ------------------------------------------------ versions and dimensions

  /** A set that succeeds moves the version of its own chunk by one and leaves the others and the header alone. */
  lemma SetMovesVersion(view: View<ColumnData>, at: BlockPosition, value: StateID)
    requires ViewOk(view) && UpdateView(view, at, value).Some?
    ensures var next := UpdateView(view, at, value).value;
      && next.header == view.header && Columns(next).Keys == Columns(view).Keys
      && (forall chunk :: chunk in Columns(view) && chunk != ChunkOf(at) ==>
            Columns(next)[chunk] == Columns(view)[chunk])
      && ChunkOf(at) in Columns(view)
      && Columns(next)[ChunkOf(at)].version == (Columns(view)[ChunkOf(at)].version + 1) % 0x1_0000_0000_0000_0000
  {
  }

  /**
   * A column is stored exactly if it has the active geometry; it gets the
   * version after that of the column it replaces, or the first one.
   */
  lemma ReplaceMovesVersion(view: View<ColumnData>, chunk: ChunkPosition, column: ColumnData)
    ensures Replaced(view, chunk, column).Some? <==>
      view.header.hasActive && column.minY == view.header.active.minY && column.height == view.header.active.height
    ensures Replaced(view, chunk, column).Some? ==> var next := Replaced(view, chunk, column).value;
      && next.header == view.header && Columns(next).Keys == Columns(view).Keys + {chunk}
      && (forall other :: other in Columns(view) && other != chunk ==> Columns(next)[other] == Columns(view)[other])
      && Columns(next)[chunk].minY == column.minY && Columns(next)[chunk].height == column.height
      && Columns(next)[chunk].sections == column.sections
      && Columns(next)[chunk].version ==
           if chunk in Columns(view) then (Columns(view)[chunk].version + 1) % 0x1_0000_0000_0000_0000 else 1
  {
  }

  /** An unload takes exactly the named chunk away, if it is loaded and a dimension is active. */
  lemma UnloadExactly(view: View<ColumnData>, chunk: ChunkPosition)
    ensures Unloaded(view, chunk).Some? <==> view.header.hasActive && chunk in Columns(view)
    ensures Unloaded(view, chunk).Some? ==> var next := Unloaded(view, chunk).value;
      next.header == view.header && Columns(next) == Columns(view) - {chunk}
  {
  }

  /** A type can be bound exactly if it stands at the place of its own id; it becomes active and nothing is dropped. */
  lemma BindExactly(view: View<ColumnData>, id: Int32)
    ensures Bound(view, id).Some? <==>
      0 <= id < |view.header.dimensionTypes| && view.header.dimensionTypes[id].registryID == id
    ensures Bound(view, id).Some? ==> var next := Bound(view, id).value;
      && next.header.hasBinding && next.header.hasActive && next.header.activeID == id
      && next.header.active == view.header.dimensionTypes[id] && next.chunks == view.chunks
      && next.header.dimensionTypes == view.header.dimensionTypes && next.header.attemptID == view.header.attemptID
      && next.header.dimensionEpoch == view.header.dimensionEpoch && next.header.revision == view.header.revision
  {
  }

  /** The bound type is among the types, at the place of its own id. */
  ghost predicate FindsBound(header: Header, types: seq<DimensionType>) {
    header.hasBinding && 0 <= header.activeID < |types| && types[header.activeID].registryID == header.activeID
  }

  /** The bound type is found again with another geometry than the active one. */
  ghost predicate Reshapes(header: Header, types: seq<DimensionType>) {
    && FindsBound(header, types) && header.hasActive
    && (types[header.activeID].minY != header.active.minY || types[header.activeID].height != header.active.height)
  }

  /**
   * New types make the bound one active if it is among them, and deactivate
   * the view if not. All chunks are dropped, and epoch and revision move on,
   * exactly if the active geometry changes.
   */
  lemma TypesExactly(view: View<ColumnData>, types: seq<DimensionType>)
    ensures var was, next := view.header, WithTypes(view, types).header;
      && next.dimensionTypes == types && next.attemptID == was.attemptID
      && next.activeID == was.activeID && next.hasBinding == was.hasBinding
      && (was.hasBinding ==> (next.hasActive <==> FindsBound(was, types)))
      && (FindsBound(was, types) ==> next.active == types[was.activeID])
      && (was.hasBinding && !FindsBound(was, types) ==> next.active == DimensionType(0, "", 0, 0))
      && (!was.hasBinding ==> next.hasActive == was.hasActive && next.active == was.active)
      && WithTypes(view, types).chunks == (if Reshapes(was, types) then None else view.chunks)
      && next.dimensionEpoch ==
           (if Reshapes(was, types) then (was.dimensionEpoch + 1) % 0x1_0000_0000_0000_0000 else was.dimensionEpoch)
      && next.revision ==
           (if Reshapes(was, types) then (was.revision + 1) % 0x1_0000_0000_0000_0000 else was.revision)
  {
  }

  /** The calls made for a chunk of new geometry leave a matched view with nothing loaded, whatever was there before. */
  lemma ReloadMatches(attemptID: nat, dimension: DimensionType)
    requires dimension.registryID == 0
    ensures var bound := Bound(WithTypes(NewView<ColumnData>(attemptID), [dimension]), 0);
      bound.Some? && bound.value.header.hasActive && bound.value.header.active == dimension
          && bound.value.chunks == None && Matched(bound.value)
  {
  }

  lemma StoredFits(view: View<ColumnData>, at: ChunkPosition, column: ColumnData, d: DimensionType)
    requires AllFit(view, d) && SameGeometry(column, d)
    ensures AllFit(Stored(view, at, column), d)
  {
  }

  lemma UpdateFits(view: View<ColumnData>, block: BlockPosition, value: StateID, d: DimensionType)
    requires ViewOk(view) && AllFit(view, d)
    ensures var r := UpdateView(view, block, value); r.Some? ==> r.value.header == view.header && AllFit(r.value, d)
  {
    if UpdateView(view, block, value).Some? {
      var at := ChunkOf(block);
      assert at in Columns(view);
      StoredFits(view, at, UpdateColumn(view.chunks.value[at], Local(block.x), block.y, Local(block.z), value).value,
                 d);
    }
  }

  lemma UnloadedFits(view: View<ColumnData>, at: ChunkPosition, d: DimensionType)
    requires AllFit(view, d)
    ensures var r := Unloaded(view, at); r.Some? ==> r.value.header == view.header && AllFit(r.value, d)
  {
    if Unloaded(view, at).Some? {
      forall other | other in Columns(Unloaded(view, at).value)
        ensures SameGeometry(Columns(Unloaded(view, at).value)[other], d)
      {
        assert other in Columns(view);
      }
    }
  }

  /** Loading, unloading and setting blocks keep a view matched. */
  lemma ChunksStayMatched(view: View<ColumnData>, at: ChunkPosition, column: ColumnData, block: BlockPosition,
                          value: StateID)
    requires ViewOk(view) && Matched(view)
    ensures var r := Replaced(view, at, column); r.Some? ==> Matched(r.value)
    ensures var r := Unloaded(view, at); r.Some? ==> Matched(r.value)
    ensures var r := UpdateView(view, block, value); r.Some? ==> Matched(r.value)
  {
    if view.header.hasActive {
      UpdateFits(view, block, value, view.header.active);
      UnloadedFits(view, at, view.header.active);
    }
  }

  predicate SameShape(a: DimensionType, b: DimensionType) {
    a.minY == b.minY && a.height == b.height
  }

  lemma FitsOne(view: View<ColumnData>, a: DimensionType, b: DimensionType)
    requires AllFit(view, a)
    ensures AllFit(view, b) <==> Columns(view) == map[] || SameShape(a, b)
  {
    if Columns(view) != map[] {
      var at :| at in Columns(view);
      assert SameGeometry(Columns(view)[at], a);
    }
  }

  /**
   * Binding keeps the old chunks: an active view stays matched exactly when nothing is loaded or the
   * geometry is the same.
   */
  lemma BindingMatches(view: View<ColumnData>, id: Int32)
    requires Matched(view) && view.header.hasActive && TypeOf(view.header, id).Some?
    ensures Matched(Bound(view, id).value) <==>
      Columns(view) == map[] || SameShape(TypeOf(view.header, id).value, view.header.active)
  {
    FitsOne(view, view.header.active, TypeOf(view.header, id).value);
    KeepsColumns(view, Bound(view, id).value, TypeOf(view.header, id).value);
  }

  lemma KeepsColumns(view: View<ColumnData>, other: View<ColumnData>, d: DimensionType)
    requires other.chunks == view.chunks
    ensures AllFit(other, d) <==> AllFit(view, d)
  {
    assert Columns(other) == Columns(view);
  }

  /**
   * New types keep every active view matched. A view whose bound type was lost
   * keeps its chunks too, and stays matched exactly when the type is still
   * missing or the chunks fit the type that is found again.
   */
  lemma TypesMatch(view: View<ColumnData>, types: seq<DimensionType>)
    requires Matched(view)
    ensures Matched(WithTypes(view, types)) <==>
      || view.header.hasActive || !view.header.hasBinding
      || var found := TypeOf(view.header.(dimensionTypes := types), view.header.activeID);
         found.None? || AllFit(view, found.value)
  {
    var next := WithTypes(view, types);
    if next.chunks == view.chunks {
      KeepsColumns(view, next, next.header.active);
      if view.header.hasActive {
        FitsOne(view, view.header.active, next.header.active);
      }
    }
  }

  // ------------------------------------------------- whole runs of a view

  datatype Call =
    | SetTypes(types: seq<DimensionType>)
    | Bind(id: Int32)
    | Replace(chunk: ChunkPosition, column: ColumnData)
    | Unload(chunk: ChunkPosition)
    | SetBlock(block: BlockPosition, value: StateID)

  /** A view, and the type that was active last, which a caller can keep track of. */
  datatype Watched = Watched(view: View<ColumnData>, last: Option<DimensionType>)

  function OrSame<T>(r: Option<T>, same: T): T {
    if r.Some? then r.value else same
  }

  /** One call on a view; a refused one changes nothing. */
  ghost function Called(view: View<ColumnData>, call: Call): View<ColumnData>
    requires ViewOk(view)
  {
    match call
    case SetTypes(types) => WithTypes(view, types)
    case Bind(id) => OrSame(Bound(view, id), view)
    case Replace(chunk, column) => OrSame(Replaced(view, chunk, column), view)
    case Unload(chunk) => OrSame(Unloaded(view, chunk), view)
    case SetBlock(block, value) => OrSame(UpdateView(view, block, value), view)
  }

  ghost predicate CallOk(call: Call) {
    call.Replace? ==> ColumnOk(call.column)
  }

  ghost function Watch(w: Watched, call: Call): (w': Watched)
    requires ViewOk(w.view) && CallOk(call)
    ensures ViewOk(w'.view)
  {
    var view := Called(w.view, call);
    Watched(view, if view.header.hasActive then Some(view.header.active) else w.last)
  }

  ghost function Run(attemptID: nat, calls: seq<Call>): (w: Watched)
    requires forall c :: c in calls ==> CallOk(c)
    ensures ViewOk(w.view)
  {
    if calls == [] then Watched(NewView(attemptID), None)
    else Watch(Run(attemptID, calls[..|calls| - 1]), calls[|calls| - 1])
  }

  /** The type a call makes active over chunks it keeps. */
  function Activated<C>(view: View<C>, call: Call): Option<DimensionType> {
    match call
    case SetTypes(types) =>
      if view.header.hasActive || !view.header.hasBinding then None
      else TypeOf(view.header.(dimensionTypes := types), view.header.activeID)
    case Bind(id) => TypeOf(view.header, id)
    case _ => None
  }

  /** What a caller has to see to: a type made active over loaded chunks has the geometry that was active last. */
  predicate Careful(w: Watched, call: Call) {
    var d := Activated(w.view, call);
    d.Some? && Columns(w.view) != map[] ==> w.last.Some? && SameShape(d.value, w.last.value)
  }

  /** Every stored column has the geometry that was active last, also while none is. */
  ghost predicate Kept(w: Watched) {
    && (Columns(w.view) != map[] ==> w.last.Some? && AllFit(w.view, w.last.value))
    && (w.view.header.hasActive ==> w.last == Some(w.view.header.active))
  }

  lemma ChunkCallKeeps(w: Watched, call: Call)
    requires ViewOk(w.view) && CallOk(call) && Kept(w) && (call.Replace? || call.Unload? || call.SetBlock?)
    ensures Kept(Watch(w, call))
  {
    if w.last.Some? && AllFit(w.view, w.last.value) {
      match call
      case Replace(chunk, column) =>
        if Replaced(w.view, chunk, column).Some? {
          StoredFits(w.view, chunk, column.(version := NextVersion(w.view, chunk)), w.last.value);
        }
      case Unload(chunk) => UnloadedFits(w.view, chunk, w.last.value);
      case SetBlock(block, value) => UpdateFits(w.view, block, value, w.last.value);
      case _ =>
    }
  }

  lemma DimensionCallKeeps(w: Watched, call: Call)
    requires ViewOk(w.view) && Kept(w) && (call.SetTypes? || call.Bind?)
    ensures Careful(w, call) ==> Kept(Watch(w, call))
    ensures !Careful(w, call) ==> !Matched(Watch(w, call).view)
  {
    var next := Called(w.view, call);
    if next.chunks == w.view.chunks && w.last.Some? && AllFit(w.view, w.last.value) {
      FitsOne(w.view, w.last.value, next.header.active);
      KeepsColumns(w.view, next, next.header.active);
      KeepsColumns(w.view, next, w.last.value);
    }
  }

  /** A careful call keeps the geometry; after any other call the view is active and its chunks do not match. */
  lemma CarefulIsKept(w: Watched, call: Call)
    requires ViewOk(w.view) && CallOk(call) && Kept(w)
    ensures Careful(w, call) ==> Kept(Watch(w, call)) && Matched(Watch(w, call).view)
    ensures !Careful(w, call) ==> !Matched(Watch(w, call).view)
  {
    if call.SetTypes? || call.Bind? {
      DimensionCallKeeps(w, call);
    } else {
      ChunkCallKeeps(w, call);
    }
  }

  ghost predicate CarefulAt(attemptID: nat, calls: seq<Call>, k: nat)
    requires k < |calls| && forall c :: c in calls ==> CallOk(c)
  {
    Careful(Run(attemptID, calls[..k]), calls[k])
  }

  ghost predicate MatchedAt(attemptID: nat, calls: seq<Call>, k: nat)
    requires k <= |calls| && forall c :: c in calls ==> CallOk(c)
  {
    Matched(Run(attemptID, calls[..k]).view)
  }

  /** Each of the first n calls is careful where it is made. */
  ghost predicate CarefulUpTo(attemptID: nat, calls: seq<Call>, n: nat)
    requires n <= |calls| && forall c :: c in calls ==> CallOk(c)
  {
    n == 0 || (CarefulUpTo(attemptID, calls, n - 1) && CarefulAt(attemptID, calls, n - 1))
  }

  /** The view matches before and after each of the first n calls. */
  ghost predicate MatchedUpTo(attemptID: nat, calls: seq<Call>, n: nat)
    requires n <= |calls| && forall c :: c in calls ==> CallOk(c)
  {
    MatchedAt(attemptID, calls, n) && (n == 0 || MatchedUpTo(attemptID, calls, n - 1))
  }

  lemma {:induction false} CarefulThroughout(attemptID: nat, calls: seq<Call>, n: nat, k: nat)
    requires k < n <= |calls| && (forall c :: c in calls ==> CallOk(c)) && CarefulUpTo(attemptID, calls, n)
    ensures CarefulAt(attemptID, calls, k)
  {
    if k < n - 1 {
      CarefulThroughout(attemptID, calls, n - 1, k);
    }
  }

  lemma {:induction false} FirstCareless(attemptID: nat, calls: seq<Call>, n: nat) returns (k: nat)
    requires n <= |calls| && (forall c :: c in calls ==> CallOk(c)) && !CarefulUpTo(attemptID, calls, n)
    ensures k < n && !CarefulAt(attemptID, calls, k)
  {
    k := n - 1;
    if !CarefulUpTo(attemptID, calls, n - 1) {
      k := FirstCareless(attemptID, calls, n - 1);
    }
  }

  lemma CarefulMeans(attemptID: nat, calls: seq<Call>, n: nat)
    requires n <= |calls| && forall c :: c in calls ==> CallOk(c)
    ensures CarefulUpTo(attemptID, calls, n) <==> forall k :: 0 <= k < n ==> CarefulAt(attemptID, calls, k)
  {
    if CarefulUpTo(attemptID, calls, n) {
      forall k | 0 <= k < n ensures CarefulAt(attemptID, calls, k) {
        CarefulThroughout(attemptID, calls, n, k);
      }
    } else {
      var k := FirstCareless(attemptID, calls, n);
    }
  }

  lemma {:induction false} MatchedMeans(attemptID: nat, calls: seq<Call>, n: nat)
    requires n <= |calls| && forall c :: c in calls ==> CallOk(c)
    ensures MatchedUpTo(attemptID, calls, n) <==> forall k :: 0 <= k <= n ==> MatchedAt(attemptID, calls, k)
  {
    if n > 0 {
      MatchedMeans(attemptID, calls, n - 1);
    }
  }

  lemma RunMore(attemptID: nat, calls: seq<Call>, n: nat)
    requires n < |calls| && forall c :: c in calls ==> CallOk(c)
    ensures Run(attemptID, calls[..n + 1]) == Watch(Run(attemptID, calls[..n]), calls[n])
  {
    TakeMore(calls, n);
  }

  /** The next call keeps what there is, or is the first to break the match. */
  lemma NextCall(attemptID: nat, calls: seq<Call>, n: nat)
    requires n < |calls| && forall c :: c in calls ==> CallOk(c)
    requires Kept(Run(attemptID, calls[..n]))
    ensures CarefulAt(attemptID, calls, n) <==> MatchedAt(attemptID, calls, n + 1)
    ensures CarefulAt(attemptID, calls, n) ==> Kept(Run(attemptID, calls[..n + 1]))
  {
    RunMore(attemptID, calls, n);
    CarefulIsKept(Run(attemptID, calls[..n]), calls[n]);
  }

  lemma {:induction false} MatchedExactlyUpTo(attemptID: nat, calls: seq<Call>, n: nat)
    requires n <= |calls| && forall c :: c in calls ==> CallOk(c)
    ensures MatchedUpTo(attemptID, calls, n) <==> CarefulUpTo(attemptID, calls, n)
    ensures CarefulUpTo(attemptID, calls, n) ==> Kept(Run(attemptID, calls[..n]))
  {
    if n > 0 {
      MatchedExactlyUpTo(attemptID, calls, n - 1);
      if CarefulUpTo(attemptID, calls, n - 1) {
        NextCall(attemptID, calls, n - 1);
      }
    }
  }

  /**
   * Over every run, the stored columns match the active geometry throughout exactly when every call is
   * careful where it is made.
   */
  lemma MatchedExactly(attemptID: nat, calls: seq<Call>)
    requires forall c :: c in calls ==> CallOk(c)
    ensures (forall k :: 0 <= k <= |calls| ==> MatchedAt(attemptID, calls, k)) <==>
      forall k :: 0 <= k < |calls| ==> CarefulAt(attemptID, calls, k)
  {
    CarefulMeans(attemptID, calls, |calls|);
    MatchedMeans(attemptID, calls, |calls|);
    MatchedExactlyUpTo(attemptID, calls, |calls|);
  }

  /** Binding another dimension keeps the old chunks, so a matched view can lose its match. */
  lemma BindingCanBreakTheMatch()
    ensures var low, high := DimensionType(0, "low", 0, 16), DimensionType(1, "high", 0, 32);
      var column := ColumnData(0, 16, [Section(0, Single(0))], 0);
      var bound := Bound(WithTypes(NewView<ColumnData>(1), [low, high]), 0);
      bound.Some? && var loaded := Replaced(bound.value, ChunkPosition(0, 0), column);
      && loaded.Some? && ViewOk(loaded.value) && Matched(loaded.value)
      && Bound(loaded.value, 1).Some? && !Matched(Bound(loaded.value, 1).value)
  {
    var low, high := DimensionType(0, "low", 0, 16), DimensionType(1, "high", 0, 32);
    var loaded := Replaced(Bound(WithTypes(NewView(1), [low, high]), 0).value, ChunkPosition(0, 0),
                           ColumnData(0, 16, [Section(0, Single(0))], 0)).value;
    BindingMatches(loaded, 1);
  }

  /** A type that is lost and found again with another geometry finds the old chunks: only active views drop theirs. */
  lemma LosingATypeCanBreakTheMatch()
    ensures var low, high := DimensionType(0, "low", 0, 16), DimensionType(0, "high", 0, 32);
      var column := ColumnData(0, 16, [Section(0, Single(0))], 0);
      var bound := Bound(WithTypes(NewView<ColumnData>(1), [low]), 0);
      bound.Some? && var loaded := Replaced(bound.value, ChunkPosition(0, 0), column);
      && loaded.Some? && ViewOk(loaded.value) && Matched(loaded.value)
      && !Matched(WithTypes(WithTypes(loaded.value, []), [high]))
  {
    var low, high := DimensionType(0, "low", 0, 16), DimensionType(0, "high", 0, 32);
    var loaded := Replaced(Bound(WithTypes(NewView(1), [low]), 0).value, ChunkPosition(0, 0),
                           ColumnData(0, 16, [Section(0, Single(0))], 0)).value;
    var lost := WithTypes(loaded, []);
    TypesMatch(lost, [high]);
    assert !SameGeometry(Columns(lost)[ChunkPosition(0, 0)], high);
  }
}
