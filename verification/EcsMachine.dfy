// The entity world as it is stored: column tables and index lists updated in
// place, each operation proved against the world as a value.
module EcsMachine {
  import opened Options
  import opened SchedulerTypes
  import opened EcsTypes
  import opened EcsWorld
  import opened EcsSync
  import opened Envelopes

  /** The component data of one archetype: one column per component, one row per entity. */
  class Table {
    const mask: Mask
    var entities: seq<Entity>
    var columns: map<Component, seq<Value>>

    ghost function Data(): TableData
      reads this
    {
      TableData(mask, entities, columns)
    }

    constructor (mask: Mask)
      ensures Data() == EmptyTable(mask)
    {
      this.mask, entities := mask, [];
      columns := map c | c in mask :: [];
    }

    method AddEntity(e: Entity, b: Bundle) returns (row: nat, ok: bool)
      requires Parallel(Data())
      modifies this
      ensures ok <==> b.Keys == mask
      ensures ok ==> row == old(|entities|) && Data() == AddRow(old(Data()), e, b)
      ensures !ok ==> Data() == old(Data())
    {
      if b.Keys != mask {
        return 0, false;
      }
      row, ok := |entities|, true;
      entities := entities + [e];
      for c := 0 to COMPONENT_COUNT
        invariant entities == old(entities) + [e] && columns.Keys == mask
        invariant forall k :: k in mask ==> columns[k] == if k < c then old(columns[k]) + [b[k]] else old(columns[k])
      {
        if c in mask {
          columns := columns[c := columns[c] + [b[c]]];
        }
      }
      assert columns == AddRow(old(Data()), e, b).columns;
    }

    method ReadRow(row: nat) returns (b: Bundle)
      requires Parallel(Data()) && row < |entities|
      ensures b == BundleAt(Data(), row)
    {
      b := map[];
      for c := 0 to COMPONENT_COUNT
        invariant b.Keys == set k | k in mask && k < c
        invariant forall k :: k in b ==> b[k] == columns[k][row]
      {
        if c in mask {
          b := b[c := columns[c][row]];
        }
      }
      assert forall k :: k in mask ==> k < COMPONENT_COUNT;
    }

    /** The last row moves into the hole; the removed bundle and the entity that moved are returned. */
    method RemoveSwap(row: nat) returns (removed: Bundle, moved: Option<Entity>, ok: bool)
      requires Parallel(Data())
      modifies this
      ensures ok <==> row < old(|entities|)
      ensures ok ==> removed == BundleAt(old(Data()), row) && Data() == RemoveRow(old(Data()), row)
      ensures ok ==> moved == if row == old(|entities|) - 1 then None else Some(old(entities[|entities| - 1]))
      ensures !ok ==> Data() == old(Data())
    {
      removed, moved := map[], None;
      if row >= |entities| {
        return removed, moved, false;
      }
      ok := true;
      var last := |entities| - 1;
      removed := ReadRow(row);
      RemoveColumns(row);
      if row != last {
        moved := Some(entities[last]);
        entities := entities[row := entities[last]];
      }
      entities := entities[..last];
      assert entities == SwapRemoved(old(entities), row);
    }

    method RemoveColumns(row: nat)
      requires Parallel(Data()) && row < |entities|
      modifies this`columns
      ensures columns == RemoveRow(old(Data()), row).columns
    {
      for c := 0 to COMPONENT_COUNT
        invariant columns.Keys == mask
        invariant forall k :: k in mask ==>
          columns[k] == if k < c then SwapRemoved(old(columns[k]), row) else old(columns[k])
      {
        if c in mask {
          columns := RemoveFromColumn(columns, c, row);
        }
      }
      assert columns == RemoveRow(old(Data()), row).columns;
    }
  }

  method RemoveFromColumn(columns: map<Component, seq<Value>>, c: Component, row: nat)
      returns (columns': map<Component, seq<Value>>)
    requires c in columns && row < |columns[c]|
    ensures columns' == columns[c := SwapRemoved(columns[c], row)]
  {
    var data := columns[c];
    var last := |data| - 1;
    if row != last {
      data := data[row := data[last]];
    }
    data := data[..last];
    assert data == SwapRemoved(columns[c], row);
    columns' := columns[c := data];
  }

  /** The effects of the commands validated so far. */
  class ShadowState {
    var entities: map<Entity, ShadowEntity>
    var bots: map<ProfileID, Entity>

    function Value(): Shadow
      reads this
    {
      Shadow(entities, bots)
    }

    constructor (botIndex: map<ProfileID, Entity>)
      ensures Value() == Shadow(map[], botIndex)
    {
      entities, bots := map[], botIndex;
    }

    /** The bundle an entity has at this point of the batch, looked up once and remembered. */
    method EntityBundle(w: World, ghost d: WorldData, e: Entity) returns (bundle: Option<Bundle>)
      requires w.Filed() && d == w.State() && Inv(d)
      modifies this`entities
      ensures bundle == ShadowBundle(d, old(Value()), e)
      ensures bundle.Some? ==> entities == old(entities)[e := ShadowEntity(true, bundle.value)]
      ensures bundle.None? ==> entities == old(entities)
    {
      if e in entities {
        if !entities[e].alive {
          return None;
        }
        assert entities == entities[e := entities[e]];
        return Some(entities[e].bundle);
      }
      bundle := w.ReadBundle(e);
      if bundle.Some? {
        entities := entities[e := ShadowEntity(true, bundle.value)];
      }
    }

    method ValidateCreate(w: World, ghost d: WorldData, b: Bundle) returns (ok: bool)
      requires WellTyped(b) && d == w.State()
      modifies this`bots
      ensures ok ==> ValidateCommand(d, old(Value()), CreateCommand(b)) == Some(Value())
      ensures !ok ==> ValidateCommand(d, old(Value()), CreateCommand(b)) == None
    {
      if !Validate(b) {
        return false;
      }
      if BOT in b {
        var p := b[BOT].profile;
        if p in w.botIndex || p in bots {
          return false;
        }
        bots := bots[p := NOBODY];
      }
      ok := true;
    }

    method ValidateDestroy(w: World, ghost d: WorldData, e: Entity, expectedMask: Mask) returns (ok: bool)
      requires w.Filed() && d == w.State() && Inv(d)
      modifies this
      ensures ok ==> ValidateCommand(d, old(Value()), DestroyCommand(e, expectedMask)) == Some(Value())
      ensures !ok ==> ValidateCommand(d, old(Value()), DestroyCommand(e, expectedMask)) == None
    {
      var bundle := EntityBundle(w, d, e);
      if bundle.None? || (expectedMask != {} && bundle.value.Keys != expectedMask) {
        return false;
      }
      if BOT in bundle.value && bundle.value[BOT].BotData? {
        bots := bots - {bundle.value[BOT].profile};
      }
      entities := entities[e := ShadowEntity(false, bundle.value)];
      assert entities == old(entities)[e := ShadowEntity(false, bundle.value)];
      ok := true;
    }
  }

  datatype SyncError = ValidationError | CommitInvariantError

  /** What taking a row out relies on: the row is there, and its table's last row names a known index. */
  ghost predicate Detachable(w: WorldData, i: nat) {
    && i < |w.locations| && HasRow(w, i)
    && var t := w.tables[w.locations[i].mask];
    && t.entities[|t.entities| - 1].index < |w.locations| && WellTyped(BundleOf(w, i))
  }

  lemma LiveIsDetachable(w: WorldData, i: nat)
    requires Inv(w) && Used(w, 0, i)
    ensures Detachable(w, i)
  {
    assert LiveOk(w, i);
    assert RowOk(w, 0, w.locations[i].mask, |w.tables[w.locations[i].mask].entities| - 1);
  }

  class World {
    var tables: map<Mask, Table>
    var locations: seq<Location>
    var generations: seq<nat>
    var free: seq<nat>
    var botIndex: map<ProfileID, Entity>
    var queue: seq<Envelope<Command>>
    var dirty: set<Mask>

    ghost function Tables(): set<Table>
      reads this
    {
      set m | m in tables :: tables[m]
    }

    /** Each table is filed under its own mask, so no two entries share a table. */
    ghost predicate Filed()
      reads this
    {
      forall m :: m in tables ==> tables[m].mask == m
    }

    ghost function State(): WorldData
      reads this, Tables()
    {
      WorldData(map m | m in tables :: tables[m].Data(), locations, generations, free, botIndex)
    }

    constructor ()
      ensures Filed() && Tables() == {} && State() == EMPTY_WORLD && queue == [] && dirty == {}
    {
      tables, locations, generations, free, botIndex := map[], [NOWHERE], [0], [], map[];
      queue, dirty := [], {};
    }

    method EnsureTable(m: Mask) returns (t: Table)
      requires Filed()
      modifies this`tables
      ensures Filed() && m in tables && t == tables[m] && fresh(Tables() - old(Tables()))
      ensures State() == EcsWorld.EnsureTable(old(State()), m)
    {
      if m in tables {
        t := tables[m];
      } else {
        t := new Table(m);
        tables := tables[m := t];
        assert State().tables == old(State()).tables[m := EmptyTable(m)];
      }
    }

    method AllocateEntity() returns (e: Entity)
      requires |locations| == |generations| && forall k :: 0 <= k < |free| ==> free[k] < |generations|
      modifies this`locations, this`generations, this`free
      ensures (State(), e) == Allocate(old(State()))
    {
      var n := |free|;
      if n > 0 {
        var index := free[n - 1];
        free := free[..n - 1];
        assert State().tables == old(State().tables);
        return Entity(index, generations[index]);
      }
      var index := |generations| % WORD32;
      generations := generations + [1];
      locations := locations + [NOWHERE];
      assert State().tables == old(State().tables);
      return Entity(index, 1);
    }

    predicate ResolvesHere(e: Entity)
      reads this
    {
      e.index != 0 && e.index < |locations| && locations[e.index].alive && locations[e.index].generation == e.generation
    }

    /** Append to the entity's new table: the tables and nothing else change. */
    method AppendRow(e: Entity, b: Bundle) returns (row: nat)
      requires Filed()
      requires b.Keys in tables ==> Parallel(tables[b.Keys].Data())
      modifies this`tables, Tables()
      ensures Filed() && fresh(Tables() - old(Tables()))
      ensures var w1 := EcsWorld.EnsureTable(old(State()), b.Keys);
        row == |w1.tables[b.Keys].entities| && State()
            == w1.(tables := w1.tables[b.Keys := AddRow(w1.tables[b.Keys], e, b)])
    {
      var t := EnsureTable(b.Keys);
      ghost var before := State();
      assert t.Data() == before.tables[b.Keys];
      var ok;
      row, ok := t.AddEntity(e, b);
      assert State().tables == before.tables[b.Keys := AddRow(before.tables[b.Keys], e, b)];
    }

    /** The bundle of a handle that resolves. */
    method ReadBundle(e: Entity) returns (bundle: Option<Bundle>)
      requires Filed() && Inv(State())
      ensures bundle == Lookup(State(), e)
    {
      if !ResolvesHere(e) {
        return None;
      }
      LiveIsDetachable(State(), e.index);
      assert tables[locations[e.index].mask].Data() == State().tables[locations[e.index].mask];
      var b := tables[locations[e.index].mask].ReadRow(locations[e.index].row);
      bundle := Some(b);
    }

    /** The new row, the location that points at it, and the profile. */
    method AttachRow(e: Entity, b: Bundle)
      requires Filed() && e.index < |locations| && WellTyped(b)
      requires b.Keys in tables ==> Parallel(tables[b.Keys].Data())
      modifies this`tables, this`locations, this`botIndex, Tables()
      ensures Filed() && fresh(Tables() - old(Tables()))
      ensures State() == Attach(old(State()), e, b)
    {
      var row := AppendRow(e, b);
      Settle(e, Location(b.Keys, row, e.generation, true), b);
    }

    /** Point the entity's location at its row, and its profile at the entity. */
    method Settle(e: Entity, location: Location, b: Bundle)
      requires e.index < |locations| && WellTyped(b)
      modifies this`locations, this`botIndex
      ensures State() == old(State()).(
        locations := old(locations)[e.index := location],
        botIndex := if BOT in b then old(botIndex)[b[BOT].profile := e] else old(botIndex))
    {
      locations := locations[e.index := location];
      if BOT in b {
        botIndex := botIndex[b[BOT].profile := e];
      }
      assert State().tables == old(State().tables);
    }

    method InsertNew(b: Bundle) returns (e: Entity)
      requires Filed() && WellTyped(b)
      requires |locations| == |generations| && forall k :: 0 <= k < |free| ==> free[k] < |generations|
      requires b.Keys in tables ==> Parallel(tables[b.Keys].Data())
      modifies this`tables, this`locations, this`generations, this`free, this`botIndex, Tables()
      ensures Filed() && fresh(Tables() - old(Tables()))
      ensures var (w1, e1) := Allocate(old(State())); e == e1 && State() == Attach(w1, e, b)
    {
      e := AllocateEntity();
      assert b.Keys in tables ==> tables[b.Keys].Data() == old(State()).tables[b.Keys];
      AttachRow(e, b);
    }

    method CreateNow(b: Bundle) returns (entity: Entity, error: Option<EcsError>)
      requires Filed() && Inv(State()) && WellTyped(b)
      modifies this, Tables()
      ensures Filed() && fresh(Tables() - old(Tables())) && queue == old(queue) && dirty == old(dirty)
      ensures match Create(old(State()), b)
        case Made(w', e) => error == None && entity == e && State() == w'
        case Refused(why) => error == Some(why) && State() == old(State())
    {
      if !Validate(b) {
        return Entity(0, 0), Some(InvalidBundle);
      }
      if BOT in b && b[BOT].profile in botIndex {
        return botIndex[b[BOT].profile], Some(ProfileTaken);
      }
      assert forall k :: 0 <= k < |free| ==> free[k] in free;
      assert b.Keys in tables ==> TableOk(State(), b.Keys);
      entity := InsertNew(b);
      error := None;
    }

    method RemoveFromTable(m: Mask, row: nat) returns (removed: Bundle, moved: Option<Entity>)
      requires Filed() && m in tables && Parallel(tables[m].Data()) && row < |tables[m].entities|
      modifies Tables()
      ensures Filed()
      ensures var t := old(State()).tables[m];
        && State() == old(State()).(tables := old(State()).tables[m := RemoveRow(t, row)])
        && removed == BundleAt(t, row)
        && moved == if row == |t.entities| - 1 then None else Some(t.entities[|t.entities| - 1])
    {
      var ok;
      removed, moved, ok := tables[m].RemoveSwap(row);
      assert State().tables == old(State()).tables[m := RemoveRow(old(State()).tables[m], row)];
    }

    /** Point the entity that moved at its new row, and forget the profile of a bot that was removed. */
    method Follow(moved: Option<Entity>, row: nat, removed: Bundle)
      requires moved.Some? ==> moved.value.index < |locations|
      requires WellTyped(removed)
      modifies this`locations, this`botIndex
      ensures State() == old(State()).(
        locations := if moved.Some?
            then old(locations)[moved.value.index := old(locations)[moved.value.index].(row := row)]
                else old(locations),
        botIndex := if BOT in removed then old(botIndex) - {removed[BOT].profile} else old(botIndex))
    {
      if moved.Some? {
        locations := locations[moved.value.index := locations[moved.value.index].(row := row)];
      }
      if BOT in removed {
        botIndex := botIndex - {removed[BOT].profile};
      }
      assert State().tables == old(State().tables);
    }

    /** Take the entity's row out of its table: the locations and the profile index follow. */
    method DetachRow(i: nat)
      requires Filed() && Detachable(State(), i)
      modifies this`locations, this`botIndex, Tables()
      ensures State() == Detach(old(State()), i)
      ensures Filed()
    {
      var loc := locations[i];
      assert tables[loc.mask].Data() == State().tables[loc.mask];
      var removed, moved := RemoveFromTable(loc.mask, loc.row);
      Follow(moved, loc.row, removed);
    }

    method DestroyRow(i: nat)
      requires Filed() && Detachable(State(), i) && i < |generations|
      modifies this`locations, this`botIndex, this`generations, this`free, Tables()
      ensures State() == Release(Detach(old(State()), i), i)
      ensures Filed()
    {
      DetachRow(i);
      ReleaseIndex(i);
    }

    method ReleaseIndex(i: nat)
      requires i < |locations| && i < |generations|
      modifies this`generations, this`locations, this`free
      ensures State() == Release(old(State()), i)
    {
      generations := generations[i := (generations[i] + 1) % WORD32];
      locations := locations[i := Location({}, 0, generations[i], false)];
      free := free + [i];
      assert State().tables == old(State()).tables;
    }

    method DestroyNow(e: Entity) returns (error: Option<EcsError>)
      requires Filed() && Inv(State())
      modifies this, Tables()
      ensures Filed() && Tables() == old(Tables()) && queue == old(queue) && dirty == old(dirty)
      ensures match Destroy(old(State()), e)
        case Changed(w') => error == None && State() == w'
        case Rejected(why) => error == Some(why) && State() == old(State())
    {
      if !ResolvesHere(e) {
        return Some(Stale);
      }
      LiveIsDetachable(State(), e.index);
      DestroyRow(e.index);
      error := None;
    }

    method MoveRow(e: Entity, b: Bundle)
      requires Filed() && Detachable(State(), e.index) && WellTyped(b)
      requires b.Keys in tables ==> Parallel(tables[b.Keys].Data())
      modifies this`tables, this`locations, this`botIndex, Tables()
      ensures Filed() && fresh(Tables() - old(Tables()))
      ensures State() == Attach(Detach(old(State()), e.index), e, b)
    {
      DetachRow(e.index);
      assert b.Keys in tables ==> tables[b.Keys].Data() == State().tables[b.Keys];
      AttachRow(e, b);
    }

    method MigrateNow(e: Entity, source: Mask, b: Bundle) returns (error: Option<EcsError>)
      requires Filed() && Inv(State()) && WellTyped(b)
      modifies this, Tables()
      ensures Filed() && fresh(Tables() - old(Tables())) && queue == old(queue) && dirty == old(dirty)
      ensures match Migrate(old(State()), e, source, b)
        case Changed(w') => error == None && State() == w'
        case Rejected(why) => error == Some(why) && State() == old(State())
    {
      if !ResolvesHere(e) {
        return Some(Stale);
      }
      if locations[e.index].mask != source {
        return Some(WrongSource);
      }
      if !Validate(b) {
        return Some(InvalidBundle);
      }
      assert b.Keys in tables ==> TableOk(State(), b.Keys);
      LiveIsDetachable(State(), e.index);
      MoveRow(e, b);
      error := None;
    }

    ghost function Whole(): SyncState
      reads this, Tables()
    {
      SyncState(State(), queue, dirty)
    }

    method ValidateQueue(ghost d: WorldData, commands: seq<Command>) returns (ok: bool)
      requires Filed() && d == State() && Inv(d) && forall c :: c in commands ==> WellTypedCommand(c)
      ensures ok <==> ValidateAll(d, NewShadow(d), commands).Some?
    {
      var shadow := new ShadowState(botIndex);
      for k := 0 to |commands|
        invariant fresh(shadow) && Filed() && d == State()
        invariant ValidateAll(d, NewShadow(d), commands) == ValidateAll(d, shadow.Value(), commands[k..])
      {
        assert commands[k..][0] == commands[k] && commands[k..][1..] == commands[k + 1..];
        ok := ValidateOne(d, shadow, commands[k]);
        if !ok {
          return;
        }
      }
      ok := true;
    }

    method ValidateOne(ghost d: WorldData, shadow: ShadowState, c: Command) returns (ok: bool)
      requires Filed() && d == State() && Inv(d) && WellTypedCommand(c)
      modifies shadow
      ensures d == State()
      ensures ok ==> ValidateCommand(d, old(shadow.Value()), c) == Some(shadow.Value())
      ensures !ok ==> ValidateCommand(d, old(shadow.Value()), c) == None
    {
      match c {
        case CreateCommand(b) => ok := shadow.ValidateCreate(this, d, b);
        case DestroyCommand(e, m) => ok := shadow.ValidateDestroy(this, d, e, m);
      }
    }

    method ReserveTables(commands: seq<Command>)
      requires Filed()
      modifies this`tables
      ensures Filed() && fresh(Tables() - old(Tables()))
      ensures State() == Reserve(old(State()), commands)
    {
      for k := 0 to |commands|
        invariant Filed() && fresh(Tables() - old(Tables()))
        invariant Reserve(old(State()), commands) == Reserve(State(), commands[k..])
      {
        assert commands[k..][0] == commands[k] && commands[k..][1..] == commands[k + 1..];
        if commands[k].CreateCommand? {
          var t := EnsureTable(commands[k].bundle.Keys);
        }
      }
    }

    method Apply(c: Command) returns (ok: bool)
      requires Filed() && Inv(State()) && Room(State(), 1) && WellTypedCommand(c)
      modifies this, Tables()
      ensures Filed() && fresh(Tables() - old(Tables())) && queue == old(queue) && dirty == old(dirty)
      ensures ok ==> Some(State()) == ApplyCommand(old(State()), c)
      ensures !ok ==> ApplyCommand(old(State()), c) == None
    {
      match c {
        case CreateCommand(b) =>
          var _, error := CreateNow(b);
          ok := error.None?;
        case DestroyCommand(e, _) =>
          var error := DestroyNow(e);
          ok := error.None?;
      }
    }

    method CommitAll(commands: seq<Command>) returns (ok: bool)
      requires Filed() && Inv(State()) && Room(State(), |commands|) && forall c :: c in commands ==> WellTypedCommand(c)
      modifies this, Tables()
      ensures Filed() && fresh(Tables() - old(Tables())) && queue == old(queue) && dirty == old(dirty)
      ensures ok ==> Some(State()) == Commit(old(State()), commands)
      ensures !ok ==> Commit(old(State()), commands) == None
    {
      for k := 0 to |commands|
        invariant Filed() && fresh(Tables() - old(Tables())) && queue == old(queue) && dirty == old(dirty)
        invariant Inv(State()) && Room(State(), |commands| - k)
        invariant Commit(old(State()), commands) == Commit(State(), commands[k..])
      {
        assert commands[k..][0] == commands[k] && commands[k..][1..] == commands[k + 1..];
        ok := Apply(commands[k]);
        if !ok {
          return;
        }
      }
      ok := true;
    }

    method SortQueue()
      modifies this`queue
      ensures queue == SortEnvelopes(old(queue)) && State() == old(State())
    {
      queue := SortEnvelopes(queue);
      assert State().tables == old(State()).tables;
    }

    method Clear()
      modifies this`queue, this`dirty
      ensures Whole() == SyncState(old(State()), [], {})
    {
      queue, dirty := [], {};
      assert State().tables == old(State()).tables;
    }

    method CommitBatch(ghost d: WorldData, commands: seq<Command>) returns (ok: bool)
      requires Filed() && d == State() && forall c :: c in commands ==> WellTypedCommand(c)
      requires Inv(Reserve(d, commands)) && Room(Reserve(d, commands), |commands|)
      modifies this, Tables()
      ensures Filed() && fresh(Tables() - old(Tables())) && queue == old(queue) && dirty == old(dirty)
      ensures ok ==> Commit(Reserve(d, commands), commands) == Some(State())
      ensures !ok ==> Commit(Reserve(d, commands), commands) == None
    {
      ReserveTables(commands);
      ok := CommitAll(commands);
    }

    /** Validate every queued command, reserve their tables, apply them all, and clear the queue and the dirty set. */
    method Sync() returns (error: Option<SyncError>)
      requires Filed() && Ready(Whole())
      modifies this, Tables()
      ensures Filed() && fresh(Tables() - old(Tables()))
      ensures error != Some(CommitInvariantError)
      ensures error == None ==> SyncRun(old(Whole())) == Synced(Whole())
      ensures error == Some(ValidationError) ==> SyncRun(old(Whole())) == ValidationFailed(Whole())
    {
      ghost var whole, d := Whole(), State();
      if |queue| == 0 {
        Clear();
        return None;
      }
      SyncNeverFailsToCommit(whole);
      SortQueue();
      var commands := Payloads(queue);
      var ok := ValidateQueue(d, commands);
      if !ok {
        return Some(ValidationError);
      }
      ok := CommitBatch(d, commands);
      if !ok {
        return Some(CommitInvariantError);
      }
      Clear();
      error := None;
    }
  }

  lemma SyncNeverFailsToCommit(st: SyncState)
    requires Ready(st)
    ensures var sorted := SortEnvelopes(st.queue);
      var commands := Payloads(sorted);
      && (forall c :: c in commands ==> WellTypedCommand(c))
      && Inv(Reserve(st.data, commands)) && Room(Reserve(st.data, commands), |commands|)
      && SyncRun(st) != CommitFailed
  {
    SortedReady(st);
    ReserveKeeps(st.data, Payloads(SortEnvelopes(st.queue)));
    var handles := SyncIsAllOrNothing(st);
  }
}
