// Create, destroy and migrate keep the world's invariant and act on the map
// from entity to bundle as insert, remove and replace.
module EcsRefinement {
  import opened Options
  import opened SchedulerTypes
  import opened EcsTypes
  import opened EcsWorld

  /** Index j reads the same in both worlds. */
  ghost predicate SameAt(w: WorldData, w': WorldData, j: nat) {
    && j < |w.locations| && j < |w'.locations|
    && w'.locations[j].alive == w.locations[j].alive
    && w'.locations[j].generation == w.locations[j].generation
    && w'.locations[j].mask == w.locations[j].mask
    && HasRow(w, j) && HasRow(w', j)
    && w'.tables[w'.locations[j].mask].entities[w'.locations[j].row]
        == w.tables[w.locations[j].mask].entities[w.locations[j].row]
    && BundleOf(w', j) == BundleOf(w, j)
  }

  lemma SameLookup(w: WorldData, w': WorldData, x: Entity)
    requires SameAt(w, w', x.index)
    ensures Lookup(w', x) == Lookup(w, x)
    ensures Resolves(w', x) == Resolves(w, x)
  {
  }

  // -------------------------------------------------------------- allocate

  ghost predicate FreshSlot(w: WorldData, w1: WorldData, e: Entity) {
    && |w.locations| == |w.generations| && 0 < e.index < |w1.locations| == |w1.generations|
        && e.generation == w1.generations[e.index] && !w1.locations[e.index].alive
    && (e.index >= |w.locations| || e.index in w.free)
    && w1.botIndex == w.botIndex && w1.tables == w.tables && |w.locations| <= |w1.locations| <= WORD32
    && (forall j :: 0 <= j < |w.locations| ==> w1.locations[j] == w.locations[j])
    && (forall j :: 0 <= j < |w.locations| ==> w1.generations[j] == w.generations[j])
    && (|w.locations| < |w1.locations| ==> e == Entity(|w.locations|, 1))
  }

  lemma FreshSlotAllocated(w: WorldData)
    requires Inv(w) && HasRoom(w)
    ensures forall k :: 0 <= k < |w.free| ==> w.free[k] < |w.generations|
    ensures var (w1, e) := Allocate(w); FreshSlot(w, w1, e) && FreeOk(w1, e.index)
  {
    assert forall k :: 0 <= k < |w.free| ==> w.free[k] in w.free;
    var (w1, e) := Allocate(w);
    if |w.free| > 0 {
      assert w.free == w1.free + [e.index];
      forall i ensures i in w1.free <==> 0 < i < |w1.locations| && i != e.index && !w1.locations[i].alive {
        assert i in w.free <==> i in w1.free || i == e.index;
      }
    } else {
      forall i ensures !(0 < i < |w1.locations| && i != e.index && !w1.locations[i].alive) {
        assert i !in w.free;
      }
    }
  }

  lemma AllocateKeeps(w: WorldData)
    requires Inv(w) && HasRoom(w)
    ensures forall k :: 0 <= k < |w.free| ==> w.free[k] < |w.generations|
    ensures var (w1, e) := Allocate(w); FreshSlot(w, w1, e) && InvExcept(w1, e.index)
  {
    FreshSlotAllocated(w);
    var (w1, e) := Allocate(w);
    forall j | Used(w1, e.index, j) ensures LiveOk(w1, j) && Indexed(w1, j) {
      assert Used(w, 0, j) && LiveOk(w, j) && Indexed(w, j);
    }
    forall m, r: nat | m in w1.tables && r < |w1.tables[m].entities| ensures RowOk(w1, e.index, m, r) {
      assert RowOk(w, 0, m, r);
    }
    forall m | m in w1.tables ensures TableOk(w1, m) {
      assert TableOk(w, m);
    }
    forall p | p in w1.botIndex ensures IndexOk(w1, e.index, p) {
      assert IndexOk(w, 0, p);
    }
  }

  // ---------------------------------------------------------------- attach

  ghost predicate CanAttach(w: WorldData, e: Entity, b: Bundle) {
    && InvExcept(w, e.index)
    && 0 < e.index < |w.locations| && e.generation == w.generations[e.index]
    && Sound(b)
  }

  lemma TablesAttached(w: WorldData, e: Entity, b: Bundle)
    requires CanAttach(w, e, b)
    ensures b.Keys in w.tables ==> TableOk(w, b.Keys)
    ensures forall m {:trigger TableOk(Attach(w, e, b), m)} :: m in Attach(w, e, b).tables ==>
      TableOk(Attach(w, e, b), m)
  {
    assert b.Keys in w.tables ==> TableOk(w, b.Keys);
    forall m | m in Attach(w, e, b).tables ensures TableOk(Attach(w, e, b), m) {
      assert m in w.tables ==> TableOk(w, m);
    }
  }

  lemma AttachedElsewhere(w: WorldData, e: Entity, b: Bundle, j: nat)
    requires CanAttach(w, e, b) && j != e.index && Used(w, e.index, j)
    ensures b.Keys in w.tables ==> TableOk(w, b.Keys)
    ensures SameAt(w, Attach(w, e, b), j)
  {
    TablesAttached(w, e, b);
    assert LiveOk(w, j);
    if w.locations[j].mask == b.Keys {
      AddRowBundles(w.tables[b.Keys], e, b, w.locations[j].row);
    }
  }

  lemma AttachedHere(w: WorldData, e: Entity, b: Bundle)
    requires CanAttach(w, e, b)
    ensures b.Keys in w.tables ==> TableOk(w, b.Keys)
    ensures var w' := Attach(w, e, b);
      HasRow(w', e.index) && BundleOf(w', e.index) == b && LiveOk(w', e.index) && w'.locations[e.index].alive
  {
    TablesAttached(w, e, b);
    var t := EnsureTable(w, b.Keys).tables[b.Keys];
    AddRowBundles(t, e, b, |t.entities|);
  }

  /** Attaching inserts or replaces the entity's bundle and touches no other entity. */
  lemma AttachRefines(w: WorldData, e: Entity, b: Bundle, x: Entity)
    requires CanAttach(w, e, b)
    ensures b.Keys in w.tables ==> TableOk(w, b.Keys)
    ensures x.index != e.index ==> Lookup(Attach(w, e, b), x) == Lookup(w, x)
    ensures x.index == e.index ==> Lookup(Attach(w, e, b), x) == if x == e then Some(b) else None
  {
    AttachedHere(w, e, b);
    if x.index != e.index && Used(w, e.index, x.index) {
      AttachedElsewhere(w, e, b, x.index);
      SameLookup(w, Attach(w, e, b), x);
    }
  }

  lemma RowsAttached(w: WorldData, e: Entity, b: Bundle, m: Mask, r: nat)
    requires CanAttach(w, e, b)
    ensures b.Keys in w.tables ==> TableOk(w, b.Keys)
    ensures var w' := Attach(w, e, b); m in w'.tables && r < |w'.tables[m].entities| ==> RowOk(w', 0, m, r)
  {
    TablesAttached(w, e, b);
    assert m in w.tables && r < |w.tables[m].entities| ==> RowOk(w, e.index, m, r);
  }

  lemma IndexAttached(w: WorldData, e: Entity, b: Bundle, p: ProfileID)
    requires CanAttach(w, e, b)
    ensures b.Keys in w.tables ==> TableOk(w, b.Keys)
    ensures var w' := Attach(w, e, b); p in w'.botIndex ==> IndexOk(w', 0, p)
  {
    AttachedHere(w, e, b);
    if p in w.botIndex && !IsBot(b, p) {
      assert IndexOk(w, e.index, p);
      AttachedElsewhere(w, e, b, w.botIndex[p].index);
    }
  }

  /** The profile may be attached when no other entity owns it. */
  ghost predicate ProfileFree(w: WorldData, b: Bundle) {
    BOT in b && b[BOT].BotData? ==> b[BOT].profile !in w.botIndex
  }

  lemma AttachKeeps(w: WorldData, e: Entity, b: Bundle)
    requires CanAttach(w, e, b) && ProfileFree(w, b)
    ensures b.Keys in w.tables ==> TableOk(w, b.Keys)
    ensures Inv(Attach(w, e, b))
  {
    TablesAttached(w, e, b);
    AttachedHere(w, e, b);
    var w' := Attach(w, e, b);
    forall j | Used(w', 0, j) ensures LiveOk(w', j) && Indexed(w', j) {
      if j != e.index {
        AttachedElsewhere(w, e, b, j);
        assert LiveOk(w, j) && Indexed(w, j);
      }
    }
    forall m, r: nat | m in w'.tables && r < |w'.tables[m].entities| ensures RowOk(w', 0, m, r) {
      RowsAttached(w, e, b, m, r);
    }
    forall p | p in w'.botIndex ensures IndexOk(w', 0, p) {
      IndexAttached(w, e, b, p);
    }
  }

  /** A profile that another entity owns cannot be attached: the two bots would share one index entry. */
  lemma AttachBreaks(w: WorldData, e: Entity, b: Bundle)
    requires CanAttach(w, e, b) && !ProfileFree(w, b)
    ensures b.Keys in w.tables ==> TableOk(w, b.Keys)
    ensures !Inv(Attach(w, e, b))
  {
    TablesAttached(w, e, b);
    var p := b[BOT].profile;
    var w' := Attach(w, e, b);
    assert IndexOk(w, e.index, p);
    var j := w.botIndex[p].index;
    AttachedElsewhere(w, e, b, j);
    assert w'.botIndex[p] == e;
    if Inv(w') {
      assert Used(w', 0, j) && Indexed(w', j);
    }
  }

  // ---------------------------------------------------------------- detach

  ghost predicate CanDetach(w: WorldData, i: nat) {
    Inv(w) && Used(w, 0, i)
  }

  lemma DetachedElsewhere(w: WorldData, i: nat, j: nat)
    requires CanDetach(w, i) && Used(w, 0, j) && j != i
    ensures HasRow(w, i)
    ensures SameAt(w, Detach(w, i), j)
  {
    assert LiveOk(w, i) && LiveOk(w, j);
    if w.locations[j].mask == w.locations[i].mask {
      DetachedBeside(w, i, j);
    } else {
      var mask := w.locations[i].mask;
      assert RowOk(w, 0, mask, |w.tables[mask].entities| - 1);
    }
  }

  /** In the same table: either j is in the last row and moves into the hole, or it stays. */
  lemma DetachedBeside(w: WorldData, i: nat, j: nat)
    requires CanDetach(w, i) && Used(w, 0, j) && j != i && w.locations[j].mask == w.locations[i].mask
    ensures HasRow(w, i)
    ensures SameAt(w, Detach(w, i), j)
  {
    assert LiveOk(w, i) && LiveOk(w, j);
    if w.locations[j].row == |w.tables[w.locations[i].mask].entities| - 1 {
      DetachedLast(w, i, j);
    } else {
      DetachedStays(w, i, j);
    }
  }

  lemma DetachedLast(w: WorldData, i: nat, j: nat)
    requires CanDetach(w, i) && Used(w, 0, j) && j != i && w.locations[j].mask == w.locations[i].mask
    requires LiveOk(w, i) && LiveOk(w, j) && w.locations[j].row == |w.tables[w.locations[i].mask].entities| - 1
    ensures SameAt(w, Detach(w, i), j)
  {
    RemoveRowBundles(w.tables[w.locations[i].mask], w.locations[i].row, w.locations[i].row);
  }

  /** The entity of another row than the last keeps its location. */
  lemma LocationStays(w: WorldData, i: nat, j: nat)
    requires CanDetach(w, i) && Used(w, 0, j) && LiveOk(w, i)
    requires w.locations[j].mask == w.locations[i].mask
    requires w.locations[j].row != |w.tables[w.locations[i].mask].entities| - 1
    ensures j < |Detach(w, i).locations| && Detach(w, i).locations[j] == w.locations[j]
  {
    var t := w.tables[w.locations[i].mask];
    assert RowOk(w, 0, w.locations[i].mask, |t.entities| - 1);
  }

  lemma DetachedStays(w: WorldData, i: nat, j: nat)
    requires CanDetach(w, i) && Used(w, 0, j) && j != i && w.locations[j].mask == w.locations[i].mask
    requires LiveOk(w, i) && LiveOk(w, j) && w.locations[j].row != |w.tables[w.locations[i].mask].entities| - 1
    ensures SameAt(w, Detach(w, i), j)
  {
    LocationStays(w, i, j);
    RemoveRowBundles(w.tables[w.locations[i].mask], w.locations[i].row, w.locations[j].row);
  }

  lemma RowsDetached(w: WorldData, i: nat, m: Mask, r: nat)
    requires CanDetach(w, i)
    ensures HasRow(w, i)
    ensures var w' := Detach(w, i); m in w'.tables && r < |w'.tables[m].entities| ==> RowOk(w', i, m, r)
  {
    assert LiveOk(w, i);
    var loc := w.locations[i];
    var last := |w.tables[loc.mask].entities| - 1;
    assert RowOk(w, 0, loc.mask, last);
    var from := if m == loc.mask && r == loc.row then last else r;
    assert m in w.tables && from < |w.tables[m].entities| ==> RowOk(w, 0, m, from);
  }

  lemma IndexDetached(w: WorldData, i: nat, p: ProfileID)
    requires CanDetach(w, i)
    ensures HasRow(w, i)
    ensures var w' := Detach(w, i); p in w'.botIndex ==> IndexOk(w', i, p)
  {
    assert LiveOk(w, i);
    if p in Detach(w, i).botIndex {
      assert IndexOk(w, 0, p);
      DetachedElsewhere(w, i, w.botIndex[p].index);
    }
  }

  lemma TablesDetached(w: WorldData, i: nat)
    requires CanDetach(w, i)
    ensures HasRow(w, i)
    ensures forall m {:trigger TableOk(Detach(w, i), m)} :: m in Detach(w, i).tables ==> TableOk(Detach(w, i), m)
  {
    assert LiveOk(w, i);
    forall m | m in Detach(w, i).tables ensures TableOk(Detach(w, i), m) {
      assert TableOk(w, m);
    }
  }

  lemma DetachKeeps(w: WorldData, i: nat)
    requires CanDetach(w, i)
    ensures HasRow(w, i)
    ensures InvExcept(Detach(w, i), i)
  {
    TablesDetached(w, i);
    var w' := Detach(w, i);
    forall j | Used(w', i, j) ensures LiveOk(w', j) && Indexed(w', j) {
      DetachedElsewhere(w, i, j);
      assert LiveOk(w, i) && LiveOk(w, j) && Indexed(w, i) && Indexed(w, j);
    }
    forall m, r: nat | m in w'.tables && r < |w'.tables[m].entities| ensures RowOk(w', i, m, r) {
      RowsDetached(w, i, m, r);
    }
    forall p | p in w'.botIndex ensures IndexOk(w', i, p) {
      IndexDetached(w, i, p);
    }
  }

  lemma DetachRefines(w: WorldData, i: nat, x: Entity)
    requires CanDetach(w, i) && x.index != i
    ensures HasRow(w, i)
    ensures Lookup(Detach(w, i), x) == Lookup(w, x)
  {
    assert LiveOk(w, i);
    if Used(w, 0, x.index) {
      DetachedElsewhere(w, i, x.index);
      SameLookup(w, Detach(w, i), x);
    }
  }

  // --------------------------------------------------------------- release

  lemma ReleaseKeeps(w: WorldData, i: nat)
    requires InvExcept(w, i) && 0 < i < |w.locations|
    ensures Inv(Release(w, i))
    ensures forall x: Entity :: Lookup(Release(w, i), x) == if x.index == i then None else Lookup(w, x)
  {
    var w' := Release(w, i);
    assert i !in w.free;
    forall j | Used(w', 0, j) ensures LiveOk(w', j) && Indexed(w', j) {
      assert Used(w, i, j) && LiveOk(w, j) && Indexed(w, j);
    }
    forall m | m in w'.tables ensures TableOk(w', m) {
      assert TableOk(w, m);
    }
    forall m, r: nat | m in w'.tables && r < |w'.tables[m].entities| ensures RowOk(w', 0, m, r) {
      assert RowOk(w, i, m, r);
    }
    forall p | p in w'.botIndex ensures IndexOk(w', 0, p) {
      assert IndexOk(w, i, p);
    }
  }

  // --------------------------------------------------------- the plain map

  ghost predicate Reads(w: WorldData, m: map<Entity, Bundle>) {
    forall e {:trigger Lookup(w, e)} :: Lookup(w, e) == if e in m then Some(m[e]) else None
  }

  lemma ReadsSome(w: WorldData)
    ensures exists m :: Reads(w, m)
  {
    var handles := set i | 0 < i < |w.locations| && w.locations[i].alive && HasRow(w, i) ::
        Entity(i, w.locations[i].generation);
    assert forall e :: e in handles <==> Lookup(w, e).Some?;
    assert Reads(w, map e | e in handles :: Lookup(w, e).value);
  }

  /** The world as a map from live handle to bundle: there is exactly one that Lookup reads. */
  ghost function Contents(w: WorldData): (m: map<Entity, Bundle>)
    ensures Reads(w, m)
  {
    ReadsSome(w);
    var m: map<Entity, Bundle> :| Reads(w, m);
    m
  }

  /** The profile index is exactly the live bots. */
  lemma IndexIsTheLiveBots(w: WorldData, p: ProfileID, e: Entity)
    requires Inv(w)
    ensures p in w.botIndex && w.botIndex[p] == e <==> e in Contents(w) && IsBot(Contents(w)[e], p)
  {
    var _ := Lookup(w, e);
    if p in w.botIndex {
      assert IndexOk(w, 0, p);
    }
    if e in Contents(w) {
      assert Used(w, 0, e.index) && Indexed(w, e.index) && LiveOk(w, e.index);
    }
  }

  /** Handing out an index changes no bundle. */
  lemma AllocateRefines(w: WorldData, x: Entity)
    requires Inv(w) && HasRoom(w)
    ensures forall k :: 0 <= k < |w.free| ==> w.free[k] < |w.generations|
    ensures var (w1, e) := Allocate(w); Lookup(w1, x) == Lookup(w, x) && Lookup(w, e) == None
  {
    AllocateKeeps(w);
  }

  ghost predicate SourceIs(w: WorldData, e: Entity, source: Mask) {
    e in Contents(w) && Contents(w)[e].Keys == source
  }

  /** No live bot has the bundle's profile. */
  ghost predicate NewProfile(w: WorldData, b: Bundle) {
    forall p, e {:trigger IsBot(b, p), e in Contents(w)} :: IsBot(b, p) && e in Contents(w) ==>
        !IsBot(Contents(w)[e], p)
  }

  lemma NewProfileIsUnindexed(w: WorldData, b: Bundle)
    requires Inv(w) && WellTyped(b)
    ensures NewProfile(w, b) <==> ProfileFree(w, b)
  {
    if BOT in b {
      var p := b[BOT].profile;
      assert IsBot(b, p);
      if p in w.botIndex {
        IndexIsTheLiveBots(w, p, w.botIndex[p]);
      }
      forall e | e in Contents(w) && IsBot(Contents(w)[e], p) ensures p in w.botIndex {
        IndexIsTheLiveBots(w, p, e);
      }
    }
  }

  /** Pointwise agreement is equality of maps. */
  lemma ContentsAre(w: WorldData, m: map<Entity, Bundle>)
    requires forall x {:trigger Lookup(w, x)} :: Lookup(w, x) == if x in m then Some(m[x]) else None
    ensures Contents(w) == m
  {
    assert forall x :: x in Contents(w) <==> Lookup(w, x).Some?;
  }

  lemma CreatedLookup(w: WorldData, b: Bundle, x: Entity)
    requires Inv(w) && WellTyped(b) && HasRoom(w) && Create(w, b).Made?
    ensures var Made(w', e) := Create(w, b);
      Lookup(w', x) == (if x == e then Some(b) else Lookup(w, x)) && Lookup(w, e) == None
  {
    AllocateKeeps(w);
    var (w1, e) := Allocate(w);
    AllocateRefines(w, x);
    AttachRefines(w1, e, b, x);
  }

  /**
   * Create inserts under a handle that was not live; it is refused exactly for an invalid bundle or a
   * taken profile.
   */
  lemma CreateInserts(w: WorldData, b: Bundle)
    requires Inv(w) && WellTyped(b) && HasRoom(w)
    ensures Create(w, b).Made? <==> Validate(b) && NewProfile(w, b)
    ensures Create(w, b).Made? ==> var Made(w', e) := Create(w, b);
      Inv(w') && e !in Contents(w) && Contents(w') == Contents(w)[e := b]
  {
    NewProfileIsUnindexed(w, b);
    if Create(w, b).Made? {
      CreateKeeps(w, b);
      var Made(w', e) := Create(w, b);
      forall x ensures Lookup(w', x) == (if x == e then Some(b) else Lookup(w, x)) && Lookup(w, e) == None {
        CreatedLookup(w, b, x);
      }
      var _ := Lookup(w, e);
      ContentsAre(w', Contents(w)[e := b]);
    }
  }

  /**
   * Which refusal it is: a bundle is invalid without components, with a negative maximum of health or with
   * profile zero; a valid one is refused when a live bot has its profile.
   */
  lemma CreateRefuses(w: WorldData, b: Bundle)
    requires Inv(w) && WellTyped(b)
    ensures Create(w, b) == Refused(InvalidBundle) <==>
      || b == map[] || (HEALTH in b && b[HEALTH].max < 0.0) || (BOT in b && b[BOT].profile == 0)
    ensures Create(w, b) == Refused(ProfileTaken) <==>
      && Create(w, b) != Refused(InvalidBundle)
      && BOT in b && exists e :: e in Contents(w) && IsBot(Contents(w)[e], b[BOT].profile)
  {
    NewProfileIsUnindexed(w, b);
    if BOT in b {
      assert IsBot(b, b[BOT].profile);
    }
  }

  lemma CreateKeeps(w: WorldData, b: Bundle)
    requires Inv(w) && WellTyped(b) && HasRoom(w) && Create(w, b).Made?
    ensures Inv(Create(w, b).world)
  {
    AllocateKeeps(w);
    var (w1, e) := Allocate(w);
    AttachKeeps(w1, e, b);
  }

  lemma DestroyKeeps(w: WorldData, e: Entity, x: Entity)
    requires Inv(w) && Resolves(w, e)
    ensures Destroy(w, e).Changed? && Inv(Destroy(w, e).world)
    ensures Lookup(w, e).Some?
    ensures Lookup(Destroy(w, e).world, x) == if x == e then None else Lookup(w, x)
  {
    assert Used(w, 0, e.index) && LiveOk(w, e.index);
    DetachKeeps(w, e.index);
    ReleaseKeeps(Detach(w, e.index), e.index);
    if x.index != e.index {
      DetachRefines(w, e.index, x);
    }
  }

  /** Destroy removes the handle and nothing else; it is refused exactly for a handle that is not live. */
  lemma DestroyRemoves(w: WorldData, e: Entity)
    requires Inv(w)
    ensures Destroy(w, e).Changed? <==> e in Contents(w)
    ensures Destroy(w, e).Changed? ==> var w' := Destroy(w, e).world; Inv(w') && Contents(w') == Contents(w) - {e}
  {
    var _ := Lookup(w, e);
    if Resolves(w, e) {
      forall x ensures Destroy(w, e).Changed? && Inv(Destroy(w, e).world) && Lookup(w, e).Some?
               && Lookup(Destroy(w, e).world, x) == if x == e then None else Lookup(w, x) {
        DestroyKeeps(w, e, x);
      }
      ContentsAre(Destroy(w, e).world, Contents(w) - {e});
    }
  }

  /** The profile of the destination is free, or the migrating entity's own. */
  ghost predicate ProfileFreeFor(w: WorldData, e: Entity, b: Bundle) {
    BOT in b && b[BOT].BotData? && b[BOT].profile in w.botIndex ==> w.botIndex[b[BOT].profile] == e
  }

  lemma MigratedLookup(w: WorldData, e: Entity, source: Mask, b: Bundle, x: Entity)
    requires Inv(w) && WellTyped(b) && Migrate(w, e, source, b).Changed?
    ensures var w' := Migrate(w, e, source, b).world; Lookup(w', x) == if x == e then Some(b) else Lookup(w, x)
  {
    assert Used(w, 0, e.index) && LiveOk(w, e.index);
    DetachKeeps(w, e.index);
    AttachRefines(Detach(w, e.index), e, b, x);
    if x.index != e.index {
      DetachRefines(w, e.index, x);
    }
  }

  lemma MigrateKeeps(w: WorldData, e: Entity, source: Mask, b: Bundle)
    requires Inv(w) && WellTyped(b) && Migrate(w, e, source, b).Changed?
    ensures Inv(Migrate(w, e, source, b).world) <==> ProfileFreeFor(w, e, b)
  {
    assert Used(w, 0, e.index) && LiveOk(w, e.index);
    DetachKeeps(w, e.index);
    DetachedProfile(w, e, b);
    var w1 := Detach(w, e.index);
    if ProfileFree(w1, b) {
      AttachKeeps(w1, e, b);
    } else {
      AttachBreaks(w1, e, b);
    }
  }

  /**
   * Migrate replaces the bundle under the same handle, but keeps the invariant exactly when no other
   * entity owns the profile.
   */
  lemma MigrateReplaces(w: WorldData, e: Entity, source: Mask, b: Bundle)
    requires Inv(w) && WellTyped(b)
    ensures Migrate(w, e, source, b).Changed? <==> SourceIs(w, e, source) && Validate(b)
    ensures Migrate(w, e, source, b).Changed? ==> var w' := Migrate(w, e, source, b).world;
      Contents(w') == Contents(w)[e := b] && (Inv(w') <==> ProfileFreeFor(w, e, b))
  {
    var _ := Lookup(w, e);
    if Resolves(w, e) {
      assert Used(w, 0, e.index) && LiveOk(w, e.index);
      assert TableOk(w, w.locations[e.index].mask);
    }
    if Migrate(w, e, source, b).Changed? {
      MigrateKeeps(w, e, source, b);
      var w' := Migrate(w, e, source, b).world;
      forall x ensures Lookup(w', x) == if x == e then Some(b) else Lookup(w, x) {
        MigratedLookup(w, e, source, b, x);
      }
      ContentsAre(w', Contents(w)[e := b]);
    }
  }

  /** Two bots are created and the second migrates to the first one's profile: accepted, and the invariant is lost. */
  lemma MigrateCanStealAProfile()
    ensures var one, two := map[BOT := BotData(1)], map[BOT := BotData(2)];
      var Made(w1, e1) := Create(EMPTY_WORLD, one);
      Inv(w1) && var Made(w2, e2) := Create(w1, two);
      Inv(w2) && Migrate(w2, e2, {BOT}, one).Changed? && !Inv(Migrate(w2, e2, {BOT}, one).world)
  {
    var one, two := map[BOT := BotData(1)], map[BOT := BotData(2)];
    assert one.Keys == {BOT} && two.Keys == {BOT};
    EmptyWorldIsSound();
    CreateInserts(EMPTY_WORLD, one);
    var Made(w1, e1) := Create(EMPTY_WORLD, one);
    assert Contents(EMPTY_WORLD) == map[] by {
      ContentsAre(EMPTY_WORLD, map[]);
    }
    assert HasRoom(w1) && NewProfile(w1, two);
    CreateInserts(w1, two);
    var Made(w2, e2) := Create(w1, two);
    MigrateReplaces(w2, e2, {BOT}, one);
    IndexIsTheLiveBots(w2, 1, e1);
  }

  lemma DetachedProfile(w: WorldData, e: Entity, b: Bundle)
    requires Inv(w) && Resolves(w, e)
    ensures HasRow(w, e.index)
    ensures ProfileFree(Detach(w, e.index), b) <==> ProfileFreeFor(w, e, b)
  {
    assert Used(w, 0, e.index) && LiveOk(w, e.index) && Indexed(w, e.index);
    if BOT in b && b[BOT].BotData? && b[BOT].profile in w.botIndex {
      assert IndexOk(w, 0, b[BOT].profile);
    }
  }
}
