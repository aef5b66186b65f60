// Committing a whole queue of deferred commands: every command is validated
// against a shadow of the world first, then all of them are applied.
module EcsSync {
  import opened Options
  import opened Sequences
  import opened SchedulerTypes
  import opened EcsTypes
  import opened EcsWorld
  import opened EcsRefinement
  import opened Envelopes

  datatype Command =
    | CreateCommand(bundle: Bundle)
    | DestroyCommand(entity: Entity, expectedMask: Mask)

  predicate WellTypedCommand(c: Command) {
    c.CreateCommand? ==> WellTyped(c.bundle)
  }

  /** What the batch has done so far: entities it looked at, and the profiles in use. */
  datatype ShadowEntity = ShadowEntity(alive: bool, bundle: Bundle)
  datatype Shadow = Shadow(entities: map<Entity, ShadowEntity>, bots: map<ProfileID, Entity>)

  const NOBODY := Entity(0, 0)

  ghost function NewShadow(w: WorldData): Shadow {
    Shadow(map[], w.botIndex)
  }

  /** The bundle an entity has for the rest of the batch; none when it is dead or destroyed earlier in the batch. */
  ghost function ShadowBundle(w: WorldData, s: Shadow, e: Entity): Option<Bundle> {
    if e in s.entities then (if s.entities[e].alive then Some(s.entities[e].bundle) else None)
    else Lookup(w, e)
  }

  ghost function ValidateCommand(w: WorldData, s: Shadow, c: Command): Option<Shadow>
    requires WellTypedCommand(c)
  {
    match c
    case CreateCommand(b) =>
      if !Validate(b) then None
      else if BOT !in b then Some(s)
      else
        var p := b[BOT].profile;
        if p in w.botIndex || p in s.bots then None else Some(s.(bots := s.bots[p := NOBODY]))
    case DestroyCommand(e, expectedMask) =>
      var bundle := ShadowBundle(w, s, e);
      if bundle.None? then None
      else if expectedMask != {} && bundle.value.Keys != expectedMask then None
      else Some(Shadow(
        s.entities[e := ShadowEntity(false, bundle.value)],
        if BOT in bundle.value && bundle.value[BOT].BotData? then s.bots - {bundle.value[BOT].profile} else s.bots))
  }

  ghost function ValidateAll(w: WorldData, s: Shadow, commands: seq<Command>): Option<Shadow>
    requires forall c :: c in commands ==> WellTypedCommand(c)
    decreases |commands|
  {
    if commands == [] then Some(s)
    else
      var next := ValidateCommand(w, s, commands[0]);
      if next.None? then None else ValidateAll(w, next.value, commands[1..])
  }

  /** Make sure every destination table exists. */
  ghost function Reserve(w: WorldData, commands: seq<Command>): WorldData
    decreases |commands|
  {
    if commands == [] then w
    else Reserve(if commands[0].CreateCommand? then EnsureTable(w, commands[0].bundle.Keys) else w, commands[1..])
  }

  ghost predicate Room(w: WorldData, extra: nat) {
    |w.generations| + extra <= WORD32
  }

  lemma CreatedGenerations(w: WorldData, b: Bundle)
    requires Inv(w) && WellTyped(b) && HasRoom(w) && Create(w, b).Made?
    ensures var Made(w', e) := Create(w, b);
      && |w.generations| <= |w'.generations| <= |w.generations| + 1
      && (forall j :: 0 <= j < |w.generations| ==> w'.generations[j] == w.generations[j])
      && e.index < |w'.generations| && e.generation == w'.generations[e.index]
  {
    AllocateKeeps(w);
  }

  /** What applying one validated command does; None is the failure that validation should exclude. */
  ghost function ApplyCommand(w: WorldData, c: Command): (r: Option<WorldData>)
    requires Inv(w) && WellTypedCommand(c) && Room(w, 1)
    ensures r.Some? ==> Inv(r.value) && |r.value.generations| <= |w.generations| + 1
  {
    match c
    case CreateCommand(b) =>
      if Create(w, b).Refused? then None
      else
        CreateKeeps(w, b); CreatedGenerations(w, b);
        Some(Create(w, b).world)
    case DestroyCommand(e, _) =>
      if Destroy(w, e).Rejected? then None
      else
        DestroyKeeps(w, e, e);
        Some(Destroy(w, e).world)
  }

  ghost function Commit(w: WorldData, commands: seq<Command>): Option<WorldData>
    requires Inv(w) && Room(w, |commands|) && forall c :: c in commands ==> WellTypedCommand(c)
    decreases |commands|
  {
    if commands == [] then Some(w)
    else
      var next := ApplyCommand(w, commands[0]);
      if next.None? then None else Commit(next.value, commands[1..])
  }

  // ------------------------------------------------------------ reservation

  lemma EnsureTableKeeps(w: WorldData, m: Mask)
    requires Inv(w)
    ensures var w' := EnsureTable(w, m);
      Inv(w') && Contents(w') == Contents(w) && w'.generations == w.generations && w'.botIndex == w.botIndex
  {
    var w' := EnsureTable(w, m);
    forall i | Used(w', 0, i) ensures LiveOk(w', i) && Indexed(w', i) {
      assert Used(w, 0, i) && LiveOk(w, i) && Indexed(w, i);
    }
    forall k | k in w'.tables ensures TableOk(w', k) {
      assert k in w.tables ==> TableOk(w, k);
    }
    forall k, r: nat | k in w'.tables && r < |w'.tables[k].entities| ensures RowOk(w', 0, k, r) {
      assert RowOk(w, 0, k, r);
    }
    forall p | p in w'.botIndex ensures IndexOk(w', 0, p) {
      assert IndexOk(w, 0, p);
    }
    forall x ensures Lookup(w', x) == Lookup(w, x) {
      if Used(w, 0, x.index) {
        assert LiveOk(w, x.index);
      }
    }
    ContentsAre(w', Contents(w));
  }

  lemma {:induction false} ReserveKeeps(w: WorldData, commands: seq<Command>)
    requires Inv(w)
    ensures var w' := Reserve(w, commands);
      Inv(w') && Contents(w') == Contents(w) && w'.generations == w.generations && w'.botIndex == w.botIndex
    decreases |commands|
  {
    if commands != [] {
      if commands[0].CreateCommand? {
        EnsureTableKeeps(w, commands[0].bundle.Keys);
        ReserveKeeps(EnsureTable(w, commands[0].bundle.Keys), commands[1..]);
      } else {
        ReserveKeeps(w, commands[1..]);
      }
    }
  }

  /** Reservation makes an empty table for every archetype to be created that has none, and no other. */
  lemma {:induction false} ReserveMakesTables(w: WorldData, commands: seq<Command>, mask: Mask)
    ensures var w' := Reserve(w, commands);
      && (mask in w'.tables <==>
            mask in w.tables || exists c :: c in commands && c.CreateCommand? && c.bundle.Keys == mask)
      && (mask in w.tables ==> w'.tables[mask] == w.tables[mask])
      && (mask in w'.tables && mask !in w.tables ==> w'.tables[mask].mask == mask && w'.tables[mask].entities == [])
      && w' == w.(tables := w'.tables)
    decreases |commands|
  {
    if commands != [] {
      var c := commands[0];
      ReserveMakesTables(if c.CreateCommand? then EnsureTable(w, c.bundle.Keys) else w, commands[1..], mask);
      assert forall d :: d in commands <==> d == c || d in commands[1..];
    }
  }

  // --------------------------------------------------------- the simulation

  /** What a world looks like from outside: its bundles, the profiles it knows, and its generations. */
  datatype View = View(contents: map<Entity, Bundle>, profiles: set<ProfileID>, generations: seq<nat>)

  ghost function ViewOf(w: WorldData): View {
    View(Contents(w), w.botIndex.Keys, w.generations)
  }

  /** The index of a handle destroyed in this batch has moved on to its next generation. */
  ghost predicate Retired(generations: seq<nat>, d: Entity) {
    d.index < |generations| && generations[d.index] == (d.generation + 1) % WORD32
  }

  ghost predicate Reserved(profiles: set<ProfileID>, s: Shadow, b: Bundle) {
    forall p {:trigger IsBot(b, p)} :: IsBot(b, p) ==> p in s.bots && p !in profiles
  }

  /** Part of the batch committed: `dead` destroyed and `made` created since v0, with s the shadow at that point. */
  ghost predicate Batch(v0: View, s: Shadow, v: View, dead: set<Entity>, made: map<Entity, Bundle>) {
    && v.contents == (v0.contents - dead) + made
    && (forall d :: d in dead ==> d in v0.contents && Retired(v.generations, d))
    && (forall x :: x in made ==> x !in v0.contents && Reserved(v0.profiles, s, made[x]))
    && (forall d :: d in s.entities <==> d in dead)
    && (forall d :: d in dead ==> !s.entities[d].alive)
  }

  lemma GenerationBounded(w: WorldData, e: Entity)
    requires Inv(w) && e in Contents(w)
    ensures 0 < e.index < |w.generations| && w.generations[e.index] == e.generation < WORD32
  {
    var _ := Lookup(w, e);
    assert Used(w, 0, e.index) && LiveOk(w, e.index);
  }

  lemma ProfileIsNew(w0: WorldData, s: Shadow, w: WorldData, dead: set<Entity>, made: map<Entity, Bundle>, b: Bundle)
    requires Inv(w0) && Batch(ViewOf(w0), s, ViewOf(w), dead, made) && WellTyped(b)
    requires ValidateCommand(w0, s, CreateCommand(b)).Some?
    ensures Validate(b) && NewProfile(w, b)
  {
    forall p, x | IsBot(b, p) && x in Contents(w) ensures !IsBot(Contents(w)[x], p) {
      if x !in made {
        IndexIsTheLiveBots(w0, p, x);
      }
    }
  }

  /** A new handle was not live before the batch: a destroyed one has moved on. */
  lemma HandleIsNew(w0: WorldData, s: Shadow, v: View, dead: set<Entity>, made: map<Entity, Bundle>, e: Entity)
    requires Inv(w0) && Batch(ViewOf(w0), s, v, dead, made)
    requires e !in v.contents && e.index < |v.generations| ==> e.generation == v.generations[e.index]
    ensures e !in v.contents ==> e !in Contents(w0) && e !in made
  {
    if e in Contents(w0) && e !in v.contents {
      GenerationBounded(w0, e);
    }
  }

  lemma InsertedLast<K, V>(base: map<K, V>, dead: set<K>, made: map<K, V>, k: K, v: V)
    ensures (base - dead) + made[k := v] == ((base - dead) + made)[k := v]
  {
  }

  lemma RemovedFromBase<K, V>(base: map<K, V>, dead: set<K>, made: map<K, V>, k: K)
    requires k !in made
    ensures (base - (dead + {k})) + made == ((base - dead) + made) - {k}
  {
  }

  lemma BatchCreated(v0: View, s: Shadow, v: View, dead: set<Entity>, made: map<Entity, Bundle>, b: Bundle,
                     s': Shadow, v': View, e: Entity)
    requires Batch(v0, s, v, dead, made)
    requires v'.contents == v.contents[e := b] && e !in v0.contents && e !in made
    requires v.generations <= v'.generations
    requires s'.entities == s.entities && s.bots.Keys <= s'.bots.Keys && Reserved(v0.profiles, s', b)
    ensures Batch(v0, s', v', dead, made[e := b])
  {
    forall d | d in dead ensures d in v0.contents && Retired(v'.generations, d) {
      assert Retired(v.generations, d);
    }
    forall x | x in made ensures Reserved(v0.profiles, s', made[x]) {
      assert Reserved(v0.profiles, s, made[x]);
    }
    InsertedLast(v0.contents, dead, made, e, b);
  }

  lemma CreateStep(w0: WorldData, s: Shadow, w: WorldData, dead: set<Entity>, made: map<Entity, Bundle>, b: Bundle)
      returns (e: Entity)
    requires Inv(w0) && Inv(w) && Batch(ViewOf(w0), s, ViewOf(w), dead, made) && WellTyped(b) && Room(w, 1)
    requires ValidateCommand(w0, s, CreateCommand(b)).Some?
    ensures ApplyCommand(w, CreateCommand(b)).Some? && e !in made
    ensures Batch(ViewOf(w0), ValidateCommand(w0, s, CreateCommand(b)).value,
                  ViewOf(ApplyCommand(w, CreateCommand(b)).value), dead, made[e := b])
  {
    ProfileIsNew(w0, s, w, dead, made, b);
    CreateInserts(w, b);
    CreatedGenerations(w, b);
    e := Create(w, b).entity;
    var v' := ViewOf(Create(w, b).world);
    HandleIsNew(w0, s, ViewOf(w), dead, made, e);
    BatchCreated(ViewOf(w0), s, ViewOf(w), dead, made, b, ValidateCommand(w0, s, CreateCommand(b)).value, v', e);
  }

  ghost predicate ForgetsProfile(s: Shadow, gone: Bundle, s': Shadow) {
    s'.bots == if BOT in gone && gone[BOT].BotData? then s.bots - {gone[BOT].profile} else s.bots
  }

  lemma BatchDestroyed(v0: View, s: Shadow, v: View, dead: set<Entity>, made: map<Entity, Bundle>, e: Entity,
                       s': Shadow, v': View)
    requires Batch(v0, s, v, dead, made) && e in v0.contents && e !in dead
    requires forall d :: d in dead ==> d.index != e.index
    requires forall p {:trigger IsBot(v0.contents[e], p)} :: IsBot(v0.contents[e], p) ==> p in v0.profiles
    requires e.index < |v.generations| && v'.contents == v.contents - {e}
    requires v'.generations == v.generations[e.index := (e.generation + 1) % WORD32]
    requires s'.entities == s.entities[e := ShadowEntity(false, v0.contents[e])]
      && ForgetsProfile(s, v0.contents[e], s')
    ensures Batch(v0, s', v', dead + {e}, made)
  {
    forall d | d in dead + {e} ensures d in v0.contents && Retired(v'.generations, d) {
      if d != e {
        assert Retired(v.generations, d);
      }
    }
    forall x | x in made ensures x !in v0.contents && Reserved(v0.profiles, s', made[x]) {
      assert Reserved(v0.profiles, s, made[x]);
      forall p | IsBot(made[x], p) ensures p in s'.bots {
        assert p in s.bots;
        assert IsBot(v0.contents[e], p) ==> p in v0.profiles;
      }
    }
    RemovedFromBase(v0.contents, dead, made, e);
  }

  lemma DestroyApplied(w: WorldData, c: Command)
    requires Inv(w) && c.DestroyCommand? && c.entity in Contents(w) && Room(w, 1)
    ensures ApplyCommand(w, c).Some?
    ensures var e, v, v' := c.entity, ViewOf(w), ViewOf(ApplyCommand(w, c).value);
      && v'.contents == v.contents - {e} && e.index < |v.generations|
      && v'.generations == v.generations[e.index := (e.generation + 1) % WORD32]
  {
    DestroyRemoves(w, c.entity);
    GenerationBounded(w, c.entity);
  }

  lemma DestroyValidated(w0: WorldData, s: Shadow, v: View, dead: set<Entity>, made: map<Entity, Bundle>, c: Command)
    requires Batch(ViewOf(w0), s, v, dead, made) && c.DestroyCommand?
    requires ValidateCommand(w0, s, c).Some?
    ensures c.entity !in dead && c.entity in Contents(w0) && c.entity in v.contents
    ensures var s', gone := ValidateCommand(w0, s, c).value, Contents(w0)[c.entity];
      s'.entities == s.entities[c.entity := ShadowEntity(false, gone)] && ForgetsProfile(s, gone, s')
  {
    var _ := Lookup(w0, c.entity);
  }

  lemma DestroyRecorded(w0: WorldData, s: Shadow, v: View, dead: set<Entity>, made: map<Entity, Bundle>, c: Command,
                        v': View)
    requires Inv(w0) && Batch(ViewOf(w0), s, v, dead, made) && c.DestroyCommand?
    requires ValidateCommand(w0, s, c).Some?
    requires var e := c.entity;
      && v'.contents == v.contents - {e} && e.index < |v.generations|
      && v'.generations == v.generations[e.index := (e.generation + 1) % WORD32]
    ensures Batch(ViewOf(w0), ValidateCommand(w0, s, c).value, v', dead + {c.entity}, made)
  {
    DestroyValidated(w0, s, v, dead, made, c);
    DestroyFrame(w0, c.entity, dead);
    BatchDestroyed(ViewOf(w0), s, v, dead, made, c.entity, ValidateCommand(w0, s, c).value, v');
  }

  lemma DestroyStep(w0: WorldData, s: Shadow, w: WorldData, dead: set<Entity>, made: map<Entity, Bundle>, c: Command)
    requires Inv(w0) && Inv(w) && Batch(ViewOf(w0), s, ViewOf(w), dead, made) && c.DestroyCommand? && Room(w, 1)
    requires ValidateCommand(w0, s, c).Some?
    ensures c.entity in Contents(w0) && c.entity !in dead && ApplyCommand(w, c).Some?
    ensures Batch(ViewOf(w0), ValidateCommand(w0, s, c).value, ViewOf(ApplyCommand(w, c).value), dead + {c.entity},
                  made)
  {
    DestroyValidated(w0, s, ViewOf(w), dead, made, c);
    DestroyApplied(w, c);
    DestroyRecorded(w0, s, ViewOf(w), dead, made, c, ViewOf(ApplyCommand(w, c).value));
  }

  /** Two handles that are live at once have different indices, and a live bot's profile is known. */
  lemma DestroyFrame(w: WorldData, e: Entity, dead: set<Entity>)
    requires Inv(w) && e in Contents(w) && e !in dead && forall d :: d in dead ==> d in Contents(w)
    ensures forall d :: d in dead ==> d.index != e.index
    ensures forall p {:trigger IsBot(Contents(w)[e], p)} :: IsBot(Contents(w)[e], p) ==> p in w.botIndex.Keys
  {
    forall d | d in dead ensures d.index != e.index {
      GenerationBounded(w, d);
      GenerationBounded(w, e);
    }
    forall p | IsBot(Contents(w)[e], p) ensures p in w.botIndex {
      IndexIsTheLiveBots(w, p, e);
    }
  }

  // ------------------------------------------------- which batches validate

  ghost function Profiles(c: Command): set<ProfileID> {
    if c.CreateCommand? && BOT in c.bundle && c.bundle[BOT].BotData? then {c.bundle[BOT].profile} else {}
  }

  ghost function Targets(c: Command): set<Entity> {
    if c.DestroyCommand? then {c.entity} else {}
  }

  /**
   * Acceptable on its own: a valid bundle with a profile no live bot has, or a live entity of the
   * expected archetype.
   */
  ghost predicate Sensible(w: WorldData, c: Command)
    requires WellTypedCommand(c)
  {
    match c
    case CreateCommand(b) => Validate(b) && NewProfile(w, b)
    case DestroyCommand(e, m) => e in Contents(w) && (m != {} ==> Contents(w)[e].Keys == m)
  }

  /** Two commands of one batch clash when they create one profile twice or destroy one entity twice. */
  ghost predicate Clash(a: Command, b: Command) {
    !(Profiles(a) !! Profiles(b)) || !(Targets(a) !! Targets(b))
  }

  ghost predicate Acceptable(w: WorldData, commands: seq<Command>)
    requires forall c :: c in commands ==> WellTypedCommand(c)
  {
    && (forall i :: 0 <= i < |commands| ==> Sensible(w, commands[i]))
    && (forall i, j :: 0 <= i < j < |commands| ==> !Clash(commands[i], commands[j]))
  }

  /** The shadow after commands that created the profiles `taken` and destroyed the entities `dead`. */
  ghost predicate Shadows(w: WorldData, s: Shadow, taken: set<ProfileID>, dead: set<Entity>) {
    && (forall e :: e in s.entities <==> e in dead)
    && (forall e :: e in dead ==> !s.entities[e].alive)
    && (forall p :: p !in w.botIndex ==> (p in s.bots <==> p in taken))
    && (forall p :: p in taken ==> p !in w.botIndex)
  }

  ghost predicate Apart(c: Command, taken: set<ProfileID>, dead: set<Entity>) {
    Profiles(c) !! taken && Targets(c) !! dead
  }

  lemma ValidateCommandAccepts(w: WorldData, s: Shadow, taken: set<ProfileID>, dead: set<Entity>, c: Command)
    requires Inv(w) && Shadows(w, s, taken, dead) && WellTypedCommand(c)
    ensures ValidateCommand(w, s, c).Some? <==> Sensible(w, c) && Apart(c, taken, dead)
    ensures ValidateCommand(w, s, c).Some? ==>
      Shadows(w, ValidateCommand(w, s, c).value, taken + Profiles(c), dead + Targets(c))
  {
    match c
    case CreateCommand(b) =>
      NewProfileIsUnindexed(w, b);
    case DestroyCommand(e, _) =>
      var _ := Lookup(w, e);
      if e in Contents(w) {
        DestroyFrame(w, e, {});
        var gone := Contents(w)[e];
        if BOT in gone && gone[BOT].BotData? {
          assert IsBot(gone, gone[BOT].profile);
        }
      }
  }

  /** A batch validates exactly when every command is acceptable on its own and no two clash. */
  lemma {:induction false} ValidateAllAccepts(w: WorldData, s: Shadow, taken: set<ProfileID>, dead: set<Entity>,
                                              commands: seq<Command>)
    requires Inv(w) && Shadows(w, s, taken, dead) && forall c :: c in commands ==> WellTypedCommand(c)
    ensures ValidateAll(w, s, commands).Some? <==>
      Acceptable(w, commands) && forall i :: 0 <= i < |commands| ==> Apart(commands[i], taken, dead)
    decreases |commands|
  {
    if commands != [] {
      var c, rest := commands[0], commands[1..];
      ValidateCommandAccepts(w, s, taken, dead, c);
      var next := ValidateCommand(w, s, c);
      if next.Some? {
        ValidateAllAccepts(w, next.value, taken + Profiles(c), dead + Targets(c), rest);
        HeadAndRest(w, taken, dead, commands);
      }
    }
  }

  lemma HeadAndRest(w: WorldData, taken: set<ProfileID>, dead: set<Entity>, commands: seq<Command>)
    requires commands != [] && forall c :: c in commands ==> WellTypedCommand(c)
    requires Sensible(w, commands[0]) && Apart(commands[0], taken, dead)
    ensures var c, rest := commands[0], commands[1..];
      (Acceptable(w, commands) && forall i :: 0 <= i < |commands| ==> Apart(commands[i], taken, dead)) <==>
      (Acceptable(w, rest) && forall i :: 0 <= i < |rest| ==> Apart(rest[i], taken + Profiles(c), dead + Targets(c)))
  {
    var c, rest := commands[0], commands[1..];
    forall i | 0 <= i < |rest|
      ensures Apart(rest[i], taken + Profiles(c), dead + Targets(c)) <==>
        Apart(commands[i + 1], taken, dead) && !Clash(c, commands[i + 1])
    {
      ApartFromBoth(c, commands[i + 1], taken, dead);
    }
    if Acceptable(w, rest) && forall i :: 0 <= i < |rest| ==> Apart(rest[i], taken + Profiles(c), dead + Targets(c)) {
      forall i | 0 <= i < |commands| ensures Sensible(w, commands[i]) && Apart(commands[i], taken, dead) {
        assert i > 0 ==> commands[i] == rest[i - 1];
      }
      forall i, j | 0 <= i < j < |commands| ensures !Clash(commands[i], commands[j]) {
        assert commands[j] == rest[j - 1];
        assert i > 0 ==> commands[i] == rest[i - 1];
      }
    }
  }

  lemma ApartFromBoth(c: Command, d: Command, taken: set<ProfileID>, dead: set<Entity>)
    ensures Apart(d, taken + Profiles(c), dead + Targets(c)) <==> Apart(d, taken, dead) && !Clash(c, d)
  {
    DisjointFromBoth(Profiles(d), taken, Profiles(c));
    DisjointFromBoth(Targets(d), dead, Targets(c));
  }

  lemma DisjointFromBoth<T>(x: set<T>, y: set<T>, z: set<T>)
    ensures x !! (y + z) <==> x !! y && z !! x
  {
    if x !! (y + z) {
      assert forall t :: t in y || t in z ==> t in y + z;
    }
  }

  // ------------------------------------------------------------- the commit

  ghost function Bundles(commands: seq<Command>): seq<Bundle> {
    if commands == [] then []
    else (if commands[0].CreateCommand? then [commands[0].bundle] else []) + Bundles(commands[1..])
  }

  ghost function Destroyed(commands: seq<Command>): set<Entity> {
    if commands == [] then {} else Targets(commands[0]) + Destroyed(commands[1..])
  }

  /** The map with bundle k inserted under handle k. */
  ghost function Inserted(m: map<Entity, Bundle>, handles: seq<Entity>, bundles: seq<Bundle>): map<Entity, Bundle>
    requires |handles| == |bundles|
    decreases |handles|
  {
    if handles == [] then m else Inserted(m[handles[0] := bundles[0]], handles[1..], bundles[1..])
  }

  ghost predicate AllNew(m: map<Entity, Bundle>, handles: seq<Entity>) {
    (forall k :: 0 <= k < |handles| ==> handles[k] !in m)
        && (forall k, l :: 0 <= k < l < |handles| ==> handles[k] != handles[l])
  }

  /** The outcome of committing the rest of a batch. */
  ghost predicate Committed(v0: View, dead: set<Entity>, made: map<Entity, Bundle>, commands: seq<Command>,
                            handles: seq<Entity>, contents: map<Entity, Bundle>) {
    && |handles| == |Bundles(commands)|
    && AllNew(v0.contents, handles) && AllNew(made, handles)
    && contents == (v0.contents - (dead + Destroyed(commands))) + Inserted(made, handles, Bundles(commands))
  }

  /** What one command adds to the destroyed and the created; e is the handle of a create. */
  ghost predicate Records(v0: View, dead: set<Entity>, made: map<Entity, Bundle>, c: Command,
                          e: Entity, dead': set<Entity>, made': map<Entity, Bundle>) {
    && dead' == dead + Targets(c)
    && (c.CreateCommand? ==> e !in v0.contents && e !in made)
    && made' == if c.CreateCommand? then made[e := c.bundle] else made
  }

  lemma CommitStep(w0: WorldData, s: Shadow, w: WorldData, dead: set<Entity>, made: map<Entity, Bundle>, c: Command)
    returns (e: Entity, dead': set<Entity>, made': map<Entity, Bundle>)
    requires WellTypedCommand(c) && Inv(w0) && Inv(w) && Batch(ViewOf(w0), s, ViewOf(w), dead, made) && Room(w, 1)
    requires ValidateCommand(w0, s, c).Some?
    ensures ApplyCommand(w, c).Some? && Records(ViewOf(w0), dead, made, c, e, dead', made')
    ensures Batch(ViewOf(w0), ValidateCommand(w0, s, c).value, ViewOf(ApplyCommand(w, c).value), dead', made')
  {
    if c.CreateCommand? {
      e := CreateStep(w0, s, w, dead, made, c.bundle);
      dead', made' := dead, made[e := c.bundle];
    } else {
      DestroyStep(w0, s, w, dead, made, c);
      e, dead', made' := NOBODY, dead + {c.entity}, made;
    }
  }

  lemma CommittedMore(v0: View, dead: set<Entity>, made: map<Entity, Bundle>, commands: seq<Command>,
                      e: Entity, dead': set<Entity>, made': map<Entity, Bundle>, rest: seq<Entity>,
                          contents: map<Entity, Bundle>)
    returns (handles: seq<Entity>)
    requires commands != [] && Records(v0, dead, made, commands[0], e, dead', made')
    requires Committed(v0, dead', made', commands[1..], rest, contents)
    ensures Committed(v0, dead, made, commands, handles, contents)
  {
    if commands[0].CreateCommand? {
      assert dead' == dead && ([e] + rest)[0] == e;
      OneMoreHandle(v0, dead, made, commands, e, rest, contents);
      handles := [e] + rest;
    } else {
      assert dead' + Destroyed(commands[1..]) == dead + Destroyed(commands);
      assert Bundles(commands) == Bundles(commands[1..]);
      handles := rest;
    }
  }

  /** A validated batch commits: no apply fails. */
  lemma {:induction false} CommitSucceeds(w0: WorldData, s: Shadow, w: WorldData, dead: set<Entity>,
                                          made: map<Entity, Bundle>,
                                          commands: seq<Command>) returns (handles: seq<Entity>)
    requires forall c :: c in commands ==> WellTypedCommand(c)
    requires Inv(w0) && Inv(w) && Batch(ViewOf(w0), s, ViewOf(w), dead, made) && Room(w, |commands|)
    requires ValidateAll(w0, s, commands).Some?
    ensures Commit(w, commands).Some? && Inv(Commit(w, commands).value)
    ensures Committed(ViewOf(w0), dead, made, commands, handles, Contents(Commit(w, commands).value))
    decreases |commands|
  {
    if commands == [] {
      handles := [];
    } else {
      var e, dead', made' := CommitStep(w0, s, w, dead, made, commands[0]);
      var s' := ValidateCommand(w0, s, commands[0]).value;
      handles := CommitSucceeds(w0, s', ApplyCommand(w, commands[0]).value, dead', made', commands[1..]);
      handles := CommittedMore(ViewOf(w0), dead, made, commands, e, dead', made', handles,
                               Contents(Commit(w, commands).value));
    }
  }

  lemma OneMoreHandle(v0: View, dead: set<Entity>, made: map<Entity, Bundle>, commands: seq<Command>,
                      e: Entity, handles: seq<Entity>, contents: map<Entity, Bundle>)
    requires commands != [] && commands[0].CreateCommand? && e !in v0.contents && e !in made
    requires Committed(v0, dead, made[e := commands[0].bundle], commands[1..], handles, contents)
    ensures Committed(v0, dead, made, commands, [e] + handles, contents)
  {
    assert ([e] + handles)[1..] == handles;
    assert Bundles(commands)[1..] == Bundles(commands[1..]);
    assert Destroyed(commands) == Destroyed(commands[1..]);
    assert forall k :: 0 <= k < |handles| ==> handles[k] in made ==> handles[k] in made[e := commands[0].bundle];
  }

  // ------------------------------------------------------------------- sync

  datatype SyncState = SyncState(data: WorldData, queue: seq<Envelope<Command>>, dirty: set<Mask>)

  datatype SyncResult = Synced(state: SyncState) | ValidationFailed(state: SyncState) | CommitFailed

  function Payloads(queue: seq<Envelope<Command>>): (commands: seq<Command>)
    ensures |commands| == |queue| && forall k :: 0 <= k < |queue| ==> commands[k] == queue[k].command
  {
    seq(|queue|, k requires 0 <= k < |queue| => queue[k].command)
  }

  ghost predicate Ready(st: SyncState) {
    && Inv(st.data) && Room(st.data, |st.queue|)
    && forall e :: e in st.queue ==> WellTypedCommand(e.command)
  }

  lemma SortedReady(st: SyncState)
    requires Ready(st)
    ensures var sorted := SortEnvelopes(st.queue);
      |sorted| == |st.queue| && (forall e :: e in sorted ==> WellTypedCommand(e.command))
  {
    var sorted := SortEnvelopes(st.queue);
    SortSorts(st.queue);
    assert |multiset(sorted)| == |sorted| && |multiset(st.queue)| == |st.queue|;
    forall e | e in sorted ensures WellTypedCommand(e.command) {
      assert e in multiset(sorted);
    }
  }

  ghost function SyncRun(st: SyncState): SyncResult
    requires Ready(st)
  {
    if st.queue == [] then Synced(st.(dirty := {}))
    else
      SortedReady(st);
      var sorted := SortEnvelopes(st.queue);
      var commands := Payloads(sorted);
      if ValidateAll(st.data, NewShadow(st.data), commands).None? then ValidationFailed(st.(queue := sorted))
      else
        ReserveKeeps(st.data, commands);
        var committed := Commit(Reserve(st.data, commands), commands);
        if committed.None? then CommitFailed else Synced(SyncState(committed.value, [], {}))
  }

  lemma AcceptableCommits(w0: WorldData, commands: seq<Command>) returns (handles: seq<Entity>)
    requires Inv(w0) && Room(w0, |commands|) && (forall c :: c in commands ==> WellTypedCommand(c))
    requires ValidateAll(w0, NewShadow(w0), commands).Some?
    ensures var w := Reserve(w0, commands);
      && Inv(w) && Room(w, |commands|) && Commit(w, commands).Some? && Inv(Commit(w, commands).value)
      && Committed(ViewOf(w0), {}, map[], commands, handles, Contents(Commit(w, commands).value))
  {
    ReserveKeeps(w0, commands);
    var w := Reserve(w0, commands);
    assert Contents(w) == (Contents(w0) - {}) + map[];
    handles := CommitSucceeds(w0, NewShadow(w0), w, {}, map[], commands);
  }

  /**
   * The batch took effect: everything it destroyed is gone, and what it created has handles that were
   * not live before.
   */
  ghost predicate TookEffect(st: SyncState, commands: seq<Command>, handles: seq<Entity>, st': SyncState) {
    && Inv(st'.data) && st'.queue == [] && st'.dirty == {}
    && |handles| == |Bundles(commands)| && AllNew(Contents(st.data), handles)
    && Contents(st'.data) == (Contents(st.data) - Destroyed(commands)) + Inserted(map[], handles, Bundles(commands))
  }

  /** All or nothing: every apply of a validated batch succeeds, and a batch that does not validate changes no data. */
  lemma SyncIsAllOrNothing(st: SyncState) returns (handles: seq<Entity>)
    requires Ready(st)
    ensures var commands := Payloads(SortEnvelopes(st.queue));
      && (forall c :: c in commands ==> WellTypedCommand(c))
      && (Acceptable(st.data, commands) ==> SyncRun(st).Synced? && TookEffect(st, commands, handles, SyncRun(st).state))
      && (!Acceptable(st.data, commands) ==> SyncRun(st) == ValidationFailed(st.(queue := SortEnvelopes(st.queue))))
  {
    SortedReady(st);
    var w0, commands := st.data, Payloads(SortEnvelopes(st.queue));
    ValidateAllAccepts(w0, NewShadow(w0), {}, {}, commands);
    handles := [];
    if st.queue == [] {
      assert commands == [];
      assert Contents(w0) == (Contents(w0) - {}) + map[];
    } else if Acceptable(w0, commands) {
      assert forall i :: 0 <= i < |commands| ==> Apart(commands[i], {}, {});
      handles := AcceptableCommits(w0, commands);
      assert {} + Destroyed(commands) == Destroyed(commands);
    }
  }

  // ------------------------------------------ the effect, handle by handle

  /** Some command of the batch destroys the entity. */
  ghost predicate IsDestroyed(commands: seq<Command>, e: Entity) {
    exists c :: c in commands && c.DestroyCommand? && c.entity == e
  }

  lemma {:induction false} DestroyedExactly(commands: seq<Command>, e: Entity)
    ensures e in Destroyed(commands) <==> IsDestroyed(commands, e)
  {
    if commands != [] {
      DestroyedExactly(commands[1..], e);
      assert forall c :: c in commands <==> c == commands[0] || c in commands[1..];
    }
  }

  lemma {:induction false} InsertedExactly(m: map<Entity, Bundle>, handles: seq<Entity>, bundles: seq<Bundle>)
    requires |handles| == |bundles| && AllNew(m, handles)
    ensures var m' := Inserted(m, handles, bundles);
      && (forall e :: e in m' <==> e in m || e in handles)
      && (forall e :: e in m ==> m'[e] == m[e])
      && (forall k :: 0 <= k < |handles| ==> m'[handles[k]] == bundles[k])
    decreases |handles|
  {
    if handles != [] {
      var rest, next := handles[1..], m[handles[0] := bundles[0]];
      assert AllNew(next, rest);
      InsertedExactly(next, rest, bundles[1..]);
      assert forall e :: e in handles <==> e == handles[0] || e in rest;
      var m' := Inserted(next, rest, bundles[1..]);
      forall k | 0 <= k < |handles| ensures handles[k] in m' && m'[handles[k]] == bundles[k] {
        if k > 0 {
          assert handles[k] == rest[k - 1] && bundles[k] == bundles[1..][k - 1];
        }
      }
    }
  }

  /** The created bundles are those of the create commands, in their order. */
  lemma {:induction false} BundlesAppend(a: seq<Command>, b: seq<Command>)
    ensures Bundles(a + b) == Bundles(a) + Bundles(b)
  {
    if a == [] {
      AppendNothing(b);
    } else {
      TailOfAppend(a, b);
      BundlesAppend(a[1..], b);
    }
  }

  lemma BundlesOfOne(c: Command)
    ensures Bundles([c]) == if c.CreateCommand? then [c.bundle] else []
  {
    assert [c][1..] == [];
  }

  /**
   * After a batch that took effect an entity is live exactly if it was and no
   * command destroys it, with the bundle it had, or if it was created, with
   * the bundle of its command.
   */
  lemma EffectExactly(st: SyncState, commands: seq<Command>, handles: seq<Entity>, st': SyncState)
    requires TookEffect(st, commands, handles, st')
    ensures var was, now := Contents(st.data), Contents(st'.data);
      && (forall e :: e in now <==> (e in was && !IsDestroyed(commands, e)) || e in handles)
      && (forall e :: e in now && e !in handles ==> e in was && now[e] == was[e])
      && (forall k :: 0 <= k < |handles| ==>
            handles[k] !in was && handles[k] in now && now[handles[k]] == Bundles(commands)[k])
  {
    var was, made := Contents(st.data), Inserted(map[], handles, Bundles(commands));
    InsertedExactly(map[], handles, Bundles(commands));
    forall e ensures e in Destroyed(commands) <==> IsDestroyed(commands, e) {
      DestroyedExactly(commands, e);
    }
  }
}
