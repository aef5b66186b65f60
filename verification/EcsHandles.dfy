// Handles over whole runs of the world: which are issued twice, and which
// destroyed ones come back to life.
module EcsHandles {
  import opened Sequences
  import opened SchedulerTypes
  import opened EcsTypes
  import opened EcsWorld
  import opened EcsRefinement
  import opened EcsSync
  import opened Envelopes

  /** What happens to the world; SyncIsARun shows that a committed batch is a sequence of these. */
  datatype Op =
    | CreateOp(bundle: Bundle)
    | DestroyOp(entity: Entity)
    | MigrateOp(entity: Entity, source: Mask, destination: Bundle)
    | ReserveOp(mask: Mask)

  /** A world with every handle it ever issued and every handle it ever destroyed, in order. */
  datatype Ledger = Ledger(world: WorldData, issued: seq<Entity>, destroyed: seq<Entity>)

  const START := Ledger(EMPTY_WORLD, [], [])

  function Count(handles: seq<Entity>, i: nat): nat {
    if handles == [] then 0
    else Count(handles[..|handles| - 1], i) + if handles[|handles| - 1].index == i then 1 else 0
  }

  /** The k-th handle of an index, counting from zero, has generation 1 + k in 32 bits. */
  ghost predicate NumberedAt(handles: seq<Entity>, p: nat)
    requires p < |handles|
  {
    handles[p].generation == (1 + Count(handles[..p], handles[p].index)) % WORD32
  }

  ghost predicate Numbered(handles: seq<Entity>) {
    forall p {:trigger NumberedAt(handles, p)} :: 0 <= p < |handles| ==> NumberedAt(handles, p)
  }

  function LiveCount(w: WorldData, i: nat): nat {
    if i < |w.locations| && w.locations[i].alive then 1 else 0
  }

  /** Every index has been issued once more than it was destroyed if it is live, and as often if it is not. */
  ghost predicate Balanced(l: Ledger, i: nat) {
    && Count(l.issued, i) == Count(l.destroyed, i) + LiveCount(l.world, i)
    && (0 < i < |l.world.generations| ==> l.world.generations[i] == (1 + Count(l.destroyed, i)) % WORD32)
    && (i == 0 || i >= |l.world.generations| ==> Count(l.destroyed, i) == 0)
  }

  ghost predicate Good(l: Ledger) {
    && Inv(l.world) && Numbered(l.issued) && Numbered(l.destroyed)
    && forall i: nat {:trigger Balanced(l, i)} :: Balanced(l, i)
  }

  /** A create finds an index below 2^32, and a migrate takes no other entity's profile. */
  ghost predicate Allowed(w: WorldData, op: Op) {
    match op
    case CreateOp(b) => WellTyped(b) && HasRoom(w)
    case DestroyOp(_) => true
    case MigrateOp(e, _, b) => WellTyped(b) && ProfileFreeFor(w, e, b)
    case ReserveOp(_) => true
  }

  ghost function Play(l: Ledger, op: Op): Ledger
    requires Inv(l.world) && Allowed(l.world, op)
  {
    match op
    case CreateOp(b) =>
      (match Create(l.world, b)
       case Made(w', e) => l.(world := w', issued := l.issued + [e])
       case Refused(_) => l)
    case DestroyOp(e) =>
      (match Destroy(l.world, e)
       case Changed(w') => l.(world := w', destroyed := l.destroyed + [e])
       case Rejected(_) => l)
    case MigrateOp(e, source, b) =>
      (match Migrate(l.world, e, source, b)
       case Changed(w') => l.(world := w')
       case Rejected(_) => l)
    case ReserveOp(m) => l.(world := EnsureTable(l.world, m))
  }

  // ------------------------------------------------------------- counting

  lemma CountPush(handles: seq<Entity>, e: Entity, i: nat)
    ensures Count(handles + [e], i) == Count(handles, i) + if e.index == i then 1 else 0
  {
    assert (handles + [e])[..|handles|] == handles;
  }

  lemma NumberedPush(handles: seq<Entity>, e: Entity)
    requires Numbered(handles) && e.generation == (1 + Count(handles, e.index)) % WORD32
    ensures Numbered(handles + [e])
  {
    forall p | 0 <= p < |handles + [e]| ensures NumberedAt(handles + [e], p) {
      assert (handles + [e])[..p] == handles[..p];
      assert p < |handles| ==> NumberedAt(handles, p);
      assert p == |handles| ==> handles[..p] == handles;
    }
  }

  lemma {:induction false} CountMonotone(handles: seq<Entity>, p: nat, i: nat)
    requires p <= |handles|
    ensures Count(handles[..p], i) + (if p < |handles| && handles[p].index == i then 1 else 0) <= Count(handles, i)
  {
    if p == |handles| {
      assert handles[..p] == handles;
    } else {
      var init := handles[..|handles| - 1];
      if p < |init| {
        assert init[..p] == handles[..p];
      }
      CountMonotone(init, p, i);
      assert init[..p] == handles[..p];
    }
  }

  /** The k-th handle of an index. */
  lemma {:induction false} Nth(handles: seq<Entity>, i: nat, k: nat) returns (p: nat)
    requires k < Count(handles, i)
    ensures p < |handles| && handles[p].index == i && Count(handles[..p], i) == k
  {
    var last := |handles| - 1;
    if k < Count(handles[..last], i) {
      p := Nth(handles[..last], i, k);
      assert handles[..last][..p] == handles[..p];
    } else {
      p := last;
    }
  }

  lemma WrapsAfter(d: nat, k: nat)
    requires k < d && (1 + k) % WORD32 == (1 + d) % WORD32
    ensures d >= WORD32
  {
  }

  /**
   * A sequence of numbered handles of index i holds generation 1 + d exactly when d has wrapped, d being
   * how many there are.
   */
  lemma RepeatsWhenWrapped(handles: seq<Entity>, e: Entity)
    requires Numbered(handles) && e.generation == (1 + Count(handles, e.index)) % WORD32
    ensures e in handles <==> Count(handles, e.index) >= WORD32
  {
    if e in handles {
      RepeatedHasWrapped(handles, e);
    }
    if Count(handles, e.index) >= WORD32 {
      WrappedRepeats(handles, e);
    }
  }

  lemma RepeatedHasWrapped(handles: seq<Entity>, e: Entity)
    requires Numbered(handles) && e.generation == (1 + Count(handles, e.index)) % WORD32 && e in handles
    ensures Count(handles, e.index) >= WORD32
  {
    var p :| 0 <= p < |handles| && handles[p] == e;
    assert NumberedAt(handles, p);
    CountMonotone(handles, p, e.index);
    WrapsAfter(Count(handles, e.index), Count(handles[..p], e.index));
  }

  lemma WrappedRepeats(handles: seq<Entity>, e: Entity)
    requires Numbered(handles) && e.generation == (1 + Count(handles, e.index)) % WORD32
    requires Count(handles, e.index) >= WORD32
    ensures e in handles
  {
    var d := Count(handles, e.index);
    var p := Nth(handles, e.index, d - WORD32);
    assert NumberedAt(handles, p);
    OneRoundBack(d);
  }

  lemma OneRoundBack(d: nat)
    requires d >= WORD32
    ensures (1 + (d - WORD32)) % WORD32 == (1 + d) % WORD32
  {
  }

  // ------------------------------------------------------------- the steps

  /** What a create does to generations and to which indices are live. */
  lemma CreatedSlots(w: WorldData, b: Bundle)
    requires Inv(w) && WellTyped(b) && HasRoom(w) && Create(w, b).Made?
    ensures var Made(w', e) := Create(w, b);
      && 0 < e.index && e.generation < WORD32 && LiveCount(w, e.index) == 0
      && (if e.index < |w.generations| then e.generation == w.generations[e.index] else e == Entity(|w.generations|, 1))
      && w'.generations == (if e.index < |w.generations| then w.generations else w.generations + [1])
      && forall i: nat :: LiveCount(w', i) == if i == e.index then 1 else LiveCount(w, i)
  {
    AllocateKeeps(w);
    var (w1, e) := Allocate(w);
    forall i: nat ensures LiveCount(w1, i) == LiveCount(w, i) {
    }
  }

  lemma DestroyedSlots(w: WorldData, e: Entity)
    requires Inv(w) && Destroy(w, e).Changed?
    ensures var w' := Destroy(w, e).world;
      && 0 < e.index < |w.generations| && LiveCount(w, e.index) == 1 && e.generation == w.generations[e.index]
      && w'.generations == w.generations[e.index := (e.generation + 1) % WORD32]
      && forall i: nat :: LiveCount(w', i) == if i == e.index then 0 else LiveCount(w, i)
  {
    assert Used(w, 0, e.index) && LiveOk(w, e.index);
    DetachedSlots(w, e.index);
  }

  /** Removing a row moves another entity's location, and makes nothing live or dead. */
  lemma DetachedSlots(w: WorldData, i: nat)
    requires CanDetach(w, i)
    ensures HasRow(w, i)
    ensures |Detach(w, i).locations| == |w.locations| && Detach(w, i).generations == w.generations
    ensures forall j: nat :: LiveCount(Detach(w, i), j) == LiveCount(w, j)
  {
    assert LiveOk(w, i);
  }

  /** A row for a live index makes nothing live or dead. */
  lemma AttachedSlots(w: WorldData, e: Entity, b: Bundle)
    requires e.index < |w.locations| && LiveCount(w, e.index) == 1
    requires b.Keys in w.tables ==> Parallel(w.tables[b.Keys]) && w.tables[b.Keys].mask == b.Keys
    ensures Attach(w, e, b).generations == w.generations
    ensures forall i: nat :: LiveCount(Attach(w, e, b), i) == LiveCount(w, i)
  {
  }

  lemma MigratedSlots(w: WorldData, e: Entity, source: Mask, b: Bundle)
    requires Inv(w) && WellTyped(b) && Migrate(w, e, source, b).Changed?
    ensures var w' := Migrate(w, e, source, b).world;
      w'.generations == w.generations && forall i: nat :: LiveCount(w', i) == LiveCount(w, i)
  {
    assert Used(w, 0, e.index) && LiveOk(w, e.index);
    assert b.Keys in w.tables ==> TableOk(w, b.Keys);
    DetachedSlots(w, e.index);
    AttachedSlots(Detach(w, e.index), e, b);
  }

  lemma BalancedCreate(l: Ledger, l': Ledger, e: Entity, i: nat)
    requires Balanced(l, i) && 0 < e.index && LiveCount(l.world, e.index) == 0 && e.generation < WORD32
    requires |l.world.generations| > 0
    requires if e.index < |l.world.generations| then e.generation == l.world.generations[e.index]
      else e == Entity(|l.world.generations|, 1)
    requires l'.issued == l.issued + [e] && l'.destroyed == l.destroyed
    requires l'.world.generations == if e.index < |l.world.generations| then l.world.generations
      else l.world.generations + [1]
    requires LiveCount(l'.world, i) == if i == e.index then 1 else LiveCount(l.world, i)
    ensures Balanced(l', i)
  {
    CountPush(l.issued, e, i);
  }

  lemma GoodCreate(l: Ledger, b: Bundle)
    requires Good(l) && Allowed(l.world, CreateOp(b))
    ensures Good(Play(l, CreateOp(b)))
  {
    if Create(l.world, b).Made? {
      var l', e := Play(l, CreateOp(b)), Create(l.world, b).entity;
      CreateKeeps(l.world, b);
      CreatedSlots(l.world, b);
      assert Balanced(l, e.index);
      NumberedPush(l.issued, e);
      forall i: nat ensures Balanced(l', i) {
        assert Balanced(l, i);
        BalancedCreate(l, l', e, i);
      }
    }
  }

  lemma NextGeneration(d: nat, g: nat)
    requires g == (1 + d) % WORD32
    ensures (g + 1) % WORD32 == (1 + (d + 1)) % WORD32
  {
  }

  lemma BalancedDestroy(l: Ledger, l': Ledger, e: Entity, i: nat)
    requires Balanced(l, i) && 0 < e.index < |l.world.generations| && LiveCount(l.world, e.index) == 1
    requires e.generation == l.world.generations[e.index]
    requires l'.issued == l.issued && l'.destroyed == l.destroyed + [e]
    requires l'.world.generations == l.world.generations[e.index := (e.generation + 1) % WORD32]
    requires LiveCount(l'.world, i) == if i == e.index then 0 else LiveCount(l.world, i)
    ensures Balanced(l', i)
  {
    CountPush(l.destroyed, e, i);
    if i == e.index {
      NextGeneration(Count(l.destroyed, i), e.generation);
    }
  }

  lemma GoodDestroy(l: Ledger, e: Entity)
    requires Good(l)
    ensures Good(Play(l, DestroyOp(e)))
  {
    var w := l.world;
    if Destroy(w, e).Changed? {
      DestroyKeeps(w, e, e);
      DestroyedSlots(w, e);
      assert Balanced(l, e.index);
      NumberedPush(l.destroyed, e);
      var l' := Play(l, DestroyOp(e));
      forall i: nat ensures Balanced(l', i) {
        assert Balanced(l, i);
        BalancedDestroy(l, l', e, i);
      }
    }
  }

  /** Where nothing is issued, destroyed, made live or given a new generation, the counts balance as before. */
  lemma BalancedStill(l: Ledger, l': Ledger)
    requires forall i: nat {:trigger Balanced(l, i)} :: Balanced(l, i)
    requires l'.issued == l.issued && l'.destroyed == l.destroyed && l'.world.generations == l.world.generations
    requires forall i: nat :: LiveCount(l'.world, i) == LiveCount(l.world, i)
    ensures forall i: nat {:trigger Balanced(l', i)} :: Balanced(l', i)
  {
    forall i: nat ensures Balanced(l', i) {
      assert Balanced(l, i) && LiveCount(l'.world, i) == LiveCount(l.world, i);
    }
  }

  lemma GoodMigrate(l: Ledger, e: Entity, source: Mask, b: Bundle)
    requires Good(l) && Allowed(l.world, MigrateOp(e, source, b))
    ensures Good(Play(l, MigrateOp(e, source, b)))
  {
    if Migrate(l.world, e, source, b).Changed? {
      MigrateKeeps(l.world, e, source, b);
      MigratedSlots(l.world, e, source, b);
      BalancedStill(l, Play(l, MigrateOp(e, source, b)));
    }
  }

  lemma GoodReserve(l: Ledger, m: Mask)
    requires Good(l)
    ensures Good(Play(l, ReserveOp(m)))
  {
    EnsureTableKeeps(l.world, m);
    BalancedStill(l, Play(l, ReserveOp(m)));
  }

  lemma GoodPlay(l: Ledger, op: Op)
    requires Good(l) && Allowed(l.world, op)
    ensures Good(Play(l, op))
  {
    match op
    case CreateOp(b) => GoodCreate(l, b);
    case DestroyOp(e) => GoodDestroy(l, e);
    case MigrateOp(e, source, b) => GoodMigrate(l, e, source, b);
    case ReserveOp(m) => GoodReserve(l, m);
  }

  // --------------------------------------------------------------- the runs

  /** Every step of the run is allowed where it is taken. */
  ghost predicate Runs(l: Ledger, ops: seq<Op>)
    requires Good(l)
    decreases |ops|
  {
    if ops == [] then true
    else if Allowed(l.world, ops[0]) then GoodPlay(l, ops[0]); Runs(Play(l, ops[0]), ops[1..])
    else false
  }

  /** Where a run ends; on every run the invariant holds at the end. */
  ghost function End(l: Ledger, ops: seq<Op>): (l': Ledger)
    requires Good(l) && Runs(l, ops)
    ensures Good(l')
    decreases |ops|
  {
    if ops == [] then l
    else
      GoodPlay(l, ops[0]);
      End(Play(l, ops[0]), ops[1..])
  }

  lemma StartIsGood()
    ensures Good(START)
  {
    EmptyWorldIsSound();
    forall i: nat ensures Balanced(START, i) {
    }
  }

  ghost predicate FromStart(ops: seq<Op>) {
    StartIsGood();
    Runs(START, ops)
  }

  ghost function Final(ops: seq<Op>): (l: Ledger)
    requires FromStart(ops)
    ensures Good(l)
  {
    StartIsGood();
    End(START, ops)
  }

  /**
   * After any run, the handle a create returns was issued before exactly when its index has been
   * destroyed 2^32 times.
   */
  lemma FreshHandles(ops: seq<Op>, b: Bundle)
    requires FromStart(ops) && Allowed(Final(ops).world, CreateOp(b))
    requires Create(Final(ops).world, b).Made?
    ensures var l := Final(ops);
      var e := Create(l.world, b).entity;
      e in l.issued <==> Count(l.destroyed, e.index) >= WORD32
  {
    var l := Final(ops);
    CreatedSlots(l.world, b);
    var e := Create(l.world, b).entity;
    assert Balanced(l, e.index);
    RepeatsWhenWrapped(l.issued, e);
  }

  /**
   * After any run, a handle that resolves was destroyed before exactly when its index has been destroyed
   * 2^32 times.
   */
  lemma StaleHandles(ops: seq<Op>, e: Entity)
    requires FromStart(ops) && Resolves(Final(ops).world, e)
    ensures var l := Final(ops);
      e in l.issued && (e in l.destroyed <==> Count(l.destroyed, e.index) >= WORD32)
  {
    var l := Final(ops);
    assert Used(l.world, 0, e.index) && LiveOk(l.world, e.index) && Balanced(l, e.index);
    RepeatsWhenWrapped(l.destroyed, e);
    var p := Nth(l.issued, e.index, Count(l.destroyed, e.index));
    assert NumberedAt(l.issued, p);
    assert l.issued[p] == e;
  }

  /** After any run, the free indices are distinct, not zero, and exactly those in use by no live entity. */
  lemma FreeIndices(ops: seq<Op>, i: nat)
    requires FromStart(ops)
    ensures var w := Final(ops).world;
      && (i in w.free <==> 0 < i < |w.generations| && !Resolves(w, Entity(i, w.generations[i])))
      && (forall k, m :: 0 <= k < m < |w.free| ==> w.free[k] != w.free[m])
  {
    var w := Final(ops).world;
    if Used(w, 0, i) {
      assert LiveOk(w, i);
    }
  }

  /** A handle that was issued twice has an index that was destroyed 2^32 times. */
  lemma IssuedTwice(l: Ledger, p: nat, q: nat)
    requires Good(l) && p < q < |l.issued| && l.issued[p] == l.issued[q]
    ensures Count(l.destroyed, l.issued[p].index) >= WORD32
  {
    var i := l.issued[p].index;
    assert NumberedAt(l.issued, p) && NumberedAt(l.issued, q) && Balanced(l, i);
    CountMonotone(l.issued, q, i);
    CountMonotone(l.issued[..q], p, i);
    assert l.issued[..q][..p] == l.issued[..p];
    WrapsAfter(Count(l.issued[..q], i), Count(l.issued[..p], i));
  }

  // ------------------------------------------------------ runs of batches

  /** A batch is a reservation for every create, and then the commands themselves. */
  function Reserves(commands: seq<Command>): seq<Op> {
    if commands == [] then []
    else (if commands[0].CreateCommand? then [ReserveOp(commands[0].bundle.Keys)] else []) + Reserves(commands[1..])
  }

  function Applies(commands: seq<Command>): seq<Op> {
    if commands == [] then []
    else [OpOf(commands[0])] + Applies(commands[1..])
  }

  function OpOf(c: Command): Op {
    match c
    case CreateCommand(b) => CreateOp(b)
    case DestroyCommand(e, _) => DestroyOp(e)
  }

  lemma PlayedIsApplied(l: Ledger, c: Command)
    requires Good(l) && Room(l.world, 1) && WellTypedCommand(c) && ApplyCommand(l.world, c).Some?
    ensures Allowed(l.world, OpOf(c)) && Play(l, OpOf(c)).world == ApplyCommand(l.world, c).value
  {
  }

  lemma {:induction false} RunsAppend(l: Ledger, a: seq<Op>, b: seq<Op>)
    requires Good(l) && Runs(l, a) && Runs(End(l, a), b)
    ensures Runs(l, a + b) && End(l, a + b) == End(End(l, a), b)
    decreases |a|
  {
    if a == [] {
      AppendNothing(b);
    } else {
      TailOfAppend(a, b);
      GoodPlay(l, a[0]);
      RunsAppend(Play(l, a[0]), a[1..], b);
    }
  }

  lemma {:induction false} ReservesRun(l: Ledger, commands: seq<Command>)
    requires Good(l)
    ensures Runs(l, Reserves(commands)) && End(l, Reserves(commands)).world == Reserve(l.world, commands)
    decreases |commands|
  {
    if commands != [] {
      var rest := Reserves(commands[1..]);
      if commands[0].CreateCommand? {
        var op := ReserveOp(commands[0].bundle.Keys);
        GoodPlay(l, op);
        ReservesRun(Play(l, op), commands[1..]);
        assert ([op] + rest)[1..] == rest;
      } else {
        ReservesRun(l, commands[1..]);
        assert [] + rest == rest;
      }
    }
  }

  lemma {:induction false} AppliesRun(l: Ledger, commands: seq<Command>)
    requires Good(l) && Room(l.world, |commands|) && forall c :: c in commands ==> WellTypedCommand(c)
    requires Commit(l.world, commands).Some?
    ensures Runs(l, Applies(commands)) && End(l, Applies(commands)).world == Commit(l.world, commands).value
    decreases |commands|
  {
    if commands != [] {
      var op, rest := OpOf(commands[0]), Applies(commands[1..]);
      assert WellTypedCommand(commands[0]) && HasRoom(l.world);
      GoodPlay(l, op);
      PlayedIsApplied(l, commands[0]);
      AppliesRun(Play(l, op), commands[1..]);
      assert ([op] + rest)[1..] == rest;
    }
  }

  /** The operations a sync carries out: none when the batch does not validate. */
  ghost function SyncOps(st: SyncState): seq<Op>
    requires Ready(st)
  {
    var commands := Payloads(SortEnvelopes(st.queue));
    if SyncRun(st).Synced? then Reserves(commands) + Applies(commands) else []
  }

  ghost function After(st: SyncState): SyncState
    requires Ready(st)
  {
    var r := SyncRun(st);
    if r.CommitFailed? then st else r.state
  }

  /** A sync is a run of reservations, creates and destroys, whether it commits or not. */
  lemma SyncIsARun(l: Ledger, st: SyncState)
    requires Good(l) && l.world == st.data && Ready(st)
    ensures !SyncRun(st).CommitFailed?
    ensures Runs(l, SyncOps(st)) && End(l, SyncOps(st)).world == After(st).data
  {
    var _ := SyncIsAllOrNothing(st);
    SortedReady(st);
    var commands := Payloads(SortEnvelopes(st.queue));
    if SyncRun(st).Synced? {
      if st.queue != [] {
        ReserveKeeps(st.data, commands);
        ReservesRun(l, commands);
        AppliesRun(End(l, Reserves(commands)), commands);
        RunsAppend(l, Reserves(commands), Applies(commands));
      } else {
        assert commands == [];
      }
    }
  }

  /** Frame after frame: what is staged in each comes on top of what a failed sync left queued. */
  ghost predicate Frames(l: Ledger, queue: seq<Envelope<Command>>, frames: seq<seq<Envelope<Command>>>)
    requires Good(l)
    decreases |frames|
  {
    frames == [] ||
    var st := SyncState(l.world, queue + frames[0], {});
    Ready(st) && (SyncIsARun(l, st); Frames(End(l, SyncOps(st)), After(st).queue, frames[1..]))
  }

  ghost function FramesEnd(l: Ledger, queue: seq<Envelope<Command>>, frames: seq<seq<Envelope<Command>>>): (l': Ledger)
    requires Good(l) && Frames(l, queue, frames)
    ensures Good(l')
    decreases |frames|
  {
    if frames == [] then l
    else
      var st := SyncState(l.world, queue + frames[0], {});
      SyncIsARun(l, st);
      FramesEnd(End(l, SyncOps(st)), After(st).queue, frames[1..])
  }

  /** Whatever batches an engine syncs, the world is where some run of single operations ends. */
  lemma {:induction false} FramesAreRuns(l: Ledger, queue: seq<Envelope<Command>>, frames: seq<seq<Envelope<Command>>>)
    returns (ops: seq<Op>)
    requires Good(l) && Frames(l, queue, frames)
    ensures Runs(l, ops) && End(l, ops) == FramesEnd(l, queue, frames)
    decreases |frames|
  {
    if frames == [] {
      ops := [];
    } else {
      var st := SyncState(l.world, queue + frames[0], {});
      SyncIsARun(l, st);
      ops := FramesAreRuns(End(l, SyncOps(st)), After(st).queue, frames[1..]);
      RunsAppend(l, SyncOps(st), ops);
      ops := SyncOps(st) + ops;
    }
  }

  ghost predicate FramesFromStart(frames: seq<seq<Envelope<Command>>>) {
    StartIsGood();
    Frames(START, [], frames)
  }

  ghost function FinalFrame(frames: seq<seq<Envelope<Command>>>): (l: Ledger)
    requires FramesFromStart(frames)
    ensures Good(l)
  {
    StartIsGood();
    FramesEnd(START, [], frames)
  }

  /**
   * After any batches: no handle was issued twice and no destroyed handle
   * resolves, unless its index has been destroyed 2^32 times.
   */
  lemma BatchesKeepHandlesSafe(frames: seq<seq<Envelope<Command>>>, p: nat, q: nat, e: Entity)
    requires FramesFromStart(frames)
    ensures var l := FinalFrame(frames);
      && (p < q < |l.issued| && l.issued[p] == l.issued[q] ==> Count(l.destroyed, l.issued[p].index) >= WORD32)
      && (Resolves(l.world, e) ==> e in l.issued && (e in l.destroyed <==> Count(l.destroyed, e.index) >= WORD32))
  {
    StartIsGood();
    var ops := FramesAreRuns(START, [], frames);
    var l := Final(ops);
    if p < q < |l.issued| && l.issued[p] == l.issued[q] {
      IssuedTwice(l, p, q);
    }
    if Resolves(l.world, e) {
      StaleHandles(ops, e);
    }
  }

  /** The index of the entity destroyed last is the next one to be handed out, in its next generation. */
  lemma LastFreedIsNext(w: WorldData, e: Entity, b: Bundle)
    requires Inv(w) && e in Contents(w) && WellTyped(b)
    ensures Destroy(w, e).Changed? && Inv(Destroy(w, e).world)
    ensures Create(Destroy(w, e).world, b).Made? ==>
      Create(Destroy(w, e).world, b).entity == Entity(e.index, (e.generation + 1) % 0x1_0000_0000)
  {
    DestroyRemoves(w, e);
    assert Used(w, 0, e.index) && LiveOk(w, e.index) by {
      var _ := Lookup(w, e);
    }
  }

  /** Without free indices the next handle is the first generation of the next index. */
  lemma NewIndexIsNext(w: WorldData, b: Bundle)
    requires Inv(w) && HasRoom(w) && WellTyped(b) && w.free == [] && Create(w, b).Made?
    ensures Create(w, b).entity == Entity(|w.generations|, 1)
  {
    CreatedSlots(w, b);
  }
}
