// Entities, bundles and column tables as values.
module EcsTypes {
  import opened SchedulerTypes

  const HEALTH: Component := 2
  const BOT: Component := 4

  /** One more than the largest 32-bit index or generation. */
  const WORD32 := 0x1_0000_0000

  /** The number that the sixteen bytes of a profile id spell; zero is no profile. */
  type ProfileID = nat

  /** Handle of an entity. */
  datatype Entity = Entity(index: nat, generation: nat)

  /** Component values; only what validation and the profile index look at is told apart. */
  datatype Value = BotData(profile: ProfileID) | HealthData(max: real) | OtherData(content: int)

  /** The components of one entity; the mask is the set of components present. */
  type Bundle = map<Component, Value>

  /** Each component carries a value of its own type, so the type assertions on it succeed. */
  predicate WellTyped(b: Bundle) {
    && (HEALTH in b ==> b[HEALTH].HealthData?)
    && (BOT in b ==> b[BOT].BotData?)
  }

  predicate Validate(b: Bundle)
    requires WellTyped(b)
  {
    && b.Keys != {}
    && (HEALTH in b ==> b[HEALTH].max >= 0.0)
    && (BOT in b ==> b[BOT].profile != 0)
  }

  /** Bundles that tables hold. */
  predicate Sound(b: Bundle) {
    WellTyped(b) && Validate(b)
  }

  predicate IsBot(b: Bundle, p: ProfileID) {
    BOT in b && b[BOT].BotData? && b[BOT].profile == p
  }

  // ---------------------------------------------------------------- tables

  datatype TableData = TableData(mask: Mask, entities: seq<Entity>, columns: map<Component, seq<Value>>)

  /** One column for each component of the mask, all as long as the entity list. */
  ghost predicate Parallel(t: TableData) {
    t.columns.Keys == t.mask && forall c {:trigger t.columns[c]} :: c in t.mask ==> |t.columns[c]| == |t.entities|
  }

  ghost function EmptyTable(mask: Mask): (t: TableData)
    ensures Parallel(t) && t.mask == mask && t.entities == []
  {
    TableData(mask, [], map c | c in mask :: [])
  }

  ghost function BundleAt(t: TableData, row: nat): (b: Bundle)
    requires Parallel(t) && row < |t.entities|
    ensures b.Keys == t.mask
  {
    map c | c in t.mask :: t.columns[c][row]
  }

  ghost function AddRow(t: TableData, e: Entity, b: Bundle): (t': TableData)
    requires Parallel(t) && b.Keys == t.mask
    ensures Parallel(t')
  {
    TableData(t.mask, t.entities + [e], map c | c in t.mask :: t.columns[c] + [b[c]])
  }

  /** The last row moves into the hole. */
  function SwapRemoved<T>(s: seq<T>, row: nat): (r: seq<T>)
    requires row < |s|
    ensures |r| == |s| - 1
    ensures forall i :: 0 <= i < |r| ==> r[i] == if i == row then s[|s| - 1] else s[i]
  {
    s[row := s[|s| - 1]][..|s| - 1]
  }

  ghost function RemoveRow(t: TableData, row: nat): (t': TableData)
    requires Parallel(t) && row < |t.entities|
    ensures Parallel(t')
  {
    TableData(t.mask, SwapRemoved(t.entities, row), map c | c in t.mask :: SwapRemoved(t.columns[c], row))
  }

  lemma AddRowBundles(t: TableData, e: Entity, b: Bundle, row: nat)
    requires Parallel(t) && b.Keys == t.mask && row <= |t.entities|
    ensures BundleAt(AddRow(t, e, b), row) == if row == |t.entities| then b else BundleAt(t, row)
  {
    var t' := AddRow(t, e, b);
    forall c | c in t.mask ensures BundleAt(t', row)[c] == if row == |t.entities| then b[c] else BundleAt(t, row)[c] {
      assert |t.columns[c]| == |t.entities|;
    }
  }

  /** After a swap-remove the removed row is gone and the last one sits in its place. */
  lemma RemoveRowBundles(t: TableData, removed: nat, row: nat)
    requires Parallel(t) && removed < |t.entities| && row < |t.entities| - 1
    ensures BundleAt(RemoveRow(t, removed), row) == BundleAt(t, if row == removed then |t.entities| - 1 else row)
  {
    var from := if row == removed then |t.entities| - 1 else row;
    forall c | c in t.mask ensures BundleAt(RemoveRow(t, removed), row)[c] == BundleAt(t, from)[c] {
      assert |t.columns[c]| == |t.entities|;
    }
  }
}
