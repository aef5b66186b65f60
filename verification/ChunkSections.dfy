// The three forms of a section's block states.
module ChunkSections {
  import opened Options
  import opened ChunkWords
  import opened ChunkPacked

  const MIN_INDIRECT_BITS: Width := 4
  const MAX_INDIRECT_BITS: Width := 8
  const MAX_DIRECT_BITS: Width := 15

  /** Ids that survive the direct form, which masks to fifteen bits. */
  const DIRECT_LIMIT := 0x8000

  type StateID = v: nat | v < 0x1_0000_0000

  datatype States =
    | Single(value: StateID)
    | Indirect(palette: seq<StateID>, packed: Packed)
    | Direct(packed: Packed)

  /** Packed indices stay inside the palette; the constructors check everything else. */
  ghost predicate WellFormed(s: States) {
    match s
    case Single(_) => true
    case Indirect(palette, packed) =>
      && Full(packed) && packed.bits <= MAX_INDIRECT_BITS && 1 <= |palette| <= Pow2(packed.bits)
      && forall i :: 0 <= i < SECTION_BLOCKS ==> Get(packed, i) < |palette|
    case Direct(packed) => Full(packed) && MAX_INDIRECT_BITS < packed.bits <= MAX_DIRECT_BITS
  }

  lemma Fifteen()
    ensures Pow2(15) == DIRECT_LIMIT && Pow2(8) == 256 && Pow2(4) == 16
  {
    assert Pow2(5) == 32;
    assert Pow2(10) == 1024;
  }

  lemma {:induction false} Pow2Monotone(a: nat, b: nat)
    requires a <= b
    ensures Pow2(a) <= Pow2(b)
  {
    if a < b {
      Pow2Monotone(a, b - 1);
    }
  }

  lemma DirectBounded(packed: Packed, index: nat)
    requires WellFormed(Direct(packed)) && index < SECTION_BLOCKS
    ensures Get(packed, index) < Pow2(packed.bits) <= DIRECT_LIMIT
  {
    GetBounded(packed, index);
    Pow2Monotone(packed.bits, 15);
    Fifteen();
  }

  /** The state a cell decodes to. */
  ghost function Decoded(s: States, index: nat): StateID
    requires WellFormed(s) && index < SECTION_BLOCKS
  {
    match s
    case Single(v) => v
    case Indirect(palette, packed) => palette[Get(packed, index)]
    case Direct(packed) => DirectBounded(packed, index); Get(packed, index)
  }

  ghost predicate Decodes(s: States, cells: seq<StateID>, index: nat)
    requires WellFormed(s) && |cells| == SECTION_BLOCKS && index < SECTION_BLOCKS
  {
    cells[index] == Decoded(s, index)
  }

  ghost predicate AllDecode(s: States, cells: seq<StateID>)
    requires WellFormed(s)
  {
    |cells| == SECTION_BLOCKS && forall i {:trigger Decodes(s, cells, i)} :: 0 <= i < SECTION_BLOCKS ==>
        Decodes(s, cells, i)
  }

  lemma CellsExist(s: States)
    requires WellFormed(s)
    ensures exists cells :: AllDecode(s, cells)
  {
    var cells := seq(SECTION_BLOCKS, i requires 0 <= i < SECTION_BLOCKS => Decoded(s, i));
    assert AllDecode(s, cells);
  }

  /** What the section holds: the one sequence of states that its cells decode to. */
  ghost function Cells(s: States): (cells: seq<StateID>)
    requires WellFormed(s)
    ensures |cells| == SECTION_BLOCKS
  {
    CellsExist(s);
    var cells: seq<StateID> :| AllDecode(s, cells);
    cells
  }

  ghost function StateAt(s: States, index: nat): StateID
    requires WellFormed(s) && index < SECTION_BLOCKS
  {
    Cells(s)[index]
  }

  lemma StateIsDecoded(s: States, index: nat)
    requires WellFormed(s) && index < SECTION_BLOCKS
    ensures StateAt(s, index) == Decoded(s, index)
  {
    assert Decodes(s, Cells(s), index);
  }

  /** A single state fills the section; a packed number is a place in the palette, or the state itself. */
  lemma StateMeans(s: States, index: nat)
    requires WellFormed(s) && index < SECTION_BLOCKS
    ensures s.Single? ==> StateAt(s, index) == s.value
    ensures s.Indirect? ==> Get(s.packed, index) < |s.palette| && StateAt(s, index) == s.palette[Get(s.packed, index)]
    ensures s.Direct? ==> StateAt(s, index) == Get(s.packed, index)
  {
    StateIsDecoded(s, index);
  }

  function Indices(packed: Packed): (indices: seq<nat>)
    requires Full(packed)
    ensures |indices| == SECTION_BLOCKS && forall i :: 0 <= i < SECTION_BLOCKS ==> indices[i] == Get(packed, i)
  {
    seq(SECTION_BLOCKS, i requires 0 <= i < SECTION_BLOCKS => Get(packed, i))
  }

  /** Position of the first occurrence; the length when there is none. */
  function Find(palette: seq<StateID>, value: StateID): (k: nat)
    ensures k <= |palette| && (k < |palette| <==> value in palette)
    ensures k < |palette| ==> palette[k] == value
  {
    if palette == [] then 0 else if palette[0] == value then 0 else 1 + Find(palette[1..], value)
  }

  ghost function ToDirect(s: States): States
    requires WellFormed(s)
  {
    Direct(Repacked(Cells(s), MAX_DIRECT_BITS, SECTION_BLOCKS))
  }

  function SetDirect(packed: Packed, index: nat, value: StateID): Option<States>
    requires Full(packed) && index < SECTION_BLOCKS
  {
    if value > Mask(packed.bits) then None else Some(Direct(Put(packed, index, value)))
  }

  ghost function SetState(s: States, index: nat, value: StateID): Option<States>
    requires WellFormed(s) && index < SECTION_BLOCKS
  {
    match s
    case Single(v) =>
      if value == v then Some(s) else Some(Indirect([v, value], Put(Zeros(MIN_INDIRECT_BITS), index, 1)))
    case Indirect(palette, packed) =>
      var k := Find(palette, value);
      if k < |palette| then Some(Indirect(palette, Put(packed, index, k)))
      else if k < Pow2(packed.bits) then Some(Indirect(palette + [value], Put(packed, index, k)))
      else if packed.bits < MAX_INDIRECT_BITS then
        Some(Indirect(palette + [value], Put(Repacked(Indices(packed), packed.bits + 1, SECTION_BLOCKS), index, k)))
      else SetDirect(ToDirect(s).packed, index, value)
    case Direct(packed) => SetDirect(packed, index, value)
  }

  /**
   * The form after a set that succeeds: a single state that changes becomes a
   * palette of two in four bits; a palette grows by a new state, a bit wider
   * if it was full, and past eight bits the section turns direct with fifteen.
   */
  lemma FormAfterSet(s: States, index: nat, value: StateID)
    requires WellFormed(s) && index < SECTION_BLOCKS && SetState(s, index, value).Some?
    ensures var s' := SetState(s, index, value).value;
      && (s.Single? && s.value == value ==> s' == s)
      && (s.Single? && s.value != value ==> s'.Indirect? && s'.palette == [s.value, value] && s'.packed.bits == 4)
      && (s.Indirect? && value in s.palette ==>
            s'.Indirect? && s'.palette == s.palette && s'.packed.bits == s.packed.bits)
      && (s.Indirect? && value !in s.palette && |s.palette| < Pow2(s.packed.bits) ==>
            s'.Indirect? && s'.palette == s.palette + [value] && s'.packed.bits == s.packed.bits)
      && (s.Indirect? && value !in s.palette && |s.palette| == Pow2(s.packed.bits) && s.packed.bits < 8 ==>
            s'.Indirect? && s'.palette == s.palette + [value] && s'.packed.bits == s.packed.bits + 1)
      && (s.Indirect? && value !in s.palette && |s.palette| == Pow2(s.packed.bits) && s.packed.bits == 8 ==>
            s'.Direct? && s'.packed.bits == 15)
      && (s.Direct? ==> s'.Direct? && s'.packed.bits == s.packed.bits)
  {
  }

  // -------------------------------------------------------------- refinement

  /** Setting this value turns the section into its direct form. */
  ghost predicate TurnsDirect(s: States, value: StateID) {
    s.Indirect? && value !in s.palette && |s.palette| >= Pow2(s.packed.bits) && s.packed.bits == MAX_INDIRECT_BITS
  }

  ghost predicate OnlyChanged(s: States, index: nat, value: StateID, s': States)
    requires WellFormed(s) && WellFormed(s') && index < SECTION_BLOCKS
  {
    forall j :: 0 <= j < SECTION_BLOCKS ==> StateAt(s', j) == if j == index then value else StateAt(s, j)
  }

  lemma SetSingle(s: States, index: nat, value: StateID)
    requires s.Single? && index < SECTION_BLOCKS
    ensures var r := SetState(s, index, value); r.Some? && WellFormed(r.value) && OnlyChanged(s, index, value, r.value)
  {
    Fifteen();
    var packed := Put(Zeros(MIN_INDIRECT_BITS), index, 1);
    forall j | 0 <= j < SECTION_BLOCKS ensures Get(packed, j) == if j == index then 1 else 0 {
      PutGet(Zeros(MIN_INDIRECT_BITS), index, 1, j);
      ZerosGet(MIN_INDIRECT_BITS, j);
    }
    var s' := SetState(s, index, value).value;
    forall j | 0 <= j < SECTION_BLOCKS ensures StateAt(s', j) == if j == index then value else StateAt(s, j) {
      StateIsDecoded(s, j);
      StateIsDecoded(s', j);
    }
  }

  /** Writing palette entry k into a cell, over indices that read as before. */
  lemma SetPalette(s: States, palette: seq<StateID>, packed: Packed, index: nat, k: nat)
    requires WellFormed(s) && s.Indirect? && index < SECTION_BLOCKS
    requires s.palette <= palette && k < |palette| <= Pow2(packed.bits) && packed.bits <= MAX_INDIRECT_BITS
      && Full(packed)
    requires forall j :: 0 <= j < SECTION_BLOCKS ==> Get(packed, j) == Get(s.packed, j)
    ensures var s' := Indirect(palette, Put(packed, index, k)); WellFormed(s') && OnlyChanged(s, index, palette[k], s')
  {
    forall j | 0 <= j < SECTION_BLOCKS
        ensures Get(Put(packed, index, k), j) == if j == index then k else Get(s.packed, j) {
      PutGet(packed, index, k, j);
      SmallMod(k, Pow2(packed.bits));
    }
    var s' := Indirect(palette, Put(packed, index, k));
    forall j | 0 <= j < SECTION_BLOCKS ensures StateAt(s', j) == if j == index then palette[k] else StateAt(s, j) {
      StateIsDecoded(s, j);
      StateIsDecoded(s', j);
    }
  }

  lemma SmallMod(k: nat, p: nat)
    requires k < p
    ensures k % p == k
  {
  }

  /** A wider packing reads the same. */
  lemma Widened(packed: Packed, bits: Width, j: nat)
    requires Full(packed) && packed.bits <= bits && j < SECTION_BLOCKS
    ensures Get(Repacked(Indices(packed), bits, SECTION_BLOCKS), j) == Get(packed, j)
  {
    RepackedGet(Indices(packed), bits, SECTION_BLOCKS, j);
    GetBounded(packed, j);
    Pow2Monotone(packed.bits, bits);
    SmallMod(Get(packed, j), Pow2(bits));
  }

  lemma SetIndirect(s: States, index: nat, value: StateID)
    requires WellFormed(s) && s.Indirect? && index < SECTION_BLOCKS && !TurnsDirect(s, value)
    ensures var r := SetState(s, index, value); r.Some? && WellFormed(r.value) && OnlyChanged(s, index, value, r.value)
  {
    var k := Find(s.palette, value);
    if k < |s.palette| {
      SetPalette(s, s.palette, s.packed, index, k);
    } else if k < Pow2(s.packed.bits) {
      SetPalette(s, s.palette + [value], s.packed, index, k);
    } else {
      var wide := Repacked(Indices(s.packed), s.packed.bits + 1, SECTION_BLOCKS);
      forall j | 0 <= j < SECTION_BLOCKS ensures Get(wide, j) == Get(s.packed, j) {
        Widened(s.packed, s.packed.bits + 1, j);
      }
      SetPalette(s, s.palette + [value], wide, index, k);
    }
  }

  lemma SetDirectCell(packed: Packed, index: nat, value: StateID)
    requires WellFormed(Direct(packed)) && index < SECTION_BLOCKS
    ensures SetDirect(packed, index, value).Some? <==> value < Pow2(packed.bits)
    ensures var r := SetDirect(packed, index, value);
      r.Some? ==> WellFormed(r.value) && OnlyChanged(Direct(packed), index, value, r.value)
  {
    if value < Pow2(packed.bits) {
      forall j | 0 <= j < SECTION_BLOCKS
          ensures Get(Put(packed, index, value), j) == if j == index then value else Get(packed, j) {
        PutGet(packed, index, value, j);
        SmallMod(value, Pow2(packed.bits));
      }
      var s' := Direct(Put(packed, index, value));
      forall j | 0 <= j < SECTION_BLOCKS
          ensures StateAt(s', j) == if j == index then value else StateAt(Direct(packed), j) {
        StateIsDecoded(Direct(packed), j);
        StateIsDecoded(s', j);
      }
    }
  }

  /** Turning direct masks every cell to fifteen bits. */
  lemma ToDirectCell(s: States, j: nat)
    requires WellFormed(s) && j < SECTION_BLOCKS
    ensures WellFormed(ToDirect(s)) && StateAt(ToDirect(s), j) == StateAt(s, j) % DIRECT_LIMIT
  {
    Fifteen();
    RepackedGet(Cells(s), MAX_DIRECT_BITS, SECTION_BLOCKS, j);
    StateIsDecoded(ToDirect(s), j);
  }

  ghost predicate OthersSmall(s: States, index: nat)
    requires WellFormed(s)
  {
    forall j :: 0 <= j < SECTION_BLOCKS && j != index ==> StateAt(s, j) < DIRECT_LIMIT
  }

  lemma TurnedCell(s: States, index: nat, value: StateID, j: nat)
    requires WellFormed(s) && index < SECTION_BLOCKS && j < SECTION_BLOCKS && TurnsDirect(s, value)
    ensures var r := SetState(s, index, value);
      && (r.Some? <==> value < DIRECT_LIMIT)
      && (r.Some? ==>
          (WellFormed(r.value) && StateAt(r.value, j) == if j == index then value else StateAt(s, j) % DIRECT_LIMIT))
  {
    Fifteen();
    ToDirectCell(s, j);
    SetDirectCell(ToDirect(s).packed, index, value);
    var r := SetState(s, index, value);
    if r.Some? {
      assert OnlyChanged(ToDirect(s), index, value, r.value);
    }
  }

  lemma SetTurningDirect(s: States, index: nat, value: StateID)
    requires WellFormed(s) && index < SECTION_BLOCKS && TurnsDirect(s, value)
    ensures var r := SetState(s, index, value);
      && (r.Some? <==> value < DIRECT_LIMIT)
      && (r.Some? ==> (WellFormed(r.value) && StateAt(r.value, index) == value
            && (OnlyChanged(s, index, value, r.value) <==> OthersSmall(s, index))))
  {
    var r := SetState(s, index, value);
    TurnedCell(s, index, value, index);
    if r.Some? {
      forall j | 0 <= j < SECTION_BLOCKS
          ensures StateAt(r.value, j) == if j == index then value else StateAt(s, j) % DIRECT_LIMIT {
        TurnedCell(s, index, value, j);
      }
      MaskedUnlessSmall(s, index, value, r.value);
    }
  }

  lemma MaskedUnlessSmall(s: States, index: nat, value: StateID, s': States)
    requires WellFormed(s) && WellFormed(s') && index < SECTION_BLOCKS
    requires forall j :: 0 <= j < SECTION_BLOCKS ==>
      StateAt(s', j) == if j == index then value else StateAt(s, j) % DIRECT_LIMIT
    ensures OnlyChanged(s, index, value, s') <==> OthersSmall(s, index)
  {
    if !OthersSmall(s, index) {
      var j :| 0 <= j < SECTION_BLOCKS && j != index && StateAt(s, j) >= DIRECT_LIMIT;
      assert StateAt(s', j) < DIRECT_LIMIT;
    }
  }

  /** Every cell holds the first entry of a full palette. */
  function FullOf(palette: seq<StateID>): States {
    Indirect(palette, Zeros(MAX_INDIRECT_BITS))
  }

  lemma FullOfFirst(palette: seq<StateID>, j: nat)
    requires |palette| == 256 && j < SECTION_BLOCKS
    ensures WellFormed(FullOf(palette)) && StateAt(FullOf(palette), j) == palette[0]
  {
    Fifteen();
    forall i | 0 <= i < SECTION_BLOCKS ensures Get(FullOf(palette).packed, i) == 0 {
      ZerosGet(MAX_INDIRECT_BITS, i);
    }
    StateIsDecoded(FullOf(palette), j);
  }

  function LargeIds(n: nat): (ids: seq<StateID>)
    requires n <= 256
    ensures |ids| == n && forall i :: 0 <= i < n ==> ids[i] == DIRECT_LIMIT + i
  {
    if n == 0 then [] else LargeIds(n - 1) + [DIRECT_LIMIT + n - 1]
  }

  /** A full palette of large ids: setting one cell to a new id turns the section direct and zeroes the others. */
  lemma TurningDirectMasksLargeIds()
    ensures var s := FullOf(LargeIds(256));
      && WellFormed(s) && SetState(s, 0, 7).Some? && WellFormed(SetState(s, 0, 7).value)
      && StateAt(s, 1) == DIRECT_LIMIT && StateAt(SetState(s, 0, 7).value, 1) == 0
  {
    var s := FullOf(LargeIds(256));
    Fifteen();
    FullOfFirst(LargeIds(256), 1);
    assert 7 !in s.palette;
    TurnedCell(s, 0, 7, 1);
  }

  /** A section whose direct form is too narrow for the value, now or after turning direct. */
  ghost predicate TooWide(s: States, value: StateID) {
    (s.Direct? && value >= Pow2(s.packed.bits)) || (TurnsDirect(s, value) && value >= DIRECT_LIMIT)
  }

  /**
   * A set is refused exactly when the direct form cannot hold the value; an accepted one writes its own cell,
   * and leaves every other cell alone exactly when none of them is masked by a turn to the direct form.
   */
  lemma SetRefines(s: States, index: nat, value: StateID)
    requires WellFormed(s) && index < SECTION_BLOCKS
    ensures var r := SetState(s, index, value);
      && (r.None? <==> TooWide(s, value))
      && (r.Some? ==> (WellFormed(r.value) && StateAt(r.value, index) == value
            && (OnlyChanged(s, index, value, r.value) <==> !TurnsDirect(s, value) || OthersSmall(s, index))))
  {
    match s
    case Single(_) => SetSingle(s, index, value);
    case Indirect(_, _) =>
      if TurnsDirect(s, value) {
        SetTurningDirect(s, index, value);
      } else {
        SetIndirect(s, index, value);
      }
    case Direct(packed) => SetDirectCell(packed, index, value);
  }
}
