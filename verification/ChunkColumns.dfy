// Columns of sections: 32-bit addressing and the count of non-air blocks.
module ChunkColumns {
  import opened Options
  import opened ChunkPacked
  import opened ChunkSections

  const CHUNK_WIDTH := 16
  const COUNT16 := 0x1_0000
  const COUNT64 := 0x1_0000_0000_0000_0000

  type Int32 = v: int | -0x8000_0000 <= v < 0x8000_0000

  /** Two's complement result of 32-bit arithmetic. */
  function Wrap32(v: int): Int32 {
    (v + 0x8000_0000) % 0x1_0000_0000 - 0x8000_0000
  }

  datatype Section = Section(nonAir: nat, states: States)

  datatype ColumnData = ColumnData(minY: Int32, height: Int32, sections: seq<Section>, version: nat)

  ghost predicate ColumnOk(c: ColumnData) {
    && c.minY % CHUNK_WIDTH == 0 && c.height > 0 && c.height % CHUNK_WIDTH == 0
    && |c.sections| == c.height / CHUNK_WIDTH
    && forall k :: 0 <= k < |c.sections| ==> WellFormed(c.sections[k].states)
  }

  // --------------------------------------------------------------- counting

  function NonZero(cells: seq<StateID>): (count: nat)
    ensures count <= |cells|
  {
    if cells == [] then 0
    else NonZero(cells[..|cells| - 1]) + if cells[|cells| - 1] != 0 then 1 else 0
  }

  ghost function SolidBlocks(s: States): (count: nat)
    requires WellFormed(s)
    ensures count <= SECTION_BLOCKS
  {
    NonZero(Cells(s))
  }

  /** The count after a cell went from one state to another. */
  function NextCount(nonAir: nat, was: StateID, value: StateID): nat {
    if was == 0 && value != 0 then (nonAir + 1) % COUNT16
    else if was != 0 && value == 0 then (nonAir + COUNT16 - 1) % COUNT16
    else nonAir
  }

  function SetSection(section: Section, was: StateID, value: StateID, states: States): Section {
    Section(NextCount(section.nonAir, was, value), states)
  }

  function Bit(v: StateID): nat {
    if v != 0 then 1 else 0
  }

  lemma {:induction false} NonZeroUpdate(cells: seq<StateID>, index: nat, value: StateID)
    requires index < |cells|
    ensures NonZero(cells[index := value]) == NonZero(cells) + Bit(value) - Bit(cells[index])
  {
    var last := |cells| - 1;
    if index < last {
      NonZeroUpdate(cells[..last], index, value);
      assert cells[index := value][..last] == cells[..last][index := value];
    } else {
      assert cells[index := value][..last] == cells[..last];
    }
  }

  /** In sixteen bits the count moves with what the cell becomes and was. */
  lemma CountMoves(nonAir: nat, was: StateID, value: StateID)
    requires nonAir < 0x1_0000
    ensures NextCount(nonAir, was, value) ==
      (nonAir + (if value != 0 then 1 else 0) - (if was != 0 then 1 else 0)) % 0x1_0000
  {
  }

  /** An exact non-air count stays exact. */
  lemma NonAirStaysExact(section: Section, index: nat, value: StateID, s': States)
    requires WellFormed(section.states) && WellFormed(s') && index < SECTION_BLOCKS
    requires OnlyChanged(section.states, index, value, s')
    requires section.nonAir == SolidBlocks(section.states)
    ensures SetSection(section, StateAt(section.states, index), value, s').nonAir == SolidBlocks(s')
  {
    CellsAfter(section.states, index, value, s');
    var cells := Cells(section.states);
    NonZeroUpdate(cells, index, value);
    CountAdjusted(section, cells[index], value, s', NonZero(cells[index := value]));
  }

  lemma CellsAfter(s: States, index: nat, value: StateID, s': States)
    requires WellFormed(s) && WellFormed(s') && index < SECTION_BLOCKS && OnlyChanged(s, index, value, s')
    ensures Cells(s') == Cells(s)[index := value]
  {
    forall j | 0 <= j < SECTION_BLOCKS ensures Cells(s')[j] == Cells(s)[index := value][j] {
      assert StateAt(s', j) == if j == index then value else StateAt(s, j);
    }
  }

  lemma CountAdjusted(section: Section, was: StateID, value: StateID, s': States, n: nat)
    requires n == section.nonAir + Bit(value) - Bit(was) && n <= SECTION_BLOCKS && section.nonAir <= SECTION_BLOCKS
    ensures SetSection(section, was, value, s').nonAir == n
  {
  }

  // ------------------------------------------------------------- addressing

  /** Section and cell of a column-local position; none outside the column. */
  function Cell(c: ColumnData, x: Int32, y: Int32, z: Int32): (r: Option<(nat, nat)>)
    ensures r.Some? ==> r.value.0 < |c.sections| && r.value.1 < SECTION_BLOCKS
  {
    var section := Wrap32(y - c.minY) / CHUNK_WIDTH;
    if x < 0 || x >= CHUNK_WIDTH || z < 0 || z >= CHUNK_WIDTH || section < 0 || section >= |c.sections| then None
    else Some((section, y % 16 * 256 + z * 16 + x))
  }

  /** A position has a cell exactly inside the column, and then the number of its cell is the number of the position. */
  lemma CellExactly(c: ColumnData, x: Int32, y: Int32, z: Int32)
    requires ColumnOk(c) && y >= c.minY
    ensures Cell(c, x, y, z).Some? <==> 0 <= x < 16 && 0 <= z < 16 && y - c.minY < c.height
    ensures Cell(c, x, y, z).Some? ==>
      CellNumber(Cell(c, x, y, z).value) == (y - c.minY) * 256 + z * 16 + x
  {
    SameLowBits(c.minY, y);
    if y - c.minY < c.height {
      RowInColumn(c, y);
      LayerNumber(y - c.minY);
    }
  }

  lemma RowInColumn(c: ColumnData, y: Int32)
    requires ColumnOk(c) && 0 <= y - c.minY < c.height
    ensures Wrap32(y - c.minY) == y - c.minY && (y - c.minY) / 16 < |c.sections|
  {
  }

  lemma LayerNumber(h: nat)
    ensures h / 16 * SECTION_BLOCKS + h % 16 * 256 == h * 256
  {
  }

  /** Cells are numbered section after section. */
  function CellNumber(cell: (nat, nat)): nat {
    cell.0 * SECTION_BLOCKS + cell.1
  }

  lemma NumberSplits(cell: (nat, nat))
    requires cell.1 < SECTION_BLOCKS
    ensures CellNumber(cell) / SECTION_BLOCKS == cell.0 && CellNumber(cell) % SECTION_BLOCKS == cell.1
  {
  }

  /** The first cell is at the bottom corner; the number grows by one with x, by 16 with z and by 256 with y. */
  lemma CellSteps(c: ColumnData, x: Int32, y: Int32, z: Int32)
    requires ColumnOk(c) && c.minY <= y && Cell(c, x, y, z).Some?
    ensures Cell(c, 0, c.minY, 0) == Some((0, 0))
    ensures Cell(c, x + 1, y, z).Some? ==>
      CellNumber(Cell(c, x + 1, y, z).value) == CellNumber(Cell(c, x, y, z).value) + 1
    ensures Cell(c, x, y, z + 1).Some? ==>
      CellNumber(Cell(c, x, y, z + 1).value) == CellNumber(Cell(c, x, y, z).value) + 16
    ensures y < 0x7fff_ffff && Cell(c, x, y + 1, z).Some? ==>
      CellNumber(Cell(c, x, y + 1, z).value) == CellNumber(Cell(c, x, y, z).value) + 256
  {
    CellExactly(c, x, y, z);
    CellExactly(c, x + 1, y, z);
    CellExactly(c, x, y, z + 1);
    if y < 0x7fff_ffff {
      CellExactly(c, x, y + 1, z);
    }
  }

  /** Inside the column a block is the state at the position's number. */
  lemma BlockIsNumbered(c: ColumnData, x: Int32, y: Int32, z: Int32)
    requires ColumnOk(c) && 0 <= x < 16 && 0 <= z < 16 && 0 <= y - c.minY < c.height
    ensures var n := (y - c.minY) * 256 + z * 16 + x;
      n / 4096 < |c.sections| && BlockIn(c, x, y, z) == Some(StateAt(c.sections[n / 4096].states, n % 4096))
  {
    CellExactly(c, x, y, z);
    NumberSplits(Cell(c, x, y, z).value);
  }

  /** No two positions of a column share a cell. */
  lemma CellInjective(c: ColumnData, x: Int32, y: Int32, z: Int32, x': Int32, y': Int32, z': Int32)
    requires c.minY % CHUNK_WIDTH == 0 && Cell(c, x, y, z).Some? && Cell(c, x', y', z') == Cell(c, x, y, z)
    ensures x' == x && y' == y && z' == z
  {
    SplitCell(x, y % 16, z);
    SplitCell(x', y' % 16, z');
    SameHeight(c.minY, y, y');
  }

  lemma SplitCell(x: Int32, h: nat, z: Int32)
    requires 0 <= x < 16 && 0 <= z < 16 && h < 16
    ensures var i := h * 256 + z * 16 + x; i % 16 == x && i / 16 % 16 == z && i / 256 == h
  {
  }

  lemma WrapKeepsLowBits(v: int)
    ensures Wrap32(v) % 16 == v % 16
  {
  }

  lemma WrapInjective(a: int, b: int)
    requires -0x1_0000_0000 < a - b < 0x1_0000_0000 && Wrap32(a) == Wrap32(b)
    ensures a == b
  {
  }

  lemma SameLowBits(base: int, y: int)
    requires base % 16 == 0
    ensures (y - base) % 16 == y % 16
  {
  }

  lemma SameDivMod(a: int, b: int)
    requires a / 16 == b / 16 && a % 16 == b % 16
    ensures a == b
  {
  }

  lemma SameHeight(minY: Int32, y: Int32, y': Int32)
    requires minY % CHUNK_WIDTH == 0 && y % 16 == y' % 16
    requires Wrap32(y - minY) / CHUNK_WIDTH == Wrap32(y' - minY) / CHUNK_WIDTH
    ensures y == y'
  {
    WrapKeepsLowBits(y - minY);
    WrapKeepsLowBits(y' - minY);
    SameLowBits(minY, y);
    SameLowBits(minY, y');
    SameDivMod(Wrap32(y - minY), Wrap32(y' - minY));
    WrapInjective(y - minY, y' - minY);
  }

  ghost function BlockIn(c: ColumnData, x: Int32, y: Int32, z: Int32): Option<StateID>
    requires ColumnOk(c)
  {
    var cell := Cell(c, x, y, z);
    if cell.None? then None else Some(StateAt(c.sections[cell.value.0].states, cell.value.1))
  }

  /** The section after one of its cells is set; none when its states refuse. */
  ghost function SetCell(section: Section, index: nat, value: StateID): Option<Section>
    requires WellFormed(section.states) && index < SECTION_BLOCKS
  {
    var states := SetState(section.states, index, value);
    if states.None? then None else Some(SetSection(section, StateAt(section.states, index), value, states.value))
  }

  ghost function SetBlockIn(c: ColumnData, x: Int32, y: Int32, z: Int32, value: StateID): Option<ColumnData>
    requires ColumnOk(c)
  {
    var cell := Cell(c, x, y, z);
    if cell.None? then None
    else
      var (k, index) := cell.value;
      var section := SetCell(c.sections[k], index, value);
      if section.None? then None else Some(c.(sections := c.sections[k := section.value]))
  }

  /** A set that succeeds moves the column to its next version. */
  ghost function UpdateColumn(c: ColumnData, x: Int32, y: Int32, z: Int32, value: StateID): Option<ColumnData>
    requires ColumnOk(c)
  {
    var r := SetBlockIn(c, x, y, z, value);
    if r.None? then None else Some(r.value.(version := (r.value.version + 1) % COUNT64))
  }

  /** Every id in the column is one that the direct form can hold. */
  ghost predicate SmallIds(c: ColumnData)
    requires ColumnOk(c)
  {
    forall k, i {:trigger StateAt(c.sections[k].states, i)} ::
      0 <= k < |c.sections| && 0 <= i < SECTION_BLOCKS ==> StateAt(c.sections[k].states, i) < DIRECT_LIMIT
  }

  /** Every section's non-air count is its number of non-zero cells. */
  ghost predicate Counted(c: ColumnData)
    requires ColumnOk(c)
  {
    forall k :: 0 <= k < |c.sections| ==> c.sections[k].nonAir == SolidBlocks(c.sections[k].states)
  }

  /** The position's section cannot take the value. */
  ghost predicate Refuses(c: ColumnData, x: Int32, y: Int32, z: Int32, value: StateID) {
    Cell(c, x, y, z).Some? && TooWide(c.sections[Cell(c, x, y, z).value.0].states, value)
  }

  /** A successful set changes one position of the column; it fails outside the column and when the section refuses. */
  lemma SetBlockInRefines(c: ColumnData, x: Int32, y: Int32, z: Int32, value: StateID)
    requires ColumnOk(c) && SmallIds(c)
    ensures var r := SetBlockIn(c, x, y, z, value);
      && (r.Some? <==> BlockIn(c, x, y, z).Some? && !Refuses(c, x, y, z, value))
      && (r.Some? ==>
          (ColumnOk(r.value) && (Counted(c) ==> Counted(r.value)) && (value < DIRECT_LIMIT ==> SmallIds(r.value))))
  {
    var r := SetBlockIn(c, x, y, z, value);
    if Cell(c, x, y, z).Some? {
      var (k, index) := Cell(c, x, y, z).value;
      SetRefines(c.sections[k].states, index, value);
      if r.Some? {
        var states := r.value.sections[k].states;
        assert OthersSmall(c.sections[k].states, index);
        assert OnlyChanged(c.sections[k].states, index, value, states);
        if Counted(c) {
          NonAirStaysExact(c.sections[k], index, value, states);
        }
      }
    }
  }

  /** Well-formedness survives every set, whatever the ids. */
  lemma SetBlockInOk(c: ColumnData, x: Int32, y: Int32, z: Int32, value: StateID)
    requires ColumnOk(c)
    ensures SetBlockIn(c, x, y, z, value).Some? ==> ColumnOk(SetBlockIn(c, x, y, z, value).value)
  {
    if Cell(c, x, y, z).Some? {
      var (k, index) := Cell(c, x, y, z).value;
      SetRefines(c.sections[k].states, index, value);
    }
  }

  lemma BlockInAfter(c: ColumnData, x: Int32, y: Int32, z: Int32, value: StateID, x': Int32, y': Int32, z': Int32)
    requires ColumnOk(c) && SmallIds(c) && SetBlockIn(c, x, y, z, value).Some?
    ensures var c' := SetBlockIn(c, x, y, z, value).value;
      ColumnOk(c') && BlockIn(c', x', y', z') == if (x', y', z') == (x, y, z) then Some(value)
          else BlockIn(c, x', y', z')
  {
    SetBlockInRefines(c, x, y, z, value);
    var (k, index) := Cell(c, x, y, z).value;
    SetRefines(c.sections[k].states, index, value);
    assert OthersSmall(c.sections[k].states, index);
    if Cell(c, x', y', z') == Cell(c, x, y, z) {
      CellInjective(c, x, y, z, x', y', z');
    }
  }

  // ----------------------------------------------------- chunk coordinates

  /** Division that truncates toward zero. */
  function TruncDiv(a: int, b: nat): int
    requires b > 0
  {
    if a >= 0 then a / b else -((-a) / b)
  }

  function FloorChunk(v: Int32): Int32 {
    if v >= 0 then v / CHUNK_WIDTH else TruncDiv(Wrap32(v - (CHUNK_WIDTH - 1)), CHUNK_WIDTH)
  }

  function Local(v: Int32): Int32 {
    Wrap32(v - Wrap32(FloorChunk(v) * CHUNK_WIDTH))
  }

  /** Coordinates below this one overflow on the way to their chunk. */
  const LOWEST_EXACT: int := -0x8000_0000 + 15

  lemma OverflowingChunk(v: Int32)
    requires v < LOWEST_EXACT
    ensures FloorChunk(v) == 0x7ff_ffff && Local(v) == v + 0x8000_0010
  {
  }

  lemma ExactChunk(v: Int32)
    requires v >= LOWEST_EXACT
    ensures FloorChunk(v) == v / CHUNK_WIDTH && Local(v) == v % CHUNK_WIDTH
  {
  }

  /**
   * The chunk is the floor exactly from fifteen above the lowest coordinate; below, the local coordinate
   * leaves the chunk.
   */
  lemma FloorChunkExact(v: Int32)
    ensures FloorChunk(v) == v / CHUNK_WIDTH <==> v >= LOWEST_EXACT
    ensures v >= LOWEST_EXACT ==> Local(v) == v % CHUNK_WIDTH
    ensures v < LOWEST_EXACT ==> Local(v) >= CHUNK_WIDTH
  {
    if v < LOWEST_EXACT {
      OverflowingChunk(v);
    } else {
      ExactChunk(v);
    }
  }

  lemma LocalInjective(v: Int32, v': Int32)
    requires FloorChunk(v) == FloorChunk(v') && Local(v) == Local(v')
    ensures v == v'
  {
    FloorChunkExact(v);
    FloorChunkExact(v');
    if v < LOWEST_EXACT {
      OverflowingChunk(v);
      OverflowingChunk(v');
    } else {
      SameDivMod(v, v');
    }
  }
}
