// The chunk cache as it is stored: word arrays written in place, sections
// replaced in their column, columns shared by nobody.
module ChunkMachine {
  import opened Sequences
  import opened Options
  import opened ChunkWords
  import opened ChunkPacked
  import opened ChunkSections
  import opened ChunkColumns
  import opened ChunkStore

  // ------------------------------------------------------------ packed words

  datatype PackedStates = PackedStates(bits: Width, words: array<Word>) {
    function Value(): Packed
      reads words
    {
      Packed(bits, words[..])
    }

    method Get(index: nat) returns (value: nat)
      requires Full(Value()) && index < SECTION_BLOCKS
      ensures value == ChunkPacked.Get(Value(), index)
    {
      var valuesPerWord := 64 / bits;
      LaneFits(bits, index);
      value := Lane(words[index / valuesPerWord], (index % valuesPerWord) * bits, bits);
    }

    method Set(index: nat, value: nat)
      requires Full(Value()) && index < SECTION_BLOCKS
      modifies words
      ensures Value() == Put(old(Value()), index, value)
    {
      var valuesPerWord := 64 / bits;
      var word := index / valuesPerWord;
      LaneFits(bits, index);
      words[word] := WithLane(words[word], (index % valuesPerWord) * bits, bits, value);
    }

    /** The same values in words of another width. */
    method Resize(wider: Width) returns (next: PackedStates)
      requires Full(Value())
      ensures fresh(next.words) && next.Value() == Repacked(Indices(Value()), wider, SECTION_BLOCKS)
    {
      next := NewPackedStates(wider);
      for index := 0 to SECTION_BLOCKS
        invariant next.Value() == Repacked(Indices(Value()), wider, index)
      {
        var value := Get(index);
        next.Set(index, value);
      }
    }
  }

  method NewPackedStates(bits: Width) returns (p: PackedStates)
    ensures fresh(p.words) && p.Value() == Zeros(bits)
  {
    var words := new Word[WordCount(SECTION_BLOCKS, bits)](_ => ZERO);
    p := PackedStates(bits, words);
  }

  // ---------------------------------------------------------- section states

  datatype StoredStates =
    | SingleStates(value: StateID)
    | IndirectStates(palette: seq<StateID>, packed: PackedStates)
    | DirectStates(packed: PackedStates)
  {
    ghost function Arrays(): set<array<Word>> {
      if SingleStates? then {} else {packed.words}
    }

    ghost function Data(): States
      reads Arrays()
    {
      match this
      case SingleStates(v) => Single(v)
      case IndirectStates(palette, packed) => Indirect(palette, packed.Value())
      case DirectStates(packed) => Direct(packed.Value())
    }

    method Get(index: nat) returns (value: StateID)
      requires WellFormed(Data()) && index < SECTION_BLOCKS
      ensures value == StateAt(Data(), index)
    {
      StateIsDecoded(Data(), index);
      match this {
        case SingleStates(v) => value := v;
        case IndirectStates(palette, packed) =>
          var k := packed.Get(index);
          value := palette[k];
        case DirectStates(packed) =>
          DirectBounded(packed.Value(), index);
          value := packed.Get(index);
      }
    }

    method FindInPalette(value: StateID) returns (k: nat)
      requires IndirectStates?
      ensures k == Find(palette, value)
    {
      for i := 0 to |palette|
        invariant Find(palette, value) == i + Find(palette[i..], value)
      {
        if palette[i] == value {
          return i;
        }
        assert palette[i..][1..] == palette[i + 1..];
      }
      k := |palette|;
    }

    method ToDirectStates() returns (direct: PackedStates)
      requires WellFormed(Data())
      ensures fresh(direct.words) && Direct(direct.Value()) == ToDirect(Data())
    {
      ghost var s := Data();
      ghost var cells := Cells(s);
      direct := NewPackedStates(MAX_DIRECT_BITS);
      for index := 0 to SECTION_BLOCKS
        invariant fresh(direct.words) && Data() == s
        invariant direct.Value() == Repacked(cells, MAX_DIRECT_BITS, index)
      {
        var value := Get(index);
        direct.Set(index, value);
      }
    }
  }

  method SetDirectStates(packed: PackedStates, index: nat, value: StateID) returns (r: Option<StoredStates>)
    requires Full(packed.Value()) && index < SECTION_BLOCKS
    modifies packed.words
    ensures r.None? ==> SetDirect(old(packed.Value()), index, value) == None && packed.Value() == old(packed.Value())
    ensures r.Some? ==>
      r.value == DirectStates(packed) && SetDirect(old(packed.Value()), index, value) == Some(r.value.Data())
  {
    if value > Mask(packed.bits) {
      return None;
    }
    packed.Set(index, value);
    r := Some(DirectStates(packed));
  }

  method SetIndirectStates(s: StoredStates, index: nat, value: StateID) returns (r: Option<StoredStates>)
    requires WellFormed(s.Data()) && s.IndirectStates? && index < SECTION_BLOCKS
    modifies s.Arrays()
    ensures r.None? ==> SetState(old(s.Data()), index, value) == None && s.Data() == old(s.Data())
    ensures r.Some? ==>
      SetState(old(s.Data()), index, value) == Some(r.value.Data()) && fresh(r.value.Arrays() - s.Arrays())
  {
    var k := s.FindInPalette(value);
    if k < |s.palette| {
      s.packed.Set(index, k);
      return Some(s);
    }
    if k < Pow2(s.packed.bits) {
      s.packed.Set(index, k);
      return Some(IndirectStates(s.palette + [value], s.packed));
    }
    if s.packed.bits < MAX_INDIRECT_BITS {
      var wide := s.packed.Resize(s.packed.bits + 1);
      wide.Set(index, k);
      return Some(IndirectStates(s.palette + [value], wide));
    }
    var direct := s.ToDirectStates();
    r := SetDirectStates(direct, index, value);
  }

  method SetStates(s: StoredStates, index: nat, value: StateID) returns (r: Option<StoredStates>)
    requires WellFormed(s.Data()) && index < SECTION_BLOCKS
    modifies s.Arrays()
    ensures r.None? ==> SetState(old(s.Data()), index, value) == None && s.Data() == old(s.Data())
    ensures r.Some? ==>
      SetState(old(s.Data()), index, value) == Some(r.value.Data()) && fresh(r.value.Arrays() - s.Arrays())
  {
    match s {
      case SingleStates(v) =>
        if value == v {
          return Some(s);
        }
        var packed := NewPackedStates(MIN_INDIRECT_BITS);
        packed.Set(index, 1);
        r := Some(IndirectStates([v, value], packed));
      case IndirectStates(_, _) => r := SetIndirectStates(s, index, value);
      case DirectStates(packed) => r := SetDirectStates(packed, index, value);
    }
  }

  // ----------------------------------------------------------------- columns

  datatype StoredSection = StoredSection(nonAir: nat, states: StoredStates)

  /** The non-air count after a cell went from one state to another. */
  method CountAfter(nonAir0: nat, was: StateID, value: StateID) returns (nonAir: nat)
    ensures nonAir == NextCount(nonAir0, was, value)
  {
    nonAir := nonAir0;
    if was == 0 && value != 0 {
      nonAir := (nonAir + 1) % COUNT16;
    } else if was != 0 && value == 0 {
      nonAir := (nonAir + COUNT16 - 1) % COUNT16;
    }
  }

  lemma CellIsSet(nonAir0: nat, before: States, index: nat, value: StateID, after: States, nonAir: nat)
    requires WellFormed(before) && index < SECTION_BLOCKS && SetState(before, index, value) == Some(after)
    requires nonAir == NextCount(nonAir0, StateAt(before, index), value)
    ensures SetCell(Section(nonAir0, before), index, value) == Some(Section(nonAir, after))
  {
  }

  method SetStoredCell(section: StoredSection, index: nat, value: StateID) returns (r: Option<StoredSection>)
    requires WellFormed(section.states.Data()) && index < SECTION_BLOCKS
    modifies section.states.Arrays()
    ensures var before := Section(section.nonAir, old(section.states.Data()));
      if r.None? then SetCell(before, index, value) == None && section.states.Data() == before.states
      else SetCell(before, index, value) == Some(Section(r.value.nonAir, r.value.states.Data()))
    ensures r.Some? ==> fresh(r.value.states.Arrays() - section.states.Arrays())
  {
    ghost var before := section.states.Data();
    var was := section.states.Get(index);
    var states := SetStates(section.states, index, value);
    if states.None? {
      return None;
    }
    var nonAir := CountAfter(section.nonAir, was, value);
    CellIsSet(section.nonAir, before, index, value, states.value.Data(), nonAir);
    r := Some(StoredSection(nonAir, states.value));
  }

  ghost function ArraysIn(sections: seq<StoredSection>): set<array<Word>> {
    set k, a | 0 <= k < |sections| && a in sections[k].states.Arrays() :: a
  }

  ghost function ReadSections(sections: seq<StoredSection>): (data: seq<Section>)
    reads ArraysIn(sections)
    ensures |data| == |sections| && forall k :: 0 <= k < |sections| ==>
      data[k] == Section(sections[k].nonAir, sections[k].states.Data())
  {
    if sections == [] then []
    else
      var n := |sections| - 1;
      ReadSections(sections[..n]) + [Section(sections[n].nonAir, sections[n].states.Data())]
  }

  class ChunkColumn {
    const minY: Int32
    const height: Int32
    var sections: seq<StoredSection>
    var version: nat
    /** The column as a value, and the objects it owns. */
    ghost var data: ColumnData
    ghost var Repr: set<object>

    /** No two sections share a word array. */
    ghost predicate Valid()
      reads this, Repr
    {
      && this in Repr
      && (forall k :: 0 <= k < |sections| ==> sections[k].states.Arrays() <= Repr)
      && (forall j, k :: 0 <= j < k < |sections| ==> sections[j].states.Arrays() !! sections[k].states.Arrays())
      && data.minY == minY && data.height == height && data.version == version && |data.sections| == |sections|
      && (forall k :: 0 <= k < |sections| ==> data.sections[k] == SectionAt(k))
    }

    /** Section k as a value. */
    ghost function SectionAt(k: nat): Section
      requires k < |sections|
      reads this, sections[k].states.Arrays()
    {
      Section(sections[k].nonAir, sections[k].states.Data())
    }

    constructor (minY: Int32, height: Int32, sections: seq<StoredSection>)
      requires forall j, k :: 0 <= j < k < |sections| ==> sections[j].states.Arrays() !! sections[k].states.Arrays()
      ensures Valid() && version == 0 && this.sections == sections && this.minY == minY && this.height == height
      ensures Repr == {this} + ArraysIn(sections)
    {
      this.minY, this.height, this.sections, version := minY, height, sections, 0;
      data := ColumnData(minY, height, ReadSections(sections), 0);
      Repr := {this} + ArraysIn(sections);
    }

    method BlockState(x: Int32, y: Int32, z: Int32) returns (r: Option<StateID>)
      requires Valid() && ColumnOk(data)
      ensures r == BlockIn(data, x, y, z)
    {
      var section := Wrap32(y - minY) / CHUNK_WIDTH;
      if x < 0 || x >= CHUNK_WIDTH || z < 0 || z >= CHUNK_WIDTH || section < 0 || section >= |sections| {
        return None;
      }
      assert data.sections[section] == SectionAt(section);
      var index := y % 16 * 256 + z * 16 + x;
      var value := sections[section].states.Get(index);
      r := Some(value);
    }

    /** Set one cell of one section: only that section's own words are written. */
    method SetSectionState(k: nat, index: nat, value: StateID) returns (ok: bool)
      requires k < |sections| && index < SECTION_BLOCKS && WellFormed(SectionAt(k).states)
      modifies this`sections, sections[k].states.Arrays()
      ensures |sections| == |old(sections)| && sections == old(sections)[k := sections[k]]
      ensures fresh(sections[k].states.Arrays() - old(sections[k].states.Arrays()))
      ensures ok ==> SetCell(old(SectionAt(k)), index, value) == Some(SectionAt(k))
      ensures !ok ==> SetCell(old(SectionAt(k)), index, value) == None && SectionAt(k) == old(SectionAt(k))
    {
      var section := SetStoredCell(sections[k], index, value);
      ok := section.Some?;
      if ok {
        sections := sections[k := section.value];
      }
    }

    /** The column after one section changed: the others keep their words. */
    method SetCellOf(k: nat, index: nat, value: StateID) returns (ok: bool)
      requires Valid() && k < |sections| && index < SECTION_BLOCKS && WellFormed(data.sections[k].states)
      modifies Repr
      ensures Valid() && fresh(Repr - old(Repr)) && version == old(version)
      ensures var section := SetCell(old(data).sections[k], index, value);
        if ok then section.Some? && data == old(data).(sections := old(data).sections[k := section.value])
        else section.None? && data == old(data)
    {
      assert data.sections[k] == SectionAt(k);
      ok := SetSectionState(k, index, value);
      forall j | 0 <= j < |sections| && j != k ensures SectionAt(j) == old(SectionAt(j)) {
      }
      data := data.(sections := data.sections[k := SectionAt(k)]);
      Repr := Repr + sections[k].states.Arrays();
    }

    method SetBlockState(x: Int32, y: Int32, z: Int32, value: StateID) returns (ok: bool)
      requires Valid() && ColumnOk(data)
      modifies Repr
      ensures Valid() && fresh(Repr - old(Repr))
      ensures ok ==> SetBlockIn(old(data), x, y, z, value) == Some(data)
      ensures !ok ==> SetBlockIn(old(data), x, y, z, value) == None && data == old(data)
    {
      var k := Wrap32(y - minY) / CHUNK_WIDTH;
      if x < 0 || x >= CHUNK_WIDTH || z < 0 || z >= CHUNK_WIDTH || k < 0 || k >= |sections| {
        return false;
      }
      ok := SetCellOf(k, y % 16 * 256 + z * 16 + x, value);
    }

    /** Set a block and, if that succeeds, move to the next version. */
    method Update(x: Int32, y: Int32, z: Int32, value: StateID) returns (ok: bool)
      requires Valid() && ColumnOk(data)
      modifies Repr
      ensures Valid() && fresh(Repr - old(Repr))
      ensures ok ==> UpdateColumn(old(data), x, y, z, value) == Some(data)
      ensures !ok ==> UpdateColumn(old(data), x, y, z, value) == None && data == old(data)
    {
      ok := SetBlockState(x, y, z, value);
      if ok {
        SetVersion((version + 1) % COUNT64);
      }
    }

    method SetVersion(version: nat)
      requires Valid()
      modifies this`version, this`data
      ensures Valid() && data == old(data).(version := version) && this.version == version
    {
      this.version := version;
      data := data.(version := version);
    }
  }

  // ------------------------------------------------------------------ views

  type Chunks = map<ChunkPosition, ChunkColumn>

  ghost function ChunkRepr(chunks: Chunks): set<object>
    reads chunks.Values
  {
    set at, o | at in chunks && o in chunks[at].Repr :: o
  }

  /** Valid columns that share nothing. */
  ghost predicate ChunksValid(chunks: Chunks)
    reads chunks.Values, ChunkRepr(chunks)
  {
    && (forall at :: at in chunks ==> chunks[at].Valid())
    && (forall at, bt :: at in chunks && bt in chunks && at != bt ==> chunks[at].Repr !! chunks[bt].Repr)
  }

  /** Set a block of one loaded chunk; the others keep their data. */
  method UpdateChunk(chunks: Chunks, at: ChunkPosition, x: Int32, y: Int32, z: Int32, value: StateID) returns (ok: bool)
    requires ChunksValid(chunks) && at in chunks && ColumnOk(chunks[at].data)
    modifies chunks[at].Repr
    ensures ChunksValid(chunks) && fresh(chunks[at].Repr - old(chunks[at].Repr))
    ensures forall bt :: bt in chunks && bt != at ==>
      chunks[bt].Repr == old(chunks[bt].Repr) && chunks[bt].data == old(chunks[bt].data)
    ensures ok ==> UpdateColumn(old(chunks[at].data), x, y, z, value) == Some(chunks[at].data)
    ensures !ok ==>
      UpdateColumn(old(chunks[at].data), x, y, z, value) == None && chunks[at].data == old(chunks[at].data)
  {
    ghost var others := chunks - {at};
    assert chunks == others[at := chunks[at]];
    ok := chunks[at].Update(x, y, z, value);
    StillValid(others);
    JoinedValid(others, at, chunks[at]);
  }

  /** The same, with the others still recorded in what the view holds and owns. */
  method UpdateRecorded(chunks: Chunks, at: ChunkPosition, x: Int32, y: Int32, z: Int32, value: StateID,
                        ghost data: map<ChunkPosition, ColumnData>, ghost repr: set<object>) returns (ok: bool)
    requires ChunksValid(chunks) && at in chunks && ColumnOk(chunks[at].data)
    requires SameChunks(chunks, data) && Within(chunks, repr)
    modifies chunks[at].Repr
    ensures ChunksValid(chunks) && RecordedBut(chunks, at, data, repr)
    ensures fresh(chunks[at].Repr - old(chunks[at].Repr)) && fresh(ChunkRepr(chunks) - old(ChunkRepr(chunks)))
    ensures ok ==> UpdateColumn(old(chunks[at].data), x, y, z, value) == Some(chunks[at].data)
    ensures !ok ==>
      UpdateColumn(old(chunks[at].data), x, y, z, value) == None && chunks[at].data == old(chunks[at].data)
  {
    ok := UpdateChunk(chunks, at, x, y, z, value);
  }

  /** The view with other columns. */
  function WithChunks<C, D>(view: View<C>, chunks: Option<map<ChunkPosition, D>>): View<D> {
    View(view.header, chunks)
  }

  ghost predicate SameChunks(chunks: Chunks, data: map<ChunkPosition, ColumnData>)
    reads chunks.Values
  {
    chunks.Keys == data.Keys && forall at :: at in chunks ==> data[at] == chunks[at].data
  }

  /** A column that shares nothing with the others may join them. */
  lemma JoinedValid(chunks: Chunks, at: ChunkPosition, column: ChunkColumn)
    requires ChunksValid(chunks) && column.Valid()
    requires forall bt :: bt in chunks ==> column.Repr !! chunks[bt].Repr
    ensures ChunksValid(chunks[at := column])
    ensures ChunkRepr(chunks[at := column]) <= ChunkRepr(chunks) + column.Repr
  {
  }

  /** What the columns own is owned by the view. */
  ghost predicate Within(chunks: Chunks, repr: set<object>)
    reads chunks.Values
  {
    forall at :: at in chunks ==> chunks[at].Repr <= repr
  }

  /** Valid columns that hold this data and do not contain their owner. */
  ghost predicate Stands(chunks: Chunks, data: map<ChunkPosition, ColumnData>, owner: object)
    reads chunks.Values, ChunkRepr(chunks)
  {
    ChunksValid(chunks) && SameChunks(chunks, data) && owner !in ChunkRepr(chunks)
  }

  lemma RecordedAll(chunks: Chunks, at: ChunkPosition, data: map<ChunkPosition, ColumnData>, repr: set<object>,
                    owner: object)
    requires ChunksValid(chunks) && owner !in ChunkRepr(chunks) && RecordedBut(chunks, at, data, repr)
    ensures Within(chunks, repr + chunks[at].Repr)
    ensures Stands(chunks, data[at := chunks[at].data], owner)
    ensures forall bt :: bt in chunks ==> chunks[bt] in repr + chunks[at].Repr
  {
    forall bt | bt in chunks ensures chunks[bt] in repr + chunks[at].Repr {
      assert chunks[bt] in chunks[bt].Repr;
    }
  }

  /** All columns but one are recorded: their data and what they own. */
  ghost predicate RecordedBut(chunks: Chunks, at: ChunkPosition, data: map<ChunkPosition, ColumnData>,
                              repr: set<object>)
    reads chunks.Values
  {
    && at in chunks && chunks.Keys == data.Keys + {at}
    && forall bt :: bt in chunks && bt != at ==> chunks[bt].Repr <= repr && data[bt] == chunks[bt].data
  }

  lemma JoinedRecorded(chunks: Chunks, at: ChunkPosition, column: ChunkColumn, data: map<ChunkPosition, ColumnData>,
                       repr: set<object>)
    requires SameChunks(chunks, data) && Within(chunks, repr)
    ensures RecordedBut(chunks[at := column], at, data, repr)
  {
  }

  lemma RemovedOne(chunks: Chunks, at: ChunkPosition, data: map<ChunkPosition, ColumnData>, repr: set<object>,
                   owner: object)
    requires Stands(chunks, data, owner) && Within(chunks, repr)
    ensures Stands(chunks - {at}, data - {at}, owner) && Within(chunks - {at}, repr)
  {
  }

  /** Columns whose objects are untouched are as they were. */
  twostate lemma StillValid(chunks: Chunks)
    requires old(ChunksValid(chunks))
    requires forall at :: at in chunks ==> unchanged(chunks[at]) && unchanged(old(chunks[at].Repr))
    ensures ChunksValid(chunks)
    ensures forall at :: at in chunks ==>
      chunks[at].Repr == old(chunks[at].Repr) && chunks[at].data == old(chunks[at].data)
  {
    forall at | at in chunks ensures chunks[at].Valid() && chunks[at].Repr == old(chunks[at].Repr) {
    }
  }

  lemma UpdateOfLoaded(view: View<ColumnData>, at: BlockPosition, value: StateID)
    requires ViewOk(view) && view.header.hasActive && InHeight(view, at.y) && Loaded(view, at)
    ensures var column := UpdateColumn(view.chunks.value[ChunkOf(at)], Local(at.x), at.y, Local(at.z), value);
      UpdateView(view, at, value) ==
        if column.None? then None else Some(view.(chunks := Some(view.chunks.value[ChunkOf(at) := column.value])))
  {
  }

  lemma SelfUpdate<K, V>(m: map<K, V>, k: K)
    requires k in m
    ensures m[k := m[k]] == m
  {
  }

  /** One bot's view; its columns are its own. */
  class WorldView {
    var view: View<ChunkColumn>
    /** The view as a value, and the objects it owns. */
    ghost var data: View<ColumnData>
    ghost var Repr: set<object>

    ghost predicate Valid()
      reads this, Repr
    {
      && this in Repr
      && data == WithChunks(view, data.chunks) && (data.chunks.Some? <==> view.chunks.Some?)
      && (view.chunks.Some? ==>
            && (forall at :: at in view.chunks.value ==> view.chunks.value[at] in Repr)
            && Within(view.chunks.value, Repr) && Stands(view.chunks.value, data.chunks.value, this))
    }

    constructor (attemptID: nat)
      ensures Valid() && fresh(Repr) && data == NewView(attemptID)
    {
      view := NewView(attemptID);
      data := NewView(attemptID);
      Repr := {this};
    }

    method BlockState(at: BlockPosition) returns (r: Option<StateID>)
      requires Valid() && ViewOk(data)
      ensures r == BlockOf(data, at)
    {
      if !view.header.hasActive || !InHeight(view, at.y) || !Loaded(view, at) {
        return None;
      }
      r := view.chunks.value[ChunkOf(at)].BlockState(Local(at.x), at.y, Local(at.z));
    }

    /** Valid but for one column, whose data and objects are not recorded yet. */
    ghost predicate ValidExcept(chunk: ChunkPosition)
      reads this, Repr, if view.chunks.Some? then view.chunks.value.Values else {}
      reads if view.chunks.Some? then ChunkRepr(view.chunks.value) else {}
    {
      && this in Repr && view.chunks.Some? && data.chunks.Some? && data == WithChunks(view, data.chunks)
      && var chunks := view.chunks.value;
      && chunk in data.chunks.value && ChunksValid(chunks) && this !in ChunkRepr(chunks)
      && RecordedBut(chunks, chunk, data.chunks.value, Repr)
    }

    ghost method Record(chunk: ChunkPosition)
      requires ValidExcept(chunk)
      modifies this`data, this`Repr
      ensures Valid() && Repr == old(Repr) + view.chunks.value[chunk].Repr
      ensures data == old(data).(chunks := Some(old(data).chunks.value[chunk := view.chunks.value[chunk].data]))
    {
      var column := view.chunks.value[chunk];
      RecordedAll(view.chunks.value, chunk, data.chunks.value, Repr, this);
      Repr := Repr + column.Repr;
      data := data.(chunks := Some(data.chunks.value[chunk := column.data]));
    }

    method UpdateLoaded(chunk: ChunkPosition, x: Int32, y: Int32, z: Int32, value: StateID) returns (ok: bool)
      requires Valid() && view.chunks.Some? && chunk in view.chunks.value && ColumnOk(data.chunks.value[chunk])
      modifies Repr
      ensures Valid() && fresh(Repr - old(Repr)) && view == old(view)
      ensures var column := UpdateColumn(old(data).chunks.value[chunk], x, y, z, value);
        if ok then column.Some? && data == old(data).(chunks := Some(old(data).chunks.value[chunk := column.value]))
        else column.None? && data == old(data)
    {
      ok := UpdateRecorded(view.chunks.value, chunk, x, y, z, value, data.chunks.value, Repr);
      Record(chunk);
      SelfUpdate(old(data).chunks.value, chunk);
    }

    method SetBlockState(at: BlockPosition, value: StateID) returns (ok: bool)
      requires Valid() && ViewOk(data)
      modifies Repr
      ensures Valid() && fresh(Repr - old(Repr)) && view == old(view)
      ensures ok ==> UpdateView(old(data), at, value) == Some(data)
      ensures !ok ==> UpdateView(old(data), at, value) == None && data == old(data)
    {
      if !view.header.hasActive || !InHeight(view, at.y) || !Loaded(view, at) {
        return false;
      }
      UpdateOfLoaded(data, at, value);
      ok := UpdateLoaded(ChunkOf(at), Local(at.x), at.y, Local(at.z), value);
    }

    /**
     * New dimension types may activate, deactivate or move the bound dimension; chunks of another geometry
     * are dropped.
     */
    method SetDimensionTypes(types: seq<DimensionType>)
      requires Valid()
      modifies this
      ensures Valid() && Repr == old(Repr) && data == WithTypes(old(data), types)
    {
      view := WithTypes(view, types);
      data := WithTypes(data, types);
    }

    method BindDimension(id: Int32) returns (ok: bool)
      requires Valid()
      modifies this
      ensures Valid() && Repr == old(Repr)
      ensures ok ==> Bound(old(data), id) == Some(data)
      ensures !ok ==> Bound(old(data), id) == None && data == old(data)
    {
      var bound := Bound(view, id);
      ok := bound.Some?;
      if ok {
        view := bound.value;
        data := Bound(data, id).value;
      }
    }

    /** All but the new column is recorded already. */
    ghost predicate Placed(at: ChunkPosition)
      reads this, Repr, if view.chunks.Some? then view.chunks.value.Values else {}
      reads if view.chunks.Some? then ChunkRepr(view.chunks.value) else {}
    {
      && this in Repr && view.chunks.Some? && at in view.chunks.value && view.header == data.header
      && var chunks := view.chunks.value;
      && ChunksValid(chunks) && this !in ChunkRepr(chunks) && RecordedBut(chunks, at, Columns(data), Repr)
    }

    method Place(at: ChunkPosition, column: ChunkColumn)
      requires Valid() && column.Valid() && column.Repr !! Repr
      modifies this`view
      ensures Placed(at) && view.chunks.value[at] == column
    {
      ghost var chunks := Columns(view);
      forall bt | bt in chunks ensures column.Repr !! chunks[bt].Repr && this !in chunks[bt].Repr {
        assert chunks[bt].Repr <= Repr;
      }
      JoinedValid(chunks, at, column);
      JoinedRecorded(chunks, at, column, Columns(data), Repr);
      view := view.(chunks := Some(Columns(view)[at := column]));
      StillValid(chunks[at := column]);
    }

    ghost method Prepare(at: ChunkPosition)
      requires Placed(at)
      modifies this`data
      ensures ValidExcept(at) && data == Stored(old(data), at, view.chunks.value[at].data)
    {
      data := Stored(data, at, view.chunks.value[at].data);
    }

    method Insert(at: ChunkPosition, column: ChunkColumn)
      requires Valid() && column.Valid() && column.Repr !! Repr
      modifies this
      ensures Valid() && Repr == old(Repr) + column.Repr
      ensures data == Stored(old(data), at, column.data)
    {
      Place(at, column);
      Prepare(at);
      SelfUpdate(data.chunks.value, at);
      Record(at);
    }

    method VersionFor(at: ChunkPosition) returns (version: nat)
      requires Valid()
      ensures version == NextVersion(data, at)
    {
      version := 1;
      if view.chunks.Some? && at in view.chunks.value {
        version := (view.chunks.value[at].version + 1) % COUNT64;
      }
    }

    /** Store a column that nobody else holds, one version after the column it replaces. */
    method ReplaceChunk(at: ChunkPosition, column: ChunkColumn) returns (ok: bool)
      requires Valid() && column.Valid() && column.Repr !! Repr
      modifies this, column`version, column`data
      ensures Valid() && Repr <= old(Repr) + column.Repr
      ensures ok ==> Replaced(old(data), at, old(column.data)) == Some(data)
      ensures !ok ==> Replaced(old(data), at, old(column.data)) == None && data == old(data)
    {
      if !view.header.hasActive || column.minY != view.header.active.minY
          || column.height != view.header.active.height {
        return false;
      }
      var version := VersionFor(at);
      column.SetVersion(version);
      Insert(at, column);
      ok := true;
    }

    method UnloadChunk(at: ChunkPosition) returns (ok: bool)
      requires Valid()
      modifies this
      ensures Valid() && Repr == old(Repr)
      ensures ok ==> Unloaded(old(data), at) == Some(data)
      ensures !ok ==> Unloaded(old(data), at) == None && data == old(data)
    {
      if !view.header.hasActive || view.chunks.None? || at !in view.chunks.value {
        return false;
      }
      RemovedOne(view.chunks.value, at, data.chunks.value, Repr, this);
      view := view.(chunks := Some(view.chunks.value - {at}));
      data := data.(chunks := Some(data.chunks.value - {at}));
      ok := true;
    }
  }

  lemma FoldedMore(views: Views, p: ProfileID, attemptID: nat, updates: seq<BlockUpdate>, k: nat)
    requires ViewsOk(views) && k < |updates|
    ensures Folded(views, p, attemptID, updates[..k + 1]) ==
      ChunkStore.SetBlockState(Folded(views, p, attemptID, updates[..k]), p, attemptID, updates[k].position,
                               updates[k].stateID).0
  {
    TakeMore(updates, k);
  }

  /** A set for the current attempt is an update of its view. */
  lemma SetOfCurrent(views: Views, p: ProfileID, attemptID: nat, at: BlockPosition, value: StateID)
    requires ViewsOk(views) && Current(views, p, attemptID)
    ensures ChunkStore.SetBlockState(views, p, attemptID, at, value) ==
      var view := UpdateView(views[p], at, value);
      if view.None? then (views, false) else (views[p := view.value], true)
  {
  }

  ghost function ViewRepr(views: map<ProfileID, WorldView>): set<object>
    reads views.Values
  {
    set p, o | p in views && o in views[p].Repr :: o
  }

  /** Valid views that share nothing and do not contain their owner. */
  ghost predicate ViewsStand(views: map<ProfileID, WorldView>, owner: object)
    reads views.Values, ViewRepr(views)
  {
    && (forall p :: p in views ==> views[p].Valid() && owner !in views[p].Repr)
    && (forall p, q :: p in views && q in views && p != q ==> views[p].Repr !! views[q].Repr)
  }

  /** What the views are and own is recorded. */
  ghost predicate Noted(views: map<ProfileID, WorldView>, data: Views, repr: set<object>)
    reads views.Values
  {
    data.Keys == views.Keys && forall p :: p in views ==> views[p].Repr <= repr && data[p] == views[p].data
  }

  ghost predicate NotedBut(views: map<ProfileID, WorldView>, p: ProfileID, data: Views, repr: set<object>)
    reads views.Values
  {
    && p in views && data.Keys == views.Keys
    && forall q :: q in views && q != p ==> views[q].Repr <= repr && data[q] == views[q].data
  }

  lemma NotedAll(views: map<ProfileID, WorldView>, p: ProfileID, data: Views, repr: set<object>)
    requires NotedBut(views, p, data, repr) && (forall q :: q in views ==> views[q].Valid())
    ensures Noted(views, data[p := views[p].data], repr + views[p].Repr)
    ensures forall q :: q in views ==> views[q] in repr + views[p].Repr
  {
    forall q | q in views ensures views[q] in repr + views[p].Repr {
      assert views[q] in views[q].Repr;
    }
  }

  /** The views of all bots, each with objects of its own. */
  class WorldViews {
    var views: map<ProfileID, WorldView>
    ghost var data: Views
    ghost var Repr: set<object>

    ghost predicate Valid()
      reads this, Repr
    {
      && this in Repr && (forall p :: p in views ==> views[p] in Repr)
      && Noted(views, data, Repr) && ViewsStand(views, this)
    }

    constructor ()
      ensures Valid() && fresh(Repr) && data == map[]
    {
      views, data := map[], map[];
      Repr := {this};
    }

    predicate IsCurrent(p: ProfileID, attemptID: nat)
      reads this, if p in views then {views[p]} else {}
    {
      p in views && views[p].view.header.attemptID == attemptID
    }

    method BeginAttempt(p: ProfileID, attemptID: nat)
      requires Valid()
      modifies this
      ensures Valid() && fresh(Repr - old(Repr)) && data == old(data)[p := NewView(attemptID)]
    {
      var fresh_ := new WorldView(attemptID);
      views := views[p := fresh_];
      data := data[p := fresh_.data];
      Repr := Repr + fresh_.Repr;
    }

    method BlockState(p: ProfileID, at: BlockPosition) returns (r: Option<StateID>)
      requires Valid() && ViewsOk(data)
      ensures r == ChunkStore.BlockState(data, p, at)
    {
      if p !in views {
        return None;
      }
      r := views[p].BlockState(at);
    }

    /** One view has changed its own objects, and shares nothing with the others still: they are as they were. */
    twostate lemma OthersStand(p: ProfileID)
      requires old(Valid()) && views == old(views) && data == old(data) && Repr == old(Repr)
      requires p in views && views[p].Valid() && this !in views[p].Repr
      requires forall q :: q in views && q != p ==> unchanged(views[q]) && unchanged(old(views[q].Repr))
      requires forall q :: q in views && q != p ==> views[p].Repr !! old(views[q].Repr)
      ensures ViewsStand(views, this) && NotedBut(views, p, data, Repr)
    {
      forall q | q in views && q != p ensures views[q].Valid() && views[q].Repr == old(views[q].Repr) {
      }
    }

    /** Note what one view has become. */
    ghost method Record(p: ProfileID)
      requires this in Repr && ViewsStand(views, this) && NotedBut(views, p, data, Repr)
      modifies this`data, this`Repr
      ensures Valid() && Repr == old(Repr) + views[p].Repr && data == old(data)[p := views[p].data]
    {
      NotedAll(views, p, data, Repr);
      Repr := Repr + views[p].Repr;
      data := data[p := views[p].data];
    }

    method SetBlockState(p: ProfileID, attemptID: nat, at: BlockPosition, value: StateID) returns (ok: bool)
      requires Valid() && ViewsOk(data)
      modifies Repr
      ensures Valid() && fresh(Repr - old(Repr))
      ensures (data, ok) == ChunkStore.SetBlockState(old(data), p, attemptID, at, value)
    {
      if !IsCurrent(p, attemptID) {
        return false;
      }
      SetOfCurrent(data, p, attemptID, at, value);
      ok := UpdateOne(p, at, value);
    }

    method UpdateOne(p: ProfileID, at: BlockPosition, value: StateID) returns (ok: bool)
      requires Valid() && ViewsOk(data) && p in views
      modifies Repr
      ensures Valid() && fresh(Repr - old(Repr)) && views == old(views) && views[p].view == old(views[p].view)
      ensures ok ==>
        UpdateView(old(data)[p], at, value).Some? && data == old(data)[p := UpdateView(old(data)[p], at, value).value]
      ensures !ok ==> UpdateView(old(data)[p], at, value) == None && data == old(data)
    {
      ok := views[p].SetBlockState(at, value);
      Record(p);
      SelfUpdate(old(data), p);
    }

    /** A batch: every update that can be made is made, in order, and the others are skipped. */
    method SetBlockStates(p: ProfileID, attemptID: nat, updates: seq<BlockUpdate>) returns (ok: bool)
      requires Valid() && ViewsOk(data)
      modifies Repr
      ensures Valid() && fresh(Repr - old(Repr))
      ensures ok <==> BatchAllowed(old(data), p, attemptID)
      ensures data == Folded(old(data), p, attemptID, updates)
    {
      if !IsCurrent(p, attemptID) || !views[p].view.header.hasActive || views[p].view.chunks.None? {
        RefusedFold(data, p, attemptID, updates);
        return false;
      }
      UpdateAll(p, attemptID, updates);
      ok := true;
    }

    method UpdateAll(p: ProfileID, attemptID: nat, updates: seq<BlockUpdate>)
      requires Valid() && ViewsOk(data) && IsCurrent(p, attemptID)
      modifies Repr
      ensures Valid() && fresh(Repr - old(Repr)) && data == Folded(old(data), p, attemptID, updates)
    {
      for k := 0 to |updates|
        invariant Valid() && fresh(Repr - old(Repr)) && IsCurrent(p, attemptID)
        invariant data == Folded(old(data), p, attemptID, updates[..k])
      {
        FoldedMore(old(data), p, attemptID, updates, k);
        UpdateNext(p, attemptID, updates[k]);
      }
      TakeAll(updates);
    }

    /** An update that cannot be made is skipped. */
    method UpdateNext(p: ProfileID, attemptID: nat, u: BlockUpdate)
      requires Valid() && ViewsOk(data) && IsCurrent(p, attemptID)
      modifies Repr
      ensures Valid() && fresh(Repr - old(Repr)) && IsCurrent(p, attemptID)
      ensures data == ChunkStore.SetBlockState(old(data), p, attemptID, u.position, u.stateID).0
    {
      SetOfCurrent(data, p, attemptID, u.position, u.stateID);
      var _ := UpdateOne(p, u.position, u.stateID);
    }

    method SetDimensionTypes(p: ProfileID, attemptID: nat, types: seq<DimensionType>) returns (ok: bool)
      requires Valid()
      modifies Repr
      ensures Valid() && Repr == old(Repr) && (ok <==> Current(old(data), p, attemptID))
      ensures data == if ok then old(data)[p := WithTypes(old(data)[p], types)] else old(data)
    {
      ok := IsCurrent(p, attemptID);
      if ok {
        views[p].SetDimensionTypes(types);
        Record(p);
      }
    }

    method BindDimension(p: ProfileID, attemptID: nat, id: Int32) returns (ok: bool)
      requires Valid()
      modifies Repr
      ensures Valid() && Repr == old(Repr)
      ensures ok <==> Current(old(data), p, attemptID) && Bound(old(data)[p], id).Some?
      ensures data == if ok then old(data)[p := Bound(old(data)[p], id).value] else old(data)
    {
      ok := IsCurrent(p, attemptID);
      if ok {
        ok := views[p].BindDimension(id);
        OthersStand(p);
        Record(p);
        SelfUpdate(old(data), p);
      }
    }

    /** The stored column must not be part of any view yet. */
    method ReplaceChunk(p: ProfileID, attemptID: nat, at: ChunkPosition, column: ChunkColumn) returns (ok: bool)
      requires Valid() && column.Valid() && column.Repr !! Repr
      modifies Repr, column`version, column`data
      ensures Valid() && Repr <= old(Repr) + column.Repr
      ensures ok <==> Current(old(data), p, attemptID) && Replaced(old(data)[p], at, old(column.data)).Some?
      ensures data == if ok then old(data)[p := Replaced(old(data)[p], at, old(column.data)).value] else old(data)
    {
      ok := IsCurrent(p, attemptID);
      if ok {
        ok := views[p].ReplaceChunk(at, column);
        OthersStand(p);
        Record(p);
        SelfUpdate(old(data), p);
      }
    }

    method UnloadChunk(p: ProfileID, attemptID: nat, at: ChunkPosition) returns (ok: bool)
      requires Valid()
      modifies Repr
      ensures Valid() && Repr == old(Repr)
      ensures ok <==> Current(old(data), p, attemptID) && Unloaded(old(data)[p], at).Some?
      ensures data == if ok then old(data)[p := Unloaded(old(data)[p], at).value] else old(data)
    {
      ok := IsCurrent(p, attemptID);
      if ok {
        ok := views[p].UnloadChunk(at);
        OthersStand(p);
        Record(p);
        SelfUpdate(old(data), p);
      }
    }
  }
}
