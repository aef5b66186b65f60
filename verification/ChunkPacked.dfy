// Palette indices packed into words, a whole number of lanes per word.
module ChunkPacked {
  import opened ChunkWords

  const SECTION_BLOCKS := 4096

  /** Widths a packed array may have. */
  type Width = b: nat | 1 <= b <= 32 witness 1

  function PerWord(bits: Width): (n: nat)
    ensures 2 <= n <= 64
  {
    64 / bits
  }

  function WordCount(capacity: nat, bits: Width): nat {
    (capacity + PerWord(bits) - 1) / PerWord(bits)
  }

  datatype Packed = Packed(bits: Width, words: seq<Word>)

  predicate Full(p: Packed) {
    |p.words| == WordCount(SECTION_BLOCKS, p.bits)
  }

  function WordOf(bits: Width, index: nat): nat {
    index / PerWord(bits)
  }

  function ShiftOf(bits: Width, index: nat): nat {
    (index % PerWord(bits)) * bits
  }

  lemma LaneFits(bits: Width, index: nat)
    requires index < SECTION_BLOCKS
    ensures WordOf(bits, index) < WordCount(SECTION_BLOCKS, bits)
    ensures ShiftOf(bits, index) + bits <= WORD_SIZE
  {
    var n := PerWord(bits);
    WordInRange(SECTION_BLOCKS, n, index);
    RowFits(index % n, n, bits);
  }

  lemma WordInRange(capacity: nat, n: nat, index: nat)
    requires index < capacity && n > 0
    ensures index / n < (capacity + n - 1) / n
  {
    var q, top := index / n, (capacity + n - 1) / n;
    assert q * n <= index;
    assert capacity + n - 1 < (top + 1) * n by {
      assert capacity + n - 1 == top * n + (capacity + n - 1) % n;
    }
    if q >= top {
      MulMonotone(top, q, n);
    }
  }

  lemma MulMonotone(a: nat, b: nat, n: nat)
    requires a <= b
    ensures a * n <= b * n
  {
  }

  /** Lane r of a word with n lanes ends inside the word. */
  lemma RowFits(r: nat, n: nat, bits: Width)
    requires r < n && n == 64 / bits
    ensures r * bits + bits <= WORD_SIZE
  {
    MulMonotone(r + 1, n, bits);
    assert n * bits <= 64;
  }

  lemma SameQuotient(n: nat, i: nat, j: nat)
    requires n > 0 && i / n == j / n && i % n == j % n
    ensures i == j
  {
    assert i == (i / n) * n + i % n && j == (j / n) * n + j % n;
  }

  /** Two indices share a word only in lanes that do not overlap. */
  lemma LanesApart(bits: Width, i: nat, j: nat)
    requires i != j
    ensures WordOf(bits, i) != WordOf(bits, j)
         || ShiftOf(bits, i) + bits <= ShiftOf(bits, j) || ShiftOf(bits, j) + bits <= ShiftOf(bits, i)
  {
    var n := PerWord(bits);
    if i / n == j / n {
      if i % n == j % n {
        SameQuotient(n, i, j);
      }
      RowsApart(i % n, j % n, bits);
    }
  }

  lemma RowsApart(r: nat, s: nat, bits: Width)
    requires r != s
    ensures r * bits + bits <= s * bits || s * bits + bits <= r * bits
  {
    if r < s {
      MulMonotone(r + 1, s, bits);
    } else {
      MulMonotone(s + 1, r, bits);
    }
  }

  function Get(p: Packed, index: nat): nat
    requires Full(p) && index < SECTION_BLOCKS
  {
    LaneFits(p.bits, index);
    Lane(p.words[WordOf(p.bits, index)], ShiftOf(p.bits, index), p.bits)
  }

  /** The value is the number in some bits of a word, the lowest first. */
  ghost predicate NumberAt(words: seq<Word>, word: int, low: int, bits: nat, value: nat) {
    0 <= word < |words| && 0 <= low <= low + bits <= WORD_SIZE && value == Number(words[word][low..low + bits])
  }

  /** With n = 64 / bits lanes to a word, cell i is the number in word i / n, in the bits from (i % n) * bits on. */
  lemma GetReadsBits(p: Packed, index: nat)
    requires Full(p) && index < SECTION_BLOCKS
    ensures var n := PerWord(p.bits);
      n == 64 / p.bits && NumberAt(p.words, index / n, index % n * p.bits, p.bits, Get(p, index))
  {
    LaneFits(p.bits, index);
    LaneIsSlice(p.words[WordOf(p.bits, index)], ShiftOf(p.bits, index), p.bits);
  }

  /** There are just enough words for all cells. */
  lemma EnoughWords(p: Packed)
    requires Full(p)
    ensures (|p.words| - 1) * PerWord(p.bits) < 4096 <= |p.words| * PerWord(p.bits)
  {
    RoundedUp(SECTION_BLOCKS, PerWord(p.bits));
  }

  lemma RoundedUp(capacity: nat, n: nat)
    requires capacity > 0 && n > 0
    ensures var q := (capacity + n - 1) / n; (q - 1) * n < capacity <= q * n
  {
    var q := (capacity + n - 1) / n;
    assert capacity + n - 1 == q * n + (capacity + n - 1) % n;
    assert (q - 1) * n == q * n - n;
  }

  function Put(p: Packed, index: nat, value: nat): (p': Packed)
    requires Full(p) && index < SECTION_BLOCKS
    ensures Full(p') && p'.bits == p.bits
  {
    LaneFits(p.bits, index);
    var k := WordOf(p.bits, index);
    p.(words := p.words[k := WithLane(p.words[k], ShiftOf(p.bits, index), p.bits, value)])
  }

  /** A put changes one cell, to the value in the packed width, and no other. */
  lemma PutGet(p: Packed, index: nat, value: nat, other: nat)
    requires Full(p) && index < SECTION_BLOCKS && other < SECTION_BLOCKS
    ensures Get(Put(p, index, value), other) == if other == index then value % Pow2(p.bits) else Get(p, other)
  {
    LaneFits(p.bits, index);
    LaneFits(p.bits, other);
    var w := p.words[WordOf(p.bits, index)];
    if other == index {
      LaneWritten(w, ShiftOf(p.bits, index), p.bits, value);
    } else {
      LanesApart(p.bits, index, other);
      if WordOf(p.bits, index) == WordOf(p.bits, other) {
        OtherLane(w, ShiftOf(p.bits, index), p.bits, value, ShiftOf(p.bits, other));
      }
    }
  }

  lemma GetBounded(p: Packed, index: nat)
    requires Full(p) && index < SECTION_BLOCKS
    ensures Get(p, index) < Pow2(p.bits)
  {
    LaneFits(p.bits, index);
    var w := p.words[WordOf(p.bits, index)];
    LaneIsSlice(w, ShiftOf(p.bits, index), p.bits);
    NumberBounded(w[ShiftOf(p.bits, index)..ShiftOf(p.bits, index) + p.bits]);
  }

  lemma {:induction false} NumberBounded(bits: seq<bool>)
    ensures Number(bits) < Pow2(|bits|)
  {
    if bits != [] {
      NumberBounded(bits[1..]);
    }
  }

  function Zeros(bits: Width): (p: Packed)
    ensures Full(p) && p.bits == bits
  {
    Packed(bits, seq(WordCount(SECTION_BLOCKS, bits), _ => ZERO))
  }

  lemma ZerosGet(bits: Width, index: nat)
    requires index < SECTION_BLOCKS
    ensures Get(Zeros(bits), index) == 0
  {
    LaneFits(bits, index);
    LaneIsSlice(ZERO, ShiftOf(bits, index), bits);
    assert ZERO[ShiftOf(bits, index)..ShiftOf(bits, index) + bits]
        == [] + ZERO[ShiftOf(bits, index)..ShiftOf(bits, index) + bits];
    LeadingZeros([], ZERO[ShiftOf(bits, index)..ShiftOf(bits, index) + bits]);
  }

  /** The first n cells written one after the other into an empty array. */
  function Repacked(cells: seq<nat>, bits: Width, n: nat): (p: Packed)
    requires n <= |cells| <= SECTION_BLOCKS
    ensures Full(p) && p.bits == bits
  {
    if n == 0 then Zeros(bits) else Put(Repacked(cells, bits, n - 1), n - 1, cells[n - 1])
  }

  lemma {:induction false} RepackedGet(cells: seq<nat>, bits: Width, n: nat, index: nat)
    requires n <= |cells| <= SECTION_BLOCKS && index < SECTION_BLOCKS
    ensures Get(Repacked(cells, bits, n), index) == if index < n then cells[index] % Pow2(bits) else 0
  {
    if n == 0 {
      ZerosGet(bits, index);
    } else {
      RepackedGet(cells, bits, n - 1, index);
      PutGet(Repacked(cells, bits, n - 1), n - 1, cells[n - 1], index);
    }
  }
}
