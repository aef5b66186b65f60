// 64-bit words as sequences of bits, and lanes of a few bits packed into them.
module ChunkWords {

  const WORD_SIZE := 64

  /** A machine word, lowest bit first. */
  type Word = w: seq<bool> | |w| == WORD_SIZE witness seq(WORD_SIZE, _ => false)

  const ZERO: Word := seq(WORD_SIZE, _ => false)

  function Pow2(n: nat): (p: nat)
    ensures p >= 1
  {
    if n == 0 then 1 else 2 * Pow2(n - 1)
  }

  function Number(bits: seq<bool>): nat {
    if bits == [] then 0 else (if bits[0] then 1 else 0) + 2 * Number(bits[1..])
  }

  /** The low n bits of a number. */
  function Bits(v: nat, n: nat): (bits: seq<bool>)
    ensures |bits| == n
  {
    seq(n, i requires 0 <= i < n => v / Pow2(i) % 2 == 1)
  }

  lemma BitsStep(v: nat, n: nat)
    requires n > 0
    ensures Bits(v, n) == [v % 2 == 1] + Bits(v / 2, n - 1)
  {
    forall i | 1 <= i < n ensures Bits(v, n)[i] == Bits(v / 2, n - 1)[i - 1] {
      HalfMod(v, Pow2(i - 1));
    }
  }

  lemma {:induction false} NumberOfBits(v: nat, n: nat)
    ensures Number(Bits(v, n)) == v % Pow2(n)
  {
    if n > 0 {
      BitsStep(v, n);
      NumberOfBits(v / 2, n - 1);
      HalfMod(v, Pow2(n - 1));
    }
  }

  lemma HalfMod(v: nat, p: nat)
    requires p > 0
    ensures v / (2 * p) == v / 2 / p
    ensures v % (2 * p) == v % 2 + 2 * ((v / 2) % p)
  {
    var q, r := (v / 2) / p, (v / 2) % p;
    assert v / 2 == q * p + r;
    assert v == q * (2 * p) + (v % 2 + 2 * r);
    DivModUnique(v, 2 * p, q, v % 2 + 2 * r);
  }

  lemma AtLeastOnce(k: nat, d: nat)
    requires k > 0
    ensures k * d >= d
  {
  }

  lemma SmallMultiple(k: int, d: int)
    requires 0 - d < k * d < d
    ensures k == 0
  {
    if k > 0 {
      AtLeastOnce(k, d);
    }
  }

  /** Quotient and remainder are the only ones. */
  lemma DivModUnique(v: nat, d: nat, q: nat, r: nat)
    requires v == q * d + r && r < d
    ensures v / d == q && v % d == r
  {
    var q', r' := v / d, v % d;
    assert v == q' * d + r';
    assert (q - q') * d == q * d - q' * d;
    SmallMultiple(q - q', d);
  }

  lemma {:induction false} LeadingZeros(bits: seq<bool>, zeros: seq<bool>)
    requires forall i :: 0 <= i < |zeros| ==> !zeros[i]
    ensures Number(bits + zeros) == Number(bits)
  {
    if bits == [] {
      assert bits + zeros == zeros;
      if zeros != [] {
        LeadingZeros([], zeros[1..]);
        assert [] + zeros[1..] == zeros[1..];
      }
    } else {
      LeadingZeros(bits[1..], zeros);
      assert (bits + zeros)[1..] == bits[1..] + zeros;
    }
  }

  // ---------------------------------------------------------- instructions

  function Shr(w: Word, shift: nat): Word {
    seq(WORD_SIZE, i requires 0 <= i < WORD_SIZE => i + shift < WORD_SIZE && w[i + shift])
  }

  function Shl(w: Word, shift: nat): Word {
    seq(WORD_SIZE, i requires 0 <= i < WORD_SIZE => i >= shift && w[i - shift])
  }

  function And(a: Word, b: Word): Word {
    seq(WORD_SIZE, i requires 0 <= i < WORD_SIZE => a[i] && b[i])
  }

  function AndNot(a: Word, b: Word): Word {
    seq(WORD_SIZE, i requires 0 <= i < WORD_SIZE => a[i] && !b[i])
  }

  function Or(a: Word, b: Word): Word {
    seq(WORD_SIZE, i requires 0 <= i < WORD_SIZE => a[i] || b[i])
  }

  function Mask(bits: nat): nat {
    Pow2(bits) - 1
  }

  lemma {:induction false} MaskBits(bits: nat, n: nat)
    requires bits <= n
    ensures forall i :: 0 <= i < n ==> Bits(Mask(bits), n)[i] == (i < bits)
  {
    if n > 0 {
      BitsStep(Mask(bits), n);
      if bits > 0 {
        MaskBits(bits - 1, n - 1);
        assert Mask(bits) == 2 * Mask(bits - 1) + 1;
      } else {
        MaskBits(0, n - 1);
      }
    }
  }

  // ----------------------------------------------------------------- lanes

  /** A number as a word as wide as w. */
  function ToWord(w: Word, v: nat): Word {
    Bits(v, |w|)
  }

  function Lane(w: Word, shift: nat, bits: nat): nat {
    Number(And(Shr(w, shift), ToWord(w, Mask(bits))))
  }

  function WithLane(w: Word, shift: nat, bits: nat, value: nat): Word {
    var mask := Shl(ToWord(w, Mask(bits)), shift);
    Or(AndNot(w, mask), Shl(And(ToWord(w, value), ToWord(w, Mask(bits))), shift))
  }

  /** Shifting and masking reads the lane's own bits. */
  lemma LaneIsSlice(w: Word, shift: nat, bits: nat)
    requires shift + bits <= WORD_SIZE
    ensures Lane(w, shift, bits) == Number(w[shift..shift + bits])
  {
    MaskBits(bits, WORD_SIZE);
    var masked := And(Shr(w, shift), ToWord(w, Mask(bits)));
    assert masked == w[shift..shift + bits] + masked[bits..];
    LeadingZeros(w[shift..shift + bits], masked[bits..]);
  }

  lemma WithLaneBits(w: Word, shift: nat, bits: nat, value: nat)
    requires shift + bits <= WORD_SIZE
    ensures WithLane(w, shift, bits, value) == w[..shift] + Bits(value, bits) + w[shift + bits..]
  {
    MaskBits(bits, WORD_SIZE);
    var all := Bits(value, WORD_SIZE);
    assert forall i :: 0 <= i < bits ==> Bits(value, bits)[i] == all[i];
  }

  /** A lane reads back what was written to it, in its own width. */
  lemma LaneWritten(w: Word, shift: nat, bits: nat, value: nat)
    requires shift + bits <= WORD_SIZE
    ensures Lane(WithLane(w, shift, bits, value), shift, bits) == value % Pow2(bits)
  {
    var w' := WithLane(w, shift, bits, value);
    WithLaneBits(w, shift, bits, value);
    LaneIsSlice(w', shift, bits);
    assert w'[shift..shift + bits] == Bits(value, bits);
    NumberOfBits(value, bits);
  }

  /** Writing one lane leaves every lane beside it alone. */
  lemma OtherLane(w: Word, shift: nat, bits: nat, value: nat, other: nat)
    requires shift + bits <= WORD_SIZE && other + bits <= WORD_SIZE
    requires other + bits <= shift || shift + bits <= other
    ensures Lane(WithLane(w, shift, bits, value), other, bits) == Lane(w, other, bits)
  {
    var w' := WithLane(w, shift, bits, value);
    WithLaneBits(w, shift, bits, value);
    LaneIsSlice(w', other, bits);
    LaneIsSlice(w, other, bits);
    assert w'[other..other + bits] == w[other..other + bits];
  }
}
