// Length-prefixed frames over a byte stream that may be cut anywhere.
module Framing {
  import opened Sequences
  import opened Options
  import opened ChunkWords

  type Byte = n: nat | n < 256

  const PREFIX := 4
  const LENGTH_LIMIT := 0x1_0000_0000

  // ---------------------------------------------------------------- encoding

  function LowByte(v: nat): Byte {
    v % 256
  }

  /** The length in four bytes, highest first, truncated to 32 bits. */
  function Prefix(length: nat): (bytes: seq<Byte>)
    ensures |bytes| == PREFIX
  {
    var shift8: nat := length / 256;
    var shift16: nat := shift8 / 256;
    var shift24: nat := shift16 / 256;
    [LowByte(shift24), LowByte(shift16), LowByte(shift8), LowByte(length)]
  }

  function LengthOf(bytes: seq<Byte>): nat
    requires |bytes| >= PREFIX
  {
    var b0: nat, b1: nat, b2: nat, b3: nat := bytes[0], bytes[1], bytes[2], bytes[3];
    ((b0 * 256 + b1) * 256 + b2) * 256 + b3
  }

  function Encode(payload: seq<Byte>): (frame: seq<Byte>)
    ensures |frame| == PREFIX + |payload|
  {
    Prefix(|payload|) + payload
  }

  lemma LowDigit(v: nat, n: nat)
    requires n > 0
    ensures v % (256 * n) == (v / 256 % n) * 256 + LowByte(v)
  {
    var q := v / 256;
    assert v == q * 256 + v % 256;
    assert q == (q / n) * n + q % n;
    var high, low := q / n, (q % n) * 256 + v % 256;
    assert v == high * (256 * n) + low && low < 256 * n;
    Remainder(v, 256 * n, high, low);
  }

  lemma Remainder(v: nat, d: nat, q: nat, r: nat)
    requires v == q * d + r && r < d
    ensures v % d == r
  {
    DivModUnique(v, d, q, r);
  }

  /** The prefix carries the length modulo 2^32. */
  lemma PrefixRoundTrip(length: nat)
    ensures LengthOf(Prefix(length)) == length % LENGTH_LIMIT
  {
    var shift8 := length / 256;
    var shift16 := shift8 / 256;
    LowDigit(length, 0x100_0000);
    LowDigit(shift8, 0x1_0000);
    LowDigit(shift16, 0x100);
  }

  /** The prefix holds the digits of the length to base 256, the highest of four first. */
  lemma PrefixDigits(length: nat)
    ensures Prefix(length)[0] == length / 0x100_0000 % 256 && Prefix(length)[1] == length / 0x1_0000 % 256
    ensures Prefix(length)[2] == length / 0x100 % 256 && Prefix(length)[3] == length % 256
  {
  }

  method EncodeFrame(payload: seq<Byte>) returns (frame: array<Byte>)
    ensures fresh(frame) && frame[..] == Encode(payload)
  {
    frame := new Byte[PREFIX + |payload|](_ => 0);
    var prefix := Prefix(|payload|);
    frame[0], frame[1], frame[2], frame[3] := prefix[0], prefix[1], prefix[2], prefix[3];
    for k := 0 to |payload|
      invariant frame[..PREFIX] == prefix
      invariant frame[PREFIX..PREFIX + k] == payload[..k]
    {
      frame[PREFIX + k] := payload[k];
    }
  }

  // ---------------------------------------------------------------- decoding

  /** Frames taken off the front of a buffer, what is left, and whether no frame was too large. */
  datatype Drained = Drained(frames: seq<seq<Byte>>, rest: seq<Byte>, ok: bool)

  function Drain(max: nat, buffer: seq<Byte>): Drained
    decreases |buffer|
  {
    if |buffer| < PREFIX then Drained([], buffer, true)
    else if LengthOf(buffer) > max then Drained([], buffer, false)
    else if |buffer| < PREFIX + LengthOf(buffer) then Drained([], buffer, true)
    else
      var n := PREFIX + LengthOf(buffer);
      var more := Drain(max, buffer[n..]);
      more.(frames := [buffer[PREFIX..n]] + more.frames)
  }

  class Decoder {
    const maximumFrameSize: nat
    var buffer: seq<Byte>

    constructor (maximumFrameSize: nat)
      requires maximumFrameSize >= 1
      ensures this.maximumFrameSize == maximumFrameSize && buffer == []
    {
      this.maximumFrameSize := maximumFrameSize;
      buffer := [];
    }

    /**
     * None when a frame is too large; the frames before it in this push are lost, and it stays in front of
     * the buffer.
     */
    method Push(chunk: seq<Byte>) returns (r: Option<seq<seq<Byte>>>)
      modifies this`buffer
      ensures var d := Drain(maximumFrameSize, old(buffer) + chunk);
        buffer == d.rest && r == if d.ok then Some(d.frames) else None
    {
      buffer := buffer + chunk;
      var frames := [];
      ghost var all := Drain(maximumFrameSize, buffer);
      while |buffer| >= PREFIX
        invariant var d := Drain(maximumFrameSize, buffer); all == d.(frames := frames + d.frames)
        decreases |buffer|
      {
        var length := LengthOf(buffer);
        if length > maximumFrameSize {
          return None;
        }
        if |buffer| < PREFIX + length {
          break;
        }
        frames := frames + [buffer[PREFIX..PREFIX + length]];
        buffer := buffer[PREFIX + length..];
      }
      assert frames + [] == frames;
      r := Some(frames);
    }
  }

  // ----------------------------------------------------------- fragmentation

  /** A whole frame at the front is taken off. */
  lemma FrameTaken(max: nat, b: seq<Byte>, n: nat)
    requires |b| >= PREFIX && LengthOf(b) <= max && n == PREFIX + LengthOf(b) <= |b|
    ensures Drain(max, b) == After([b[PREFIX..n]], Drain(max, b[n..]))
  {
  }

  lemma SameLength(b: seq<Byte>, c: seq<Byte>)
    requires |b| >= PREFIX
    ensures LengthOf(b + c) == LengthOf(b)
  {
    assert (b + c)[0] == b[0] && (b + c)[1] == b[1] && (b + c)[2] == b[2] && (b + c)[3] == b[3];
  }

  lemma SlicesOfAppend(b: seq<Byte>, c: seq<Byte>, n: nat)
    requires PREFIX <= n <= |b|
    ensures (b + c)[n..] == b[n..] + c && (b + c)[PREFIX..n] == b[PREFIX..n]
  {
  }

  function After(first: seq<seq<Byte>>, d: Drained): Drained {
    d.(frames := first + d.frames)
  }

  lemma AfterAfter(first: seq<seq<Byte>>, second: seq<seq<Byte>>, d: Drained)
    ensures After(first, After(second, d)) == After(first + second, d)
  {
    assert first + (second + d.frames) == (first + second) + d.frames;
  }

  /** Draining what is left of a buffer together with new bytes is draining both together. */
  lemma {:induction false} DrainResumes(max: nat, b: seq<Byte>, c: seq<Byte>)
    ensures var d := Drain(max, b);
      Drain(max, b + c) == if d.ok then After(d.frames, Drain(max, d.rest + c)) else d.(rest := d.rest + c)
    decreases |b|
  {
    if |b| >= PREFIX && LengthOf(b) > max {
      SameLength(b, c);
    } else if |b| >= PREFIX && |b| >= PREFIX + LengthOf(b) {
      var n := PREFIX + LengthOf(b);
      SameLength(b, c);
      FrameTaken(max, b, n);
      FrameTaken(max, b + c, n);
      SlicesOfAppend(b, c, n);
      DrainResumes(max, b[n..], c);
      var d := Drain(max, b[n..]);
      AfterAfter([b[PREFIX..n]], d.frames, Drain(max, d.rest + c));
    } else {
      AfterNothing(Drain(max, b + c));
    }
  }

  lemma AfterNothing(d: Drained)
    ensures After([], d) == d
  {
    assert [] + d.frames == d.frames;
  }

  lemma EncodedCons(p: seq<Byte>, payloads: seq<seq<Byte>>)
    ensures Encoded([p] + payloads) == Encode(p) + Encoded(payloads)
  {
    assert ([p] + payloads)[1..] == payloads;
  }

  lemma FrameIsEncoded(b: seq<Byte>, n: nat)
    requires |b| >= PREFIX && n == PREFIX + LengthOf(b) <= |b|
    ensures b == Encode(b[PREFIX..n]) + b[n..]
  {
    PrefixOfLength(b);
    assert b[..n] == Encode(b[PREFIX..n]);
    assert b == b[..n] + b[n..];
  }

  /** What is drained and what is left make up the buffer. */
  lemma {:induction false} DrainConserves(max: nat, b: seq<Byte>)
    ensures b == Encoded(Drain(max, b).frames) + Drain(max, b).rest
    decreases |b|
  {
    if |b| >= PREFIX && LengthOf(b) <= max && |b| >= PREFIX + LengthOf(b) {
      var n := PREFIX + LengthOf(b);
      var more := Drain(max, b[n..]);
      FrameTaken(max, b, n);
      DrainConserves(max, b[n..]);
      EncodedCons(b[PREFIX..n], more.frames);
      FrameIsEncoded(b, n);
      AppendAppend(Encode(b[PREFIX..n]), Encoded(more.frames), more.rest);
    } else {
      AppendNothing(b);
    }
  }

  lemma PrefixOfLength(b: seq<Byte>)
    requires |b| >= PREFIX
    ensures Prefix(LengthOf(b)) == b[..PREFIX]
  {
    var b0: nat, b1: nat, b2: nat := b[0], b[1], b[2];
    HighPart((b0 * 256 + b1) * 256 + b2, b[3]);
    HighPart(b0 * 256 + b1, b[2]);
    HighPart(b0, b[1]);
  }

  lemma HighPart(high: nat, low: Byte)
    ensures (high * 256 + low) / 256 == high && LowByte(high * 256 + low) == low
  {
  }

  /** The payloads' frames one after the other. */
  function Encoded(payloads: seq<seq<Byte>>): seq<Byte> {
    if payloads == [] then [] else Encode(payloads[0]) + Encoded(payloads[1..])
  }

  predicate Fit(max: nat, payloads: seq<seq<Byte>>) {
    forall p :: p in payloads ==> |p| <= max && |p| < LENGTH_LIMIT
  }

  lemma EncodedParts(p: seq<Byte>, tail: seq<Byte>)
    ensures var stream, n := Encode(p) + tail, PREFIX + |p|;
      stream == Prefix(|p|) + (p + tail) && stream[PREFIX..n] == p && stream[n..] == tail
  {
  }

  lemma EncodedLength(p: seq<Byte>, tail: seq<Byte>)
    requires |p| < LENGTH_LIMIT
    ensures LengthOf(Encode(p) + tail) == |p|
  {
    PrefixRoundTrip(|p|);
    SameLength(Prefix(|p|), p + tail);
    EncodedParts(p, tail);
  }

  lemma EncodedFrameTaken(max: nat, p: seq<Byte>, tail: seq<Byte>)
    requires |p| <= max && |p| < LENGTH_LIMIT
    ensures Drain(max, Encode(p) + tail) == After([p], Drain(max, tail))
  {
    EncodedParts(p, tail);
    EncodedLength(p, tail);
    FrameTaken(max, Encode(p) + tail, PREFIX + |p|);
  }

  /** Encoded payloads drain to themselves, with whatever follows them drained after them. */
  lemma {:induction false} EncodedDrains(max: nat, payloads: seq<seq<Byte>>, tail: seq<Byte>)
    requires Fit(max, payloads)
    ensures Drain(max, Encoded(payloads) + tail) == After(payloads, Drain(max, tail))
  {
    if payloads == [] {
      assert Encoded(payloads) + tail == tail;
      assert [] + Drain(max, tail).frames == Drain(max, tail).frames;
    } else {
      var rest := Encoded(payloads[1..]) + tail;
      assert Encoded(payloads) + tail == Encode(payloads[0]) + rest;
      EncodedFrameTaken(max, payloads[0], rest);
      EncodedDrains(max, payloads[1..], tail);
      AfterAfter([payloads[0]], payloads[1..], Drain(max, tail));
      assert [payloads[0]] + payloads[1..] == payloads;
    }
  }

  function Flat(chunks: seq<seq<Byte>>): seq<Byte> {
    if chunks == [] then [] else Flat(chunks[..|chunks| - 1]) + chunks[|chunks| - 1]
  }

  /** Pushing chunk after chunk into a decoder: all frames so far, the buffer, and whether no push failed. */
  function Pushed(max: nat, chunks: seq<seq<Byte>>): Drained {
    if chunks == [] then Drained([], [], true)
    else
      var before := Pushed(max, chunks[..|chunks| - 1]);
      var d := Drain(max, before.rest + chunks[|chunks| - 1]);
      Drained(if d.ok then before.frames + d.frames else before.frames, d.rest, before.ok && d.ok)
  }

  /** As long as no push fails, pushing in pieces is draining the whole stream at once. */
  lemma {:induction false} PushedIsDrained(max: nat, chunks: seq<seq<Byte>>)
    ensures Pushed(max, chunks).ok <==> Drain(max, Flat(chunks)).ok
    ensures Pushed(max, chunks).ok ==> Pushed(max, chunks) == Drain(max, Flat(chunks))
    ensures !Pushed(max, chunks).ok ==>
      Pushed(max, chunks).rest == Drain(max, Flat(chunks)).rest && !Drain(max, Pushed(max, chunks).rest).ok
  {
    if chunks != [] {
      var n := |chunks| - 1;
      PushedIsDrained(max, chunks[..n]);
      var before := Pushed(max, chunks[..n]);
      DrainResumes(max, Flat(chunks[..n]), chunks[n]);
      RestIsStuck(max, Flat(chunks));
      if !before.ok {
        DrainResumes(max, before.rest, chunks[n]);
        StuckDrains(max, before.rest);
      }
    }
  }

  /** What is left in front is drained no further. */
  lemma {:induction false} RestIsStuck(max: nat, b: seq<Byte>)
    ensures var d := Drain(max, b); Drain(max, d.rest) == Drained([], d.rest, d.ok)
    decreases |b|
  {
    if |b| >= PREFIX && LengthOf(b) <= max && |b| >= PREFIX + LengthOf(b) {
      RestIsStuck(max, b[PREFIX + LengthOf(b)..]);
    }
  }

  lemma StuckDrains(max: nat, b: seq<Byte>)
    requires !Drain(max, b).ok && Drain(max, Drain(max, b).rest) == Drain(max, b)
    ensures Drain(max, b).frames == []
  {
    RestIsStuck(max, b);
  }

  lemma {:induction false} FlatSplit(chunks: seq<seq<Byte>>, k: nat) returns (later: seq<Byte>)
    requires k <= |chunks|
    ensures Flat(chunks) == Flat(chunks[..k]) + later
  {
    if k == |chunks| {
      assert chunks[..k] == chunks;
      later := [];
    } else {
      var n := |chunks| - 1;
      later := FlatSplit(chunks[..n], k);
      assert chunks[..n][..k] == chunks[..k];
      later := later + chunks[n];
    }
  }

  /** Whatever the cuts: pushing the encoded payloads yields exactly those payloads, in order, and leaves nothing. */
  lemma AnyFragmentation(max: nat, payloads: seq<seq<Byte>>, chunks: seq<seq<Byte>>)
    requires Fit(max, payloads) && Flat(chunks) == Encoded(payloads)
    ensures Pushed(max, chunks) == Drained(payloads, [], true)
  {
    assert Encoded(payloads) + [] == Encoded(payloads);
    EncodedDrains(max, payloads, []);
    PushedIsDrained(max, chunks);
    assert payloads + [] == payloads;
  }

  /**
   * After every push, the frames so far are the first payloads, and the buffer is the rest of what was
   * pushed, with no whole frame in it.
   */
  lemma BufferIsUnconsumedSuffix(max: nat, payloads: seq<seq<Byte>>, chunks: seq<seq<Byte>>, k: nat)
    requires Fit(max, payloads) && Flat(chunks) == Encoded(payloads) && k <= |chunks|
    ensures var d := Pushed(max, chunks[..k]);
      && d.ok && d.frames <= payloads
      && Flat(chunks[..k]) == Encoded(d.frames) + d.rest && Drain(max, d.rest) == Drained([], d.rest, true)
  {
    AnyFragmentation(max, payloads, chunks);
    PushedIsDrained(max, chunks);
    PushedIsDrained(max, chunks[..k]);
    var later := FlatSplit(chunks, k);
    DrainResumes(max, Flat(chunks[..k]), later);
    DrainConserves(max, Flat(chunks[..k]));
    RestIsStuck(max, Flat(chunks[..k]));
  }

  lemma OversizeStops(max: nat, big: seq<Byte>, tail: seq<Byte>)
    requires max < |big| < LENGTH_LIMIT
    ensures Drain(max, Encode(big) + tail) == Drained([], Encode(big) + tail, false)
  {
    EncodedLength(big, tail);
  }

  /**
   * A payload above the maximum makes some push fail, and stays at the front of the buffer with all that
   * follows it.
   */
  lemma OversizeFails(max: nat, payloads: seq<seq<Byte>>, big: seq<Byte>, tail: seq<Byte>, chunks: seq<seq<Byte>>)
    requires Fit(max, payloads) && max < |big| < LENGTH_LIMIT
    requires Flat(chunks) == Encoded(payloads) + (Encode(big) + tail)
    ensures var d := Pushed(max, chunks); !d.ok && d.rest == Encode(big) + tail
  {
    var bad := Encode(big) + tail;
    OversizeStops(max, big, tail);
    EncodedDrains(max, payloads, bad);
    PushedIsDrained(max, chunks);
  }

  /** What was pushed so far ends after the last good frame and before the oversized prefix is whole. */
  predicate CutBetween(payloads: seq<seq<Byte>>, pushed: seq<Byte>) {
    |Encoded(payloads)| <= |pushed| < |Encoded(payloads)| + PREFIX
  }

  /** Draining the first bytes of good frames followed by an oversized one. */
  lemma DrainsUpTo(max: nat, payloads: seq<seq<Byte>>, big: seq<Byte>, tail: seq<Byte>, b: seq<Byte>)
    requires Fit(max, payloads) && max < |big| < LENGTH_LIMIT
    requires b <= Encoded(payloads) + (Encode(big) + tail)
    ensures Drain(max, b).ok <==> |b| < |Encoded(payloads)| + PREFIX
    ensures Drain(max, b).ok ==> (Drain(max, b).frames == payloads <==> |b| >= |Encoded(payloads)|)
  {
    var good := Encoded(payloads);
    if |b| < |good| {
      DrainsSome(max, payloads, b);
    } else {
      PartsBeyond(good, big, tail, b);
      DrainsBeyond(max, payloads, |big|, b[|good|..]);
    }
  }

  lemma PartsBeyond(good: seq<Byte>, big: seq<Byte>, tail: seq<Byte>, b: seq<Byte>)
    requires |b| >= |good| && b <= good + (Encode(big) + tail)
    ensures b == good + b[|good|..]
    ensures |b[|good|..]| >= PREFIX ==> b[|good|..][..PREFIX] == Prefix(|big|)
  {
  }

  lemma DrainsSome(max: nat, payloads: seq<seq<Byte>>, b: seq<Byte>)
    requires Fit(max, payloads) && |b| < |Encoded(payloads)| && b <= Encoded(payloads)
    ensures Drain(max, b).ok && Drain(max, b).frames != payloads
  {
    var good := Encoded(payloads);
    assert good == b + good[|b|..] && good + [] == good;
    EncodedDrains(max, payloads, []);
    DrainResumes(max, b, good[|b|..]);
    DrainConserves(max, b);
  }

  lemma DrainsBeyond(max: nat, payloads: seq<seq<Byte>>, length: nat, over: seq<Byte>)
    requires Fit(max, payloads) && max < length < LENGTH_LIMIT
    requires |over| >= PREFIX ==> over[..PREFIX] == Prefix(length)
    ensures var d := Drain(max, Encoded(payloads) + over);
      (d.ok <==> |over| < PREFIX) && (d.ok ==> d.frames == payloads)
  {
    EncodedDrains(max, payloads, over);
    if |over| >= PREFIX {
      OversizePrefix(max, length, over);
    } else {
      assert payloads + [] == payloads;
    }
  }

  lemma OversizePrefix(max: nat, length: nat, b: seq<Byte>)
    requires max < length < LENGTH_LIMIT && |b| >= PREFIX && b[..PREFIX] == Prefix(length)
    ensures !Drain(max, b).ok
  {
    PrefixRoundTrip(length);
    SameLength(Prefix(length), b[PREFIX..]);
    assert b == Prefix(length) + b[PREFIX..];
  }

  /** A push that fails returns no frames. */
  lemma FailedPushReturnsNothing(max: nat, chunks: seq<seq<Byte>>)
    requires chunks != [] && !Pushed(max, chunks).ok
    ensures Pushed(max, chunks).frames == Pushed(max, chunks[..|chunks| - 1]).frames
  {
    var n := |chunks| - 1;
    var before := Pushed(max, chunks[..n]);
    PushedIsDrained(max, chunks[..n]);
    DrainResumes(max, before.rest, chunks[n]);
  }

  predicate CutAt(payloads: seq<seq<Byte>>, chunks: seq<seq<Byte>>, k: nat)
    requires k <= |chunks|
  {
    CutBetween(payloads, Flat(chunks[..k]))
  }

  predicate SomeCut(payloads: seq<seq<Byte>>, chunks: seq<seq<Byte>>) {
    exists k :: 0 <= k <= |chunks| && CutAt(payloads, chunks, k)
  }

  lemma CutLess(payloads: seq<seq<Byte>>, chunks: seq<seq<Byte>>, k: nat)
    requires k < |chunks|
    ensures CutAt(payloads, chunks[..|chunks| - 1], k) <==> CutAt(payloads, chunks, k)
  {
    assert chunks[..|chunks| - 1][..k] == chunks[..k];
  }

  lemma CutLast(payloads: seq<seq<Byte>>, chunks: seq<seq<Byte>>)
    ensures CutAt(payloads, chunks, |chunks|) <==> CutBetween(payloads, Flat(chunks))
  {
    assert chunks[..|chunks|] == chunks;
  }

  lemma SomeCutMore(payloads: seq<seq<Byte>>, chunks: seq<seq<Byte>>)
    requires chunks != []
    ensures SomeCut(payloads, chunks) <==>
      SomeCut(payloads, chunks[..|chunks| - 1]) || CutBetween(payloads, Flat(chunks))
  {
    var n, less := |chunks|, chunks[..|chunks| - 1];
    CutLast(payloads, chunks);
    if SomeCut(payloads, chunks) {
      var k :| 0 <= k <= n && CutAt(payloads, chunks, k);
      if k < n {
        CutLess(payloads, chunks, k);
      }
    }
    if SomeCut(payloads, less) {
      var k :| 0 <= k <= |less| && CutAt(payloads, less, k);
      CutLess(payloads, chunks, k);
    }
  }

  /** Before the good frames are all there, no cut lies behind them. */
  lemma NoCutBefore(payloads: seq<seq<Byte>>, chunks: seq<seq<Byte>>)
    requires |Flat(chunks)| < |Encoded(payloads)|
    ensures !SomeCut(payloads, chunks)
  {
    forall k | 0 <= k <= |chunks| ensures !CutAt(payloads, chunks, k) {
      var later := FlatSplit(chunks, k);
    }
  }

  /**
   * However much of the stream has arrived, every good frame before an
   * oversized one is returned exactly when some cut falls between the last of
   * them and the end of the oversized prefix.
   */
  lemma {:induction false} GoodFramesReturned(max: nat, payloads: seq<seq<Byte>>, big: seq<Byte>, tail: seq<Byte>,
                                              chunks: seq<seq<Byte>>)
    requires Fit(max, payloads) && max < |big| < LENGTH_LIMIT
    requires Flat(chunks) <= Encoded(payloads) + (Encode(big) + tail)
    ensures Pushed(max, chunks).frames == payloads <==> SomeCut(payloads, chunks)
  {
    DrainsUpTo(max, payloads, big, tail, Flat(chunks));
    PushedIsDrained(max, chunks);
    if Pushed(max, chunks).ok {
      if |Flat(chunks)| < |Encoded(payloads)| {
        NoCutBefore(payloads, chunks);
      } else {
        CutLast(payloads, chunks);
      }
    } else {
      FailedPushReturnsNothing(max, chunks);
      GoodFramesReturned(max, payloads, big, tail, chunks[..|chunks| - 1]);
      SomeCutMore(payloads, chunks);
    }
  }

  /** The good frames that arrive in the same push as an oversized one are not returned. */
  lemma OversizeLosesItsPush(max: nat, payload: seq<Byte>, big: seq<Byte>)
    requires |payload| <= max < |big| < LENGTH_LIMIT
    ensures var stream := Encode(payload) + Encode(big);
      Drain(max, stream).frames == [payload] && Pushed(max, [stream]) == Drained([], Encode(big), false)
  {
    var bad := Encode(big);
    assert bad + [] == bad;
    OversizeStops(max, big, []);
    EncodedFrameTaken(max, payload, bad);
    OnePush(max, Encode(payload) + bad);
  }

  lemma OnePush(max: nat, stream: seq<Byte>)
    ensures var d := Drain(max, stream); Pushed(max, [stream]) == Drained(if d.ok then d.frames else [], d.rest, d.ok)
  {
    var chunks := [stream];
    assert chunks[..|chunks| - 1] == [];
    assert [] + stream == stream;
    assert [] + Drain(max, stream).frames == Drain(max, stream).frames;
  }
}
