/** The older sample decimator of peripherals/down_sampling.py, repeated
    unchanged as ADCDownSampling in peripherals/adc.py. The stage order is
    reversed with respect to peripherals/downsampling.py: bytes are selected
    and packed first with the full ratio, then whole packed words are
    throttled with r = ratio >> 3, forwarding the last of every r + 1. */
module DownSamplingLegacy {
  import opened Words
  import opened StreamConverter
  import DownSampling

  /** The ratio register of the ADC core is 32 bits wide. */
  const RatioBound: nat := 0x1_0000_0000
  /** The throttle counter is 16 bits wide. */
  const CountBound: nat := 0x1_0000

  // ---------------------------------------------------------------------
  // Stage 1: byte selection and packing.
  // ---------------------------------------------------------------------

  /** The bytes of one word kept by the older selector: bytes 0, 2, 4 and 7
      at ratio <= 2, bytes 0 and 4 at ratio <= 4, byte 0 above. */
  function LegacySelect(ratio: nat, w: Word): (bs: seq<Byte>)
    ensures |bs| == DownSampling.BytesPerWord(ratio)
  {
    var b := WordBytes(w);
    if ratio <= 1 then b
    else if ratio <= 2 then [b[0], b[2], b[4], b[7]]
    else if ratio <= 4 then [b[0], b[4]]
    else [b[0]]
  }

  /** The older selector agrees with the newer one except at ratio 2, where
      its fourth byte is byte 7 instead of byte 6. */
  lemma LegacySelectVsCurrent(ratio: nat, w: Word)
    ensures ratio <= 1 || ratio > 2 ==> LegacySelect(ratio, w) == DownSampling.Select(ratio, w)
    ensures 1 < ratio <= 2 ==>
              LegacySelect(ratio, w) == DownSampling.Select(ratio, w)[..3] + [ByteOf(w, 7)]
    ensures 1 < ratio <= 2 ==>
              (LegacySelect(ratio, w) == DownSampling.Select(ratio, w) <==> ByteOf(w, 7) == ByteOf(w, 6))
  {
    if 1 < ratio <= 2 {
      var sel := DownSampling.Select(ratio, w);
      assert sel[3] == ByteOf(w, 6);
      assert LegacySelect(ratio, w)[3] == ByteOf(w, 7);
    }
  }

  /** The byte offset that selection i of a word reads. */
  function LegacyOffset(ratio: nat, i: nat): nat
  {
    if 1 < ratio <= 2 && i == 3 then 7 else i * DownSampling.Stride(ratio)
  }

  /** The selected bytes of a word stream, in arrival order. */
  function LegacySelectedBytes(ratio: nat, ws: seq<Word>): (bs: seq<Byte>)
    ensures |bs| == |ws| * DownSampling.BytesPerWord(ratio)
  {
    if ws == [] then []
    else LegacySelectedBytes(ratio, ws[..|ws| - 1]) + LegacySelect(ratio, ws[|ws| - 1])
  }

  lemma LegacySelectedAppend(ratio: nat, ws: seq<Word>, w: Word)
    ensures LegacySelectedBytes(ratio, ws + [w]) ==
            LegacySelectedBytes(ratio, ws) + LegacySelect(ratio, w)
  {
    var s := ws + [w];
    assert s[..|s| - 1] == ws;
  }

  /** Byte t of the selected stream is the byte at LegacyOffset(t % B) of
      word t / B, where B bytes are kept per word. */
  lemma {:induction false} LegacySelectedBytesAt(ratio: nat, ws: seq<Word>, t: nat)
    requires t < |LegacySelectedBytes(ratio, ws)|
    ensures t / DownSampling.BytesPerWord(ratio) < |ws|
    ensures LegacyOffset(ratio, t % DownSampling.BytesPerWord(ratio)) < 8
    ensures LegacySelectedBytes(ratio, ws)[t] ==
            ByteOf(ws[t / DownSampling.BytesPerWord(ratio)],
                   LegacyOffset(ratio, t % DownSampling.BytesPerWord(ratio)))
  {
    var b := DownSampling.BytesPerWord(ratio);
    var n := |ws| - 1;
    var front := LegacySelectedBytes(ratio, ws[..n]);
    assert |front| == n * b;
    if t < |front| {
      LegacySelectedBytesAt(ratio, ws[..n], t);
    } else {
      DownSampling.DivModWithin(t, b, n);
      var i := t - n * b;
      var sel := DownSampling.Select(ratio, ws[n]);
      assert i < |sel|;
      LegacySelectVsCurrent(ratio, ws[n]);
      if !(1 < ratio <= 2 && i == 3) {
        assert LegacySelect(ratio, ws[n])[i] == sel[i];
      }
    }
  }

  /** The packed words of stage 1: full groups of eight selected bytes. */
  function Packed(ratio: nat, ws: seq<Word>): seq<Word>
  {
    PackAll(LegacySelectedBytes(ratio, ws))
  }

  /** The bytes held in the active converter after a stream. */
  function LegacyPending(ratio: nat, ws: seq<Word>): seq<Byte>
  {
    var s := LegacySelectedBytes(ratio, ws);
    s[8 * (|s| / 8)..]
  }

  /** The pending bytes always leave room for one more word's selection. */
  lemma LegacyPendingFits(ratio: nat, ws: seq<Word>)
    ensures |LegacyPending(ratio, ws)| + DownSampling.BytesPerWord(ratio) <= 8
    ensures ratio <= 1 ==> LegacyPending(ratio, ws) == []
  {
    var s := LegacySelectedBytes(ratio, ws);
    GroupFits(|s|, DownSampling.BytesPerWord(ratio), |ws|);
  }

  /** One more input word: its selected bytes join the pending bytes, and a
      packed word is emitted exactly when they complete a group of eight; at
      ratio <= 1 that word is the input word itself. */
  lemma PackedStep(ratio: nat, ws: seq<Word>, w: Word)
    ensures |LegacyPending(ratio, ws)| + DownSampling.BytesPerWord(ratio) == 8 ==>
              Packed(ratio, ws + [w]) ==
                Packed(ratio, ws) + [PackWord(LegacyPending(ratio, ws) + LegacySelect(ratio, w))] &&
              LegacyPending(ratio, ws + [w]) == []
    ensures |LegacyPending(ratio, ws)| + DownSampling.BytesPerWord(ratio) < 8 ==>
              Packed(ratio, ws + [w]) == Packed(ratio, ws) &&
              LegacyPending(ratio, ws + [w]) == LegacyPending(ratio, ws) + LegacySelect(ratio, w)
  {
    LegacyPendingFits(ratio, ws);
    var s := LegacySelectedBytes(ratio, ws);
    var c := LegacySelect(ratio, w);
    LegacySelectedAppend(ratio, ws, w);
    PackAllAppend(s, c);
    TailAppend(s, c);
  }

  /** At ratio <= 1 every input word is packed back unchanged. */
  lemma PackedStepAll(ratio: nat, ws: seq<Word>, w: Word)
    requires ratio <= 1
    ensures Packed(ratio, ws + [w]) == Packed(ratio, ws) + [w]
  {
    LegacyPendingFits(ratio, ws);
    PackedStep(ratio, ws, w);
    var c := LegacySelect(ratio, w);
    assert LegacyPending(ratio, ws) + c == WordBytes(w) by {
      assert c == WordBytes(w);
    }
    assert PackWord(LegacyPending(ratio, ws) + c) == w by {
      PackWordBytes(w);
    }
  }

  class LegacySelector {
    const c32: UpConverter
    const c16: UpConverter
    const c8: UpConverter

    ghost predicate Valid()
      reads this, c32, c16, c8
    {
      c32 != c16 && c16 != c8 && c32 != c8 &&
      c32.Valid() && c16.Valid() && c8.Valid() &&
      c32.chunk == 4 && c16.chunk == 2 && c8.chunk == 1
    }

    /** The converter that the ratio routes selected bytes into. */
    function Active(ratio: nat): UpConverter
      reads this
      requires ratio > 1
    {
      if ratio <= 2 then c32 else if ratio <= 4 then c16 else c8
    }

    constructor ()
      ensures Valid() && fresh(c32) && fresh(c16) && fresh(c8)
      ensures c32.buffer == [] && c16.buffer == [] && c8.buffer == []
    {
      c32 := new UpConverter(4);
      c16 := new UpConverter(2);
      c8 := new UpConverter(1);
    }

    /** One accepted word: at ratio <= 1 the word goes straight through,
        otherwise its selected bytes enter the active converter. */
    method Push(ratio: nat, w: Word) returns (out: Option<Word>)
      requires Valid()
      modifies c32, c16, c8
      ensures Valid()
      ensures ratio <= 1 ==> out == Some(w) && unchanged(c32, c16, c8)
      ensures ratio > 1 ==>
                var c := Active(ratio);
                (|old(c.buffer)| + c.chunk == 8 ==>
                   out == Some(PackWord(old(c.buffer) + LegacySelect(ratio, w))) && c.buffer == []) &&
                (|old(c.buffer)| + c.chunk < 8 ==>
                   out == None && c.buffer == old(c.buffer) + LegacySelect(ratio, w))
      ensures ratio > 1 && Active(ratio) != c32 ==> unchanged(c32)
      ensures ratio > 1 && Active(ratio) != c16 ==> unchanged(c16)
      ensures ratio > 1 && Active(ratio) != c8 ==> unchanged(c8)
    {
      var b := WordBytes(w);
      if ratio <= 1 {
        out := Some(w);
      } else if ratio <= 2 {
        out := c32.Push([b[0], b[2], b[4], b[7]]);
      } else if ratio <= 4 {
        out := c16.Push([b[0], b[4]]);
      } else {
        out := c8.Push([b[0]]);
      }
    }
  }

  // ---------------------------------------------------------------------
  // Stage 2: period r + 1 throttle.
  // ---------------------------------------------------------------------

  /** Reference for the throttle: the last of every r + 1 accepted words.
      With r at or above 2^16 the 16-bit counter can never equal r, so no
      word is ever forwarded. */
  function LegacyKept(r: nat, vs: seq<Word>): seq<Word>
    decreases |vs|
  {
    if r >= CountBound || |vs| <= r then []
    else [vs[r]] + LegacyKept(r, vs[r + 1..])
  }

  /** The counter value after n accepted words. */
  function LegacyCount(r: nat, n: nat): (c: nat)
    ensures c < CountBound
  {
    if r >= CountBound then Phase(CountBound, n) else Phase(r + 1, n)
  }

  /** The 16-bit counter register after one clock tick; accepted is
      sink.valid & sink.ready, and a word is forwarded when count == r. */
  function LegacyNextCount(r: nat, count: nat, accepted: bool): nat
  {
    if r == 0 then 0
    else if accepted then (if count == r then 0 else (count + 1) % CountBound)
    else count
  }

  /** The counter tracks the number of accepted words, and a word is
      forwarded exactly when its phase in the period r + 1 is r. */
  lemma LegacyCountTracks(r: nat, n: nat)
    ensures LegacyNextCount(r, LegacyCount(r, n), true) == LegacyCount(r, n + 1)
    ensures (LegacyCount(r, n) == r) == (r < CountBound && Phase(r + 1, n) == r)
  {
    if r >= CountBound {
      PhaseStep(CountBound, n);
    } else {
      PhaseStep(r + 1, n);
    }
  }

  /** With r = 0 every word is forwarded. */
  lemma {:induction false} LegacyKeptAll(vs: seq<Word>)
    ensures LegacyKept(0, vs) == vs
    decreases |vs|
  {
    if vs != [] {
      LegacyKeptAll(vs[1..]);
    }
  }

  /** One more accepted word is forwarded exactly when the counter equals r. */
  lemma {:induction false} LegacyKeptStep(r: nat, vs: seq<Word>, v: Word)
    ensures LegacyKept(r, vs + [v]) ==
            LegacyKept(r, vs) + (if r < CountBound && Phase(r + 1, |vs|) == r then [v] else [])
    decreases |vs|
  {
    if r < CountBound {
      var s := vs + [v];
      if |vs| < r {
      } else if |vs| == r {
        assert s[r + 1..] == [];
        assert LegacyKept(r, []) == [];
      } else {
        assert s[r + 1..] == vs[r + 1..] + [v];
        LegacyKeptStep(r, vs[r + 1..], v);
      }
    }
  }

  /** The last word of group j of r + 1 words. */
  function GroupEnd(r: nat, j: nat): nat
  {
    j * (r + 1) + r
  }

  /** Output word j of the throttle is input word j * (r + 1) + r. */
  lemma {:induction false} LegacyKeptAt(r: nat, vs: seq<Word>, j: nat)
    requires j < |LegacyKept(r, vs)|
    ensures r < CountBound
    ensures GroupEnd(r, j) < |vs| && LegacyKept(r, vs)[j] == vs[GroupEnd(r, j)]
    decreases |vs|
  {
    assert r < CountBound && r < |vs|;
    var rest := vs[r + 1..];
    assert LegacyKept(r, vs) == [vs[r]] + LegacyKept(r, rest);
    if j > 0 {
      LegacyKeptAt(r, rest, j - 1);
      var i := GroupEnd(r, j - 1);
      assert LegacyKept(r, vs)[j] == rest[i];
      assert GroupEnd(r, j) == i + (r + 1);
    }
  }

  /** k groups of r + 1 words give exactly k output words (for r < 2^16). */
  lemma {:induction false} LegacyKeptLength(r: nat, vs: seq<Word>, k: nat)
    requires r < CountBound && |vs| == k * (r + 1)
    ensures |LegacyKept(r, vs)| == k
    decreases k
  {
    if k > 0 {
      assert |vs| == (k - 1) * (r + 1) + (r + 1);
      LegacyKeptLength(r, vs[r + 1..], k - 1);
    }
  }

  class LegacyThrottle {
    var count: nat

    ghost predicate Valid()
      reads this
    {
      count < CountBound
    }

    constructor ()
      ensures Valid() && count == 0
    {
      count := 0;
    }

    /** One clock tick: ready and data are copied through combinationally,
        valid is gated by count == r, and the counter register updates (the
        reset on a forwarded word overrides the increment). */
    method Tick(r: nat, sinkValid: bool, sinkData: Word, sourceReady: bool)
      returns (sinkReady: bool, sourceValid: bool, sourceData: Word)
      requires Valid()
      modifies this
      ensures Valid()
      ensures sinkReady == sourceReady && sourceData == sinkData
      ensures sourceValid == (sinkValid && old(count) == r)
      ensures count == LegacyNextCount(r, old(count), sinkValid && sourceReady)
    {
      sinkReady := sourceReady;
      sourceData := sinkData;
      sourceValid := sinkValid && count == r;
      if r == 0 {
        count := 0;
      } else if sinkValid && sinkReady {
        count := (count + 1) % CountBound;
        if sourceValid {
          count := 0;
        }
      }
    }
  }

  // ---------------------------------------------------------------------
  // The composed decimator.
  // ---------------------------------------------------------------------

  /** Reference for the whole older decimator: select and pack with the
      full ratio, then keep the last of every (ratio >> 3) + 1 packed words. */
  function LegacyDecimate(ratio: nat, ws: seq<Word>): seq<Word>
  {
    LegacyKept(ratio / 8, Packed(ratio, ws))
  }

  /** The converter buffers and the packed words of stage 1 agree with the
      words ins accepted so far. */
  ghost predicate SelectorTracks(ratio: nat, ins: seq<Word>, ps: seq<Word>,
                                 b32: seq<Byte>, b16: seq<Byte>, b8: seq<Byte>)
  {
    ps == Packed(ratio, ins) &&
    b32 == (if 1 < ratio <= 2 then LegacyPending(ratio, ins) else []) &&
    b16 == (if 2 < ratio <= 4 then LegacyPending(ratio, ins) else []) &&
    b8 == (if 4 < ratio then LegacyPending(ratio, ins) else [])
  }

  /** The counter and the emitted words of stage 2 agree with the packed
      words ps it has seen. */
  ghost predicate ThrottleTracks(ratio: nat, ps: seq<Word>, outs: seq<Word>, count: nat)
  {
    count == LegacyCount(ratio / 8, |ps|) && outs == LegacyKept(ratio / 8, ps)
  }

  class LegacyDownSampler {
    const ratio: nat
    const stage1: LegacySelector
    const stage2: LegacyThrottle
    /** Every word accepted so far, every word stage 1 has packed, and every
        word emitted. */
    ghost var inputs: seq<Word>
    ghost var packed: seq<Word>
    ghost var outputs: seq<Word>

    /** Stage 1 holds the pending bytes of the selected stream, and the
        packed words are the full groups. */
    ghost predicate SelectorHolds()
      reads this`inputs, this`packed, stage1, stage1.c32, stage1.c16, stage1.c8
    {
      stage1.Valid() &&
      SelectorTracks(ratio, inputs, packed, stage1.c32.buffer, stage1.c16.buffer, stage1.c8.buffer)
    }

    /** Stage 2 has seen the packed words ps. */
    ghost predicate ThrottleHolds(ps: seq<Word>)
      reads this`outputs, stage2
    {
      stage2.Valid() && ThrottleTracks(ratio, ps, outputs, stage2.count)
    }

    ghost predicate Valid()
      reads this, stage1, stage2, stage1.c32, stage1.c16, stage1.c8
    {
      ratio < RatioBound && SelectorHolds() && ThrottleHolds(packed)
    }

    constructor (ratio: nat)
      requires ratio < RatioBound
      ensures Valid() && this.ratio == ratio && inputs == [] && outputs == []
      ensures fresh(stage1) && fresh(stage2)
      ensures fresh(stage1.c32) && fresh(stage1.c16) && fresh(stage1.c8)
    {
      this.ratio := ratio;
      stage1 := new LegacySelector();
      stage2 := new LegacyThrottle();
      inputs := [];
      packed := [];
      outputs := [];
      new;
      assert LegacySelectedBytes(ratio, []) == [];
    }

    /** Stage 1 takes one input word and possibly emits a packed word. */
    method Select(w: Word) returns (p: Option<Word>)
      requires SelectorHolds()
      modifies this`inputs, this`packed, stage1.c32, stage1.c16, stage1.c8
      ensures SelectorHolds()
      ensures inputs == old(inputs) + [w]
      ensures packed == old(packed) + (if p.Some? then [p.value] else [])
    {
      LegacyPendingFits(ratio, inputs);
      LegacyPendingFits(ratio, inputs + [w]);
      PackedStep(ratio, inputs, w);
      if ratio <= 1 {
        PackedStepAll(ratio, inputs, w);
      }
      p := stage1.Push(ratio, w);
      inputs := inputs + [w];
      packed := packed + (if p.Some? then [p.value] else []);
    }

    /** Stage 2 sees the packed word, if any, for one clock tick. */
    method Throttle(ghost ps: seq<Word>, p: Option<Word>) returns (out: Option<Word>)
      requires ThrottleHolds(ps)
      modifies this`outputs, stage2
      ensures ThrottleHolds(ps + (if p.Some? then [p.value] else []))
      ensures outputs == old(outputs) + (if out.Some? then [out.value] else [])
    {
      var r := ratio / 8;
      if p.Some? {
        LegacyKeptStep(r, ps, p.value);
        LegacyCountTracks(r, |ps|);
        var ready, valid, data := stage2.Tick(r, true, p.value, true);
        out := if valid then Some(data) else None;
      } else {
        var ready, valid, data := stage2.Tick(r, false, 0, true);
        out := None;
        assert ps + [] == ps;
      }
      outputs := outputs + (if out.Some? then [out.value] else []);
    }

    /** One input word accepted with the output always ready. */
    method Push(w: Word) returns (out: Option<Word>)
      requires Valid()
      modifies this, stage2, stage1.c32, stage1.c16, stage1.c8
      ensures Valid()
      ensures inputs == old(inputs) + [w]
      ensures outputs == old(outputs) + (if out.Some? then [out.value] else [])
    {
      ghost var ps := packed;
      var p := Select(w);
      out := Throttle(ps, p);
    }
  }

  /** A driver loop presenting every input word once, with the output always
      ready; the collected output is the reference result. */
  method LegacyRun(ratio: nat, dataIn: seq<Word>) returns (dataOut: seq<Word>)
    requires ratio < RatioBound
    ensures dataOut == LegacyDecimate(ratio, dataIn)
  {
    var dut := new LegacyDownSampler(ratio);
    dataOut := [];
    var i := 0;
    while i < |dataIn|
      invariant 0 <= i <= |dataIn|
      invariant dut.Valid() && dut.ratio == ratio
      invariant fresh(dut.stage1) && fresh(dut.stage2)
      invariant fresh(dut.stage1.c32) && fresh(dut.stage1.c16) && fresh(dut.stage1.c8)
      invariant dut.inputs == dataIn[..i] && dut.outputs == dataOut
    {
      TakeStep(dataIn, i);
      var out := dut.Push(dataIn[i]);
      dataOut := dataOut + (if out.Some? then [out.value] else []);
      i := i + 1;
    }
    assert dataIn[..i] == dataIn;
  }

  // ---------------------------------------------------------------------
  // Properties of the reference.
  // ---------------------------------------------------------------------

  /** Ratios 0 and 1 pass the stream through unchanged. */
  lemma {:induction false} LegacyDecimateIdentity(ratio: nat, ws: seq<Word>)
    requires ratio <= 1
    ensures LegacyDecimate(ratio, ws) == ws
  {
    LegacyKeptAll(Packed(ratio, ws));
    LegacyPackedIdentity(ratio, ws);
  }

  lemma {:induction false} LegacyPackedIdentity(ratio: nat, ws: seq<Word>)
    requires ratio <= 1
    ensures Packed(ratio, ws) == ws
    decreases |ws|
  {
    if ws != [] {
      var front, w := ws[..|ws| - 1], ws[|ws| - 1];
      assert ws == front + [w];
      LegacyPackedIdentity(ratio, front);
      PackedStepAll(ratio, front, w);
    }
  }

  /** The selected byte that byte b of output word j carries: the last
      packed word of each group of r + 1. */
  function LegacySource(ratio: nat, j: nat, b: nat): nat
  {
    8 * GroupEnd(ratio / 8, j) + b
  }

  /** The complete content of the older decimator's output for r < 2^16:
      byte b of output word j is selected byte LegacySource(ratio, j, b) of
      the input stream. */
  lemma LegacyDecimateAt(ratio: nat, ws: seq<Word>, j: nat, b: nat)
    requires j < |LegacyDecimate(ratio, ws)| && b < 8
    ensures ratio / 8 < CountBound
    ensures var t := LegacySource(ratio, j, b);
            t / DownSampling.BytesPerWord(ratio) < |ws| &&
            LegacyOffset(ratio, t % DownSampling.BytesPerWord(ratio)) < 8 &&
            ByteOf(LegacyDecimate(ratio, ws)[j], b) ==
              ByteOf(ws[t / DownSampling.BytesPerWord(ratio)],
                     LegacyOffset(ratio, t % DownSampling.BytesPerWord(ratio)))
  {
    LegacyOutputByte(ratio, ws, j, b);
    LegacySelectedBytesAt(ratio, ws, LegacySource(ratio, j, b));
  }

  /** Output word j of the older decimator is packed word GroupEnd(r, j). */
  lemma LegacyOutputWord(ratio: nat, ws: seq<Word>, j: nat)
    requires j < |LegacyDecimate(ratio, ws)|
    ensures ratio / 8 < CountBound
    ensures GroupEnd(ratio / 8, j) < |LegacySelectedBytes(ratio, ws)| / 8
    ensures LegacyDecimate(ratio, ws)[j] ==
            PackAll(LegacySelectedBytes(ratio, ws))[GroupEnd(ratio / 8, j)]
  {
    LegacyKeptAt(ratio / 8, Packed(ratio, ws), j);
  }

  /** Byte b of output word j is selected byte LegacySource(ratio, j, b). */
  lemma LegacyOutputByte(ratio: nat, ws: seq<Word>, j: nat, b: nat)
    requires j < |LegacyDecimate(ratio, ws)| && b < 8
    ensures ratio / 8 < CountBound
    ensures LegacySource(ratio, j, b) < |LegacySelectedBytes(ratio, ws)|
    ensures ByteOf(LegacyDecimate(ratio, ws)[j], b) ==
            LegacySelectedBytes(ratio, ws)[LegacySource(ratio, j, b)]
  {
    LegacyOutputWord(ratio, ws, j);
    PackAllWordByte(LegacySelectedBytes(ratio, ws), GroupEnd(ratio / 8, j), b);
  }

  /** For a ratio that is a multiple of 8 below 2^19, 8 * (r + 1) * k input
      words give exactly k output words: the older throttle divides by
      r + 1, not by r. */
  lemma LegacyDecimateLength(ratio: nat, ws: seq<Word>, k: nat)
    requires ratio >= 8 && ratio % 8 == 0 && ratio / 8 < CountBound
    requires |ws| == 8 * (ratio / 8 + 1) * k
    ensures |LegacyDecimate(ratio, ws)| == k
  {
    var r := ratio / 8;
    assert |Packed(ratio, ws)| == (r + 1) * k by {
      assert |LegacySelectedBytes(ratio, ws)| == 8 * ((r + 1) * k);
    }
    assert |Packed(ratio, ws)| == k * (r + 1);
    LegacyKeptLength(r, Packed(ratio, ws), k);
  }
}
