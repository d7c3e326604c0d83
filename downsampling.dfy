/** The sample decimator of peripherals/downsampling.py. A stream of 64-bit
    words, each holding eight one-byte samples (byte 0 least significant), is
    reduced by a runtime ratio in two stages: a word throttle driven by
    ratio >> 3, then a byte-stride selector whose selected bytes are packed
    into full 64-bit words. */
module DownSampling {
  import opened Words
  import opened StreamConverter

  /** The ratio register and the throttle counter are both 16 bits wide. */
  const RatioBound: nat := 0x1_0000
  const CountBound: nat := 0x1_0000

  // ---------------------------------------------------------------------
  // Stage 1: word throttle.
  // ---------------------------------------------------------------------

  /** The counting period of a throttle programmed with r: a value below 1
      holds the counter at 0, which forwards every word, like a period of 1. */
  function Period(r: nat): (p: nat)
    ensures p >= 1
  {
    if r == 0 then 1 else r
  }

  /** Reference for the throttle: the first of every r accepted words. */
  function Kept(r: nat, ws: seq<Word>): seq<Word>
    decreases |ws|
  {
    if ws == [] then []
    else [ws[0]] + Kept(r, if Period(r) < |ws| then ws[Period(r)..] else [])
  }

  /** With r < 2 every word is forwarded unchanged. */
  lemma {:induction false} KeptAll(r: nat, ws: seq<Word>)
    requires r <= 1
    ensures Kept(r, ws) == ws
    decreases |ws|
  {
    if ws != [] {
      if 1 < |ws| { KeptAll(r, ws[1..]); } else { assert Kept(r, []) == []; }
    }
  }

  /** Output word j of the throttle is input word j * r. */
  lemma {:induction false} KeptAt(r: nat, ws: seq<Word>, j: nat)
    requires r >= 1 && j < |Kept(r, ws)|
    ensures j * r < |ws| && Kept(r, ws)[j] == ws[j * r]
  {
    KeptAtStart(r, ws, j);
  }

  /** The first word of group j of r words. */
  function GroupStart(r: nat, j: nat): nat
  {
    j * r
  }

  lemma {:induction false} KeptAtStart(r: nat, ws: seq<Word>, j: nat)
    requires r >= 1 && j < |Kept(r, ws)|
    ensures GroupStart(r, j) < |ws| && Kept(r, ws)[j] == ws[GroupStart(r, j)]
    decreases |ws|
  {
    assert Period(r) == r;
    var rest := if r < |ws| then ws[r..] else [];
    assert Kept(r, ws) == [ws[0]] + Kept(r, rest);
    if j > 0 {
      assert r < |ws| && rest == ws[r..];
      KeptAtStart(r, rest, j - 1);
      var i := GroupStart(r, j - 1);
      assert Kept(r, ws)[j] == rest[i];
      MulStep(j, r);
      assert GroupStart(r, j) == i + r;
    }
  }

  /** k groups of r input words give exactly k output words. */
  lemma {:induction false} KeptLength(r: nat, ws: seq<Word>, k: nat)
    requires r >= 1 && |ws| == k * r
    ensures |Kept(r, ws)| == k
    decreases k
  {
    if k > 0 {
      assert |ws| == (k - 1) * r + r;
      if r < |ws| {
        KeptLength(r, ws[r..], k - 1);
      } else {
        assert k == 1;
        assert Kept(r, []) == [];
      }
    }
  }

  /** One more accepted word is forwarded exactly when the counter phase is 0. */
  lemma {:induction false} KeptStep(r: nat, ws: seq<Word>, w: Word)
    ensures Kept(r, ws + [w]) ==
            Kept(r, ws) + (if Phase(Period(r), |ws|) == 0 then [w] else [])
    decreases |ws|
  {
    var p := Period(r);
    if ws == [] {
      assert Kept(r, []) == [];
    } else if |ws| < p {
      assert Kept(r, ws + [w]) == [ws[0]] + Kept(r, []);
      assert Kept(r, ws) == [ws[0]] + Kept(r, []);
    } else {
      assert (ws + [w])[p..] == ws[p..] + [w];
      if |ws| == p {
        assert ws[p..] == [];
        KeptStep(r, [], w);
        assert Kept(r, ws) == [ws[0]] + Kept(r, []);
      } else {
        KeptStep(r, ws[p..], w);
      }
    }
  }

  /** The 16-bit counter register of the throttle after one clock tick, where
      r is ratio >> 3 and accepted is sink.valid & sink.ready. */
  function NextCount(r: nat, count: nat, accepted: bool): nat
  {
    if r < 1 then 0
    else if accepted then (if count == r - 1 then 0 else (count + 1) % CountBound)
    else count
  }

  /** Within a fixed period the counter cycles 0, 1, .., r - 1 and the phase
      of the accepted-word count tracks it exactly. */
  lemma CountTracksPhase(r: nat, n: nat)
    requires r < CountBound
    ensures NextCount(r, Phase(Period(r), n), true) == Phase(Period(r), n + 1)
  {
    PhaseStep(Period(r), n);
  }

  class Throttle {
    var count: nat

    ghost predicate Valid()
      reads this
    {
      count < CountBound
    }

    constructor ()
      ensures Valid() && count == 0
    {
      count := 0;
    }

    /** One clock tick: ready and data are copied through combinationally,
        valid is gated by count == 0, and the counter register updates. */
    method Tick(r: nat, sinkValid: bool, sinkData: Word, sourceReady: bool)
      returns (sinkReady: bool, sourceValid: bool, sourceData: Word)
      requires Valid()
      modifies this
      ensures Valid()
      ensures sinkReady == sourceReady && sourceData == sinkData
      ensures sourceValid == (sinkValid && old(count) == 0)
      ensures count == NextCount(r, old(count), sinkValid && sourceReady)
    {
      sinkReady := sourceReady;
      sourceData := sinkData;
      sourceValid := sinkValid && count == 0;
      var current := count;
      if r < 1 {
        count := 0;
      } else if sinkValid && sinkReady {
        count := (current + 1) % CountBound;
        if current == r - 1 {
          count := 0;
        }
      }
    }
  }

  // ---------------------------------------------------------------------
  // Stage 2: byte selection and packing.
  // ---------------------------------------------------------------------

  /** Bytes kept per word: 8 at ratio <= 1, 4 at <= 2, 2 at <= 4, else 1. */
  function BytesPerWord(ratio: nat): nat
  {
    if ratio <= 1 then 8 else if ratio <= 2 then 4 else if ratio <= 4 then 2 else 1
  }

  /** Distance between selected byte offsets. */
  function Stride(ratio: nat): nat
  {
    if ratio <= 1 then 1 else if ratio <= 2 then 2 else if ratio <= 4 then 4 else 8
  }

  /** The bytes of one word that stage 2 keeps: a stride sampling starting at
      byte 0 that covers the word. */
  function Select(ratio: nat, w: Word): (bs: seq<Byte>)
    ensures |bs| == BytesPerWord(ratio) && |bs| * Stride(ratio) == 8
    ensures forall i :: 0 <= i < |bs| ==> bs[i] == ByteOf(w, i * Stride(ratio))
  {
    var b := WordBytes(w);
    if ratio <= 1 then b
    else if ratio <= 2 then [b[0], b[2], b[4], b[6]]
    else if ratio <= 4 then [b[0], b[4]]
    else [b[0]]
  }

  /** The selected bytes of a word stream, in arrival order. */
  function SelectedBytes(ratio: nat, vs: seq<Word>): (bs: seq<Byte>)
    ensures |bs| == |vs| * BytesPerWord(ratio)
  {
    if vs == [] then []
    else SelectedBytes(ratio, vs[..|vs| - 1]) + Select(ratio, vs[|vs| - 1])
  }

  /** At ratio <= 1 the selection keeps every byte of every word. */
  lemma {:induction false} SelectedAllBytes(ratio: nat, vs: seq<Word>)
    requires ratio <= 1
    ensures SelectedBytes(ratio, vs) == StreamBytes(vs)
  {
    if vs != [] {
      SelectedAllBytes(ratio, vs[..|vs| - 1]);
    }
  }

  /** Reference for the whole decimator: throttle with ratio >> 3, select
      bytes with the full ratio, pack full groups of eight bytes. */
  function Decimate(ratio: nat, ws: seq<Word>): seq<Word>
  {
    PackAll(SelectedBytes(ratio, Kept(ratio / 8, ws)))
  }

  /** The bytes held in the active converter after a stream. */
  function Pending(ratio: nat, ws: seq<Word>): seq<Byte>
  {
    var s := SelectedBytes(ratio, Kept(ratio / 8, ws));
    s[8 * (|s| / 8)..]
  }

  /** The pending bytes always leave room for one more word's selection,
      which therefore never crosses an 8-byte boundary. */
  lemma PendingFits(ratio: nat, ws: seq<Word>)
    ensures |Pending(ratio, ws)| + BytesPerWord(ratio) <= 8
    ensures ratio <= 1 ==> Pending(ratio, ws) == []
  {
    var s := SelectedBytes(ratio, Kept(ratio / 8, ws));
    GroupFits(|s|, BytesPerWord(ratio), |Kept(ratio / 8, ws)|);
  }

  /** A word the throttle skips changes neither the output nor the pending
      bytes. */
  lemma DecimateSkip(ratio: nat, ws: seq<Word>, w: Word)
    requires Phase(Period(ratio / 8), |ws|) != 0
    ensures Decimate(ratio, ws + [w]) == Decimate(ratio, ws)
    ensures Pending(ratio, ws + [w]) == Pending(ratio, ws)
  {
    KeptStep(ratio / 8, ws, w);
    var ks := Kept(ratio / 8, ws + [w]);
    assert ks == Kept(ratio / 8, ws);
    assert SelectedBytes(ratio, ks) == SelectedBytes(ratio, Kept(ratio / 8, ws));
  }

  /** A forwarded word's selected bytes join the pending bytes, and a word is
      emitted exactly when they complete a group of eight; at ratio <= 1 that
      word is the input word itself. */
  lemma DecimateForward(ratio: nat, ws: seq<Word>, w: Word)
    requires Phase(Period(ratio / 8), |ws|) == 0
    ensures |Pending(ratio, ws)| + BytesPerWord(ratio) == 8 ==>
              Decimate(ratio, ws + [w]) ==
                Decimate(ratio, ws) + [PackWord(Pending(ratio, ws) + Select(ratio, w))] &&
              Pending(ratio, ws + [w]) == []
    ensures |Pending(ratio, ws)| + BytesPerWord(ratio) < 8 ==>
              Decimate(ratio, ws + [w]) == Decimate(ratio, ws) &&
              Pending(ratio, ws + [w]) == Pending(ratio, ws) + Select(ratio, w)
  {
    var r := ratio / 8;
    PendingFits(ratio, ws);
    var before := SelectedBytes(ratio, Kept(r, ws));
    var c := Select(ratio, w);
    assert SelectedBytes(ratio, Kept(r, ws + [w])) == before + c by {
      KeptStep(r, ws, w);
      SelectedAppend(ratio, Kept(r, ws), w);
    }
    PackAllAppend(before, c);
    TailAppend(before, c);
  }

  /** At ratio <= 1 a forwarded word is emitted unchanged. */
  lemma DecimateForwardAll(ratio: nat, ws: seq<Word>, w: Word)
    requires ratio <= 1 && Phase(Period(ratio / 8), |ws|) == 0
    ensures Decimate(ratio, ws + [w]) == Decimate(ratio, ws) + [w]
  {
    PendingFits(ratio, ws);
    DecimateForward(ratio, ws, w);
    var c := Select(ratio, w);
    assert Pending(ratio, ws) + c == WordBytes(w) by {
      assert c == WordBytes(w);
    }
    assert PackWord(Pending(ratio, ws) + c) == w by {
      PackWordBytes(w);
    }
  }

  /** What the converter of the given chunk size holds after a stream: the
      pending bytes when the ratio routes into it, nothing otherwise. */
  function Buffered(ratio: nat, ws: seq<Word>, chunk: nat): seq<Byte>
  {
    if BytesPerWord(ratio) == chunk then Pending(ratio, ws) else []
  }

  /** The converter of the given chunk size after one word reaches the
      selector at ratio > 1: the one the ratio routes into receives the
      word's selected bytes and emits the packed word once it holds eight;
      the others keep their bytes. */
  predicate Routed(ratio: nat, w: Word, chunk: nat, buf: seq<Byte>, out: Option<Word>, buf': seq<Byte>)
  {
    if BytesPerWord(ratio) != chunk then buf' == buf
    else
      (|buf| + chunk == 8 ==> out == Some(PackWord(buf + Select(ratio, w))) && buf' == []) &&
      (|buf| + chunk < 8 ==> out == None && buf' == buf + Select(ratio, w))
  }

  /** The registers of the decimator agree with the words accepted so far:
      the throttle counter holds their phase, the words emitted are their
      decimation and each converter holds what Buffered says. */
  ghost predicate Tracks(ratio: nat, ins: seq<Word>, outs: seq<Word>, count: nat,
                         b32: seq<Byte>, b16: seq<Byte>, b8: seq<Byte>)
  {
    count == Phase(Period(ratio / 8), |ins|) && outs == Decimate(ratio, ins) &&
    b32 == Buffered(ratio, ins, 4) && b16 == Buffered(ratio, ins, 2) && b8 == Buffered(ratio, ins, 1)
  }

  /** One word through the throttle and the selector keeps the registers in
      agreement with the words accepted. */
  lemma PushTracks(ratio: nat, ins: seq<Word>, outs: seq<Word>, count: nat,
                   b32: seq<Byte>, b16: seq<Byte>, b8: seq<Byte>, w: Word, valid: bool,
                   out: Option<Word>, b32': seq<Byte>, b16': seq<Byte>, b8': seq<Byte>)
    requires ratio < RatioBound && Tracks(ratio, ins, outs, count, b32, b16, b8)
    requires valid == (count == 0)
    requires !valid ==> out == None && b32' == b32 && b16' == b16 && b8' == b8
    requires valid && ratio <= 1 ==> out == Some(w) && b32' == b32 && b16' == b16 && b8' == b8
    requires valid && ratio > 1 ==>
               Routed(ratio, w, 4, b32, out, b32') && Routed(ratio, w, 2, b16, out, b16') &&
               Routed(ratio, w, 1, b8, out, b8')
    ensures Tracks(ratio, ins + [w], outs + (if out.Some? then [out.value] else []),
                   NextCount(ratio / 8, count, true), b32', b16', b8')
  {
    CountTracksPhase(ratio / 8, |ins|);
    if !valid {
      DecimateSkip(ratio, ins, w);
    } else if ratio <= 1 {
      DecimateForwardAll(ratio, ins, w);
    } else {
      PendingFits(ratio, ins);
      DecimateForward(ratio, ins, w);
    }
  }

  lemma SelectedAppend(ratio: nat, vs: seq<Word>, w: Word)
    ensures SelectedBytes(ratio, vs + [w]) == SelectedBytes(ratio, vs) + Select(ratio, w)
  {
    var ks := vs + [w];
    assert ks[..|ks| - 1] == vs;
  }

  class Selector {
    const c32: UpConverter
    const c16: UpConverter
    const c8: UpConverter

    ghost predicate Valid()
      reads this, c32, c16, c8
    {
      c32 != c16 && c16 != c8 && c32 != c8 &&
      c32.Valid() && c16.Valid() && c8.Valid() &&
      c32.chunk == 4 && c16.chunk == 2 && c8.chunk == 1
    }

    constructor ()
      ensures Valid() && fresh(c32) && fresh(c16) && fresh(c8)
      ensures c32.buffer == [] && c16.buffer == [] && c8.buffer == []
    {
      c32 := new UpConverter(4);
      c16 := new UpConverter(2);
      c8 := new UpConverter(1);
    }

    /** One accepted word: at ratio <= 1 the word goes straight through,
        otherwise its selected bytes enter the active converter. */
    method Push(ratio: nat, w: Word) returns (out: Option<Word>)
      requires Valid()
      modifies c32, c16, c8
      ensures Valid()
      ensures ratio <= 1 ==> out == Some(w) && unchanged(c32, c16, c8)
      ensures ratio > 1 ==>
                Routed(ratio, w, 4, old(c32.buffer), out, c32.buffer) &&
                Routed(ratio, w, 2, old(c16.buffer), out, c16.buffer) &&
                Routed(ratio, w, 1, old(c8.buffer), out, c8.buffer)
    {
      var b := WordBytes(w);
      if ratio <= 1 {
        out := Some(w);
      } else if ratio <= 2 {
        out := c32.Push([b[0], b[2], b[4], b[6]]);
      } else if ratio <= 4 {
        out := c16.Push([b[0], b[4]]);
      } else {
        out := c8.Push([b[0]]);
      }
    }
  }

  // ---------------------------------------------------------------------
  // The composed decimator.
  // ---------------------------------------------------------------------

  class DownSampler {
    const ratio: nat
    const stage1: Throttle
    const stage2: Selector
    /** Every word accepted so far, and every word emitted so far. */
    ghost var inputs: seq<Word>
    ghost var outputs: seq<Word>

    ghost predicate Valid()
      reads this, stage1, stage2, stage2.c32, stage2.c16, stage2.c8
    {
      ratio < RatioBound && stage1.Valid() && stage2.Valid() &&
      Tracks(ratio, inputs, outputs, stage1.count,
             stage2.c32.buffer, stage2.c16.buffer, stage2.c8.buffer)
    }

    constructor (ratio: nat)
      requires ratio < RatioBound
      ensures Valid() && this.ratio == ratio && inputs == [] && outputs == []
      ensures fresh(stage1) && fresh(stage2)
      ensures fresh(stage2.c32) && fresh(stage2.c16) && fresh(stage2.c8)
    {
      this.ratio := ratio;
      stage1 := new Throttle();
      stage2 := new Selector();
      inputs := [];
      outputs := [];
      new;
      assert Kept(ratio / 8, []) == [];
    }

    /** One input word accepted with the output always ready. */
    method Push(w: Word) returns (out: Option<Word>)
      requires Valid()
      modifies this, stage1, stage2.c32, stage2.c16, stage2.c8
      ensures Valid()
      ensures inputs == old(inputs) + [w]
      ensures outputs == old(outputs) + (if out.Some? then [out.value] else [])
    {
      ghost var count := stage1.count;
      ghost var b32, b16, b8 := stage2.c32.buffer, stage2.c16.buffer, stage2.c8.buffer;
      var ready, valid, data := stage1.Tick(ratio / 8, true, w, true);
      if valid {
        out := stage2.Push(ratio, data);
      } else {
        out := None;
      }
      PushTracks(ratio, inputs, outputs, count, b32, b16, b8, w, valid,
                 out, stage2.c32.buffer, stage2.c16.buffer, stage2.c8.buffer);
      inputs := inputs + [w];
      outputs := outputs + (if out.Some? then [out.value] else []);
    }
  }

  /** Byte t of the selected stream is byte (t % B) * Stride of word t / B,
      where B is the number of bytes kept per word. */
  lemma {:induction false} SelectedBytesAt(ratio: nat, vs: seq<Word>, t: nat)
    requires t < |SelectedBytes(ratio, vs)|
    ensures t / BytesPerWord(ratio) < |vs|
    ensures (t % BytesPerWord(ratio)) * Stride(ratio) < 8
    ensures SelectedBytes(ratio, vs)[t] ==
            ByteOf(vs[t / BytesPerWord(ratio)], (t % BytesPerWord(ratio)) * Stride(ratio))
  {
    var b := BytesPerWord(ratio);
    var n := |vs| - 1;
    var front := SelectedBytes(ratio, vs[..n]);
    assert |front| == n * b;
    OffsetFits(ratio, t % b);
    if t < |front| {
      SelectedBytesAt(ratio, vs[..n], t);
    } else {
      DivModWithin(t, b, n);
      var i := t - n * b;
      assert SelectedBytes(ratio, vs)[t] == Select(ratio, vs[n])[i];
    }
  }

  /** Every selected offset lies inside the word. */
  lemma OffsetFits(ratio: nat, i: nat)
    requires i < BytesPerWord(ratio)
    ensures i * Stride(ratio) < 8
  {
  }

  /** Division of t by b when t lies in the q-th block of size b. */
  lemma DivModWithin(t: nat, b: nat, q: nat)
    requires b == 1 || b == 2 || b == 4 || b == 8
    requires q * b <= t < q * b + b
    ensures t / b == q && t % b == t - q * b
  {
  }

  /** The complete content of the decimated stream: output byte t is byte
      (t % B) * Stride of input word (t / B) * P, where B bytes are kept per
      word and P = max(1, ratio >> 3) words are skipped between kept words. */
  lemma DecimateAt(ratio: nat, ws: seq<Word>, t: nat)
    requires t < 8 * |Decimate(ratio, ws)|
    ensures (t / BytesPerWord(ratio)) * Period(ratio / 8) < |ws|
    ensures (t % BytesPerWord(ratio)) * Stride(ratio) < 8
    ensures ByteOf(Decimate(ratio, ws)[t / 8], t % 8) ==
            ByteOf(ws[(t / BytesPerWord(ratio)) * Period(ratio / 8)],
                   (t % BytesPerWord(ratio)) * Stride(ratio))
  {
    var ks := Kept(ratio / 8, ws);
    DecimateByte(ratio, ws, t);
    SelectedBytesAt(ratio, ks, t);
    KeptIndex(ratio / 8, ws, t / BytesPerWord(ratio));
  }

  /** Output byte t is byte t of the selected stream. */
  lemma DecimateByte(ratio: nat, ws: seq<Word>, t: nat)
    requires t < 8 * |Decimate(ratio, ws)|
    ensures t < |SelectedBytes(ratio, Kept(ratio / 8, ws))|
    ensures ByteOf(Decimate(ratio, ws)[t / 8], t % 8) == SelectedBytes(ratio, Kept(ratio / 8, ws))[t]
  {
    PackAllByte(SelectedBytes(ratio, Kept(ratio / 8, ws)), t);
  }

  /** Kept word q is input word q * P. */
  lemma KeptIndex(r: nat, ws: seq<Word>, q: nat)
    requires q < |Kept(r, ws)|
    ensures q * Period(r) < |ws| && Kept(r, ws)[q] == ws[q * Period(r)]
  {
    var p := Period(r);
    if r == 0 {
      KeptAll(r, ws);
      assert p == 1;
      assert q * p == q;
    } else {
      assert p == r;
      KeptAt(r, ws, q);
    }
  }

  /** Ratios 0 and 1 pass the stream through unchanged. */
  lemma DecimateIdentity(ratio: nat, ws: seq<Word>)
    requires ratio <= 1
    ensures Decimate(ratio, ws) == ws
  {
    KeptAll(ratio / 8, ws);
    SelectedAllBytes(ratio, ws);
    PackAllStreamBytes(ws);
  }

  /** For ratio 2, 4 or a multiple of 8, ratio * k input words give exactly k
      output words. */
  lemma DecimateLength(ratio: nat, ws: seq<Word>, k: nat)
    requires ratio == 1 || ratio == 2 || ratio == 4 || (ratio >= 8 && ratio % 8 == 0)
    requires |ws| == ratio * k
    ensures |Decimate(ratio, ws)| == k
  {
    if ratio <= 4 {
      NarrowLength(ratio, ws, k);
    } else {
      WideLength(ratio, ws, k);
    }
  }

  /** Ratios 1, 2 and 4 keep every word and 8 / ratio bytes of it. */
  lemma NarrowLength(ratio: nat, ws: seq<Word>, k: nat)
    requires ratio == 1 || ratio == 2 || ratio == 4
    requires |ws| == ratio * k
    ensures |Decimate(ratio, ws)| == k
  {
    KeptAll(0, ws);
    SelectedCount(ratio, ws, k);
    assert |Decimate(ratio, ws)| == (8 * k) / 8;
  }

  /** Ratios 1, 2 and 4 select 8 / ratio bytes of every word. */
  lemma SelectedCount(ratio: nat, ws: seq<Word>, k: nat)
    requires ratio == 1 || ratio == 2 || ratio == 4
    requires |ws| == ratio * k
    ensures |SelectedBytes(ratio, ws)| == 8 * k
  {
    var n, b := |SelectedBytes(ratio, ws)|, BytesPerWord(ratio);
    assert n == |ws| * b;
    if ratio == 1 {
      assert |ws| == k && b == 8;
    } else if ratio == 2 {
      assert |ws| == 2 * k && b == 4;
    } else {
      assert |ws| == 4 * k && b == 2;
    }
  }

  /** Ratio 8r keeps one word in r and one byte of it. */
  lemma WideLength(ratio: nat, ws: seq<Word>, k: nat)
    requires ratio >= 8 && ratio % 8 == 0
    requires |ws| == ratio * k
    ensures |Decimate(ratio, ws)| == k
  {
    var r := ratio / 8;
    assert |ws| == (8 * k) * r by {
      assert ratio == 8 * r;
      assert ratio * k == (8 * r) * k;
    }
    KeptLength(r, ws, 8 * k);
    assert |SelectedBytes(ratio, Kept(r, ws))| == 8 * k;
  }

  /** The testbench's driver loop: every input word is presented once, with
      the output always ready; the collected output is the reference result. */
  method Run(ratio: nat, dataIn: seq<Word>) returns (dataOut: seq<Word>)
    requires ratio < RatioBound
    ensures dataOut == Decimate(ratio, dataIn)
  {
    var dut := new DownSampler(ratio);
    dataOut := [];
    var i := 0;
    while i < |dataIn|
      invariant 0 <= i <= |dataIn|
      invariant dut.Valid() && dut.ratio == ratio
      invariant fresh(dut.stage1) && fresh(dut.stage2)
      invariant fresh(dut.stage2.c32) && fresh(dut.stage2.c16) && fresh(dut.stage2.c8)
      invariant dut.inputs == dataIn[..i] && dut.outputs == dataOut
    {
      TakeStep(dataIn, i);
      var out := dut.Push(dataIn[i]);
      dataOut := dataOut + (if out.Some? then [out.value] else []);
      i := i + 1;
    }
    assert dataIn[..i] == dataIn;
  }

  // ---------------------------------------------------------------------
  // Test vectors of peripherals/downsampling.py, lines 144-235.
  // ---------------------------------------------------------------------

  const EvenWord: Word := 0x7766554433221100
  const OddWord: Word := 0xffeeddccbbaa9988

  /** Input for ratios 1 to 8: two alternating words, four times. */
  const Alternating: seq<Word> := [EvenWord, OddWord, EvenWord, OddWord, EvenWord, OddWord, EvenWord, OddWord]

  /** At ratio 2, byte b of output word j is byte 2 * (b % 4) of input word
      2j + b / 4. */
  lemma Ratio2Byte(ws: seq<Word>, k: nat, j: nat, b: nat)
    requires |ws| == 2 * k && j < k && b < 8
    ensures |Decimate(2, ws)| == k
    ensures ByteOf(Decimate(2, ws)[j], b) == ByteOf(ws[2 * j + b / 4], (b % 4) * 2)
  {
    var t := 8 * j + b;
    DecimateLength(2, ws, k);
    DecimateAt(2, ws, t);
    assert t / 8 == j && t % 8 == b;
    assert t / 4 == 2 * j + b / 4 && t % 4 == b % 4;
  }

  lemma Ratio2Packed(ws: seq<Word>, k: nat, j: nat, b: nat)
    requires |ws| == 2 * k && j < k && b < 8
    ensures |Decimate(2, ws)| == k
    ensures ByteOf(Decimate(2, ws)[j], b) == (Select(2, ws[2 * j]) + Select(2, ws[2 * j + 1]))[b]
  {
    Ratio2Byte(ws, k, j, b);
    var lo, hi := Select(2, ws[2 * j]), Select(2, ws[2 * j + 1]);
    if b < 4 {
      assert b / 4 == 0 && b % 4 == b;
      assert (lo + hi)[b] == lo[b] == ByteOf(ws[2 * j], b * 2);
    } else {
      assert b / 4 == 1 && b % 4 == b - 4;
      assert (lo + hi)[b] == hi[b - 4] == ByteOf(ws[2 * j + 1], (b - 4) * 2);
    }
  }

  /** At ratio 2, output word j packs bytes 0, 2, 4, 6 of input words 2j
      and 2j + 1. */
  lemma Ratio2Word(ws: seq<Word>, k: nat, j: nat)
    requires |ws| == 2 * k && j < k
    ensures |Decimate(2, ws)| == k
    ensures Decimate(2, ws)[j] == PackWord(Select(2, ws[2 * j]) + Select(2, ws[2 * j + 1]))
  {
    Ratio2Byte(ws, k, j, 0);
    var o := Decimate(2, ws)[j];
    var bs := Select(2, ws[2 * j]) + Select(2, ws[2 * j + 1]);
    forall b | 0 <= b < 8
      ensures WordBytes(o)[b] == bs[b]
    {
      Ratio2Packed(ws, k, j, b);
    }
    assert WordBytes(o) == bs;
    WordFromBytes(o, bs);
  }

  lemma Ratio1Vector()
    ensures Decimate(1, Alternating) == Alternating
  {
    DecimateIdentity(1, Alternating);
  }

  lemma Ratio2Vector()
    ensures Decimate(2, Alternating) == [0xeeccaa8866442200, 0xeeccaa8866442200, 0xeeccaa8866442200, 0xeeccaa8866442200]
  {
    var w := PackWord(Select(2, EvenWord) + Select(2, OddWord));
    assert w == 0xeeccaa8866442200;
    Ratio2Word(Alternating, 4, 0);
    Ratio2Word(Alternating, 4, 1);
    Ratio2Word(Alternating, 4, 2);
    Ratio2Word(Alternating, 4, 3);
  }

  /** At ratio 4, byte b of output word j is byte 4 * (b % 2) of input word
      4j + b / 2. */
  lemma Ratio4Byte(ws: seq<Word>, k: nat, j: nat, b: nat)
    requires |ws| == 4 * k && j < k && b < 8
    ensures |Decimate(4, ws)| == k
    ensures ByteOf(Decimate(4, ws)[j], b) == ByteOf(ws[4 * j + b / 2], (b % 2) * 4)
  {
    var t := 8 * j + b;
    DecimateLength(4, ws, k);
    DecimateAt(4, ws, t);
    assert t / 8 == j && t % 8 == b;
    assert t / 2 == 4 * j + b / 2 && t % 2 == b % 2;
  }

  /** Bytes 0 and 4 of input words 4j to 4j + 3, in order. */
  function Ratio4Bytes(ws: seq<Word>, j: nat): (bs: seq<Byte>)
    requires 4 * j + 4 <= |ws|
    ensures |bs| == 8
  {
    seq(8, b requires 0 <= b < 8 => ByteOf(ws[4 * j + b / 2], (b % 2) * 4))
  }

  /** At ratio 4, output word j packs bytes 0 and 4 of input words 4j to
      4j + 3. */
  lemma Ratio4Word(ws: seq<Word>, k: nat, j: nat)
    requires |ws| == 4 * k && j < k
    ensures |Decimate(4, ws)| == k
    ensures Decimate(4, ws)[j] == PackWord(Ratio4Bytes(ws, j))
  {
    Ratio4WordBytes(ws, k, j);
    WordFromBytes(Decimate(4, ws)[j], Ratio4Bytes(ws, j));
  }

  lemma Ratio4WordBytes(ws: seq<Word>, k: nat, j: nat)
    requires |ws| == 4 * k && j < k
    ensures |Decimate(4, ws)| == k
    ensures WordBytes(Decimate(4, ws)[j]) == Ratio4Bytes(ws, j)
  {
    Ratio4Byte(ws, k, j, 0);
    var o := Decimate(4, ws)[j];
    var bs := Ratio4Bytes(ws, j);
    forall b | 0 <= b < 8
      ensures WordBytes(o)[b] == bs[b]
    {
      Ratio4Byte(ws, k, j, b);
    }
  }

  lemma Ratio4Vector()
    ensures Decimate(4, Alternating) == [0xcc884400cc884400, 0xcc884400cc884400]
  {
    assert PackWord(Ratio4Bytes(Alternating, 0)) == 0xcc884400cc884400;
    assert PackWord(Ratio4Bytes(Alternating, 1)) == 0xcc884400cc884400;
    Ratio4Word(Alternating, 2, 0);
    Ratio4Word(Alternating, 2, 1);
  }

  /** At ratio 8m, byte b of output word j is byte 0 of input word
      (8j + b) * m. */
  lemma WideByte(ratio: nat, ws: seq<Word>, k: nat, j: nat, b: nat)
    requires ratio >= 8 && ratio % 8 == 0
    requires |ws| == ratio * k && j < k && b < 8
    ensures |Decimate(ratio, ws)| == k
    ensures (8 * j + b) * (ratio / 8) < |ws|
    ensures ByteOf(Decimate(ratio, ws)[j], b) == ByteOf(ws[(8 * j + b) * (ratio / 8)], 0)
  {
    var t := 8 * j + b;
    DecimateLength(ratio, ws, k);
    DecimateAt(ratio, ws, t);
    assert t / 8 == j && t % 8 == b;
    assert t / 1 == t && t % 1 == 0;
  }

  /** Input for ratios 16 and 32: even words counting up in their low byte,
      interleaved with a fixed odd word. */
  const Ramp16: seq<Word> := [
    0x7766554433221100, OddWord, 0x7766554433221101, OddWord,
    0x7766554433221102, OddWord, 0x7766554433221103, OddWord,
    0x7766554433221104, OddWord, 0x7766554433221105, OddWord,
    0x7766554433221106, OddWord, 0x7766554433221107, OddWord
  ]

  const Ramp32: seq<Word> := [
    0x7766554433221100, OddWord, 0x7766554433221101, OddWord,
    0x7766554433221102, OddWord, 0x7766554433221103, OddWord,
    0x7766554433221104, OddWord, 0x7766554433221105, OddWord,
    0x7766554433221106, OddWord, 0x7766554433221107, OddWord,
    0x7766554433221108, OddWord, 0x7766554433221109, OddWord,
    0x776655443322110a, OddWord, 0x776655443322110b, OddWord,
    0x776655443322110c, OddWord, 0x776655443322110d, OddWord,
    0x776655443322110e, OddWord, 0x776655443322110f, OddWord
  ]

  /** Byte 0 of every m-th word, eight of them. */
  function Samples(ws: seq<Word>, m: nat): (bs: seq<Byte>)
    requires 0 < m && 8 * m <= |ws|
    ensures |bs| == 8
  {
    seq(8, b requires 0 <= b < 8 => ByteOf(ws[b * m], 0))
  }

  /** At ratio 8m over 8m words, the one output word packs byte 0 of every
      m-th input word. */
  lemma WideWord(ratio: nat, ws: seq<Word>)
    requires ratio >= 8 && ratio % 8 == 0 && |ws| == ratio
    ensures Decimate(ratio, ws) == [PackWord(Samples(ws, ratio / 8))]
  {
    var bs := Samples(ws, ratio / 8);
    WideByte(ratio, ws, 1, 0, 0);
    var o := Decimate(ratio, ws)[0];
    forall b | 0 <= b < 8
      ensures WordBytes(o)[b] == bs[b]
    {
      WideByte(ratio, ws, 1, 0, b);
    }
    assert WordBytes(o) == bs;
    WordFromBytes(o, bs);
  }

  lemma Ratio8Vector()
    ensures Decimate(8, Alternating) == [0x8800880088008800]
  {
    WideWord(8, Alternating);
    assert PackWord(Samples(Alternating, 1)) == 0x8800880088008800;
  }

  lemma Ratio16Vector()
    ensures Decimate(16, Ramp16) == [0x0706050403020100]
  {
    WideWord(16, Ramp16);
    assert PackWord(Samples(Ramp16, 2)) == 0x0706050403020100;
  }

  lemma Ratio32Vector()
    ensures Decimate(32, Ramp32) == [0x0e0c0a0806040200]
  {
    WideWord(32, Ramp32);
    Ramp32Samples();
  }

  /** The even words of Ramp32 count 0x00, 0x02, ..., 0x0e in their low
      byte at every fourth word. */
  lemma Ramp32Samples()
    ensures PackWord(Samples(Ramp32, 4)) == 0x0e0c0a0806040200
  {
  }
}
