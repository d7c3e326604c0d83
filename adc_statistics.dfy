/** Per-clock statistics and frame alignment of the ADC cores
    (peripherals/adc.py HMCAD1511 and peripherals/had1511.py HAD1511, which
    share these rules): the frame-clock bitslip decision, the min/max range
    tracker and the saturating sample counter. */
module AdcStatistics {
  import opened Words

  // ---------------------------------------------------------------------
  // Frame alignment.
  // ---------------------------------------------------------------------

  /** The frame-clock patterns accepted as aligned. */
  predicate Locked(fclk: Byte)
  {
    fclk == 0x0f || fclk == 0x33 || fclk == 0x55
  }

  /** One frame-domain clock cycle as the aligner sees it. */
  datatype FrameSample = FrameSample(timerDone: bool, fclk: Byte)

  class FrameAligner {
    var bitslip: bool
    /** The wait input of the 1 ms timer. */
    var timerWait: bool

    constructor ()
      ensures !bitslip && !timerWait
    {
      bitslip := false;
      timerWait := false;
    }

    /** One frame-clock tick: bitslip defaults to 0 and pulses only when the
        timer is done and the pattern is not aligned; the timer is re-armed by
        dropping wait for the cycle after it fires. */
    method Tick(timerDone: bool, fclk: Byte)
      modifies this
      ensures bitslip == (timerDone && !Locked(fclk))
      ensures timerWait == !timerDone
    {
      bitslip := false;
      timerWait := !timerDone;
      if timerDone {
        if fclk != 0x0f && fclk != 0x33 && fclk != 0x55 {
          bitslip := true;
        }
      }
    }
  }

  /** The bitslip output over a trace of frame cycles: a pulse exactly on the
      cycles where the timer fires on an unaligned pattern, so a locked frame
      clock never slips. */
  method Align(trace: seq<FrameSample>) returns (pulses: seq<bool>)
    ensures |pulses| == |trace|
    ensures forall i :: 0 <= i < |trace| ==>
              (pulses[i] <==> trace[i].timerDone && !Locked(trace[i].fclk))
  {
    var aligner := new FrameAligner();
    pulses := [];
    var i := 0;
    while i < |trace|
      invariant 0 <= i <= |trace| && |pulses| == i
      invariant forall k :: 0 <= k < i ==>
                  (pulses[k] <==> trace[k].timerDone && !Locked(trace[k].fclk))
    {
      aligner.Tick(trace[i].timerDone, trace[i].fclk);
      pulses := pulses + [aligner.bitslip];
      i := i + 1;
    }
  }

  // ---------------------------------------------------------------------
  // Min/max range.
  // ---------------------------------------------------------------------

  /** An 8-bit sample value. */
  type Sample = x: int | 0 <= x < 0x100

  /** The smallest sample seen, starting from the reset value 0xff. */
  function RangeMin(vs: seq<Sample>): Sample
  {
    if vs == [] then 0xff
    else
      var m := RangeMin(vs[..|vs| - 1]);
      if vs[|vs| - 1] <= m then vs[|vs| - 1] else m
  }

  /** The largest sample seen, starting from the reset value 0x00. */
  function RangeMax(vs: seq<Sample>): Sample
  {
    if vs == [] then 0x00
    else
      var m := RangeMax(vs[..|vs| - 1]);
      if vs[|vs| - 1] >= m then vs[|vs| - 1] else m
  }

  /** The tracked range bounds every sample seen and, once a sample has been
      seen, both bounds are samples, so min <= max. */
  lemma {:induction false} RangeBounds(vs: seq<Sample>)
    ensures forall i :: 0 <= i < |vs| ==> RangeMin(vs) <= vs[i] <= RangeMax(vs)
    ensures vs != [] ==> RangeMin(vs) in vs && RangeMax(vs) in vs
    ensures vs != [] ==> RangeMin(vs) <= RangeMax(vs)
  {
    if vs != [] {
      var front := vs[..|vs| - 1];
      RangeBounds(front);
      assert forall i :: 0 <= i < |front| ==> vs[i] == front[i];
      assert vs[|vs| - 1] in vs;
      if front != [] {
        assert RangeMin(front) in vs && RangeMax(front) in vs;
      }
    }
  }

  /** After a reset the first sample becomes both min and max. */
  lemma RangeFirst(v: Sample)
    ensures RangeMin([v]) == v && RangeMax([v]) == v
  {
    assert [v][..0] == [];
  }

  class RangeTracker {
    var min: Sample
    var max: Sample
    /** The byte-0 samples of the valid words since the last statistics
        reset, and whether a reset has happened at all. */
    ghost var seen: seq<Sample>
    ghost var cleared: bool

    ghost predicate Valid()
      reads this
    {
      cleared ==> min == RangeMin(seen) && max == RangeMax(seen)
    }

    /** The status fields come out of reset at 0. */
    constructor ()
      ensures Valid() && min == 0 && max == 0 && seen == [] && !cleared
    {
      min := 0;
      max := 0;
      seen := [];
      cleared := false;
    }

    /** One clock tick of the range logic: on a valid word with v = byte 0,
        max := v when v >= max and min := v when v <= min; a statistics
        reset overrides both with 0xff and 0x00. */
    method Tick(valid: bool, data: Word, statRst: bool)
      requires Valid()
      modifies this
      ensures Valid()
      ensures statRst ==> min == 0xff && max == 0x00 && seen == [] && cleared
      ensures !statRst ==>
                var v := ByteOf(data, 0) as Sample;
                max == (if valid && v >= old(max) then v else old(max)) &&
                min == (if valid && v <= old(min) then v else old(min)) &&
                seen == old(seen) + (if valid then [v] else []) &&
                cleared == old(cleared)
    {
      var v := ByteOf(data, 0) as Sample;
      if valid {
        if v >= max {
          max := v;
        }
        if v <= min {
          min := v;
        }
        seen := seen + [v];
        assert seen[..|seen| - 1] == old(seen);
      }
      if statRst {
        min := 0xff;
        max := 0x00;
        seen := [];
        cleared := true;
      }
    }
  }

  // ---------------------------------------------------------------------
  // Saturating sample counter.
  // ---------------------------------------------------------------------

  /** The count register is 32 bits wide. */
  const CountModulus: nat := 0x1_0000_0000

  /** The value at which the counter stops: 2^32 - nchannels. */
  function Cap(n: nat): int
  {
    CountModulus - n
  }

  /** The counter register after one clock tick: a valid word adds n unless
      the count already equals 2^32 - n (the addition is 32-bit); a
      statistics reset overrides with 0. */
  function CountNext(n: nat, count: nat, valid: bool, statRst: bool): nat
  {
    if statRst then 0
    else if valid && count != Cap(n) then (count + n) % CountModulus
    else count
  }

  /** Reference: the number of samples in k valid words, saturated at the
      cap. */
  function Saturated(n: nat, k: nat): (c: int)
    requires 1 <= n <= CountModulus
    ensures 0 <= c <= Cap(n)
  {
    if k * n <= Cap(n) then k * n else Cap(n)
  }

  /** When n divides 2^32 the counter counts up in steps of n and stops
      exactly at the cap, never wrapping. */
  lemma SaturatedStep(n: nat, k: nat)
    requires 1 <= n <= CountModulus && CountModulus % n == 0
    ensures CountNext(n, Saturated(n, k), true, false) == Saturated(n, k + 1)
    ensures Saturated(n, k) == (if k < CountModulus / n - 1 then k else CountModulus / n - 1) * n
  {
    var c := CountModulus / n;
    assert c >= 1;
    assert Cap(n) == (c - 1) * n;
    MulDistrib(k, n);
    if k < c - 1 {
      MulMono(k + 1, c - 1, n);
      assert Saturated(n, k) == k * n && Saturated(n, k + 1) == k * n + n;
    } else {
      MulMono(c - 1, k, n);
      assert Saturated(n, k) == Cap(n) && Saturated(n, k + 1) == Cap(n);
    }
  }

  lemma MulDistrib(k: nat, n: nat)
    ensures (k + 1) * n == k * n + n
  {
  }

  class SampleCounter {
    /** Samples per word: the number of data lanes. */
    const nchannels: nat
    var count: nat
    /** Valid words since the last statistics reset. */
    ghost var words: nat

    ghost predicate Valid()
      reads this
    {
      1 <= nchannels <= CountModulus && count < CountModulus &&
      (CountModulus % nchannels == 0 ==> count == Saturated(nchannels, words))
    }

    constructor (nchannels: nat)
      requires 1 <= nchannels <= CountModulus
      ensures Valid() && this.nchannels == nchannels && count == 0 && words == 0
    {
      this.nchannels := nchannels;
      count := 0;
      words := 0;
    }

    /** One clock tick of the sample counter. */
    method Tick(valid: bool, statRst: bool)
      requires Valid()
      modifies this
      ensures Valid()
      ensures count == CountNext(nchannels, old(count), valid, statRst)
      ensures words == if statRst then 0 else old(words) + (if valid then 1 else 0)
    {
      if CountModulus % nchannels == 0 && valid {
        SaturatedStep(nchannels, words);
      }
      if valid {
        if count != CountModulus - nchannels {
          count := (count + nchannels) % CountModulus;
        }
        words := words + 1;
      }
      if statRst {
        count := 0;
        words := 0;
      }
    }
  }
}
