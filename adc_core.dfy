/** The data path shared by the ADC cores of peripherals/adc.py (HMCAD1511)
    and peripherals/had1511.py (HAD1511): the pad-layout check done at
    construction, then samples flowing through the older decimator with the
    output always ready, and the statistics watching the decimator output. */
module AdcCore {
  import opened Words
  import DownSamplingLegacy
  import opened AdcStatistics

  /** The pad names the physical layer needs. */
  const PhyLayout: seq<string> := ["fclk_p", "fclk_n", "lclk_p", "lclk_n", "d_p", "d_n"]

  /** The construction-time check: every pad name of the layout must be
      present on the pad record. */
  method CheckLayout(pads: set<string>) returns (ok: bool)
    ensures ok <==> forall k :: 0 <= k < |PhyLayout| ==> PhyLayout[k] in pads
  {
    ok := true;
    var i := 0;
    while i < |PhyLayout|
      invariant 0 <= i <= |PhyLayout|
      invariant ok <==> forall k :: 0 <= k < i ==> PhyLayout[k] in pads
    {
      if PhyLayout[i] !in pads {
        ok := false;
      }
      i := i + 1;
    }
  }

  class Core {
    const decimator: DownSamplingLegacy.LegacyDownSampler
    const range: RangeTracker
    const counter: SampleCounter

    ghost predicate Valid()
      reads this, decimator, decimator.stage1, decimator.stage2
      reads decimator.stage1.c32, decimator.stage1.c16, decimator.stage1.c8
      reads range, counter
    {
      decimator.Valid() && range.Valid() && counter.Valid()
    }

    constructor (nchannels: nat, ratio: nat)
      requires 1 <= nchannels <= CountModulus
      requires ratio < DownSamplingLegacy.RatioBound
      ensures Valid() && decimator.ratio == ratio && counter.nchannels == nchannels
      ensures decimator.inputs == [] && decimator.outputs == []
      ensures range.seen == [] && !range.cleared && range.min == 0 && range.max == 0
      ensures counter.words == 0 && counter.count == 0
      ensures fresh(decimator) && fresh(decimator.stage1) && fresh(decimator.stage2)
      ensures fresh(decimator.stage1.c32) && fresh(decimator.stage1.c16) && fresh(decimator.stage1.c8)
      ensures fresh(range) && fresh(counter)
    {
      decimator := new DownSamplingLegacy.LegacyDownSampler(ratio);
      range := new RangeTracker();
      counter := new SampleCounter(nchannels);
    }

    /** One clock tick, with or without an input word from the clock-domain
        crossing (sink.valid). A word enters the decimator, whose output is
        always ready; without one the decimator keeps its state. The range
        tracker and sample counter see exactly the words the decimator
        emits, and the statistics reset acts on every tick. */
    method Step(w: Option<Word>, statRst: bool) returns (out: Option<Word>)
      requires Valid()
      modifies decimator, decimator.stage2
      modifies decimator.stage1.c32, decimator.stage1.c16, decimator.stage1.c8
      modifies range, counter
      ensures Valid()
      ensures decimator.inputs == old(decimator.inputs) + (if w.Some? then [w.value] else [])
      ensures decimator.outputs == old(decimator.outputs) + (if out.Some? then [out.value] else [])
      ensures w.None? ==> out.None?
      ensures range.seen ==
                if statRst then []
                else old(range.seen) + (if out.Some? then [ByteOf(out.value, 0) as Sample] else [])
      ensures range.cleared == (statRst || old(range.cleared))
      ensures statRst ==> range.min == 0xff && range.max == 0x00
      ensures !statRst && out.Some? ==>
                var v := ByteOf(out.value, 0) as Sample;
                range.max == (if v >= old(range.max) then v else old(range.max)) &&
                range.min == (if v <= old(range.min) then v else old(range.min))
      ensures !statRst && out.None? ==> range.min == old(range.min) && range.max == old(range.max)
      ensures range.cleared ==> range.min == RangeMin(range.seen) && range.max == RangeMax(range.seen)
      ensures counter.words ==
                if statRst then 0 else old(counter.words) + (if out.Some? then 1 else 0)
      ensures counter.count == CountNext(counter.nchannels, old(counter.count), out.Some?, statRst)
    {
      if w.Some? {
        out := decimator.Push(w.value);
      } else {
        out := None;
      }
      var data := if out.Some? then out.value else 0;
      range.Tick(out.Some?, data, statRst);
      counter.Tick(out.Some?, statRst);
    }
  }

  /** Construction: the pad layout is checked first; a missing pad stops
      construction. */
  method Build(pads: set<string>, nchannels: nat, ratio: nat) returns (core: Option<Core>)
    requires 1 <= nchannels <= CountModulus
    requires ratio < DownSamplingLegacy.RatioBound
    ensures core.Some? <==> forall k :: 0 <= k < |PhyLayout| ==> PhyLayout[k] in pads
    ensures core.Some? ==> core.value.Valid() && core.value.decimator.inputs == []
  {
    var ok := CheckLayout(pads);
    if ok {
      var c := new Core(nchannels, ratio);
      core := Some(c);
    } else {
      core := None;
    }
  }
}
