/** The LCD video timing generator and its colour-bar test pattern
    (peripherals/lcd.py). The generator walks a 12-bit horizontal counter
    across each line and a 12-bit vertical counter down each frame, and
    raises the active-area and sync flags between programmable positions;
    the pattern paints eight vertical bars from a fixed colour table. One
    method call is one tick of the video clock. */
module Lcd {
  import opened Words
  import opened Bits

  /** The counters and timing registers are 12 bits wide. */
  const CountModulus: nat := 4096

  // ---------------------------------------------------------------------
  // Timings.
  // ---------------------------------------------------------------------

  /** One entry of the video timing table (the pixel clock is left out). */
  datatype VideoTiming = VideoTiming(
    hActive: nat, hBlanking: nat, hSyncOffset: nat, hSyncWidth: nat,
    vActive: nat, vBlanking: nat, vSyncOffset: nat, vSyncWidth: nat)

  /** 800x600@60Hz, the only entry of the table. */
  const Svga: VideoTiming := VideoTiming(800, 256, 40, 128, 600, 28, 1, 4)

  /** The table lookup; any other name is a missing key. */
  function LookupTiming(name: string): Option<VideoTiming>
  {
    if name == "800x600@60Hz" then Some(Svga) else None
  }

  /** The timing registers, as the generator compares the counters with
      them. */
  datatype Timings = Timings(
    hres: nat, hsyncStart: nat, hsyncEnd: nat, hscan: nat,
    vres: nat, vsyncStart: nat, vsyncEnd: nat, vscan: nat)

  predicate TimingsFit(t: Timings)
  {
    t.hres < CountModulus && t.hsyncStart < CountModulus && t.hsyncEnd < CountModulus && t.hscan < CountModulus &&
    t.vres < CountModulus && t.vsyncStart < CountModulus && t.vsyncEnd < CountModulus && t.vscan < CountModulus
  }

  /** The active area ends and the sync pulse lies inside the scan, in both
      directions. */
  predicate Ordered(t: Timings)
  {
    t.hres <= t.hscan && t.hsyncStart <= t.hsyncEnd <= t.hscan &&
    t.vres <= t.vscan && t.vsyncStart <= t.vsyncEnd <= t.vscan
  }

  /** The reset values of the timing registers: the sync starts after the
      front porch, lasts the sync width, and the scan covers the active area
      and the blanking; each register keeps 12 bits. */
  function Defaults(vt: VideoTiming): (t: Timings)
    ensures TimingsFit(t)
  {
    Timings(vt.hActive % CountModulus,
            (vt.hActive + vt.hSyncOffset) % CountModulus,
            (vt.hActive + vt.hSyncOffset + vt.hSyncWidth) % CountModulus,
            (vt.hActive + vt.hBlanking) % CountModulus,
            vt.vActive % CountModulus,
            (vt.vActive + vt.vSyncOffset) % CountModulus,
            (vt.vActive + vt.vSyncOffset + vt.vSyncWidth) % CountModulus,
            (vt.vActive + vt.vBlanking) % CountModulus)
  }

  /** A timing whose sums fit 12 bits and whose sync pulse fits in the
      blanking gives ordered registers, the sync pulse after the active
      area, the active size kept and the scan longer by the blanking. */
  lemma DefaultsOrdered(vt: VideoTiming)
    requires vt.hActive + vt.hBlanking < CountModulus && vt.vActive + vt.vBlanking < CountModulus
    requires vt.hSyncOffset + vt.hSyncWidth <= vt.hBlanking && vt.vSyncOffset + vt.vSyncWidth <= vt.vBlanking
    ensures Ordered(Defaults(vt))
    ensures Defaults(vt).hres <= Defaults(vt).hsyncStart && Defaults(vt).vres <= Defaults(vt).vsyncStart
    ensures Defaults(vt).hres == vt.hActive && Defaults(vt).hscan - Defaults(vt).hres == vt.hBlanking
    ensures Defaults(vt).vres == vt.vActive && Defaults(vt).vscan - Defaults(vt).vres == vt.vBlanking
  {
    ModSmall(vt.hActive);
    ModSmall(vt.hActive + vt.hSyncOffset);
    ModSmall(vt.hActive + vt.hSyncOffset + vt.hSyncWidth);
    ModSmall(vt.hActive + vt.hBlanking);
    ModSmall(vt.vActive);
    ModSmall(vt.vActive + vt.vSyncOffset);
    ModSmall(vt.vActive + vt.vSyncOffset + vt.vSyncWidth);
    ModSmall(vt.vActive + vt.vBlanking);
    var d := Defaults(vt);
    assert d.hres == vt.hActive && d.hsyncStart == vt.hActive + vt.hSyncOffset;
    assert d.hsyncEnd == vt.hActive + vt.hSyncOffset + vt.hSyncWidth && d.hscan == vt.hActive + vt.hBlanking;
    assert d.vres == vt.vActive && d.vsyncStart == vt.vActive + vt.vSyncOffset;
    assert d.vsyncEnd == vt.vActive + vt.vSyncOffset + vt.vSyncWidth && d.vscan == vt.vActive + vt.vBlanking;
  }

  lemma ModSmall(x: nat)
    requires x < CountModulus
    ensures x % CountModulus == x
  {
  }

  /** The 800x600 registers: 800/840/968/1056 and 600/601/605/628. */
  lemma SvgaDefaults()
    ensures LookupTiming("800x600@60Hz") == Some(Svga)
    ensures Defaults(Svga) == Timings(800, 840, 968, 1056, 600, 601, 605, 628)
    ensures Ordered(Defaults(Svga))
  {
    DefaultsOrdered(Svga);
  }

  // ---------------------------------------------------------------------
  // The timing generator as functions of its registers.
  // ---------------------------------------------------------------------

  datatype VtgState = VtgIdle | VtgRun

  datatype VtgRegs = VtgRegs(state: VtgState, hcount: nat, vcount: nat,
                             hactive: bool, vactive: bool, hsync: bool, vsync: bool)

  /** What the generator presents on its source each tick. */
  datatype VideoOutputs = VideoOutputs(valid: bool, de: bool, first: bool, last: bool,
                                       hsync: bool, vsync: bool, hcount: nat, vcount: nat)

  /** A flag set when the counter is at `start` and cleared when it is at
      `end`; the clear wins when both hold. */
  function Flag(f: bool, count: nat, start: nat, end: nat): bool
  {
    if count == end then false else if count == start then true else f
  }

  /** The counter positions strictly after `start` and up to `end`: where a
      flag that is registered at `start` and cleared at `end` is high. */
  predicate InWindow(count: nat, start: nat, end: nat)
  {
    start < count <= end
  }

  /** Each flag is high exactly inside its window. */
  predicate FlagsMatch(t: Timings, r: VtgRegs)
  {
    (r.hactive <==> InWindow(r.hcount, 0, t.hres)) &&
    (r.hsync <==> InWindow(r.hcount, t.hsyncStart, t.hsyncEnd)) &&
    (r.vactive <==> InWindow(r.vcount, 0, t.vres)) &&
    (r.vsync <==> InWindow(r.vcount, t.vsyncStart, t.vsyncEnd))
  }

  /** The counters stay within the scan; IDLE holds everything at zero; with
      ordered timings every flag matches its window. */
  predicate RegsOk(t: Timings, r: VtgRegs)
  {
    r.hcount <= t.hscan && r.vcount <= t.vscan &&
    (r.state == VtgIdle ==>
       r.hcount == 0 && r.vcount == 0 && !r.hactive && !r.vactive && !r.hsync && !r.vsync) &&
    (Ordered(t) ==> FlagsMatch(t, r))
  }

  /** The registers after one tick. IDLE clears the counters and the active
      flags and moves to RUN once enabled; RUN is never left. In RUN, a tick
      without ready changes nothing; otherwise hcount counts and is reset
      after hscan, and at that line end vcount counts and is reset after
      vscan. */
  function Step(t: Timings, enable: bool, r: VtgRegs, ready: bool): VtgRegs
  {
    match r.state
    case VtgIdle =>
      VtgRegs(if enable then VtgRun else VtgIdle, 0, 0, false, false, r.hsync, r.vsync)
    case VtgRun =>
      if !ready then r
      else
        var lineEnd := r.hcount == t.hscan;
        VtgRegs(VtgRun,
                if lineEnd then 0 else (r.hcount + 1) % CountModulus,
                if !lineEnd then r.vcount else if r.vcount == t.vscan then 0 else (r.vcount + 1) % CountModulus,
                Flag(r.hactive, r.hcount, 0, t.hres),
                if lineEnd then Flag(r.vactive, r.vcount, 0, t.vres) else r.vactive,
                Flag(r.hsync, r.hcount, t.hsyncStart, t.hsyncEnd),
                if lineEnd then Flag(r.vsync, r.vcount, t.vsyncStart, t.vsyncEnd) else r.vsync)
  }

  /** The counter after a step that moves it: one further, or back to 0
      after the scan end. */
  function Advance(count: nat, scan: nat): nat
  {
    if count == scan then 0 else count + 1
  }

  /** Moving the counter keeps a flag equal to its window. */
  lemma FlagStep(f: bool, count: nat, start: nat, end: nat, scan: nat)
    requires start <= end <= scan && count <= scan
    requires f <==> InWindow(count, start, end)
    ensures Flag(f, count, start, end) <==> InWindow(Advance(count, scan), start, end)
  {
  }

  /** Every tick keeps the registers well formed. */
  lemma StepKeepsRegs(t: Timings, enable: bool, r: VtgRegs, ready: bool)
    requires TimingsFit(t) && RegsOk(t, r)
    ensures RegsOk(t, Step(t, enable, r, ready))
    ensures r.state == VtgRun ==> Step(t, enable, r, ready).state == VtgRun
  {
    if r.state == VtgRun && ready && Ordered(t) {
      var lineEnd := r.hcount == t.hscan;
      FlagStep(r.hactive, r.hcount, 0, t.hres, t.hscan);
      FlagStep(r.hsync, r.hcount, t.hsyncStart, t.hsyncEnd, t.hscan);
      if lineEnd {
        FlagStep(r.vactive, r.vcount, 0, t.vres, t.vscan);
        FlagStep(r.vsync, r.vcount, t.vsyncStart, t.vsyncEnd, t.vscan);
      }
    }
  }

  /** The position of the current pixel in the frame, in scan order. */
  function PixelIndex(t: Timings, r: VtgRegs): nat
  {
    r.vcount * (t.hscan + 1) + r.hcount
  }

  function FrameSize(t: Timings): nat
  {
    (t.hscan + 1) * (t.vscan + 1)
  }

  /** Each accepted pixel moves one place along the frame, and the last
      pixel of a frame is followed by the first. */
  lemma PixelIndexStep(t: Timings, enable: bool, r: VtgRegs)
    requires TimingsFit(t) && RegsOk(t, r) && r.state == VtgRun
    ensures PixelIndex(t, r) < FrameSize(t)
    ensures PixelIndex(t, Step(t, enable, r, true)) == (PixelIndex(t, r) + 1) % FrameSize(t)
  {
    StepPosition(t, enable, r);
    IndexArith(r.vcount, r.hcount, t.vscan, t.hscan);
    var n := Step(t, enable, r, true);
    ScanStep(r.vcount, r.hcount, t.vscan, t.hscan, n.vcount, n.hcount);
  }

  /** The scan-order step on plain numbers: (h, v) moves to (h2, v2). */
  lemma ScanStep(v: nat, h: nat, vs: nat, hs: nat, v2: nat, h2: nat)
    requires v <= vs && h <= hs
    requires h2 == Advance(h, hs) && v2 == if h == hs then Advance(v, vs) else v
    ensures v2 * (hs + 1) + h2 == (v * (hs + 1) + h + 1) % ((hs + 1) * (vs + 1))
  {
    IndexArith(v, h, vs, hs);
    var i, f := v * (hs + 1) + h, (hs + 1) * (vs + 1);
    if h < hs {
      ModBelow(i + 1, f);
    } else if v < vs {
      ModBelow(i + 1, f);
    } else {
      assert i + 1 == f;
      ModSelf(f);
    }
  }

  lemma ModSelf(f: nat)
    requires f > 0
    ensures f % f == 0
  {
  }

  /** Where an accepted pixel moves the counters. */
  lemma StepPosition(t: Timings, enable: bool, r: VtgRegs)
    requires TimingsFit(t) && RegsOk(t, r) && r.state == VtgRun
    ensures Step(t, enable, r, true).hcount == Advance(r.hcount, t.hscan)
    ensures Step(t, enable, r, true).vcount ==
              if r.hcount == t.hscan then Advance(r.vcount, t.vscan) else r.vcount
  {
  }

  /** The arithmetic of the scan order, for a pixel (h, v) inside the scan
      (hs, vs). */
  lemma IndexArith(v: nat, h: nat, vs: nat, hs: nat)
    requires v <= vs && h <= hs
    ensures v * (hs + 1) + h < (hs + 1) * (vs + 1)
    ensures v * (hs + 1) + h + 1 == (hs + 1) * (vs + 1) <==> h == hs && v == vs
    ensures h == hs ==> (v + 1) * (hs + 1) == v * (hs + 1) + h + 1
  {
    var w := hs + 1;
    assert (hs + 1) * (vs + 1) == vs * w + w;
    assert (v + 1) * w == v * w + w;
    MulMono(v, vs, w);
    if v < vs {
      MulMono(v + 1, vs, w);
    }
  }

  lemma ModBelow(x: nat, f: nat)
    requires x < f
    ensures x % f == x
  {
  }

  /** The outputs: valid in RUN; de where both active flags are high; first
      and last at the first and last pixel of the frame. */
  function Emit(t: Timings, r: VtgRegs): (o: VideoOutputs)
    requires RegsOk(t, r)
    ensures o.valid <==> r.state == VtgRun
    ensures Ordered(t) ==> (o.de <==> 0 < r.hcount <= t.hres && 0 < r.vcount <= t.vres)
    ensures o.first <==> PixelIndex(t, r) == 0
    ensures o.last <==> PixelIndex(t, r) + 1 == FrameSize(t)
  {
    LastPixel(t, r);
    VideoOutputs(r.state == VtgRun, r.hactive && r.vactive,
                 r.hcount == 0 && r.vcount == 0, r.hcount == t.hscan && r.vcount == t.vscan,
                 r.hsync, r.vsync, r.hcount, r.vcount)
  }

  lemma LastPixel(t: Timings, r: VtgRegs)
    requires r.hcount <= t.hscan && r.vcount <= t.vscan
    ensures PixelIndex(t, r) + 1 == FrameSize(t) <==> r.hcount == t.hscan && r.vcount == t.vscan
  {
    var w := t.hscan + 1;
    assert FrameSize(t) == t.vscan * w + w;
    if r.vcount < t.vscan {
      MulMono(r.vcount + 1, t.vscan, w);
      assert PixelIndex(t, r) + 1 <= r.vcount * w + w == (r.vcount + 1) * w;
    }
  }

  class VideoTimingGenerator {
    /** The timing registers as the video clock domain sees them. */
    const timings: Timings
    /** The enable CSR (reset 1). */
    var enable: bool
    var state: VtgState
    var hcount: nat
    var vcount: nat
    var hactive: bool
    var vactive: bool
    var hsync: bool
    var vsync: bool

    function Regs(): VtgRegs
      reads this
    {
      VtgRegs(state, hcount, vcount, hactive, vactive, hsync, vsync)
    }

    ghost predicate Valid()
      reads this
    {
      TimingsFit(timings) && RegsOk(timings, Regs())
    }

    /** Reset: the registers take the timing's defaults, enable is set, and
        the FSM idles with every counter and flag at zero. */
    constructor (vt: VideoTiming)
      ensures Valid()
      ensures timings == Defaults(vt) && enable
      ensures Regs() == VtgRegs(VtgIdle, 0, 0, false, false, false, false)
    {
      timings := Defaults(vt);
      enable := true;
      state := VtgIdle;
      hcount := 0;
      vcount := 0;
      hactive := false;
      vactive := false;
      hsync := false;
      vsync := false;
    }

    /** One tick of the video clock with the sink's ready: the outputs come
        from the current registers, then the registers step. */
    method Tick(ready: bool) returns (o: VideoOutputs)
      requires Valid()
      modifies this`state, this`hcount, this`vcount, this`hactive, this`vactive, this`hsync, this`vsync
      ensures Valid()
      ensures o == Emit(timings, old(Regs()))
      ensures Regs() == Step(timings, enable, old(Regs()), ready)
    {
      o := Emit(timings, Regs());
      ghost var r := Regs();
      StepKeepsRegs(timings, enable, r, ready);
      match state {
        case VtgIdle =>
          hactive := false;
          vactive := false;
          hcount := 0;
          vcount := 0;
          if enable {
            state := VtgRun;
          }
        case VtgRun =>
          if ready {
            var h, v := hcount, vcount;
            AdvanceLine(h);
            if h == timings.hscan {
              AdvanceFrame(v);
            }
          }
      }
      assert Regs() == Step(timings, enable, r, ready);
    }

    /** The horizontal part of an accepted pixel, from hcount h. */
    method AdvanceLine(h: nat)
      modifies this`hcount, this`hactive, this`hsync
      ensures hcount == if h == timings.hscan then 0 else (h + 1) % CountModulus
      ensures hactive == Flag(old(hactive), h, 0, timings.hres)
      ensures hsync == Flag(old(hsync), h, timings.hsyncStart, timings.hsyncEnd)
    {
      hcount := (h + 1) % CountModulus;
      if h == 0 { hactive := true; }
      if h == timings.hres { hactive := false; }
      if h == timings.hsyncStart { hsync := true; }
      if h == timings.hsyncEnd { hsync := false; }
      if h == timings.hscan {
        hcount := 0;
      }
    }

    /** The vertical part of the last pixel of a line, from vcount v. */
    method AdvanceFrame(v: nat)
      modifies this`vcount, this`vactive, this`vsync
      ensures vcount == if v == timings.vscan then 0 else (v + 1) % CountModulus
      ensures vactive == Flag(old(vactive), v, 0, timings.vres)
      ensures vsync == Flag(old(vsync), v, timings.vsyncStart, timings.vsyncEnd)
    {
      vcount := (v + 1) % CountModulus;
      if v == 0 { vactive := true; }
      if v == timings.vres { vactive := false; }
      if v == timings.vsyncStart { vsync := true; }
      if v == timings.vsyncEnd { vsync := false; }
      if v == timings.vscan {
        vcount := 0;
      }
    }
  }

  // ---------------------------------------------------------------------
  // Colour bars.
  // ---------------------------------------------------------------------

  datatype Rgb = Rgb(r: nat, g: nat, b: nat)

  /** White, yellow, cyan, green, purple, red, blue, black. */
  const ColorTable: seq<Rgb> := [
    Rgb(0xff, 0xff, 0xff), Rgb(0xff, 0xff, 0x00), Rgb(0x00, 0xff, 0xff), Rgb(0x00, 0xff, 0x00),
    Rgb(0xff, 0x00, 0xff), Rgb(0xff, 0x00, 0x00), Rgb(0x00, 0x00, 0xff), Rgb(0x00, 0x00, 0x00)]

  /** The width of one bar in pixels: an eighth of the line, hres >> 3. */
  function BarWidth(hres: nat): nat
  {
    Shr(hres, 3)
  }

  /** The pixels per bar as the hardware counts them: the wrap compare
      pix == hres[3:] - 1 is 12 bits wide, so a bar width of 0 wraps at
      4095 and a bar then spans the whole 4096-value pix range. */
  function BarPeriod(hres: nat): (n: nat)
    ensures 1 <= n <= CountModulus
  {
    if Shr(hres, 3) == 0 then CountModulus
    else if Shr(hres, 3) < CountModulus then Shr(hres, 3)
    else CountModulus
  }

  class ColorBarsPattern {
    /** The enable input (reset 1). */
    var enable: bool
    var valid: bool
    /** The position within the current bar (12 bits). */
    var pix: nat
    /** The current bar (3 bits). */
    var bar: nat
    /** The registered colour output. */
    var color: Rgb
    /** The pixels accepted since reset. */
    ghost var accepted: nat
    /** The bars completed since reset. */
    ghost var bars: nat

    ghost predicate Valid()
      reads this
    {
      pix < CountModulus && bar < 8
    }

    /** For a fixed bar width w >= 1: the accepted pixels are `bars` whole
        bars and `pix` more, and bar is the number of whole bars modulo 8. */
    ghost predicate Tracks(w: nat)
      reads this
    {
      BarsTrack(w, accepted, bars, pix, bar)
    }

    constructor ()
      ensures Valid() && enable && !valid && accepted == 0 && bars == 0
      ensures pix == 0 && bar == 0 && color == Rgb(0, 0, 0)
      ensures forall w :: w >= 1 ==> Tracks(w)
    {
      enable := true;
      valid := false;
      pix := 0;
      bar := 0;
      color := Rgb(0, 0, 0);
      accepted := 0;
      bars := 0;
    }

    /** One tick with the sink's ready and the generator's hres: valid
        follows enable; an accepted pixel steps pix (12 bits), and at the
        last pixel of a bar, where pix equals the bar width minus one taken
        in 12 bits, pix restarts and the bar steps modulo 8; the colour
        register takes the table entry of the current bar. With a bar width
        of 0 the wrap value is 4095. */
    method Tick(ready: bool, hres: nat) returns (out: Rgb)
      requires Valid() && hres < CountModulus
      modifies this`valid, this`pix, this`bar, this`color, this`accepted, this`bars
      ensures Valid()
      ensures out == old(color) && color == ColorTable[old(bar)] && valid == enable
      ensures accepted == old(accepted) + (if old(valid) && ready then 1 else 0)
      ensures old(Tracks(BarPeriod(hres))) ==> Tracks(BarPeriod(hres))
      ensures bar == if old(valid) && ready && old(pix) == BarPeriod(hres) - 1 then (old(bar) + 1) % 8 else old(bar)
      ensures BarWidth(hres) == 0 ==> (bar != old(bar) <==> old(valid) && ready && old(pix) == CountModulus - 1)
    {
      out := color;
      var w := BarWidth(hres);
      var last := (w + CountModulus - 1) % CountModulus;
      BarAdvance(hres, accepted, bars, pix, bar);
      color := ColorTable[bar];
      if valid && ready {
        accepted := accepted + 1;
        var p := pix;
        pix := (p + 1) % CountModulus;
        if p == last {
          pix := 0;
          bar := (bar + 1) % 8;
          bars := bars + 1;
        }
      }
      valid := enable;
    }
  }

  /** For a bar width w >= 1: `accepted` pixels are `bars` whole bars and
      `pix` more, and `bar` is the number of whole bars modulo 8. */
  ghost predicate BarsTrack(w: nat, accepted: nat, bars: nat, pix: nat, bar: nat)
  {
    w >= 1 && pix < w && accepted == bars * w + pix && bar == bars % 8
  }

  /** One more accepted pixel: pix steps, or at the last pixel of a bar it
      restarts and one more bar is complete. */
  lemma BarsStep(w: nat, accepted: nat, bars: nat, pix: nat, bar: nat)
    requires BarsTrack(w, accepted, bars, pix, bar)
    ensures pix + 1 < w ==> BarsTrack(w, accepted + 1, bars, pix + 1, bar)
    ensures pix + 1 == w ==> BarsTrack(w, accepted + 1, bars + 1, 0, (bar + 1) % 8)
  {
    if pix + 1 == w {
      assert (bars + 1) * w == bars * w + w;
    }
  }

  /** One accepted pixel under the 12-bit wrap compare: the wrap value
      hres[3:] - 1 is the last pixel of a bar of BarPeriod(hres) pixels, so
      the bar count stays in step, and with a bar width of 0 the wrap comes
      at pix 4095. */
  lemma BarAdvance(hres: nat, accepted: nat, bars: nat, pix: nat, bar: nat)
    requires hres < CountModulus && pix < CountModulus
    ensures (BarWidth(hres) + CountModulus - 1) % CountModulus == BarPeriod(hres) - 1
    ensures BarWidth(hres) == 0 ==> BarPeriod(hres) - 1 == CountModulus - 1
    ensures BarsTrack(BarPeriod(hres), accepted, bars, pix, bar) ==>
              if pix == BarPeriod(hres) - 1 then BarsTrack(BarPeriod(hres), accepted + 1, bars + 1, 0, (bar + 1) % 8)
              else BarsTrack(BarPeriod(hres), accepted + 1, bars, (pix + 1) % CountModulus, bar)
  {
    BarWidthBound(hres);
    var n := BarPeriod(hres);
    if BarsTrack(n, accepted, bars, pix, bar) {
      BarsStep(n, accepted, bars, pix, bar);
      if pix != n - 1 {
        assert (pix + 1) % CountModulus == pix + 1;
      }
    }
  }

  /** A 12-bit hres gives a bar width below 512. */
  lemma BarWidthBound(hres: nat)
    requires hres < CountModulus
    ensures BarWidth(hres) < 512
  {
    assert Shr(hres, 3) == Shr(hres / 2, 2) == Shr(hres / 2 / 2, 1) == hres / 2 / 2 / 2;
  }
}
