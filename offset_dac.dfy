/** The offset DAC controller (peripherals/offset_dac.py): one DAC feeds an
    8-way analog multiplexer whose outputs 4..7 hold the reference offsets
    of the four channels. A control FSM sweeps the channels: it shifts the
    channel's 24-bit word into the DAC over SPI, opens the multiplexer onto
    that channel's output while a timer runs, then moves to the next
    channel. The SPI master and the timer are inputs: spi.done and
    timer.done are given per tick. */
module OffsetDac {
  import opened Bits

  datatype DacState = Idle | DacUpdate | MuxUpdate | ChannelIncr

  /** The FSM's registers: its state, the run flag and the 2-bit channel. */
  datatype DacRegs = DacRegs(state: DacState, run: bool, channel: nat)

  /** The CSRs the FSM reads: the enable bit, the 2-bit DAC mode and the
      16-bit offsets of ch1..ch4. */
  datatype DacControl = DacControl(enable: bool, mode: nat, offsets: seq<nat>)

  /** What the FSM drives in one tick. */
  datatype DacOutputs = DacOutputs(spiStart: bool, spiLength: nat, mosi: nat,
                                   muxSelect: nat, muxEnableN: bool, timerWait: bool)

  /** The reset value of every channel offset: mid-scale. */
  const OffsetReset: nat := 0x8000

  /** The DAC's length in bits. */
  const DacBits: nat := 24

  predicate ControlOk(c: DacControl)
  {
    c.mode < 4 && |c.offsets| == 4 && forall i :: 0 <= i < 4 ==> c.offsets[i] < 0x10000
  }

  /** A run flag is only ever set inside DAC-UPDATE, and the channel is a
      2-bit value. */
  predicate RegsOk(r: DacRegs)
  {
    r.channel < 4 && (r.state != DacUpdate ==> !r.run)
  }

  // ---------------------------------------------------------------------
  // The DAC word.
  // ---------------------------------------------------------------------

  /** The 24-bit SPI word: bits 18-23 zero, bits 16-17 the mode, bits 0-15
      the offset. */
  function DacWord(mode: nat, offset: nat): nat
  {
    Or(Shl(Low(mode, 2), 16), Low(offset, 16))
  }

  /** The DAC reads the offset from bits 0-15 and the mode from bits 16-17,
      and every bit from 18 up is zero. */
  lemma DacWordFields(mode: nat, offset: nat)
    ensures Low(DacWord(mode, offset), 16) == Low(offset, 16)
    ensures Low(Shr(DacWord(mode, offset), 16), 2) == Low(mode, 2)
    ensures Shr(DacWord(mode, offset), 18) == 0
  {
    var w := DacWord(mode, offset);
    forall i: nat
      ensures Bit(Low(w, 16), i) == Bit(Low(offset, 16), i)
      ensures Bit(Low(Shr(w, 16), 2), i) == Bit(Low(mode, 2), i)
      ensures Bit(Shr(w, 18), i) == Bit(0, i)
    {
      BitOfZero(i);
      BitLow(w, 16, i);
      BitOr(Shl(Low(mode, 2), 16), Low(offset, 16), i);
      BitShl(Low(mode, 2), 16, i);
      BitLow(offset, 16, i);
      BitLow(Shr(w, 16), 2, i);
      BitShr(w, 16, i);
      BitOr(Shl(Low(mode, 2), 16), Low(offset, 16), 16 + i);
      BitShl(Low(mode, 2), 16, 16 + i);
      BitLow(offset, 16, 16 + i);
      BitLow(mode, 2, i);
      BitShr(w, 18, i);
      BitOr(Shl(Low(mode, 2), 16), Low(offset, 16), 18 + i);
      BitShl(Low(mode, 2), 16, 18 + i);
      BitLow(offset, 16, 18 + i);
      BitLow(mode, 2, 2 + i);
    }
    BitsDetermine(Low(w, 16), Low(offset, 16));
    BitsDetermine(Low(Shr(w, 16), 2), Low(mode, 2));
    BitsDetermine(Shr(w, 18), 0);
  }

  // ---------------------------------------------------------------------
  // The FSM as functions of its registers.
  // ---------------------------------------------------------------------

  /** The combinational outputs in a state: the SPI start only while run is
      clear in DAC-UPDATE, the multiplexer select channel + 4 and its active
      low enable only in MUX-UPDATE; every other output keeps its reset
      value. */
  function Drive(c: DacControl, r: DacRegs): (o: DacOutputs)
    requires ControlOk(c) && RegsOk(r)
    ensures o.spiStart <==> r.state == DacUpdate && !r.run
    ensures !o.muxEnableN <==> r.state == MuxUpdate
    ensures r.state == MuxUpdate ==> 4 <= o.muxSelect < 8 && o.muxSelect - 4 == r.channel
    ensures r.state == DacUpdate ==>
              o.spiLength == DacBits &&
              Low(o.mosi, 16) == c.offsets[r.channel] && Low(Shr(o.mosi, 16), 2) == c.mode &&
              Shr(o.mosi, 18) == 0
  {
    match r.state
    case Idle => DacOutputs(false, 0, 0, 0, true, false)
    case DacUpdate =>
      DacWordReadBack(c.mode, c.offsets[r.channel]);
      DacOutputs(!r.run, DacBits, DacWord(c.mode, c.offsets[r.channel]), 0, true, false)
    case MuxUpdate => DacOutputs(false, 0, 0, (r.channel + 4) % 8, false, true)
    case ChannelIncr => DacOutputs(false, 0, 0, 0, true, false)
  }

  /** The same, for a mode and an offset that fit their fields. */
  lemma DacWordReadBack(mode: nat, offset: nat)
    requires mode < 4 && offset < 0x10000
    ensures Low(DacWord(mode, offset), 16) == offset
    ensures Low(Shr(DacWord(mode, offset), 16), 2) == mode
    ensures Shr(DacWord(mode, offset), 18) == 0
  {
    Pow2Values();
    DacWordFields(mode, offset);
    LowFits(offset, 16);
    LowFits(mode, 2);
  }

  /** A value already below 2**k is its own low k bits. */
  lemma {:induction false} LowFits(v: nat, k: nat)
    requires v < Pow2(k)
    ensures Low(v, k) == v
  {
    if k > 0 {
      LowFits(v / 2, k - 1);
    }
  }

  /** The registers after one tick. */
  function Next(c: DacControl, r: DacRegs, spiDone: bool, timerDone: bool): DacRegs
  {
    match r.state
    case Idle =>
      if c.enable then DacRegs(DacUpdate, false, 0) else DacRegs(Idle, false, r.channel)
    case DacUpdate =>
      if r.run && spiDone then DacRegs(MuxUpdate, false, r.channel) else DacRegs(DacUpdate, true, r.channel)
    case MuxUpdate =>
      if timerDone then DacRegs(ChannelIncr, r.run, r.channel) else r
    case ChannelIncr =>
      DacRegs(if r.channel == 4 - 1 then Idle else DacUpdate, r.run, (r.channel + 1) % 4)
  }

  /** Every tick keeps the registers well formed; DAC-UPDATE is entered with
      run clear, so the SPI start is raised on the first tick of each visit
      and never again before the state is left; it is left only when run
      and spi.done hold. */
  lemma NextKeepsRegs(c: DacControl, r: DacRegs, spiDone: bool, timerDone: bool)
    requires RegsOk(r)
    ensures var n := Next(c, r, spiDone, timerDone);
      RegsOk(n) &&
      (n.state == DacUpdate && r.state != DacUpdate ==> !n.run) &&
      (n.state == DacUpdate && r.state == DacUpdate ==> n.run) &&
      (r.state == DacUpdate && n.state != DacUpdate <==> r.state == DacUpdate && r.run && spiDone)
  {
  }

  /** CHANNEL-INCR moves to the next channel, back to IDLE after the last. */
  lemma ChannelIncrAdvances(c: DacControl, r: DacRegs, spiDone: bool, timerDone: bool)
    requires RegsOk(r) && r.state == ChannelIncr
    ensures var n := Next(c, r, spiDone, timerDone);
      (r.channel == 3 ==> n.state == Idle && n.channel == 0) &&
      (r.channel < 3 ==> n.state == DacUpdate && n.channel == r.channel + 1)
  {
  }

  /** The word the SPI master is started with in one tick, if any. */
  function Started(c: DacControl, r: DacRegs): seq<nat>
    requires ControlOk(c) && RegsOk(r)
  {
    var o := Drive(c, r);
    if o.spiStart then [o.mosi] else []
  }

  /** The words the SPI master is started with over n ticks in which the
      SPI transfer and the timer finish at once. */
  function Starts(c: DacControl, r: DacRegs, n: nat): seq<nat>
    requires ControlOk(c) && RegsOk(r)
    decreases n
  {
    if n == 0 then []
    else
      NextKeepsRegs(c, r, true, true);
      Started(c, r) + Starts(c, Next(c, r, true, true), n - 1)
  }

  /** The registers after n such ticks. */
  function After(c: DacControl, r: DacRegs, n: nat): (a: DacRegs)
    requires RegsOk(r)
    ensures RegsOk(a)
    decreases n
  {
    if n == 0 then r
    else
      NextKeepsRegs(c, r, true, true);
      After(c, Next(c, r, true, true), n - 1)
  }

  /** Ticks are additive for the registers. */
  lemma {:induction false} AfterSplit(c: DacControl, r: DacRegs, m: nat, n: nat)
    requires RegsOk(r)
    ensures After(c, r, m + n) == After(c, After(c, r, m), n)
    decreases m
  {
    if m > 0 {
      NextKeepsRegs(c, r, true, true);
      var s := Next(c, r, true, true);
      AfterSplit(c, s, m - 1, n);
      assert After(c, r, m) == After(c, s, m - 1);
      assert After(c, r, m + n) == After(c, s, m - 1 + n);
    }
  }

  /** Ticks are additive. */
  lemma {:induction false} StartsSplit(c: DacControl, r: DacRegs, m: nat, n: nat)
    requires ControlOk(c) && RegsOk(r)
    ensures Starts(c, r, m + n) == Starts(c, r, m) + Starts(c, After(c, r, m), n)
    ensures After(c, r, m + n) == After(c, After(c, r, m), n)
    decreases m
  {
    AfterSplit(c, r, m, n);
    if m > 0 {
      NextKeepsRegs(c, r, true, true);
      var s := Next(c, r, true, true);
      StartsSplit(c, s, m - 1, n);
      assert After(c, r, m) == After(c, s, m - 1);
      assert Starts(c, r, m + n) == Started(c, r) + Starts(c, s, m - 1 + n);
      assert Starts(c, r, m) == Started(c, r) + Starts(c, s, m - 1);
    }
  }

  /** With spi.done and timer.done high on every tick (a transfer and a
      settling time of one tick each), one channel takes four ticks (start
      the transfer, see it done, see the timer done, advance) and starts the
      DAC exactly once, with that channel's word. SweepAnyTiming drops the
      timing assumption. */
  lemma ChannelRound(c: DacControl, ch: nat)
    requires ControlOk(c) && ch < 4
    ensures Starts(c, DacRegs(DacUpdate, false, ch), 4) == [DacWord(c.mode, c.offsets[ch])]
    ensures After(c, DacRegs(DacUpdate, false, ch), 4) ==
              if ch == 3 then DacRegs(Idle, false, 0) else DacRegs(DacUpdate, false, ch + 1)
  {
    var r0 := DacRegs(DacUpdate, false, ch);
    var r1 := DacRegs(DacUpdate, true, ch);
    var r2 := DacRegs(MuxUpdate, false, ch);
    var r3 := DacRegs(ChannelIncr, false, ch);
    assert Next(c, r0, true, true) == r1;
    assert Next(c, r1, true, true) == r2;
    assert Next(c, r2, true, true) == r3;
    assert Starts(c, r3, 1) == [] && Starts(c, r2, 2) == [] && Starts(c, r1, 3) == [];
    assert Drive(c, r0).mosi == DacWord(c.mode, c.offsets[ch]);
    assert After(c, r0, 4) == After(c, r1, 3) == After(c, r2, 2) == After(c, r3, 1)
        == After(c, Next(c, r3, true, true), 0);
  }

  /** The words of channels ch..3 in order. */
  function ChannelWords(c: DacControl, ch: nat): (ws: seq<nat>)
    requires ControlOk(c) && ch <= 4
    ensures |ws| == 4 - ch
    decreases 4 - ch
  {
    if ch == 4 then [] else [DacWord(c.mode, c.offsets[ch])] + ChannelWords(c, ch + 1)
  }

  /** From DAC-UPDATE on channel ch, the remaining rounds of the sweep take
      four ticks per channel, start the DAC with the words of channels
      ch..3 in order and end in IDLE on channel 0. */
  lemma {:induction false} Rounds(c: DacControl, ch: nat)
    requires ControlOk(c) && ch < 4
    ensures Starts(c, DacRegs(DacUpdate, false, ch), 4 * (4 - ch)) == ChannelWords(c, ch)
    ensures After(c, DacRegs(DacUpdate, false, ch), 4 * (4 - ch)) == DacRegs(Idle, false, 0)
    decreases 4 - ch
  {
    ChannelRound(c, ch);
    if ch == 3 {
      assert ChannelWords(c, 4) == [];
    } else {
      var r := DacRegs(DacUpdate, false, ch);
      var n := 4 * (4 - (ch + 1));
      assert 4 * (4 - ch) == 4 + n;
      Rounds(c, ch + 1);
      StartsSplit(c, r, 4, n);
      assert ChannelWords(c, ch) == [DacWord(c.mode, c.offsets[ch])] + ChannelWords(c, ch + 1);
    }
  }

  /** With spi.done and timer.done high on every tick (a transfer and a
      settling time of one tick each), an enabled controller
      leaves IDLE, starts the DAC with the words of ch1, ch2, ch3 and ch4 in
      that order, and is back in IDLE 17 ticks later. */
  lemma Sweep(c: DacControl, ch: nat)
    requires ControlOk(c) && c.enable && ch < 4
    ensures Starts(c, DacRegs(Idle, false, ch), 17) ==
              [DacWord(c.mode, c.offsets[0]), DacWord(c.mode, c.offsets[1]),
               DacWord(c.mode, c.offsets[2]), DacWord(c.mode, c.offsets[3])]
    ensures After(c, DacRegs(Idle, false, ch), 17) == DacRegs(Idle, false, 0)
  {
    LeaveIdle(c, ch);
    Rounds(c, 0);
    StartsSplit(c, DacRegs(Idle, false, ch), 1, 16);
    AllChannelWords(c);
  }

  /** An enabled controller leaves IDLE for channel 0 in one tick, without
      starting the DAC. */
  lemma LeaveIdle(c: DacControl, ch: nat)
    requires ControlOk(c) && c.enable && ch < 4
    ensures Starts(c, DacRegs(Idle, false, ch), 1) == []
    ensures After(c, DacRegs(Idle, false, ch), 1) == DacRegs(DacUpdate, false, 0)
  {
    var idle := DacRegs(Idle, false, ch);
    assert Next(c, idle, true, true) == DacRegs(DacUpdate, false, 0);
    assert Started(c, idle) == [];
  }

  lemma AllChannelWords(c: DacControl)
    requires ControlOk(c)
    ensures ChannelWords(c, 0) ==
              [DacWord(c.mode, c.offsets[0]), DacWord(c.mode, c.offsets[1]),
               DacWord(c.mode, c.offsets[2]), DacWord(c.mode, c.offsets[3])]
  {
    assert ChannelWords(c, 4) == [];
    assert ChannelWords(c, 3) == [DacWord(c.mode, c.offsets[3])];
    assert ChannelWords(c, 2) == [DacWord(c.mode, c.offsets[2])] + ChannelWords(c, 3);
    assert ChannelWords(c, 1) == [DacWord(c.mode, c.offsets[1])] + ChannelWords(c, 2);
  }

  // ---------------------------------------------------------------------
  // A sweep under any timing of spi.done and timer.done.
  // ---------------------------------------------------------------------

  /** The spi.done and timer.done inputs of one tick. */
  datatype Dones = Dones(spi: bool, timer: bool)

  /** The words of the current sweep that the FSM has yet to send from r:
      none in IDLE; from DAC-UPDATE with run clear, the words of channels
      r.channel..3; once that channel's transfer is started, the words of
      the channels after it. */
  function Remaining(c: DacControl, r: DacRegs): seq<nat>
    requires ControlOk(c) && RegsOk(r)
  {
    match r.state
    case Idle => []
    case DacUpdate => if r.run then ChannelWords(c, r.channel + 1) else ChannelWords(c, r.channel)
    case MuxUpdate => ChannelWords(c, r.channel + 1)
    case ChannelIncr => ChannelWords(c, r.channel + 1)
  }

  /** Outside IDLE, a tick sends exactly the head of what remains, whatever
      spi.done and timer.done are. */
  lemma RemainingStep(c: DacControl, r: DacRegs, d: Dones)
    requires ControlOk(c) && RegsOk(r) && r.state != Idle
    ensures RegsOk(Next(c, r, d.spi, d.timer))
    ensures Started(c, r) + Remaining(c, Next(c, r, d.spi, d.timer)) == Remaining(c, r)
  {
    NextKeepsRegs(c, r, d.spi, d.timer);
    if r.state == DacUpdate && !r.run {
      assert Started(c, r) == [DacWord(c.mode, c.offsets[r.channel])];
    } else if r.state == ChannelIncr && r.channel == 3 {
      assert ChannelWords(c, 4) == [];
    }
  }

  /** The words sent from r over the ticks of the trace t, up to and
      including the first tick that ends in IDLE. */
  function StartsUntilIdle(c: DacControl, r: DacRegs, t: seq<Dones>): seq<nat>
    requires ControlOk(c) && RegsOk(r)
    decreases |t|
  {
    if t == [] then []
    else
      NextKeepsRegs(c, r, t[0].spi, t[0].timer);
      var n := Next(c, r, t[0].spi, t[0].timer);
      Started(c, r) + (if n.state == Idle then [] else StartsUntilIdle(c, n, t[1..]))
  }

  /** Some tick of the trace t, run from r, ends in IDLE. */
  predicate ReachesIdle(c: DacControl, r: DacRegs, t: seq<Dones>)
    decreases |t|
  {
    t != [] &&
    (Next(c, r, t[0].spi, t[0].timer).state == Idle ||
     ReachesIdle(c, Next(c, r, t[0].spi, t[0].timer), t[1..]))
  }

  /** Whatever the timing of the done inputs, the words sent from a state
      outside IDLE until the FSM is back in IDLE are a prefix of what
      remains, and all of it once IDLE is reached. */
  lemma {:induction false} RemainingSent(c: DacControl, r: DacRegs, t: seq<Dones>)
    requires ControlOk(c) && RegsOk(r) && r.state != Idle
    ensures |StartsUntilIdle(c, r, t)| <= |Remaining(c, r)|
    ensures StartsUntilIdle(c, r, t) == Remaining(c, r)[..|StartsUntilIdle(c, r, t)|]
    ensures ReachesIdle(c, r, t) ==> StartsUntilIdle(c, r, t) == Remaining(c, r)
    decreases |t|
  {
    if t != [] {
      RemainingStep(c, r, t[0]);
      var n := Next(c, r, t[0].spi, t[0].timer);
      if n.state != Idle {
        RemainingSent(c, n, t[1..]);
      }
    }
  }

  /** An enabled controller leaving IDLE sends, whatever the timing of
      spi.done and timer.done, the words of ch1, ch2, ch3 and ch4 in that
      order before it is back in IDLE: all four if it gets back, a prefix of
      them if the trace ends first. */
  lemma SweepAnyTiming(c: DacControl, ch: nat, t: seq<Dones>)
    requires ControlOk(c) && c.enable && ch < 4
    ensures var s := StartsUntilIdle(c, DacRegs(Idle, false, ch), t);
      |s| <= 4 &&
      s == [DacWord(c.mode, c.offsets[0]), DacWord(c.mode, c.offsets[1]),
            DacWord(c.mode, c.offsets[2]), DacWord(c.mode, c.offsets[3])][..|s|]
    ensures ReachesIdle(c, DacRegs(Idle, false, ch), t) ==>
      StartsUntilIdle(c, DacRegs(Idle, false, ch), t) ==
        [DacWord(c.mode, c.offsets[0]), DacWord(c.mode, c.offsets[1]),
         DacWord(c.mode, c.offsets[2]), DacWord(c.mode, c.offsets[3])]
  {
    AllChannelWords(c);
    var idle := DacRegs(Idle, false, ch);
    if t != [] {
      var first := DacRegs(DacUpdate, false, 0);
      assert Next(c, idle, t[0].spi, t[0].timer) == first;
      assert Started(c, idle) == [];
      RemainingSent(c, first, t[1..]);
      assert StartsUntilIdle(c, idle, t) == StartsUntilIdle(c, first, t[1..]);
    }
  }

  // ---------------------------------------------------------------------
  // The controller.
  // ---------------------------------------------------------------------

  class OffsetDacController {
    // CSRs.
    var enable: bool
    var mode: nat
    var offsets: seq<nat>
    // FSM registers.
    var state: DacState
    var run: bool
    var channel: nat

    function Control(): DacControl
      reads this
    {
      DacControl(enable, mode, offsets)
    }

    function Regs(): DacRegs
      reads this
    {
      DacRegs(state, run, channel)
    }

    ghost predicate Valid()
      reads this
    {
      ControlOk(Control()) && RegsOk(Regs())
    }

    /** Reset: the FSM idles, the mode is normal operation, every offset is
        mid-scale and enable takes the build-time default. */
    constructor (defaultEnable: bool)
      ensures Valid()
      ensures Control() == DacControl(defaultEnable, 0, [OffsetReset, OffsetReset, OffsetReset, OffsetReset])
      ensures Regs() == DacRegs(Idle, false, 0)
    {
      enable := defaultEnable;
      mode := 0;
      offsets := [OffsetReset, OffsetReset, OffsetReset, OffsetReset];
      state := Idle;
      run := false;
      channel := 0;
    }

    /** A host write of the control CSR: enable is bit 0, mode bits 4-5. */
    method WriteControl(value: nat)
      requires Valid()
      modifies this`enable, this`mode
      ensures Valid()
      ensures enable == (Bit(value, 0) == 1) && mode == Low(Shr(value, 4), 2)
    {
      enable := Bit(value, 0) == 1;
      LowBound(Shr(value, 4), 2);
      mode := Low(Shr(value, 4), 2);
    }

    /** A host write of the offset CSR of channel ch (1-based, as the CSR
        names ch1..ch4); the CSR keeps the low 16 bits. There is no other
        channel CSR, so any other ch writes nothing. */
    method WriteOffset(ch: nat, value: nat) returns (ok: bool)
      requires Valid()
      modifies this`offsets
      ensures Valid()
      ensures ok <==> 1 <= ch <= 4
      ensures ok ==> offsets == old(offsets)[ch - 1 := Low(value, 16)]
      ensures !ok ==> offsets == old(offsets)
    {
      if ch < 1 || ch > 4 {
        return false;
      }
      LowBound(value, 16);
      Pow2Values();
      offsets := offsets[ch - 1 := Low(value, 16)];
      ok := true;
    }

    /** One clock tick: the outputs are driven from the current registers,
        and the registers take their next values. */
    method Tick(spiDone: bool, timerDone: bool) returns (o: DacOutputs)
      requires Valid()
      modifies this`state, this`run, this`channel
      ensures Valid()
      ensures o == Drive(Control(), old(Regs()))
      ensures Regs() == Next(Control(), old(Regs()), spiDone, timerDone)
    {
      o := Drive(Control(), Regs());
      match state {
        case Idle =>
          run := false;
          if enable {
            channel := 0;
            state := DacUpdate;
          }
        case DacUpdate =>
          if run && spiDone {
            run := false;
            state := MuxUpdate;
          } else {
            run := true;
          }
        case MuxUpdate =>
          if timerDone {
            state := ChannelIncr;
          }
        case ChannelIncr =>
          state := DacUpdate;
          if channel == 4 - 1 {
            state := Idle;
          }
          channel := (channel + 1) % 4;
      }
    }
  }
}
