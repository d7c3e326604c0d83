/** Host drivers that talk to the scope's devices through SPI transfers and
    CSR writes: the ADC (software/test_adc.py ADC) and the analog front end
    (peripherals/frontend.py FrontendDriver, with the identical copy
    software/test_adc.py Frontend). */
module Drivers {
  import opened Words
  import opened HostBus
  import opened Bits
  import Spi
  import AdcStatistics

  // ---------------------------------------------------------------------
  // Register names.
  // ---------------------------------------------------------------------

  /** The decimal digits of n. */
  function Decimal(n: nat): (s: string)
    ensures |s| >= 1
  {
    if n < 10 then ["0123456789"[n]] else Decimal(n / 10) + ["0123456789"[n % 10]]
  }

  /** The CSR of ADC n called name, as f"adc{n}_{name}". */
  function AdcReg(n: nat, name: string): string
  {
    "adc" + Decimal(n) + "_" + name
  }

  // Fields of the ADC control register.
  const ControlFrameRst: nat := 1
  const ControlStatRst: nat := 8

  // ---------------------------------------------------------------------
  // ADC.
  // ---------------------------------------------------------------------

  /** The three bytes of an ADC register write: the register address, then
      the 16-bit value most significant byte first. */
  function RegBytes(reg: int, value: nat): (bs: seq<int>)
    ensures |bs| == 3 && bs[0] == reg
    ensures 0 <= bs[1] < 0x100 && 0 <= bs[2] < 0x100
  {
    LowBound(Shr(value, 8), 8);
    LowBound(value, 8);
    [reg, Low(Shr(value, 8), 8), Low(value, 8)]
  }

  /** For a byte-sized register address the message is a valid transfer. */
  lemma RegBytesFit(reg: int, value: nat)
    requires 0 <= reg < 0x100
    ensures |RegBytes(reg, value)| <= Spi.MaxLength && Spi.IsBytes(RegBytes(reg, value))
  {
  }

  /** The value bytes are bytes and reassemble to the low 16 bits of the
      value. */
  lemma RegBytesRoundTrip(reg: int, value: nat)
    ensures Or(Shl(RegBytes(reg, value)[1], 8), RegBytes(reg, value)[2]) == Low(value, 16)
  {
    var bs := RegBytes(reg, value);
    LowBound(Shr(value, 8), 8);
    LowBound(value, 8);
    forall i: nat
      ensures Bit(Or(Shl(bs[1], 8), bs[2]), i) == Bit(Low(value, 16), i)
    {
      BitOr(Shl(bs[1], 8), bs[2], i);
      BitShl(bs[1], 8, i);
      BitLow(value, 8, i);
      BitLow(value, 16, i);
      if i >= 8 {
        BitLow(Shr(value, 8), 8, i - 8);
        BitShr(value, 8, i - 8);
      }
    }
    BitsDetermine(Or(Shl(bs[1], 8), bs[2]), Low(value, 16));
  }

  /** The range status register: min in bits 0-7, max in bits 8-15. */
  function RangeStatus(min: AdcStatistics.Sample, max: AdcStatistics.Sample): nat
  {
    Or(min, Shl(max, 8))
  }

  /** The host reads back exactly the min and max the gateware holds. */
  lemma RangeReadBack(min: AdcStatistics.Sample, max: AdcStatistics.Sample)
    ensures Low(RangeStatus(min, max), 8) == min
    ensures Low(Shr(RangeStatus(min, max), 8), 8) == max
  {
    var r := RangeStatus(min, max);
    forall i: nat
      ensures Bit(Low(r, 8), i) == Bit(min, i)
      ensures Bit(Low(Shr(r, 8), 8), i) == Bit(max, i)
    {
      BitLow(r, 8, i);
      BitLow(Shr(r, 8), 8, i);
      BitShr(r, 8, i);
      BitOr(min, Shl(max, 8), i);
      BitOr(min, Shl(max, 8), 8 + i);
      BitShl(max, 8, i);
      BitShl(max, 8, 8 + i);
      BitsBeyond(min, 8, i);
      BitsBeyond(min, 8, 8 + i);
      BitsBeyond(max, 8, i);
    }
    BitsDetermine(Low(r, 8), min);
    BitsDetermine(Low(Shr(r, 8), 8), max);
  }

  /** A value below 2**k has no bit at or above k. */
  lemma {:induction false} BitsBeyond(v: nat, k: nat, i: nat)
    requires v < Pow2(k)
    ensures i >= k ==> Bit(v, i) == 0
  {
    if i >= k {
      if k == 0 {
        BitOfZero(i);
      } else {
        BitsBeyond(v / 2, k - 1, i - 1);
      }
    }
  }

  class Adc {
    const bus: Bus
    /** The ADC index: its SPI chip select is CsAdc0 + n and its CSRs are
        named adc{n}_*. */
    const n: nat

    constructor (bus: Bus, n: nat)
      ensures this.bus == bus && this.n == n
    {
      this.bus := bus;
      this.n := n;
    }

    /** reset: pulses the frame reset of the ADC's clocking. */
    method Reset()
      modifies bus`log
      ensures bus.log == old(bus.log) + [RegWrite(AdcReg(n, "control"), ControlFrameRst)]
    {
      bus.WriteReg(AdcReg(n, "control"), ControlFrameRst);
    }

    /** set_reg: one 3-byte transfer; a register address that is not a byte
        is refused before anything is written. */
    method SetReg(reg: int, value: nat) returns (ok: bool)
      modifies bus`log
      ensures ok <==> 0 <= reg < 0x100
      ensures ok ==> bus.log == old(bus.log) + Spi.SpiAccesses(Spi.CsAdc0 + n, RegBytes(reg, value))
      ensures ok ==> Spi.DecodeAccesses(bus.log[|old(bus.log)|..]) ==
                       Some(Spi.Transfer(Spi.CsAdc0 + n, RegBytes(reg, value)))
      ensures !ok ==> bus.log == old(bus.log)
    {
      RegBytesRoundTrip(reg, value);
      ok := Spi.Write(bus, Spi.CsAdc0 + n, [reg, Low(Shr(value, 8), 8), Low(value, 8)]);
      if ok {
        Spi.TransferRoundTrip(Spi.CsAdc0 + n, RegBytes(reg, value));
        assert bus.log[|old(bus.log)|..] == Spi.SpiAccesses(Spi.CsAdc0 + n, RegBytes(reg, value));
      }
    }

    /** get_range: a statistics reset, then min from bits 0-7 of one read of
        the range register and max from bits 8-15 of a second read. The two
        read values are inputs. */
    method GetRange(firstRead: nat, secondRead: nat) returns (min: nat, max: nat)
      modifies bus`log
      ensures bus.log == old(bus.log) + [RegWrite(AdcReg(n, "control"), ControlStatRst)]
      ensures min == Low(firstRead, 8) && max == Low(Shr(secondRead, 8), 8)
      ensures min < 0x100 && max < 0x100
    {
      bus.WriteReg(AdcReg(n, "control"), ControlStatRst);
      min := Low(Shr(firstRead, 0), 8);
      max := Low(Shr(secondRead, 8), 8);
      LowBound(firstRead, 8);
      LowBound(Shr(secondRead, 8), 8);
    }

    /** capture: the DMA writer of ADC 0 is disabled, programmed and
        re-enabled; the wait for its done bit is not modelled. */
    method Capture(base: int, length: int)
      modifies bus`log
      ensures bus.log == old(bus.log) + [RegWrite("adc0_dma_enable", 0), RegWrite("adc0_dma_base", base),
                                         RegWrite("adc0_dma_length", length), RegWrite("adc0_dma_enable", 1)]
    {
      bus.WriteReg("adc0_dma_enable", 0);
      bus.WriteReg("adc0_dma_base", base);
      bus.WriteReg("adc0_dma_length", length);
      bus.WriteReg("adc0_dma_enable", 1);
    }
  }

  // ---------------------------------------------------------------------
  // Analog front end.
  // ---------------------------------------------------------------------

  /** The value every front-end slot starts at. */
  const SlotDefault: int := 0x7a

  /** The list position written by set_frontend(n, ...): index 4 - 1 - n,
      where a negative index counts from the end and anything else is an
      index error. */
  function Slot(n: int): Option<nat>
  {
    var k := 4 - 1 - n;
    if 0 <= k < 4 then Some(k) else if -4 <= k < 0 then Some(k + 4) else None
  }

  /** Channels 0..3 own slots 3..0: the slot order is the reverse of the
      channel order, and distinct channels never share a slot. */
  lemma SlotReversed(n: int, m: int)
    requires 0 <= n < 4 && 0 <= m < 4
    ensures Slot(n) == Some(3 - n)
    ensures n != m ==> Slot(n) != Slot(m)
  {
  }

  /** The front-end message: a zero byte, then the four slots. */
  function FrontendMessage(values: seq<int>): seq<int>
  {
    [0] + values
  }

  class FrontendDriver {
    const bus: Bus
    /** adcs[0], the only ADC the driver uses. */
    const adc: Adc
    var values: seq<int>

    ghost predicate Valid()
      reads this
    {
      |values| == 4 && adc.bus == bus
    }

    constructor (bus: Bus, adc: Adc)
      requires adc.bus == bus
      ensures Valid() && this.bus == bus && this.adc == adc
      ensures values == [SlotDefault, SlotDefault, SlotDefault, SlotDefault]
    {
      this.bus := bus;
      this.adc := adc;
      values := [SlotDefault, SlotDefault, SlotDefault, SlotDefault];
    }

    /** set_frontend: slot 3 - n takes the new value, the other three keep
        theirs, then the whole message is sent. A bad index changes nothing;
        a slot value that is not a byte is kept but makes the transfer fail
        before anything is written. */
    method SetFrontend(n: int, data: int) returns (ok: bool)
      requires Valid()
      modifies this`values, bus`log
      ensures Valid()
      ensures Slot(n).None? ==> !ok && values == old(values) && bus.log == old(bus.log)
      ensures Slot(n).Some? ==> values == old(values)[Slot(n).value := data]
      ensures Slot(n).Some? ==> (ok <==> Spi.IsBytes(FrontendMessage(values)))
      ensures ok ==> bus.log == old(bus.log) + Spi.SpiAccesses(Spi.CsFrontend, FrontendMessage(values))
      ensures ok ==> Spi.DecodeAccesses(bus.log[|old(bus.log)|..]) ==
                       Some(Spi.Transfer(Spi.CsFrontend, FrontendMessage(values)))
      ensures !ok ==> bus.log == old(bus.log)
    {
      var slot := Slot(n);
      if slot.None? {
        return false;
      }
      values := values[slot.value := data];
      ok := Spi.Write(bus, Spi.CsFrontend, [0] + values);
      if ok {
        Spi.TransferRoundTrip(Spi.CsFrontend, FrontendMessage(values));
        assert bus.log[|old(bus.log)|..] == Spi.SpiAccesses(Spi.CsFrontend, FrontendMessage(values));
      }
    }

    /** set_vga: a gain outside 0..255 is refused; otherwise one byte goes
        to the VGA of channel n. */
    method SetVga(n: nat, gain: int) returns (ok: bool)
      modifies bus`log
      ensures ok <==> 0 <= gain <= 255
      ensures ok ==> bus.log == old(bus.log) + Spi.SpiAccesses(Spi.CsCh1Vga + n, [gain])
      ensures ok ==> Spi.DecodeAccesses(bus.log[|old(bus.log)|..]) ==
                       Some(Spi.Transfer(Spi.CsCh1Vga + n, [gain]))
      ensures !ok ==> bus.log == old(bus.log)
    {
      if !(0 <= gain <= 255) {
        return false;
      }
      ok := Spi.Write(bus, Spi.CsCh1Vga + n, [gain]);
      Spi.TransferRoundTrip(Spi.CsCh1Vga + n, [gain]);
      assert bus.log[|old(bus.log)|..] == Spi.SpiAccesses(Spi.CsCh1Vga + n, [gain]);
    }

    /** The 1 V range on channel 1: slot 3 := 0x7e, VGA 0 gain 0x1f, then ADC
        register 0x2b := 0. */
    method SetCh1_1v() returns (ok: bool)
      requires Valid()
      modifies this`values, bus`log
      ensures Valid() && values == old(values)[3 := 0x7e]
      ensures ok <==> Spi.IsBytes(FrontendMessage(values))
      ensures ok ==> (bus.log == old(bus.log)
                + Spi.SpiAccesses(Spi.CsFrontend, FrontendMessage(values))
                + Spi.SpiAccesses(Spi.CsCh1Vga, [0x1f])
                + Spi.SpiAccesses(Spi.CsAdc0 + adc.n, RegBytes(0x2b, 0)))
      ensures !ok ==> bus.log == old(bus.log)
    {
      ok := SetRange(0x7e, 0x1f);
    }

    /** The 100 mV range on channel 1: slot 3 := 0x78, VGA 0 gain 0xad, then
        ADC register 0x2b := 0. */
    method SetCh1_100mv() returns (ok: bool)
      requires Valid()
      modifies this`values, bus`log
      ensures Valid() && values == old(values)[3 := 0x78]
      ensures ok <==> Spi.IsBytes(FrontendMessage(values))
      ensures ok ==> (bus.log == old(bus.log)
                + Spi.SpiAccesses(Spi.CsFrontend, FrontendMessage(values))
                + Spi.SpiAccesses(Spi.CsCh1Vga, [0xad])
                + Spi.SpiAccesses(Spi.CsAdc0 + adc.n, RegBytes(0x2b, 0)))
      ensures !ok ==> bus.log == old(bus.log)
    {
      ok := SetRange(0x78, 0xad);
    }

    /** The sequence both range settings share. The source raises on the
        first failing step, so a failure stops the sequence. */
    method SetRange(frontend: int, gain: int) returns (ok: bool)
      requires Valid() && 0 <= gain <= 255
      modifies this`values, bus`log
      ensures Valid() && values == old(values)[3 := frontend]
      ensures ok <==> Spi.IsBytes(FrontendMessage(values))
      ensures ok ==> (bus.log == old(bus.log)
                + Spi.SpiAccesses(Spi.CsFrontend, FrontendMessage(values))
                + Spi.SpiAccesses(Spi.CsCh1Vga, [gain])
                + Spi.SpiAccesses(Spi.CsAdc0 + adc.n, RegBytes(0x2b, 0)))
      ensures !ok ==> bus.log == old(bus.log)
    {
      assert Slot(0) == Some(3);
      ok := SetFrontend(0, frontend);
      if !ok {
        return;
      }
      ghost var afterFrontend := bus.log;
      var vgaOk := SetVga(0, gain);
      ghost var vga := Spi.SpiAccesses(Spi.CsCh1Vga + 0, [gain]);
      assert vgaOk && bus.log == afterFrontend + vga;
      ghost var afterVga := bus.log;
      var regOk := adc.SetReg(0x2b, 0);
      RegBytesFit(0x2b, 0);
      assert regOk && bus.log == afterVga + Spi.SpiAccesses(Spi.CsAdc0 + adc.n, RegBytes(0x2b, 0));
    }
  }
}
