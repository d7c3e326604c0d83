/** The ADF4360 PLL registers (peripherals/adf4360_pll.py): each of the three
    24-bit registers is a table of bit fields; encode ORs every field value,
    masked to its width, into place, decode cuts every field back out, and
    the driver sends the encoded registers MSB first over SPI. */
module Adf4360 {
  import opened Words
  import opened Bits
  import opened HostBus
  import Spi

  /** `size` bits starting at bit `offset`. */
  datatype Field = Field(offset: nat, size: nat)

  /** Bit i lies inside field f. */
  predicate In(f: Field, i: nat)
  {
    f.offset <= i < f.offset + f.size
  }

  /** (value >> offset) & (2**size - 1). */
  function Extract(v: nat, f: Field): nat
  {
    Low(Shr(v, f.offset), f.size)
  }

  /** (value & (2**size - 1)) << offset. */
  function Place(v: nat, f: Field): nat
  {
    Shl(Low(v, f.size), f.offset)
  }

  /** A field table listed from the least significant field upwards with no
      two fields sharing a bit. */
  predicate Ordered(layout: seq<Field>)
  {
    forall i :: 0 <= i < |layout| - 1 ==> layout[i].offset + layout[i].size <= layout[i + 1].offset
  }

  // ---------------------------------------------------------------------
  // Single-field facts, bit by bit.
  // ---------------------------------------------------------------------

  lemma BitExtract(v: nat, f: Field, i: nat)
    ensures Bit(Extract(v, f), i) == if i < f.size then Bit(v, f.offset + i) else 0
  {
    BitLow(Shr(v, f.offset), f.size, i);
    BitShr(v, f.offset, i);
  }

  lemma BitPlace(v: nat, f: Field, i: nat)
    ensures Bit(Place(v, f), i) == if In(f, i) then Bit(v, i - f.offset) else 0
  {
    BitShl(Low(v, f.size), f.offset, i);
    if i >= f.offset {
      BitLow(v, f.size, i - f.offset);
    }
  }

  lemma {:induction false} OrderedBefore(layout: seq<Field>, i: nat, j: nat)
    requires Ordered(layout) && i < j < |layout|
    ensures layout[i].offset + layout[i].size <= layout[j].offset
  {
    if i + 1 < j {
      OrderedBefore(layout, i, j - 1);
    }
  }

  // ---------------------------------------------------------------------
  // Whole-register codec.
  // ---------------------------------------------------------------------

  /** The OR of the first n fields, each masked and placed. */
  function EncodeUpTo(layout: seq<Field>, vals: seq<nat>, n: nat): nat
    requires |vals| == |layout| && n <= |layout|
  {
    if n == 0 then 0 else Or(EncodeUpTo(layout, vals, n - 1), Place(vals[n - 1], layout[n - 1]))
  }

  /** The encoded register. */
  function Encoded(layout: seq<Field>, vals: seq<nat>): nat
    requires |vals| == |layout|
  {
    EncodeUpTo(layout, vals, |layout|)
  }

  /** Every field cut out of v. */
  function Decoded(layout: seq<Field>, v: nat): (vals: seq<nat>)
    ensures |vals| == |layout|
  {
    seq(|layout|, i requires 0 <= i < |layout| => Extract(v, layout[i]))
  }

  /** Bit i lies inside one of the first n fields. */
  predicate CoveredUpTo(layout: seq<Field>, n: nat, i: nat)
    requires n <= |layout|
  {
    n > 0 && (CoveredUpTo(layout, n - 1, i) || In(layout[n - 1], i))
  }

  /** Every decoded field fits its width. */
  lemma DecodeFits(layout: seq<Field>, v: nat, j: nat)
    requires j < |layout|
    ensures Low(Decoded(layout, v)[j], layout[j].size) == Decoded(layout, v)[j]
  {
    var x := Decoded(layout, v)[j];
    var f := layout[j];
    forall i: nat
      ensures Bit(Low(x, f.size), i) == Bit(x, i)
    {
      BitLow(x, f.size, i);
      BitExtract(v, f, i);
    }
    BitsDetermine(Low(x, f.size), x);
  }

  /** A bit outside every field is clear in the encoding. */
  lemma {:induction false} BitEncodeOutside(layout: seq<Field>, vals: seq<nat>, n: nat, i: nat)
    requires |vals| == |layout| && n <= |layout| && !CoveredUpTo(layout, n, i)
    ensures Bit(EncodeUpTo(layout, vals, n), i) == 0
  {
    if n == 0 {
      BitOfZero(i);
    } else {
      BitEncodeOutside(layout, vals, n - 1, i);
      BitOr(EncodeUpTo(layout, vals, n - 1), Place(vals[n - 1], layout[n - 1]), i);
      BitPlace(vals[n - 1], layout[n - 1], i);
    }
  }

  /** In an ordered table, the fields below field j do not reach its
      bits. */
  lemma {:induction false} NotCoveredBelow(layout: seq<Field>, j: nat, n: nat, i: nat)
    requires Ordered(layout) && n <= j < |layout| && In(layout[j], i)
    ensures !CoveredUpTo(layout, n, i)
  {
    if n > 0 {
      NotCoveredBelow(layout, j, n - 1, i);
      OrderedBefore(layout, n - 1, j);
    }
  }

  /** A bit inside field j of an ordered table is the matching bit of value
      j. */
  lemma {:induction false} BitEncodeInside(layout: seq<Field>, vals: seq<nat>, n: nat, j: nat, i: nat)
    requires Ordered(layout) && |vals| == |layout| && j < n <= |layout| && In(layout[j], i)
    ensures Bit(EncodeUpTo(layout, vals, n), i) == Bit(vals[j], i - layout[j].offset)
  {
    var f := layout[n - 1];
    BitOr(EncodeUpTo(layout, vals, n - 1), Place(vals[n - 1], f), i);
    BitPlace(vals[n - 1], f, i);
    BitLow(vals[j], layout[j].size, i - layout[j].offset);
    if n - 1 == j {
      NotCoveredBelow(layout, j, j, i);
      BitEncodeOutside(layout, vals, j, i);
    } else {
      BitEncodeInside(layout, vals, n - 1, j, i);
      OrderedBefore(layout, j, n - 1);
    }
  }

  /** decode after encode gives back every field value that fits its
      width. */
  lemma DecodeEncode(layout: seq<Field>, vals: seq<nat>)
    requires Ordered(layout) && |vals| == |layout|
    requires forall j :: 0 <= j < |layout| ==> Low(vals[j], layout[j].size) == vals[j]
    ensures Decoded(layout, Encoded(layout, vals)) == vals
  {
    var e := Encoded(layout, vals);
    forall j | 0 <= j < |layout|
      ensures Decoded(layout, e)[j] == vals[j]
    {
      var f := layout[j];
      forall i: nat
        ensures Bit(Extract(e, f), i) == Bit(vals[j], i)
      {
        BitExtract(e, f, i);
        BitLow(vals[j], f.size, i);
        if i < f.size {
          BitEncodeInside(layout, vals, |layout|, j, f.offset + i);
        }
      }
      BitsDetermine(Extract(e, f), vals[j]);
    }
  }

  /** encode after decode keeps exactly the bits the fields cover; this
      needs no ordering of the table. */
  lemma {:induction false} BitEncodeDecode(layout: seq<Field>, v: nat, n: nat, i: nat)
    requires n <= |layout|
    ensures Bit(EncodeUpTo(layout, Decoded(layout, v), n), i) ==
              if CoveredUpTo(layout, n, i) then Bit(v, i) else 0
  {
    if n == 0 {
      BitOfZero(i);
    } else {
      var f := layout[n - 1];
      BitEncodeDecode(layout, v, n - 1, i);
      BitOr(EncodeUpTo(layout, Decoded(layout, v), n - 1), Place(Extract(v, f), f), i);
      BitPlace(Extract(v, f), f, i);
      if In(f, i) {
        BitExtract(v, f, i - f.offset);
      }
    }
  }

  /** In a table whose fields n0..n-1 sit back to back, those fields cover
      exactly the bits from the start of field n0 to the end of field n-1. */
  lemma {:induction false} ContiguousCover(layout: seq<Field>, n0: nat, n: nat, i: nat)
    requires n0 < n <= |layout|
    requires forall j :: n0 <= j < n - 1 ==> layout[j].offset + layout[j].size == layout[j + 1].offset
    ensures CoveredUpTo(layout, n, i) <==>
              CoveredUpTo(layout, n0, i) ||
              layout[n0].offset <= i < layout[n - 1].offset + layout[n - 1].size
    ensures layout[n0].offset <= layout[n - 1].offset
  {
    if n - 1 > n0 {
      ContiguousCover(layout, n0, n - 1, i);
    }
  }

  // ---------------------------------------------------------------------
  // The three registers.
  // ---------------------------------------------------------------------

  /** CONTROL, CORE_POWER_LEVEL, COUNTER_RESET, MUXOUT_CONTROL,
      PHASE_DETECTOR_POLARITY, CP_TRISTATE, CP_GAIN, MUTE_TIL_LOCK_DETECT,
      OUTPUT_POWER_LEVEL, CURRENT_SETTING_1, CURRENT_SETTING_2, POWER_DOWN,
      PRESCALER_VALUE. */
  const ControlLayout: seq<Field> :=
    [Field(0, 2), Field(2, 2), Field(4, 1), Field(5, 3), Field(8, 1), Field(9, 1), Field(10, 1),
     Field(11, 1), Field(12, 2), Field(14, 3), Field(17, 3), Field(20, 2), Field(22, 2)]

  /** CONTROL, R_COUNTER, ANTI_BACKLASH_PULSE_WIDTH, LOCK_DETECT_PRECISION,
      TEST_MODE_BIT, BAND_SELECT_CLOCK_DIV. */
  const RCounterLayout: seq<Field> :=
    [Field(0, 2), Field(2, 14), Field(16, 2), Field(18, 1), Field(19, 1), Field(20, 2)]

  /** CONTROL, A_COUNTER, B_COUNTER, CP_GAIN, DIVIDE_BY_2,
      DIVIDE_BY_2_SELECT. */
  const NCounterLayout: seq<Field> :=
    [Field(0, 2), Field(2, 5), Field(8, 13), Field(21, 1), Field(22, 1), Field(23, 1)]

  /** No two fields of a register share a bit, so decode after encode
      restores every field. */
  lemma LayoutsOrdered()
    ensures Ordered(ControlLayout) && Ordered(RCounterLayout) && Ordered(NCounterLayout)
  {
  }

  /** The Control fields sit back to back over bits 0-23, so encoding a
      decoded value gives back its low 24 bits. */
  lemma ControlRoundTrip(v: nat)
    ensures Encoded(ControlLayout, Decoded(ControlLayout, v)) == Low(v, 24)
  {
    var L := ControlLayout;
    var e := Encoded(L, Decoded(L, v));
    forall i: nat
      ensures Bit(e, i) == Bit(Low(v, 24), i)
    {
      BitEncodeDecode(L, v, |L|, i);
      ContiguousCover(L, 0, |L|, i);
      BitLow(v, 24, i);
    }
    BitsDetermine(e, Low(v, 24));
  }

  /** The R counter fields cover bits 0-21: bits 22 and up are dropped. */
  lemma RCounterRoundTrip(v: nat)
    ensures Encoded(RCounterLayout, Decoded(RCounterLayout, v)) == Low(v, 22)
  {
    var L := RCounterLayout;
    var e := Encoded(L, Decoded(L, v));
    forall i: nat
      ensures Bit(e, i) == Bit(Low(v, 22), i)
    {
      BitEncodeDecode(L, v, |L|, i);
      ContiguousCover(L, 0, |L|, i);
      BitLow(v, 22, i);
    }
    BitsDetermine(e, Low(v, 22));
  }

  /** The N counter fields leave bit 7 uncovered and stop at bit 23: those
      bits are dropped, every other bit is kept. */
  lemma NCounterRoundTrip(v: nat, i: nat)
    ensures Bit(Encoded(NCounterLayout, Decoded(NCounterLayout, v)), i) ==
              if i < 24 && i != 7 then Bit(v, i) else 0
  {
    var L := NCounterLayout;
    BitEncodeDecode(L, v, |L|, i);
    ContiguousCover(L, 2, |L|, i);
    ContiguousCover(L, 0, 2, i);
  }

  /** Default constructor values. */
  const ControlDefault: nat := 0
  const RCounterDefault: nat := 1
  const NCounterDefault: nat := 2

  /** Default values of the driver's init. */
  const InitControl: nat := 0x40_3120
  const InitRCounter: nat := 0x00_07d1
  const InitNCounter: nat := 0x04_e142

  /** The 2-bit CONTROL field (bits 0-1) tells the chip which register is
      written: 0 for Control, 1 for the R counter, 2 for the N counter; both
      sets of defaults carry the right one. */
  lemma DefaultsSelectRegister()
    ensures Decoded(ControlLayout, ControlDefault)[0] == 0
    ensures Decoded(RCounterLayout, RCounterDefault)[0] == 1
    ensures Decoded(NCounterLayout, NCounterDefault)[0] == 2
    ensures Decoded(ControlLayout, InitControl)[0] == 0
    ensures Decoded(RCounterLayout, InitRCounter)[0] == 1
    ensures Decoded(NCounterLayout, InitNCounter)[0] == 2
  {
  }

  /** One register object: its field table, the current field values, and
      the value of the last encode. */
  class Register {
    const layout: seq<Field>
    var fields: seq<nat>
    var value: nat

    ghost predicate Valid()
      reads this
    {
      Ordered(layout) && |fields| == |layout|
    }

    constructor Control(value: nat)
      ensures Valid() && layout == ControlLayout && fields == Decoded(ControlLayout, value)
    {
      LayoutsOrdered();
      layout := ControlLayout;
      fields := seq(|ControlLayout|, _ => 0);
      this.value := 0;
      new;
      Decode(value);
    }

    constructor RCounter(value: nat)
      ensures Valid() && layout == RCounterLayout && fields == Decoded(RCounterLayout, value)
    {
      LayoutsOrdered();
      layout := RCounterLayout;
      fields := seq(|RCounterLayout|, _ => 0);
      this.value := 0;
      new;
      Decode(value);
    }

    constructor NCounter(value: nat)
      ensures Valid() && layout == NCounterLayout && fields == Decoded(NCounterLayout, value)
    {
      LayoutsOrdered();
      layout := NCounterLayout;
      fields := seq(|NCounterLayout|, _ => 0);
      this.value := 0;
      new;
      Decode(value);
    }

    /** encode: the value is cleared first, then every field is ORed in, so
        the result depends on the field values only. */
    method Encode() returns (v: nat)
      requires Valid()
      modifies this`value
      ensures v == value && v == Encoded(layout, fields)
    {
      value := 0;
      var i := 0;
      while i < |layout|
        invariant 0 <= i <= |layout|
        invariant value == EncodeUpTo(layout, fields, i)
      {
        value := Or(value, Place(fields[i], layout[i]));
        i := i + 1;
      }
      v := value;
    }

    /** decode: every field is replaced by its bits of v. */
    method Decode(v: nat)
      requires |fields| == |layout|
      modifies this`fields
      ensures |fields| == |layout| && fields == Decoded(layout, v)
    {
      var i := 0;
      while i < |layout|
        invariant 0 <= i <= |layout| && |fields| == |layout|
        invariant forall k :: 0 <= k < i ==> fields[k] == Extract(v, layout[k])
      {
        fields := fields[i := Extract(v, layout[i])];
        i := i + 1;
      }
    }
  }

  // ---------------------------------------------------------------------
  // Driver.
  // ---------------------------------------------------------------------

  /** The three bytes of a register write, most significant first:
      (v >> 8 i) & 0xff for i = 2, 1, 0. */
  function PllBytes(v: nat): (bs: seq<nat>)
    ensures |bs| == 3 && Spi.IsBytes(bs)
  {
    LowBound(Shr(v, 16), 8);
    LowBound(Shr(v, 8), 8);
    LowBound(v, 8);
    [Low(Shr(v, 16), 8), Low(Shr(v, 8), 8), Low(v, 8)]
  }

  /** Three bytes put back together, the first one highest. */
  function Reassemble(bs: seq<nat>): nat
    requires |bs| == 3
  {
    Or(Or(Shl(bs[0], 16), Shl(bs[1], 8)), bs[2])
  }

  /** The bytes are byte values, and putting them back together gives the
      low 24 bits of the value. */
  lemma PllBytesRoundTrip(v: nat)
    ensures Reassemble(PllBytes(v)) == Low(v, 24)
  {
    var bs := PllBytes(v);
    forall i: nat
      ensures Bit(Reassemble(bs), i) == Bit(Low(v, 24), i)
    {
      BitOr(Or(Shl(bs[0], 16), Shl(bs[1], 8)), bs[2], i);
      BitOr(Shl(bs[0], 16), Shl(bs[1], 8), i);
      BitShl(bs[0], 16, i);
      BitShl(bs[1], 8, i);
      BitLow(v, 8, i);
      BitLow(v, 24, i);
      if i >= 8 {
        BitLow(Shr(v, 8), 8, i - 8);
        BitShr(v, 8, i - 8);
      }
      if i >= 16 {
        BitLow(Shr(v, 16), 8, i - 16);
        BitShr(v, 16, i - 16);
      }
    }
    BitsDetermine(Reassemble(bs), Low(v, 24));
  }

  /** write: one 3-byte SPI transfer to the PLL chip select. */
  method Write(bus: Bus, value: nat)
    modifies bus`log
    ensures bus.log == old(bus.log) + Spi.SpiAccesses(Spi.CsPll, PllBytes(value))
  {
    var ok := Spi.Write(bus, Spi.CsPll, PllBytes(value));
  }

  /** init: the three registers are built from the given values, then the
      R counter, the control register and the N counter are written in that
      order, each as the bits its fields cover. */
  method Init(bus: Bus, controlValue: nat, rCounterValue: nat, nCounterValue: nat)
    modifies bus`log
    ensures bus.log == old(bus.log)
              + Spi.SpiAccesses(Spi.CsPll, PllBytes(Low(rCounterValue, 22)))
              + Spi.SpiAccesses(Spi.CsPll, PllBytes(Low(controlValue, 24)))
              + Spi.SpiAccesses(Spi.CsPll, PllBytes(Encoded(NCounterLayout, Decoded(NCounterLayout, nCounterValue))))
  {
    var control := new Register.Control(controlValue);
    var rCounter := new Register.RCounter(rCounterValue);
    var nCounter := new Register.NCounter(nCounterValue);
    var r := rCounter.Encode();
    RCounterRoundTrip(rCounterValue);
    Write(bus, r);
    ghost var afterR := bus.log;
    var c := control.Encode();
    ControlRoundTrip(controlValue);
    Write(bus, c);
    ghost var afterControl := bus.log;
    var n := nCounter.Encode();
    Write(bus, n);
    assert afterControl == afterR + Spi.SpiAccesses(Spi.CsPll, PllBytes(Low(controlValue, 24)));
  }
}
