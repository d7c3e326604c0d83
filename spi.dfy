/** The host side of the SPI master (software/spi.py): one transfer of up to
    six bytes is programmed with three register writes — the one-hot chip
    select, the data left-aligned in the 48-bit MOSI register, and the
    control word carrying the bit length and the start bit. */
module Spi {
  import opened Words
  import opened HostBus
  import opened Bits

  // Chip selects of the scope's SPI devices.
  const CsPll: nat := 0
  const CsAdc0: nat := 1
  const CsAdc1: nat := 2
  const CsFrontend: nat := 3
  const CsCh1Vga: nat := 4

  /** The MOSI register holds at most six bytes. */
  const MaxLength: nat := 6

  /** The position of the highest set bit (0 for 0 and 1). */
  function Log2(v: nat): nat
  {
    if v <= 1 then 0 else 1 + Log2(v / 2)
  }

  /** The chip select is recovered from its one-hot register value. */
  lemma {:induction false} Log2OneHot(cs: nat)
    ensures Log2(Shl(1, cs)) == cs
  {
    if cs > 0 {
      Log2OneHot(cs - 1);
      ShlMul(1, cs - 1);
    }
  }

  /** The chip-select register 1 << cs has bit cs set and every other bit
      clear: exactly one chip is selected. */
  lemma CsOneHot(cs: nat)
    ensures forall i: nat :: Bit(Shl(1, cs), i) == if i == cs then 1 else 0
  {
    forall i: nat
      ensures Bit(Shl(1, cs), i) == if i == cs then 1 else 0
    {
      OneHot(cs, i);
    }
  }

  // ---------------------------------------------------------------------
  // Big-endian byte strings.
  // ---------------------------------------------------------------------

  /** Every element is a byte value; bytes(data) refuses anything else. */
  predicate IsBytes(data: seq<int>)
  {
    forall i :: 0 <= i < |data| ==> 0 <= data[i] < 0x100
  }

  /** int.from_bytes(data, "big"): the first byte is the most significant. */
  function BigEndian(data: seq<int>): int
  {
    if data == [] then 0 else BigEndian(data[..|data| - 1]) * 0x100 + data[|data| - 1]
  }

  /** The n-byte big-endian digits of v. */
  function Digits(v: int, n: nat): (ds: seq<int>)
    ensures |ds| == n
    decreases n
  {
    if n == 0 then [] else Digits(v / 0x100, n - 1) + [v % 0x100]
  }

  function Zeros(k: nat): (z: seq<int>)
    ensures |z| == k && IsBytes(z)
  {
    seq(k, _ => 0)
  }

  lemma {:induction false} BigEndianBounds(data: seq<int>)
    requires IsBytes(data)
    ensures 0 <= BigEndian(data) < Pow2(8 * |data|)
  {
    if data != [] {
      var front := data[..|data| - 1];
      BigEndianBounds(front);
      Pow2Add(8 * |front|, 8);
      assert Pow2(8) == 0x100;
      assert BigEndian(front) * 0x100 + data[|data| - 1] < (BigEndian(front) + 1) * 0x100;
    }
  }

  /** Reading the digits of a big-endian value gives the bytes back. */
  lemma {:induction false} DigitsBigEndian(data: seq<int>)
    requires IsBytes(data)
    ensures Digits(BigEndian(data), |data|) == data
  {
    if data != [] {
      var front := data[..|data| - 1];
      DigitsBigEndian(front);
      var v := BigEndian(data);
      assert v / 0x100 == BigEndian(front) && v % 0x100 == data[|data| - 1];
      assert data == front + [data[|data| - 1]];
    }
  }

  /** Shifting a big-endian value left by 8k bits appends k zero bytes. */
  lemma {:induction false} ShiftAppendsZeros(data: seq<int>, k: nat)
    ensures BigEndian(data) * Pow2(8 * k) == BigEndian(data + Zeros(k))
  {
    if k > 0 {
      ShiftAppendsZeros(data, k - 1);
      var longer := data + Zeros(k);
      assert longer[..|longer| - 1] == data + Zeros(k - 1);
      assert longer[|longer| - 1] == 0;
      assert BigEndian(longer) == BigEndian(data + Zeros(k - 1)) * 0x100;
      Pow2Add(8 * (k - 1), 8);
      assert Pow2(8) == 0x100;
      var b := BigEndian(data);
      var p := Pow2(8 * (k - 1));
      assert Pow2(8 * k) == p * 0x100;
      assert b * (p * 0x100) == (b * p) * 0x100;
      assert b * Pow2(8 * k) == b * (p * 0x100);
    } else {
      assert data + Zeros(0) == data;
    }
  }

  // ---------------------------------------------------------------------
  // The three register values of a transfer.
  // ---------------------------------------------------------------------

  /** The MOSI register: the bytes big-endian, shifted left by 48 - 8 len so
      the first byte occupies bits 40-47. */
  function Mosi(data: seq<int>): int
    requires |data| <= MaxLength && IsBytes(data)
  {
    BigEndianBounds(data);
    Shl(BigEndian(data), 48 - 8 * |data|)
  }

  /** The control register: the bit length times the length unit 1 << 8, with
      the start bit 1 << 0 OR-ed in. */
  function Control(len: nat): nat
  {
    Or(8 * len * 0x100, 1)
  }

  /** The MOSI register reads back as the transfer bytes followed by zero
      padding, and fits 48 bits. */
  lemma MosiLayout(data: seq<int>)
    requires |data| <= MaxLength && IsBytes(data)
    ensures 0 <= Mosi(data) < Pow2(48)
    ensures Digits(Mosi(data), MaxLength) == data + Zeros(MaxLength - |data|)
  {
    var padded := data + Zeros(MaxLength - |data|);
    BigEndianBounds(data);
    ShlMul(BigEndian(data), 48 - 8 * |data|);
    ShiftAppendsZeros(data, MaxLength - |data|);
    assert 48 - 8 * |data| == 8 * (MaxLength - |data|);
    assert Mosi(data) == BigEndian(padded);
    assert |padded| == MaxLength;
    assert IsBytes(padded) by {
      forall i | 0 <= i < |padded|
        ensures 0 <= padded[i] < 0x100
      {
        if i >= |data| {
          assert padded[i] == Zeros(MaxLength - |data|)[i - |data|];
        }
      }
    }
    BigEndianBounds(padded);
    DigitsBigEndian(padded);
  }

  /** The control word has the start bit set, no other bit below bit 8, and
      the bit length above. */
  lemma ControlLayout(len: nat)
    ensures Control(len) % 0x100 == 1 && Control(len) / 0x100 == 8 * len
    ensures Bit(Control(len), 0) == 1
  {
    var a := 8 * len * 0x100;
    assert a == 0x100 * (8 * len) == 2 * (0x400 * len);
    OrOneEven(a);
    assert Control(len) == a + 1;
    DivMod256(8 * len, 1);
    DivMod2(0x400 * len, 1);
  }

  lemma DivMod256(q: int, r: int)
    requires 0 <= r < 0x100
    ensures (0x100 * q + r) / 0x100 == q && (0x100 * q + r) % 0x100 == r
  {
  }

  lemma DivMod2(q: int, r: int)
    requires 0 <= r < 2
    ensures (2 * q + r) / 2 == q && (2 * q + r) % 2 == r
  {
  }

  /** The CSR names of the SPI master's registers. */
  const CsReg := "spi_cs"
  const MosiReg := "spi_mosi"
  const ControlReg := "spi_control"

  /** One SPI transfer as the host requests it. */
  datatype Transfer = Transfer(cs: nat, data: seq<int>)

  /** The register writes of one transfer, in issue order. */
  function SpiAccesses(cs: nat, data: seq<int>): seq<Access>
    requires |data| <= MaxLength && IsBytes(data)
  {
    [RegWrite(CsReg, Shl(1, cs)),
     RegWrite(MosiReg, Mosi(data)),
     RegWrite(ControlReg, Control(|data|))]
  }

  /** What the SPI master does with three register values: the device is
      the set bit of the chip-select register, the length comes from the
      control word and the bytes from the top of the MOSI register. */
  function DecodeTransfer(csReg: int, mosi: int, control: int): Option<Transfer>
  {
    if csReg < 1 || control < 0 || mosi < 0 || control % 0x100 != 1 then None
    else
      var bits := control / 0x100;
      if bits % 8 != 0 || bits / 8 > MaxLength then None
      else Some(Transfer(Log2(csReg), Digits(mosi, MaxLength)[..bits / 8]))
  }

  /** The decoding of a logged transfer, if the writes are one. */
  function DecodeAccesses(w: seq<Access>): Option<Transfer>
  {
    if |w| == 3 && w[0].RegWrite? && w[0].reg == CsReg && w[1].RegWrite? && w[1].reg == MosiReg
       && w[2].RegWrite? && w[2].reg == ControlReg
    then DecodeTransfer(w[0].value, w[1].value, w[2].value)
    else None
  }

  /** The three writes of a transfer tell the device exactly which chip to
      select and which bytes to shift out. */
  lemma TransferRoundTrip(cs: nat, data: seq<int>)
    requires |data| <= MaxLength && IsBytes(data)
    ensures DecodeAccesses(SpiAccesses(cs, data)) == Some(Transfer(cs, data))
  {
    DecodeRegisters(cs, data);
  }

  /** The three register values of a transfer decode to it. */
  lemma DecodeRegisters(cs: nat, data: seq<int>)
    requires |data| <= MaxLength && IsBytes(data)
    ensures DecodeTransfer(Shl(1, cs), Mosi(data), Control(|data|)) == Some(Transfer(cs, data))
  {
    MosiLayout(data);
    ControlLayout(|data|);
    Log2OneHot(cs);
    ShlMul(1, cs);
    Mul8(|data|);
    assert (data + Zeros(MaxLength - |data|))[..|data|] == data;
  }

  lemma Mul8(len: nat)
    ensures (8 * len) % 8 == 0 && (8 * len) / 8 == len
  {
  }

  /** SPI.write: a transfer longer than six bytes, or with an element that
      is not a byte, is refused before anything is written; otherwise the
      chip select, MOSI and control registers are written in that order.
      The wait for the done bit is not modelled. */
  method Write(bus: Bus, cs: nat, data: seq<int>) returns (ok: bool)
    modifies bus`log
    ensures ok <==> |data| <= MaxLength && IsBytes(data)
    ensures ok ==> bus.log == old(bus.log) + SpiAccesses(cs, data)
    ensures !ok ==> bus.log == old(bus.log)
  {
    if |data| > MaxLength || !IsBytes(data) {
      return false;
    }
    bus.WriteReg(CsReg, Shl(1, cs));
    var mosiBits := |data| * 8;
    BigEndianBounds(data);
    var mosiData := Shl(BigEndian(data), 48 - mosiBits);
    bus.WriteReg(MosiReg, mosiData);
    bus.WriteReg(ControlReg, Or(mosiBits * 0x100, 1));
    ok := true;
  }
}
