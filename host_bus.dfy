/** The host's view of the board: control/status registers written by name
    over Etherbone, 32-bit accesses to main RAM, and a log of every write in
    issue order. The register CSRs themselves and the transport are not
    modelled; a write is complete when it is logged. */
module HostBus {
  import opened Words

  /** A 32-bit bus word. */
  type Word32 = bv32

  /** One write issued by the host. */
  datatype Access =
    | RegWrite(reg: string, value: int)
    | MemWrite(addr: int, word: Word32)

  /** Main RAM as bytes, indexed by the offset from the start of RAM (the
      address the DMA engines use). */
  type Memory = int -> Byte

  /** The four bytes of a bus word, least significant first, as
      int.from_bytes(..., "little") reads them. */
  function Bytes32(w: Word32): (bs: seq<Byte>)
    ensures |bs| == 4
  {
    [(w & 0xff) as Byte, ((w >> 8) & 0xff) as Byte,
     ((w >> 16) & 0xff) as Byte, ((w >> 24) & 0xff) as Byte]
  }

  /** Four bytes assembled little-endian into a bus word. */
  function Pack32(bs: seq<Byte>): Word32
    requires |bs| == 4
  {
    (bs[0] as Word32)
    | ((bs[1] as Word32) << 8)
    | ((bs[2] as Word32) << 16)
    | ((bs[3] as Word32) << 24)
  }

  lemma Pack32Bytes(w: Word32)
    ensures Pack32(Bytes32(w)) == w
  {
  }

  lemma Bytes32Pack(bs: seq<Byte>)
    requires |bs| == 4
    ensures Bytes32(Pack32(bs)) == bs
  {
  }

  /** The n bytes of memory starting at offset a, in address order. */
  function Window(mem: Memory, a: int, n: nat): (bs: seq<Byte>)
    ensures |bs| == n
  {
    seq(n, i => mem(a + i))
  }

  /** Memory after a 32-bit little-endian store at offset a. */
  function Store(mem: Memory, a: int, w: Word32): Memory
  {
    x => if a <= x < a + 4 then Bytes32(w)[x - a] else mem(x)
  }

  /** The 32-bit little-endian word at offset a. */
  function Load(mem: Memory, a: int): Word32
  {
    Pack32(Window(mem, a, 4))
  }

  /** A store is read back by a load at the same offset and leaves every
      other byte alone. */
  lemma LoadStore(mem: Memory, a: int, w: Word32)
    ensures Load(Store(mem, a, w), a) == w
    ensures forall x :: !(a <= x < a + 4) ==> Store(mem, a, w)(x) == mem(x)
  {
    assert Window(Store(mem, a, w), a, 4) == Bytes32(w);
    Pack32Bytes(w);
  }

  class Bus {
    /** Start of main RAM on the Etherbone bus. */
    const ramBase: int
    /** Every write issued so far, oldest first. */
    var log: seq<Access>
    /** Contents of main RAM. */
    var mem: Memory

    constructor (ramBase: int, mem: Memory)
      ensures this.ramBase == ramBase && this.mem == mem && log == []
    {
      this.ramBase := ramBase;
      this.mem := mem;
      log := [];
    }

    /** A write to a named CSR. */
    method WriteReg(reg: string, value: int)
      modifies this`log
      ensures log == old(log) + [RegWrite(reg, value)]
    {
      log := log + [RegWrite(reg, value)];
    }

    /** A 32-bit write to main RAM at bus address addr. */
    method WriteMem(addr: int, value: Word32)
      modifies this`log, this`mem
      ensures log == old(log) + [MemWrite(addr, value)]
      ensures mem == Store(old(mem), addr - ramBase, value)
    {
      log := log + [MemWrite(addr, value)];
      mem := Store(mem, addr - ramBase, value);
    }

    /** A 32-bit read of main RAM at bus address addr. */
    method ReadMem(addr: int) returns (value: Word32)
      ensures value == Load(mem, addr - ramBase)
    {
      value := Load(mem, addr - ramBase);
    }
  }
}
