/** Host-side transfers between main RAM and the host: the chunked UDP
    retrieval loops (peripherals/dma_upload.py DMAUploadDriver.run,
    software/test_adc.py udp_data_retrieve, test/test_dram_upload.py
    DRAMUpload.upload), the Etherbone word-by-word retrieval, the
    little-endian fill of RAM, and the checks the upload tests apply.

    The UDP socket is not modelled as such: once the DMA reader has been
    programmed with a base, the datagram that arrives holds the RAM bytes
    from that base onwards, and its length, which the network decides, is
    the value of a parameter `sizes` at the round number. */
module Upload {
  import opened Words
  import opened HostBus

  /** The largest datagram recvfrom(1024) returns. */
  const MaxDatagram: nat := 1024

  /** The three CSRs of a DMA reader. */
  datatype ReaderRegs = ReaderRegs(enable: string, base: string, length: string)

  /** The SoC's DMA reader (CSR prefix dma_reader). */
  const Reader: ReaderRegs := ReaderRegs("dma_reader_enable", "dma_reader_base", "dma_reader_length")

  /** The reader of the DMAUpload core (CSR prefix dma_upload_dma_reader). */
  const UploadReader: ReaderRegs :=
    ReaderRegs("dma_upload_dma_reader_enable", "dma_upload_dma_reader_base", "dma_upload_dma_reader_length")

  // ---------------------------------------------------------------------
  // Reader programming.
  // ---------------------------------------------------------------------

  /** The four writes that point a DMA reader at a RAM offset: disable,
      base, length, enable. */
  function ReaderRound(reader: ReaderRegs, addr: int, len: nat): (w: seq<Access>)
    ensures |w| == 4
  {
    [RegWrite(reader.enable, 0), RegWrite(reader.base, addr),
     RegWrite(reader.length, len), RegWrite(reader.enable, 1)]
  }

  /** Issues the four writes of one reader round. */
  method ProgramReader(bus: Bus, reader: ReaderRegs, addr: int, len: nat)
    modifies bus`log
    ensures bus.log == old(bus.log) + ReaderRound(reader, addr, len)
  {
    bus.WriteReg(reader.enable, 0);
    bus.WriteReg(reader.base, addr);
    bus.WriteReg(reader.length, len);
    bus.WriteReg(reader.enable, 1);
  }

  /** The reader writes of consecutive rounds, one round per start offset. */
  function Rounds(reader: ReaderRegs, base: int, starts: seq<int>, len: nat): (w: seq<Access>)
    ensures |w| == 4 * |starts|
  {
    if starts == [] then []
    else Rounds(reader, base, starts[..|starts| - 1], len) + ReaderRound(reader, base + starts[|starts| - 1], len)
  }

  /** One more round appends its four writes. */
  lemma RoundsSnoc(reader: ReaderRegs, base: int, starts: seq<int>, s: int, len: nat)
    ensures Rounds(reader, base, starts + [s], len) == Rounds(reader, base, starts, len) + ReaderRound(reader, base + s, len)
  {
    assert (starts + [s])[..|starts|] == starts;
  }

  /** Round k of the writes programs the reader at base + starts[k]. */
  lemma {:induction false} RoundsAt(reader: ReaderRegs, base: int, starts: seq<int>, len: nat, k: nat)
    requires k < |starts|
    ensures Rounds(reader, base, starts, len)[4 * k .. 4 * k + 4] == ReaderRound(reader, base + starts[k], len)
  {
    var front := starts[..|starts| - 1];
    var r := Rounds(reader, base, front, len);
    assert Rounds(reader, base, starts, len) == r + ReaderRound(reader, base + starts[|front|], len);
    if k < |front| {
      RoundsAt(reader, base, front, len, k);
      assert front[k] == starts[k];
      assert 4 * k + 4 <= |r|;
    } else {
      assert 4 * k == |r|;
    }
  }

  // ---------------------------------------------------------------------
  // Retrieval until the requested length has arrived.
  // ---------------------------------------------------------------------

  /** Every datagram carries between 1 and 1024 bytes. */
  ghost predicate Datagrams(sizes: nat -> nat)
  {
    forall k :: 1 <= sizes(k) <= MaxDatagram
  }

  /** The RAM offsets, relative to the base, at which the rounds start when
      `remaining` bytes are still wanted, the next datagram is number k and
      `offset` bytes have arrived. */
  function Offsets(sizes: nat -> nat, remaining: int, k: nat, offset: int): seq<int>
    requires Datagrams(sizes)
    decreases remaining
  {
    if remaining <= 0 then []
    else [offset] + Offsets(sizes, remaining - sizes(k), k + 1, offset + sizes(k))
  }

  /** The rounds start at offset 0, each one where the previous datagram
      ended, every start lies inside the requested length, and no round
      starts more than 1024 bytes after the previous one. */
  lemma {:induction false} OffsetsProgress(sizes: nat -> nat, remaining: int, k: nat, offset: int)
    requires Datagrams(sizes)
    ensures var offs := Offsets(sizes, remaining, k, offset);
      (remaining > 0 <==> offs != []) &&
      (offs != [] ==> offs[0] == offset) &&
      (forall i :: 0 <= i < |offs| ==> offset <= offs[i] < offset + remaining) &&
      (forall i :: 0 < i < |offs| ==> offs[i] == offs[i - 1] + sizes(k + i - 1))
    decreases remaining
  {
    if remaining > 0 {
      var offs := Offsets(sizes, remaining, k, offset);
      var rest := Offsets(sizes, remaining - sizes(k), k + 1, offset + sizes(k));
      OffsetsProgress(sizes, remaining - sizes(k), k + 1, offset + sizes(k));
      assert offs == [offset] + rest;
      forall i | 0 < i < |offs|
        ensures offs[i] == offs[i - 1] + sizes(k + i - 1)
      {
        assert offs[i] == rest[i - 1];
        if i > 1 {
          assert offs[i - 1] == rest[i - 2];
        }
      }
    }
  }

  /** The round at the current offset moves from the pending offsets to the
      issued ones. */
  lemma OffsetsStep(sizes: nat -> nat, done: seq<int>, remaining: int, k: nat, offset: int)
    requires Datagrams(sizes) && remaining > 0
    ensures (done + [offset]) + Offsets(sizes, remaining - sizes(k), k + 1, offset + sizes(k))
            == done + Offsets(sizes, remaining, k, offset)
  {
    var rest := Offsets(sizes, remaining - sizes(k), k + 1, offset + sizes(k));
    assert Offsets(sizes, remaining, k, offset) == [offset] + rest;
    assert (done + [offset]) + rest == done + ([offset] + rest);
  }

  /** Appending the next window of RAM to a window gives the longer window. */
  lemma WindowAppend(mem: Memory, a: int, n: nat, m: nat)
    ensures Window(mem, a, n) + Window(mem, a + n, m) == Window(mem, a, n + m)
  {
    var w := Window(mem, a, n) + Window(mem, a + n, m);
    forall i | 0 <= i < n + m
      ensures w[i] == Window(mem, a, n + m)[i]
    {
      if i >= n {
        assert w[i] == Window(mem, a + n, m)[i - n];
      }
    }
  }

  /** What the retrieval loop keeps: the data is the RAM from the base up to
      the offset, the offset and the remaining length add up to the
      requested length, which was overshot by less than one datagram, and
      the rounds issued so far followed by those still to come are the
      rounds of the whole retrieval. */
  ghost predicate Retrieved(mem: Memory, base: int, length: int, sizes: nat -> nat,
                            data: seq<Byte>, offset: int, remaining: int, k: nat, done: seq<int>)
    requires Datagrams(sizes)
  {
    0 <= offset && offset + remaining == length &&
    k == |done| && (k == 0 ==> remaining == length && data == []) &&
    (k > 0 ==> remaining + MaxDatagram > 0) &&
    data == Window(mem, base, offset) &&
    done + Offsets(sizes, remaining, k, offset) == Offsets(sizes, length, 0, 0)
  }

  /** The retrieval loop starts with its invariant. */
  lemma RetrieveStart(mem: Memory, base: int, length: int, sizes: nat -> nat)
    requires Datagrams(sizes)
    ensures Retrieved(mem, base, length, sizes, [], 0, length, 0, [])
  {
    assert [] + Offsets(sizes, length, 0, 0) == Offsets(sizes, length, 0, 0);
  }

  /** When no byte is wanted any more, every round has been issued and the
      data is the RAM window of its own length. */
  lemma RetrieveEnd(mem: Memory, base: int, length: int, sizes: nat -> nat,
                    data: seq<Byte>, offset: int, remaining: int, k: nat, done: seq<int>)
    requires Datagrams(sizes) && remaining <= 0
    requires Retrieved(mem, base, length, sizes, data, offset, remaining, k, done)
    ensures done == Offsets(sizes, length, 0, 0)
    ensures length <= 0 ==> data == [] && done == []
    ensures length > 0 ==> length <= |data| < length + MaxDatagram
    ensures data == Window(mem, base, |data|)
  {
    assert done + [] == done;
  }

  /** One round of the retrieval loop keeps its invariant. */
  lemma RetrieveStep(mem: Memory, base: int, length: int, sizes: nat -> nat,
                     data: seq<Byte>, offset: int, remaining: int, k: nat, done: seq<int>)
    requires Datagrams(sizes) && remaining > 0
    requires Retrieved(mem, base, length, sizes, data, offset, remaining, k, done)
    ensures Retrieved(mem, base, length, sizes, data + Window(mem, base + offset, sizes(k)),
                      offset + sizes(k), remaining - sizes(k), k + 1, done + [offset])
  {
    assert 1 <= sizes(k) <= MaxDatagram;
    WindowAppend(mem, base, offset, sizes(k));
    OffsetsStep(sizes, done, remaining, k, offset);
  }

  /** The retrieval loop shared by DMAUploadDriver.run (reader
      dma_upload_dma_reader) and test_adc's udp_data_retrieve (reader
      dma_reader, base 0): while bytes are still wanted, point the reader at
      base + offset for 1024 bytes, receive one datagram and append it.
      The result is the RAM contents from the base onwards, at least the
      requested length and less than 1024 bytes more. */
  method Retrieve(bus: Bus, reader: ReaderRegs, base: int, length: int, sizes: nat -> nat)
    returns (data: seq<Byte>)
    requires Datagrams(sizes)
    modifies bus`log
    ensures length <= 0 ==> data == [] && bus.log == old(bus.log)
    ensures length > 0 ==> length <= |data| < length + MaxDatagram
    ensures data == Window(bus.mem, base, |data|)
    ensures bus.log == old(bus.log) + Rounds(reader, base, Offsets(sizes, length, 0, 0), MaxDatagram)
  {
    var mem := bus.mem;
    RetrieveStart(mem, base, length, sizes);
    data := [];
    var offset := 0;
    var remaining := length;
    var k: nat := 0;
    ghost var done: seq<int> := [];
    while remaining > 0
      invariant Retrieved(mem, base, length, sizes, data, offset, remaining, k, done)
      invariant bus.log == old(bus.log) + Rounds(reader, base, done, MaxDatagram)
      invariant bus.mem == mem
      decreases remaining
    {
      ProgramReader(bus, reader, base + offset, MaxDatagram);
      var datagram := Window(mem, base + offset, sizes(k));
      RetrieveStep(mem, base, length, sizes, data, offset, remaining, k, done);
      RoundsSnoc(reader, base, done, offset, MaxDatagram);
      data := data + datagram;
      done := done + [offset];
      remaining := remaining - |datagram|;
      offset := offset + |datagram|;
      k := k + 1;
    }
    RetrieveEnd(mem, base, length, sizes, data, offset, remaining, k, done);
  }

  /** The requested length, cut from a retrieval, is exactly that many RAM
      bytes from the base. */
  lemma RetrieveTruncate(mem: Memory, base: int, data: seq<Byte>, length: nat)
    requires data == Window(mem, base, |data|) && length <= |data|
    ensures Truncate(data, length) == Window(mem, base, length)
  {
  }

  /** The caller's cut to the requested number of samples. */
  function Truncate(data: seq<Byte>, n: nat): (r: seq<Byte>)
    ensures |r| == if |data| > n then n else |data|
    ensures r == data[..|r|]
  {
    if |data| > n then data[..n] else data
  }

  class DmaUploadDriver {
    const bus: Bus
    const udpPort: nat

    constructor (bus: Bus, udpPort: nat)
      ensures this.bus == bus && this.udpPort == udpPort
    {
      this.bus := bus;
      this.udpPort := udpPort;
    }

    /** run: the retrieval loop through the reader of the DMAUpload core. */
    method Run(base: int, length: int, sizes: nat -> nat) returns (data: seq<Byte>)
      requires Datagrams(sizes)
      modifies bus`log
      ensures length <= 0 ==> data == [] && bus.log == old(bus.log)
      ensures length > 0 ==> length <= |data| < length + MaxDatagram
      ensures data == Window(bus.mem, base, |data|)
      ensures bus.log == old(bus.log)
                         + Rounds(UploadReader, base, Offsets(sizes, length, 0, 0), MaxDatagram)
    {
      data := Retrieve(bus, UploadReader, base, length, sizes);
    }
  }

  /** test_adc's udp_data_retrieve: the retrieval loop from RAM offset 0
      through the reader dma_reader. */
  method UdpDataRetrieve(bus: Bus, length: int, sizes: nat -> nat) returns (data: seq<Byte>)
    requires Datagrams(sizes)
    modifies bus`log
    ensures length <= 0 ==> data == [] && bus.log == old(bus.log)
    ensures length > 0 ==> length <= |data| < length + MaxDatagram
    ensures data == Window(bus.mem, 0, |data|)
    ensures bus.log == old(bus.log) + Rounds(Reader, 0, Offsets(sizes, length, 0, 0), MaxDatagram)
  {
    data := Retrieve(bus, Reader, 0, length, sizes);
  }

  // ---------------------------------------------------------------------
  // Retrieval over Etherbone.
  // ---------------------------------------------------------------------

  /** etherbone_data_retrieve: length // 4 word reads from the start of RAM,
      each split into its bytes least significant first. A negative length
      reads nothing. */
  method EtherboneRetrieve(bus: Bus, length: int) returns (data: seq<Byte>)
    ensures |data| == if length < 0 then 0 else 4 * (length / 4)
    ensures data == Window(bus.mem, 0, |data|)
  {
    var n := if length < 0 then 0 else length / 4;
    data := [];
    var i := 0;
    while i < n
      invariant 0 <= i <= n
      invariant data == Window(bus.mem, 0, 4 * i)
    {
      var word := bus.ReadMem(bus.ramBase + 4 * i);
      Bytes32Pack(Window(bus.mem, 4 * i, 4));
      WindowAppend(bus.mem, 0, 4 * i, 4);
      data := data + Bytes32(word);
      i := i + 1;
    }
  }

  // ---------------------------------------------------------------------
  // Filling RAM over Etherbone.
  // ---------------------------------------------------------------------

  /** The word writes of a fill: word i packs bytes 4i..4i+3 little-endian
      and goes to bus address addr + 4i; a trailing partial word is not
      written. */
  function FillWrites(addr: int, data: seq<Byte>): (w: seq<Access>)
    ensures |w| == |data| / 4
  {
    seq(|data| / 4, i requires 0 <= i < |data| / 4 => MemWrite(addr + 4 * i, Pack32(data[4 * i .. 4 * i + 4])))
  }

  /** Reading back the words a fill writes gives the bytes of the fill. */
  lemma FillWritesRoundTrip(addr: int, data: seq<Byte>, i: nat)
    requires i < |data| / 4
    ensures FillWrites(addr, data)[i].addr == addr + 4 * i
    ensures Bytes32(FillWrites(addr, data)[i].word) == data[4 * i .. 4 * i + 4]
  {
    Bytes32Pack(data[4 * i .. 4 * i + 4]);
  }

  /** fill (test/test_dram_upload.py and test/test_upload.py): the full
      4-byte groups of data are written to RAM from offset base on; every
      other RAM byte is left alone. */
  method FillMemory(bus: Bus, base: int, data: seq<Byte>)
    modifies bus`log, bus`mem
    ensures bus.log == old(bus.log) + FillWrites(bus.ramBase + base, data)
    ensures Window(bus.mem, base, 4 * (|data| / 4)) == data[..4 * (|data| / 4)]
    ensures forall x :: !(base <= x < base + 4 * (|data| / 4)) ==> bus.mem(x) == old(bus.mem)(x)
  {
    var i := 0;
    while i < |data| / 4
      invariant 0 <= i <= |data| / 4
      invariant bus.log == old(bus.log) + FillWrites(bus.ramBase + base, data)[..i]
      invariant forall x :: base <= x < base + 4 * i ==> bus.mem(x) == data[x - base]
      invariant forall x :: !(base <= x < base + 4 * i) ==> bus.mem(x) == old(bus.mem)(x)
    {
      var word := Pack32(data[4 * i .. 4 * (i + 1)]);
      Bytes32Pack(data[4 * i .. 4 * (i + 1)]);
      bus.WriteMem(bus.ramBase + base + 4 * i, word);
      assert FillWrites(bus.ramBase + base, data)[..i + 1]
          == FillWrites(bus.ramBase + base, data)[..i] + [MemWrite(bus.ramBase + base + 4 * i, word)];
      i := i + 1;
    }
    assert FillWrites(bus.ramBase + base, data)[..i] == FillWrites(bus.ramBase + base, data);
  }

  // ---------------------------------------------------------------------
  // Fixed-chunk upload (test/test_dram_upload.py).
  // ---------------------------------------------------------------------

  /** The round starts of the fixed-chunk loop: one every `chunk` bytes while
      the remaining length is positive. */
  function ChunkStarts(remaining: int, offset: int, chunk: nat): seq<int>
    requires chunk > 0
    decreases remaining
  {
    if remaining <= 0 then [] else [offset] + ChunkStarts(remaining - chunk, offset + chunk, chunk)
  }

  /** The round at the current offset moves from the pending starts to the
      issued ones. */
  lemma ChunkStartsStep(done: seq<int>, remaining: int, offset: int, chunk: nat)
    requires chunk > 0 && remaining > 0
    ensures (done + [offset]) + ChunkStarts(remaining - chunk, offset + chunk, chunk)
            == done + ChunkStarts(remaining, offset, chunk)
  {
    var rest := ChunkStarts(remaining - chunk, offset + chunk, chunk);
    assert ChunkStarts(remaining, offset, chunk) == [offset] + rest;
    assert (done + [offset]) + rest == done + ([offset] + rest);
  }

  /** Round i starts at offset + i * chunk, and there are ceil(remaining /
      chunk) rounds: the last one starts inside the requested length and
      reaches at least its end. */
  lemma {:induction false} ChunkStartsCount(remaining: int, offset: int, chunk: nat)
    requires chunk > 0
    ensures var s := ChunkStarts(remaining, offset, chunk);
      (forall i :: 0 <= i < |s| ==> s[i] == offset + i * chunk) &&
      (remaining <= 0 ==> s == []) &&
      (remaining > 0 ==> (|s| - 1) * chunk < remaining <= |s| * chunk)
    decreases remaining
  {
    if remaining > 0 {
      var s := ChunkStarts(remaining, offset, chunk);
      var rest := ChunkStarts(remaining - chunk, offset + chunk, chunk);
      ChunkStartsCount(remaining - chunk, offset + chunk, chunk);
      assert s == [offset] + rest;
      forall i | 0 < i < |s|
        ensures s[i] == offset + i * chunk
      {
        MulPred(i, chunk);
        assert s[i] == rest[i - 1] == offset + chunk + (i - 1) * chunk;
      }
      MulPred(|s|, chunk);
      if rest != [] {
        MulPred(|rest|, chunk);
      }
    }
  }

  lemma MulPred(n: nat, c: nat)
    requires n > 0
    ensures (n - 1) * c == n * c - c
  {
  }

  /** The bytes the fixed-chunk loop collects: datagram k is read from RAM at
      base + starts[k] and has length sizes(k). */
  function Gather(mem: Memory, base: int, starts: seq<int>, sizes: nat -> nat): seq<Byte>
  {
    if starts == [] then []
    else Gather(mem, base, starts[..|starts| - 1], sizes)
         + Window(mem, base + starts[|starts| - 1], sizes(|starts| - 1))
  }

  /** One more round appends its datagram. */
  lemma GatherSnoc(mem: Memory, base: int, starts: seq<int>, s: int, sizes: nat -> nat)
    ensures Gather(mem, base, starts + [s], sizes) ==
              Gather(mem, base, starts, sizes) + Window(mem, base + s, sizes(|starts|))
  {
    assert (starts + [s])[..|starts|] == starts;
  }

  /** When every datagram is a full chunk and the chunks are consecutive,
      the collected bytes are one contiguous window of RAM. */
  lemma {:induction false} GatherFull(mem: Memory, base: int, starts: seq<int>, sizes: nat -> nat, chunk: nat)
    requires forall i :: 0 <= i < |starts| ==> starts[i] == i * chunk && sizes(i) == chunk
    ensures Gather(mem, base, starts, sizes) == Window(mem, base, |starts| * chunk)
  {
    if starts != [] {
      var n := |starts| - 1;
      GatherFull(mem, base, starts[..n], sizes, chunk);
      WindowAppend(mem, base, n * chunk, chunk);
      assert n * chunk + chunk == |starts| * chunk;
    }
  }

  class DramUpload {
    const bus: Bus
    /** The reader length and the size of each step of the loop. */
    const chunkLength: nat

    constructor (bus: Bus, chunkLength: nat)
      ensures this.bus == bus && this.chunkLength == chunkLength
    {
      this.bus := bus;
      this.chunkLength := chunkLength;
    }

    /** fill: as FillMemory. */
    method Fill(base: int, data: seq<Byte>)
      modifies bus`log, bus`mem
      ensures bus.log == old(bus.log) + FillWrites(bus.ramBase + base, data)
      ensures Window(bus.mem, base, 4 * (|data| / 4)) == data[..4 * (|data| / 4)]
      ensures forall x :: !(base <= x < base + 4 * (|data| / 4)) ==> bus.mem(x) == old(bus.mem)(x)
    {
      FillMemory(bus, base, data);
    }

    /** upload: the offset advances by a full chunk whatever the datagram
      size, so the rounds start at base, base + chunk, ... for
      ceil(length / chunk) rounds, and the result is the concatenation of
      the datagrams (each at most one chunk). */
    method Upload(base: int, length: int, sizes: nat -> nat) returns (data: seq<Byte>)
      requires chunkLength > 0
      requires forall k :: sizes(k) <= chunkLength
      modifies bus`log
      ensures bus.log == old(bus.log) + Rounds(Reader, base, ChunkStarts(length, 0, chunkLength), chunkLength)
      ensures data == Gather(bus.mem, base, ChunkStarts(length, 0, chunkLength), sizes)
    {
      data := [];
      var offset := 0;
      var remaining := length;
      var k: nat := 0;
      ghost var done: seq<int> := [];
      while remaining > 0
        invariant k == |done|
        invariant done + ChunkStarts(remaining, offset, chunkLength) == ChunkStarts(length, 0, chunkLength)
        invariant data == Gather(bus.mem, base, done, sizes)
        invariant bus.log == old(bus.log) + Rounds(Reader, base, done, chunkLength)
        decreases remaining
      {
        ProgramReader(bus, Reader, base + offset, chunkLength);
        var d := Window(bus.mem, base + offset, sizes(k));
        data := data + d;
        RoundsSnoc(Reader, base, done, offset, chunkLength);
        GatherSnoc(bus.mem, base, done, offset, sizes);
        ChunkStartsStep(done, remaining, offset, chunkLength);
        done := done + [offset];
        remaining := remaining - chunkLength;
        offset := offset + chunkLength;
        k := k + 1;
      }
      assert done + [] == done;
    }
  }

  class MemUpload {
    const bus: Bus

    constructor (bus: Bus)
      ensures this.bus == bus
    {
      this.bus := bus;
    }

    /** fill: as FillMemory. */
    method Fill(base: int, data: seq<Byte>)
      modifies bus`log, bus`mem
      ensures bus.log == old(bus.log) + FillWrites(bus.ramBase + base, data)
      ensures Window(bus.mem, base, 4 * (|data| / 4)) == data[..4 * (|data| / 4)]
      ensures forall x :: !(base <= x < base + 4 * (|data| / 4)) ==> bus.mem(x) == old(bus.mem)(x)
    {
      FillMemory(bus, base, data);
    }

    /** upload: the retrieval loop from offset base through the reader
      dma_reader. */
    method Upload(base: int, length: int, sizes: nat -> nat) returns (data: seq<Byte>)
      requires Datagrams(sizes)
      modifies bus`log
      ensures length <= 0 ==> data == [] && bus.log == old(bus.log)
      ensures length > 0 ==> length <= |data| < length + MaxDatagram
      ensures data == Window(bus.mem, base, |data|)
      ensures bus.log == old(bus.log) + Rounds(Reader, base, Offsets(sizes, length, 0, 0), MaxDatagram)
    {
      data := Retrieve(bus, Reader, base, length, sizes);
    }
  }

  // ---------------------------------------------------------------------
  // The upload tests' reference and check.
  // ---------------------------------------------------------------------

  /** The reference pattern: byte i is i mod 256. */
  function Reference(n: nat): (r: seq<Byte>)
    ensures |r| == n
  {
    seq(n, i => (i % 256) as Byte)
  }

  /** The success test: the same byte values occur, whatever their order
      and multiplicity. */
  predicate SetCheck(data: seq<Byte>, reference: seq<Byte>)
  {
    (set b | b in data) == (set b | b in reference)
  }

  /** From 256 bytes on, the reference holds every byte value. */
  lemma ReferenceAllBytes(n: nat, b: Byte)
    requires n >= 256
    ensures b in Reference(n)
  {
    ByteValue(b);
    assert Reference(n)[b as int] == ((b as int) % 256) as Byte;
  }

  lemma ByteValue(b: Byte)
    ensures ((b as int) % 256) as Byte == b
  {
    assert (b as int) % 256 == b as int;
  }

  /** From 256 bytes on, the check no longer depends on the requested
      length: it passes exactly when every byte value occurs in the data. */
  lemma SetCheckSaturates(data: seq<Byte>, n: nat)
    requires n >= 256
    ensures SetCheck(data, Reference(n)) <==> forall b: Byte :: b in data
  {
    forall b: Byte
      ensures b in Reference(n)
    {
      ReferenceAllBytes(n, b);
    }
    if forall b: Byte :: b in data {
      assert (set b | b in data) == (set b | b in Reference(n));
    } else {
      var b: Byte :| b !in data;
      var inData := set x | x in data;
      var inReference := set x | x in Reference(n);
      assert b in inReference && b !in inData;
      assert inData != inReference;
      assert !SetCheck(data, Reference(n));
    }
  }

  /** A retrieval of a region filled with the reference passes the check when
      the length is at least 256 and a multiple of 4 (so fill writes every
      reference byte). */
  lemma FilledUploadPasses(mem: Memory, base: int, data: seq<Byte>, n: nat)
    requires n >= 256 && n % 4 == 0 && n <= |data|
    requires Window(mem, base, n) == Reference(n)
    requires data == Window(mem, base, |data|)
    ensures SetCheck(data, Reference(n))
  {
    forall b: Byte
      ensures b in data
    {
      ReferenceAllBytes(n, b);
      var i :| 0 <= i < n && Reference(n)[i] == b;
      assert data[i] == Window(mem, base, n)[i];
    }
    SetCheckSaturates(data, n);
  }
}
