# 360nosc0pe scope: sample path, register codecs and host drivers

This project models the integer logic of the 360nosc0pe open-source
oscilloscope gateware (Migen/LiteX) and its host scripts, and proves its
properties in Dafny:

- **The sample decimator** (`peripherals/downsampling.py`). A stream of 64-bit
  words, each holding eight one-byte samples with byte 0 the least significant,
  is reduced by a runtime ratio. Stage 1 is a word throttle counting with
  `ratio >> 3`. It forwards the first word of every group. Stage 2 keeps a
  stride of bytes from each word (all of them, bytes {0,2,4,6}, bytes {0,4} or
  byte 0). It feeds those bytes to one of three up-converters, which emit a word
  once eight bytes are held. Each stage is a class with a per-word step. A pure
  reference function `Decimate` states what the whole pipeline emits, and the
  six test vectors of the file's testbench are proved against it.
- **The older decimator** (`peripherals/down_sampling.py`, copied verbatim as
  `ADCDownSampling*` in `peripherals/adc.py`). It selects first, with the full
  ratio: bytes {0,2,4,7} at ratio 2. It then throttles with period `r + 1` and
  forwards the last word of each group. It is modelled on its own, together
  with a lemma that locates where it differs from the newer selector.
- **ADC statistics** (`peripherals/adc.py`, `peripherals/had1511.py`). These
  are the bitslip decision of the frame aligner, the min/max range tracker, the
  saturating sample counter, the pad-layout check at construction and the
  wiring of the decimator (its output always ready) to the statistics.
- **Register codecs**:
  - the ADF4360 PLL registers, as field tables with `encode`/`decode` loops
    (`peripherals/adf4360_pll.py`);
  - the SPI master's `cs`/`mosi`/`control` packing (`software/spi.py`);
  - the ADC and front-end SPI messages (`peripherals/frontend.py`,
    `software/test_adc.py`).
- **Two gateware state machines**, each a class whose `Tick` is one clock
  cycle. They are proved against a pure next-state function. One is the offset
  DAC's channel sweep (`peripherals/offset_dac.py`). The other is the LCD
  video timing generator with its colour-bar pattern (`peripherals/lcd.py`).
- **Host-side retrieval and fill**:
  - the chunked UDP retrieval loops (`peripherals/dma_upload.py`,
    `software/test_adc.py`, `test/test_dram_upload.py`);
  - the Etherbone word-by-word read;
  - the little-endian memory fill (`test/test_dram_upload.py`,
    `test/test_upload.py`);
  - the reference pattern and its set-equality check;
  - the caller's truncation (`test/test_adc.py`).

The host's Etherbone/UDP connection is modelled as a `HostBus.Bus` object. It
keeps a log of register and memory writes and a byte-addressed memory.

Migen clocking is modelled with one method call per clock tick, or per
accepted stream word. Values driven combinationally are computed from the
registers' old values. A later assignment to a register in the same tick
overrides an earlier one, as in Migen.

Files: `words.dfy` (bytes and words), `stream_converter.dfy` (up-converter),
`downsampling.dfy`, `down_sampling.dfy`, `adc_statistics.dfy`, `adc_core.dfy`,
`bits.dfy` (integer bit operations), `host_bus.dfy`, `spi.dfy`,
`adf4360_pll.dfy`, `drivers.dfy` (ADC and front-end drivers), `upload.dfy`,
`offset_dac.dfy`, `lcd.dfy`.

## Model

| member | source | states |
|---|---|---|
| Words.PackWordBytes | peripherals/downsampling.py:15-16 | Packing the eight bytes of a word (byte 0 least significant) gives back the word. |
| Words.WordBytesPack | peripherals/downsampling.py:15-16 | Splitting a packed group of eight bytes gives back the bytes in order. |
| Words.PackAllStreamBytes | peripherals/downsampling.py:80-81 | Regrouping the bytes of a word stream into words returns the stream itself. |
| Words.PackAllAppend | peripherals/downsampling.py:84-100 | A selection that fits in the open group either leaves the packed words unchanged, or completes exactly one new word: the pending bytes followed by the selection. |
| Words.PhaseStep | peripherals/downsampling.py:55-60 | The position of a word modulo p advances by one and wraps to 0 after p - 1. |
| StreamConverter.UpConverter.constructor | peripherals/downsampling.py:72-74 | A converter starts with an empty buffer and a chunk of 1, 2 or 4 bytes. |
| StreamConverter.UpConverter.Push | peripherals/downsampling.py:72-74 | A chunk joins the buffer. When eight bytes are held, one word is emitted with the first-arrived byte lowest and the buffer empties; otherwise nothing is emitted. |
| DownSampling.KeptAll | peripherals/downsampling.py:53-54 | With r below 2 (the counter held at 0, or a period of 1), the reference throttle keeps every word. |
| DownSampling.NextCount | peripherals/downsampling.py:51-60 | The throttle counter after one clock: held at 0 for a ratio below 1, otherwise counts accepted words and returns to 0 after ratio - 1, in 16 bits. |
| DownSampling.Kept | peripherals/downsampling.py:51-62 | The words the throttle forwards: the first of every `ratio[3:]` accepted words, and every word when `ratio[3:]` is below 2. `KeptAt`, `KeptLength` and `KeptStep` state its content and length, and `CountTracksPhase` ties it to the counter. |
| DownSampling.KeptAt | peripherals/downsampling.py:55-62 | For r >= 1, kept word j is input word j * r: the first word of each group of r. |
| DownSampling.KeptLength | peripherals/downsampling.py:55-62 | An input of k * r words keeps exactly k words. |
| DownSampling.KeptStep | peripherals/downsampling.py:55-62 | An appended word is kept exactly when its position modulo the period is 0. |
| DownSampling.CountTracksPhase | peripherals/downsampling.py:51-61 | The 16-bit counter update, applied to the position modulo the period, gives the next position modulo the period. |
| DownSampling.Throttle.constructor | peripherals/downsampling.py:51 | The throttle's counter starts at 0. |
| DownSampling.Throttle.Tick | peripherals/downsampling.py:46-62 | Ready and data pass through unchanged. Valid goes out iff valid comes in and the old count is 0. The counter is held at 0 for r < 1, otherwise it counts handshakes and resets after r - 1, wrapping at 16 bits. |
| DownSampling.Select | peripherals/downsampling.py:80-101 | Stage 2 keeps the bytes at a fixed stride from byte 0 that covers the word: all eight at ratio <= 1, {0,2,4,6} at <= 2, {0,4} at <= 4, {0} above. |
| DownSampling.SelectedAllBytes | peripherals/downsampling.py:80-81 | At ratio <= 1 the selected bytes are the whole byte stream. |
| DownSampling.PendingFits | peripherals/downsampling.py:84-100 | The bytes waiting in the active converter always leave room for one more selection; none wait at ratio <= 1. |
| DownSampling.DecimateSkip | peripherals/downsampling.py:62 | A word the throttle drops changes neither the output nor the waiting bytes. |
| DownSampling.DecimateForward | peripherals/downsampling.py:84-100 | A forwarded word's selection either completes one output word (the waiting bytes, then the selection, packed) or joins the waiting bytes. |
| DownSampling.DecimateForwardAll | peripherals/downsampling.py:80-81 | At ratio <= 1 a forwarded word is emitted unchanged. |
| DownSampling.Selector.constructor | peripherals/downsampling.py:71-75 | The three converters (32, 16 and 8 bits to 64) start empty. |
| DownSampling.Selector.Push | peripherals/downsampling.py:77-102 | At ratio <= 1 the word passes through and no converter changes. Otherwise only the converter the ratio selects receives the word's selected bytes, and it emits the packed word when it holds eight bytes. |
| DownSampling.DownSampler.constructor | peripherals/downsampling.py:104-116 | A new decimator has seen nothing and emitted nothing, and its invariant holds. |
| DownSampling.DownSampler.Push | peripherals/downsampling.py:104-116 | Throttle then selector process one word. The invariant kept is that the words emitted so far equal `Decimate(ratio, inputs so far)`, and that the throttle count and the converter buffers match the inputs. |
| DownSampling.SelectedBytesAt | peripherals/downsampling.py:80-101 | Byte t of the selected stream is byte (t mod B) * stride of kept word t / B, where B is the number of bytes kept per word. |
| DownSampling.DecimateAt | peripherals/downsampling.py:112-116 | Output byte t is byte (t mod B) * stride of input word (t / B) * period(ratio >> 3). |
| DownSampling.DecimateIdentity | peripherals/downsampling.py:80-81 | Ratio 0 or 1 gives an output identical to the input. |
| DownSampling.SelectedBytes | peripherals/downsampling.py:78-101 | The bytes stage 2 keeps from a word stream in arrival order: all 8, bytes 0/2/4/6, bytes 0/4 or byte 0 by ratio. `SelectedBytesAt` locates each one. |
| DownSampling.Decimate | peripherals/downsampling.py:104-116 | What the whole decimator emits for a word stream: the throttle, then the selector, then packing by eight bytes. `Run` and `DownSampler.Push` are proved against it and the testbench vectors are stated about it. |
| DownSampling.DecimateLength | peripherals/downsampling.py:112-116 | For ratio 1, 2, 4 or a multiple of 8, an input of ratio * k words gives exactly k output words. |
| DownSampling.Run | peripherals/downsampling.py:123-142 | Feeding a stream word by word through the decimator classes yields exactly `Decimate(ratio, stream)`. |
| DownSampling.Ratio2Byte | peripherals/downsampling.py:83-89 | At ratio 2, byte b of output word j is byte 2 * (b mod 4) of input word 2j + b / 4. |
| DownSampling.Ratio2Word | peripherals/downsampling.py:83-89 | At ratio 2, output word j packs bytes 0, 2, 4, 6 of input word 2j, then of input word 2j + 1. |
| DownSampling.Ratio4Byte | peripherals/downsampling.py:91-95 | At ratio 4, byte b of output word j is byte 4 * (b mod 2) of input word 4j + b / 2. |
| DownSampling.Ratio4Word | peripherals/downsampling.py:91-95 | At ratio 4, output word j packs bytes 0 and 4 of input words 4j to 4j + 3. |
| DownSampling.WideByte | peripherals/downsampling.py:97-101 | At ratio 8m, byte b of output word j is byte 0 of input word (8j + b) * m. |
| DownSampling.WideWord | peripherals/downsampling.py:112-116 | At ratio 8m over 8m words, the single output word packs byte 0 of input words 0, m, ..., 7m. |
| DownSampling.Ratio1Vector | peripherals/downsampling.py:145-159 | The testbench's ratio-1 vector: the output is the input. |
| DownSampling.Ratio2Vector | peripherals/downsampling.py:160-172 | The ratio-2 vector: four words 0xeeccaa8866442200. |
| DownSampling.Ratio4Vector | peripherals/downsampling.py:173-184 | The ratio-4 vector: two words 0xcc884400cc884400. |
| DownSampling.Ratio8Vector | peripherals/downsampling.py:185-196 | The ratio-8 vector: one word 0x8800880088008800. |
| DownSampling.Ratio16Vector | peripherals/downsampling.py:197-212 | The ratio-16 vector: one word 0x0706050403020100, so throttling happens before selection. |
| DownSampling.Ratio32Vector | peripherals/downsampling.py:213-235 | The ratio-32 vector: one word 0x0e0c0a0806040200. |
| DownSamplingLegacy.LegacySelect | peripherals/down_sampling.py:29-53 | The older selector keeps bytes {0,2,4,7} at ratio <= 2 (bits 32-48 truncated to their low byte), {0,4} at <= 4, {0} above, and all at <= 1. |
| DownSamplingLegacy.LegacySelectVsCurrent | peripherals/down_sampling.py:34-40 | It agrees with the newer selector except at ratio 2, where only the fourth byte differs (byte 7 instead of 6); the two agree iff bytes 6 and 7 are equal. |
| DownSamplingLegacy.LegacySelectedBytesAt | peripherals/down_sampling.py:29-53 | Byte t of the selected stream is the byte at the older offset table of word t / B. |
| DownSamplingLegacy.Packed | peripherals/down_sampling.py:29-53 | The words the older selector emits: its selected bytes, packed eight at a time. |
| DownSamplingLegacy.LegacyPendingFits | peripherals/down_sampling.py:29-53 | The bytes waiting in the active converter leave room for one more selection; none wait at ratio <= 1. |
| DownSamplingLegacy.PackedStep | peripherals/down_sampling.py:29-53 | A selection either completes one packed word or joins the waiting bytes. |
| DownSamplingLegacy.PackedStepAll | peripherals/down_sampling.py:31-32 | At ratio <= 1 every word is passed on as is. |
| DownSamplingLegacy.LegacySelector.constructor | peripherals/down_sampling.py:22-26 | The three converters start empty. |
| DownSamplingLegacy.LegacySelector.Push | peripherals/down_sampling.py:28-53 | The word passes through at ratio <= 1. Otherwise only the converter the ratio selects receives the older selection and emits the packed word when it is full. |
| DownSamplingLegacy.LegacyCountTracks | peripherals/down_sampling.py:68-79 | The 16-bit counter update follows the position modulo r + 1. The count equals r exactly at the last word of each group (for r < 2^16). |
| DownSamplingLegacy.LegacyKeptAll | peripherals/down_sampling.py:70-71 | r = 0 holds the count at 0 and forwards every word. |
| DownSamplingLegacy.LegacyNextCount | peripherals/down_sampling.py:68-79 | The older throttle counter after one clock: held at 0 for ratio[3:] = 0, otherwise counting to r and back to 0, in 16 bits. |
| DownSamplingLegacy.LegacyKept | peripherals/down_sampling.py:63-79 | The words the older throttle forwards: the last of every r + 1; none once r reaches 2^16, where the 16-bit counter never equals r. `LegacyKeptAt` and `LegacyKeptLength` state its content and length. |
| DownSamplingLegacy.LegacyKeptStep | peripherals/down_sampling.py:72-79 | An appended word is forwarded iff its position modulo r + 1 equals r. |
| DownSamplingLegacy.LegacyKeptAt | peripherals/down_sampling.py:72-79 | Forwarded word j is input word j(r + 1) + r: the last word of each group of r + 1. |
| DownSamplingLegacy.LegacyKeptLength | peripherals/down_sampling.py:72-79 | An input of k(r + 1) words forwards exactly k words. |
| DownSamplingLegacy.LegacyThrottle.constructor | peripherals/down_sampling.py:68 | The counter starts at 0. |
| DownSamplingLegacy.LegacyThrottle.Tick | peripherals/down_sampling.py:63-79 | Ready and data pass through. Valid goes out iff valid comes in and the count equals r. The counter is held at 0 for r = 0, otherwise it counts handshakes and resets when it forwards. |
| DownSamplingLegacy.LegacyDownSampler.constructor | peripherals/down_sampling.py:82-93 | A new decimator has seen nothing and emitted nothing. |
| DownSamplingLegacy.LegacyDownSampler.Select | peripherals/down_sampling.py:89 | Stage 1 records the word; a packed word comes out exactly when the selection completes one. |
| DownSamplingLegacy.LegacyDownSampler.Throttle | peripherals/down_sampling.py:90 | Stage 2 emits exactly the packed words the period-(r + 1) throttle forwards. |
| DownSamplingLegacy.LegacyDownSampler.Push | peripherals/adc.py:89-100 | Selector then throttle process one word. The invariant kept is that the words emitted so far equal `LegacyDecimate(ratio, inputs so far)`. |
| DownSamplingLegacy.LegacyRun | peripherals/down_sampling.py:82-93 | Feeding a stream word by word yields exactly `LegacyDecimate(ratio, stream)`. |
| DownSamplingLegacy.LegacyDecimateIdentity | peripherals/down_sampling.py:31-32 | Ratio 0 or 1 gives an output identical to the input. |
| DownSamplingLegacy.LegacyDecimate | peripherals/down_sampling.py:82-93 | What the older decimator emits: select and pack with the full ratio, then throttle. `LegacyRun` and `LegacyDownSampler.Push` are proved against it. |
| DownSamplingLegacy.LegacyPackedIdentity | peripherals/down_sampling.py:31-32 | At ratio <= 1 the selector's packed stream is the input. |
| DownSamplingLegacy.LegacyDecimateAt | peripherals/down_sampling.py:82-93 | Byte b of output word j comes from selected byte 8(j(r + 1) + r) + b: the last packed word of each group. |
| DownSamplingLegacy.LegacyDecimateLength | peripherals/down_sampling.py:82-93 | For a ratio 8m, an input of 8(m + 1)k words gives exactly k output words. |
| AdcStatistics.FrameAligner.constructor | peripherals/adc.py:155 | Bitslip starts low. |
| AdcStatistics.FrameAligner.Tick | peripherals/adc.py:208-216 | Bitslip is high for the tick iff the timer is done and the frame pattern is none of 0x0f, 0x33, 0x55; the timer waits while it is not done. |
| AdcStatistics.Locked | peripherals/adc.py:212 | The frame pattern counts as aligned when it reads 0x0f, 0x33 or 0x55; any other pattern asks for a bitslip. |
| AdcStatistics.Align | peripherals/had1511.py:145-153 | Over a trace of ticks, the bitslip pulses occur exactly at the ticks where the timer is done and the frame is not locked. |
| AdcStatistics.RangeBounds | peripherals/adc.py:289-308 | After a statistics reset, min <= every valid sample <= max, and once a sample was seen both min and max are samples that were seen. |
| AdcStatistics.RangeMin | peripherals/adc.py:291-308 | The min register over the samples since the last reset: 0xff with no sample, else the smallest. `RangeBounds` proves it is a lower bound that some sample attains. |
| AdcStatistics.RangeMax | peripherals/adc.py:291-308 | The max register over the samples since the last reset: 0x00 with no sample, else the largest. `RangeBounds` proves it is an upper bound that some sample attains. |
| AdcStatistics.RangeFirst | peripherals/had1511.py:244-247 | The first valid sample after a reset becomes both min and max. |
| AdcStatistics.RangeTracker.constructor | peripherals/adc.py:122-126 | The range fields start at 0. |
| AdcStatistics.RangeTracker.Tick | peripherals/adc.py:291-308 | A statistics reset wins and sets min = 0xff, max = 0x00. Otherwise a valid word's byte 0 replaces max when >= max and min when <= min. |
| AdcStatistics.Saturated | peripherals/adc.py:312-324 | The count after k valid words never exceeds 2^32 - nchannels. |
| AdcStatistics.CountNext | peripherals/adc.py:312-324 | The count register after one clock: reset wins; a valid word adds nchannels modulo 2^32 unless the count already equals 2^32 - nchannels. `SaturatedStep` gives its closed form. |
| AdcStatistics.SaturatedStep | peripherals/adc.py:312-324 | When nchannels divides 2^32, the count after k valid words is min(k, 2^32 / nchannels - 1) * nchannels: a multiple of nchannels that stops without wrapping. |
| AdcStatistics.SampleCounter.constructor | peripherals/adc.py:127 | The count starts at 0. |
| AdcStatistics.SampleCounter.Tick | peripherals/had1511.py:251-262 | A statistics reset clears the count. Otherwise a valid word adds nchannels unless the count is already 2^32 - nchannels. The count stays the saturated count of the valid words since the reset. |
| AdcCore.CheckLayout | peripherals/had1511.py:43-45 | The check passes iff every pad name of the PHY layout is present. |
| AdcCore.Core.constructor | peripherals/had1511.py:40-45 | A new core has an empty decimator, has seen no sample, holds min and max at their reset value 0 (no statistics reset yet) and counts 0. |
| AdcCore.Core.Step | peripherals/had1511.py:219-262 | One clock, with or without an input word: a word enters the decimator, whose output is always accepted, and without one the decimator is untouched and emits nothing. The range tracker sees byte 0 of exactly the emitted words and the counter counts them. A statistics reset, independent of the input, sets min to 0xff and max to 0x00 and clears the seen samples and the word count; without one, an emitted word raises max when its byte 0 is >= max and lowers min when it is <= min. Once any reset has happened, min and max are the smallest and largest sample seen since the last one, and the count register follows the saturating 32-bit rule. |
| AdcCore.Build | peripherals/adc.py:104-109 | Construction succeeds iff every pad of the layout is present, and then yields a fresh core. |
| HostBus.Pack32Bytes | test/test_dram_upload.py:31 | Splitting a bus word into four little-endian bytes and packing them again gives the word. |
| HostBus.Bytes32Pack | software/test_adc.py:216-220 | Packing four bytes little-endian and splitting the word again gives the bytes. |
| HostBus.LoadStore | test/test_dram_upload.py:32 | A word written to memory reads back unchanged, and no byte outside its four addresses changes. |
| HostBus.Window | software/test_adc.py:216-220 | The n bytes of memory from an address. |
| HostBus.Store | test/test_dram_upload.py:32 | A 32-bit bus write: four bytes little-endian from the address, the rest of memory unchanged. `LoadStore` reads it back. |
| HostBus.Load | software/test_adc.py:216 | A 32-bit bus read: the four bytes from the address, little-endian. |
| HostBus.Bus.constructor | test/test_dram_upload.py:21-22 | A new connection has an empty write log over the given memory. |
| HostBus.Bus.WriteReg | software/test_adc.py:204-207 | A register write is appended to the log. |
| HostBus.Bus.WriteMem | test/test_dram_upload.py:32 | A memory write is logged and stores its word little-endian at the address relative to main RAM. |
| HostBus.Bus.ReadMem | software/test_adc.py:216 | A memory read returns the word stored at the address relative to main RAM. |
| Spi.Log2OneHot | software/spi.py:35 | The chip-select word 1 << cs has its highest (and only) set bit at cs. |
| Spi.CsOneHot | software/spi.py:35 | The chip-select register 1 << cs has bit cs set and every other bit clear, so exactly chip cs is selected. |
| Spi.BigEndianBounds | software/spi.py:38 | The big-endian value of n bytes is below 2^(8n). |
| Spi.DigitsBigEndian | software/spi.py:38 | Reading the big-endian value back as n bytes gives the data. |
| Spi.ShiftAppendsZeros | software/spi.py:39 | Shifting left by 8k bits appends k zero bytes. |
| Spi.MosiLayout | software/spi.py:37-40 | The MOSI value is below 2^48, and its six big-endian bytes are the data followed by zeros. |
| Spi.Mosi | software/spi.py:37-40 | The MOSI register value: the bytes big-endian, shifted left so the first byte lands in bits 40-47. `MosiLayout` states its layout. |
| Spi.ControlLayout | software/spi.py:42 | The control value has the start bit (bit 0) set and the bit length 8 * len at bits 8 and up. |
| Spi.Control | software/spi.py:42 | The control register value: the transfer length in bits in the length field, with the start bit set. `ControlLayout` states its fields. |
| Spi.SpiAccesses | software/spi.py:33-42 | The three register writes of one transfer in order: chip select, MOSI, control. `TransferRoundTrip` decodes them back to the transfer. |
| Spi.TransferRoundTrip | software/spi.py:35-42 | Decoding the three register writes of a transfer recovers the chip select and the data. |
| Spi.Write | software/spi.py:30-45 | The transfer is accepted iff there are at most six values, each in 0..255. It then logs the cs, mosi and control writes in that order; otherwise the log is unchanged. |
| Adf4360.BitExtract | peripherals/adf4360_pll.py:56 | Bit i of a decoded field is bit offset + i of the register value below the field's size, and 0 above. |
| Adf4360.Extract | peripherals/adf4360_pll.py:56 | A field read from a register value: `(value >> offset) & (2**size - 1)`. `BitExtract` states it bit by bit. |
| Adf4360.Place | peripherals/adf4360_pll.py:50 | A field value masked to its size and shifted to its offset. `BitPlace` states it bit by bit. |
| Adf4360.BitPlace | peripherals/adf4360_pll.py:50 | A field value masked and shifted into place has its bits inside the field and 0 elsewhere. |
| Adf4360.DecodeFits | peripherals/adf4360_pll.py:53-56 | Every decoded field fits its width. |
| Adf4360.Encoded | peripherals/adf4360_pll.py:46-51 | The register value `encode` builds: every field placed and OR-ed into zero. `DecodeEncode` and `BitEncodeDecode` relate it to `Decoded`. |
| Adf4360.Decoded | peripherals/adf4360_pll.py:53-56 | The field values `decode` reads from a register value, one per field of the table. |
| Adf4360.DecodeEncode | peripherals/adf4360_pll.py:46-56 | Decoding after encoding restores every field value that fits its width, for disjoint ordered fields. |
| Adf4360.BitEncodeDecode | peripherals/adf4360_pll.py:46-56 | Encoding after decoding keeps exactly the bits of the value that some field covers. |
| Adf4360.LayoutsOrdered | peripherals/adf4360_pll.py:81-227 | The fields of each of the three registers are disjoint and in ascending order. |
| Adf4360.ControlRoundTrip | peripherals/adf4360_pll.py:81-174 | The control fields cover bits 0-23, so encode after decode gives v & 0xffffff. |
| Adf4360.RCounterRoundTrip | peripherals/adf4360_pll.py:178-200 | The R counter fields cover bits 0-21, so encode after decode gives v & 0x3fffff. |
| Adf4360.NCounterRoundTrip | peripherals/adf4360_pll.py:204-227 | Encode after decode of the N counter keeps every bit below 24 except bit 7. |
| Adf4360.DefaultsSelectRegister | peripherals/adf4360_pll.py:236 | Both the constructor defaults (0, 1, 2) and the init defaults (0x403120, 0x0007d1, 0x04e142) put 0, 1 and 2 in the CONTROL field of the control, R and N registers. |
| Adf4360.Register.Control | peripherals/adf4360_pll.py:81-174 | A control register is built over its field table and decoded from the given value. |
| Adf4360.Register.RCounter | peripherals/adf4360_pll.py:178-200 | An R counter register is built over its table and decoded from the given value. |
| Adf4360.Register.NCounter | peripherals/adf4360_pll.py:204-227 | An N counter register is built over its table and decoded from the given value. |
| Adf4360.Register.Encode | peripherals/adf4360_pll.py:46-51 | The value is cleared, then every field is masked, shifted and OR-ed in. The result is `Encoded(layout, fields)`, whatever the previous value was. |
| Adf4360.Register.Decode | peripherals/adf4360_pll.py:53-56 | Every field becomes (value >> offset) & (2^size - 1). |
| Adf4360.PllBytes | peripherals/adf4360_pll.py:249 | The value is split into three bytes, each in 0..255. |
| Adf4360.PllBytesRoundTrip | peripherals/adf4360_pll.py:249 | The three bytes are most significant first and reassemble to v & 0xffffff. |
| Adf4360.Write | peripherals/adf4360_pll.py:248-249 | One SPI transfer of the three bytes to the PLL chip select is logged. |
| Adf4360.Init | peripherals/adf4360_pll.py:236-246 | The R counter, then the control, then the N counter are written, each as encode after decode of its value. |
| Drivers.RegBytes | software/test_adc.py:90-91 | An ADC register write is three values: the register, then the two value bytes, each in 0..255. |
| Drivers.RegBytesRoundTrip | software/test_adc.py:91 | The two value bytes are most significant first and reassemble to value & 0xffff. |
| Drivers.RangeReadBack | software/test_adc.py:136-137 | With min at bits 0-7 and max at bits 8-15 of the range status, the driver reads back exactly min and max. |
| Drivers.RangeStatus | peripherals/adc.py:123-126 | The range CSR value: min in bits 0-7, max in bits 8-15. `RangeReadBack` shows `get_range` recovers both. |
| Drivers.AdcReg | software/test_adc.py:83-85 | The CSR name `adc{n}_<reg>` of register reg of ADC n, with n in decimal. |
| Drivers.Adc.constructor | software/test_adc.py:79-85 | The driver keeps its connection and ADC index. |
| Drivers.Adc.Reset | software/test_adc.py:87-88 | Logs one write of the frame reset bit to adc{n}_control. |
| Drivers.Adc.SetReg | software/test_adc.py:90-91 | Succeeds iff the register number is a byte. It then logs the SPI transfer to chip select ADC0 + n, which decodes back to those three bytes; otherwise the log is unchanged. |
| Drivers.Adc.GetRange | software/test_adc.py:133-138 | Logs the statistics-reset write. min is bits 0-7 of the first read and max is bits 8-15 of the second, both below 256. |
| Drivers.Adc.Capture | software/test_adc.py:146-150 | Logs DMA enable = 0, base, length, enable = 1, in that order. |
| Drivers.SlotReversed | peripherals/frontend.py:51 | Front end n in 0..3 is stored at slot 3 - n, and different front ends use different slots. |
| Drivers.Slot | peripherals/frontend.py:51 | The list slot `values[3 - n]` of front-end channel n, with Python's negative indexes: n in 0..3 gives slot 3 - n, n in 4..7 wraps to slots 3..0, any other n is an `IndexError`. `SlotReversed` states it. |
| Drivers.FrontendMessage | peripherals/frontend.py:52 | The front-end SPI message: a zero byte, then the four slot values in list order. |
| Drivers.FrontendDriver.constructor | peripherals/frontend.py:43-48 | All four slots start at 0x7a. |
| Drivers.FrontendDriver.SetFrontend | peripherals/frontend.py:50-52 | Only slot 3 - n changes (negative indices alias as in Python; others are an index error that changes nothing). The message 0x00 followed by the four slots is sent to the front-end chip select iff every slot is a byte. |
| Drivers.FrontendDriver.SetVga | peripherals/frontend.py:54-56 | The gain is accepted iff it is in 0..255, and is then sent as one byte to chip select CH1_VGA + n; otherwise nothing is logged. |
| Drivers.FrontendDriver.SetCh1_1v | peripherals/frontend.py:58-61 | Slot 3 becomes 0x7e. Then the front-end message, VGA 0 = 0x1f and ADC register 0x2b = 0 are sent in that order. When a write is refused the bus log is unchanged: the only refusal is the frontend message, which comes first. |
| Drivers.FrontendDriver.SetCh1_100mv | peripherals/frontend.py:63-66 | Slot 3 becomes 0x78. Then the front-end message, VGA 0 = 0xad and ADC register 0x2b = 0 are sent in that order. When a write is refused the bus log is unchanged: the only refusal is the frontend message, which comes first. |
| Drivers.FrontendDriver.SetRange | software/test_adc.py:66-74 | The shared body of the two range settings: slot 3, then the message, the VGA gain and the ADC register write, in that order. When a write is refused the bus log is unchanged: the only refusal is the frontend message, which comes first. |
| Upload.RoundsAt | peripherals/dma_upload.py:79-82 | Round k of the logged writes disables the reader, programs base + offset k and the length, then re-enables it. |
| Upload.ReaderRound | peripherals/dma_upload.py:79-82 | One programming round of the DMA reader: disable, base, length (1024 in the driver, the chunk length in the DRAM test), enable. |
| Upload.ProgramReader | peripherals/dma_upload.py:79-82 | Programming the reader appends exactly one `ReaderRound` of register writes to the bus log. |
| Upload.OffsetsProgress | peripherals/dma_upload.py:75-87 | There are rounds iff the length is positive. The first offset is 0, every offset is below the requested length, and each offset is the previous one plus the previous datagram's size. |
| Upload.Retrieve | peripherals/dma_upload.py:74-88 | A length <= 0 returns nothing and touches nothing. Otherwise the result holds between length and length + 1023 bytes, is the memory from base onward in address order, and the log holds one reader round per datagram. |
| Upload.RetrieveTruncate | test/test_adc.py:104-105 | Truncating the retrieved data to the requested length gives exactly that many bytes of memory from base. |
| Upload.Truncate | test/test_adc.py:104-105 | The result is the prefix of length min(len(data), n). |
| Upload.DmaUploadDriver.constructor | peripherals/dma_upload.py:68-71 | The driver keeps its connection and UDP port. |
| Upload.DmaUploadDriver.Run | peripherals/dma_upload.py:73-88 | The retrieval loop over the dma_upload_dma_reader registers, with the bounds, contents and log of `Retrieve`. |
| Upload.UdpDataRetrieve | software/test_adc.py:199-212 | The same loop over the dma_reader registers from RAM offset 0. |
| Upload.EtherboneRetrieve | software/test_adc.py:214-220 | Exactly 4 * (length / 4) bytes are read (none for a negative length), as the memory from main RAM's start in address order. |
| Upload.FillWritesRoundTrip | test/test_dram_upload.py:30-32 | Write i goes to address + 4i and carries data[4i..4i+4] packed little-endian. |
| Upload.FillWrites | test/test_dram_upload.py:29-32 | The memory writes of `fill`: one 32-bit little-endian word per four bytes, at addresses 4 apart. `FillWritesRoundTrip` reads the bytes back. |
| Upload.FillMemory | test/test_upload.py:32-35 | len(data) / 4 word writes are logged, the memory from base then holds those whole words' bytes, and nothing else changes. |
| Upload.ChunkStartsCount | test/test_dram_upload.py:42-51 | The fixed-chunk loop runs ceil(length / chunk) rounds at offsets i * chunk (none for length <= 0). |
| Upload.ChunkStarts | test/test_dram_upload.py:42-51 | The offsets the upload loop programs: one per chunk while the remaining length stays above 0, each a chunk further. `ChunkStartsCount` counts them. |
| Upload.Gather | test/test_dram_upload.py:47-49 | The bytes the upload collects: the received part of every chunk, in order. `GatherFull` shows full chunks rebuild the window. |
| Upload.GatherFull | test/test_dram_upload.py:47-49 | When every datagram is a full chunk, the gathered data is the memory from base in address order. |
| Upload.DramUpload.constructor | test/test_dram_upload.py:25-27 | The driver keeps its connection and chunk length. |
| Upload.DramUpload.Fill | test/test_dram_upload.py:29-32 | As `FillMemory`. |
| Upload.DramUpload.Upload | test/test_dram_upload.py:34-52 | One reader round per chunk offset is logged, and the data is the received parts of each chunk in order. |
| Upload.MemUpload.constructor | test/test_upload.py:28-30 | The driver keeps its connection. |
| Upload.MemUpload.Fill | test/test_upload.py:32-35 | As `FillMemory`. |
| Upload.MemUpload.Upload | test/test_upload.py:37-38 | Delegates to the retrieval loop from base, with its bounds and contents, and logs exactly the reader rounds of that loop (one per datagram, at the offsets the datagram sizes give). |
| Upload.ReferenceAllBytes | test/test_dram_upload.py:54 | A reference of at least 256 bytes contains every byte value. |
| Upload.Reference | test/test_dram_upload.py:54 | The reference pattern `i % 256` for i below the length. `ReferenceAllBytes` shows every byte value appears once the length reaches 256. |
| Upload.SetCheckSaturates | test/test_dram_upload.py:65 | For a reference of at least 256 bytes, the check passes iff the data contains every byte value: order and count are not compared. |
| Upload.SetCheck | test/test_dram_upload.py:65 | The script's check: the uploaded data and the reference hold the same set of byte values, order and counts ignored. `SetCheckSaturates` shows how weak the check is. |
| Upload.FilledUploadPasses | test/test_upload.py:40-51 | When memory holds the reference and the upload returns at least its length of memory from base, the check passes. |
| OffsetDac.DacWordFields | peripherals/offset_dac.py:150-152 | The 24-bit DAC word carries offset & 0xffff in bits 0-15, mode & 3 in bits 16-17, and zeros above. |
| OffsetDac.DacWord | peripherals/offset_dac.py:150-152 | The 24-bit word shifted into the DAC: the 2-bit mode above the 16-bit offset. `DacWordFields` and `DacWordReadBack` state its layout. |
| OffsetDac.DacWordReadBack | peripherals/offset_dac.py:150-152 | For a 2-bit mode and a 16-bit offset, both read back exactly from the word. |
| OffsetDac.Drive | peripherals/offset_dac.py:140-166 | The SPI start is high iff in DAC-UPDATE with run clear. The mux enable is low iff in MUX-UPDATE, where the select is channel + 4 (always 4..7). In DAC-UPDATE the length is 24 and the word carries the mode and the current channel's offset. |
| OffsetDac.NextKeepsRegs | peripherals/offset_dac.py:133-174 | The channel stays 2-bit and run stays consistent. Run is clear on entering DAC-UPDATE and set while staying there, and DAC-UPDATE is left iff run and spi.done hold. |
| OffsetDac.Next | peripherals/offset_dac.py:133-174 | The control FSM's registers after one clock, given spi.done and timer.done: IDLE to DAC-UPDATE when enabled, DAC-UPDATE until run and spi.done, MUX-UPDATE until timer.done, then CHANNEL-INCR. The controller's `Tick` is proved against it. |
| OffsetDac.ChannelIncrAdvances | peripherals/offset_dac.py:168-174 | CHANNEL-INCR goes to IDLE with channel 0 after channel 3, and otherwise to DAC-UPDATE with the next channel. |
| OffsetDac.ChannelRound | peripherals/offset_dac.py:146-174 | Assuming spi.done and timer.done are high on every tick: from DAC-UPDATE on channel ch, four ticks start exactly one transfer, of that channel's word, and reach the next channel's DAC-UPDATE, or IDLE after channel 3. |
| OffsetDac.Sweep | peripherals/offset_dac.py:133-174 | Assuming spi.done and timer.done are high on every tick: when enabled, seventeen ticks from IDLE send the words of channels 1, 2, 3, 4 in order and return to IDLE with channel 0. |
| OffsetDac.RemainingStep | peripherals/offset_dac.py:133-174 | Outside IDLE, one tick sends exactly the head of the words still due in the sweep, whatever spi.done and timer.done are. |
| OffsetDac.RemainingSent | peripherals/offset_dac.py:133-174 | For any trace of spi.done and timer.done, the words sent from a non-IDLE state until IDLE are a prefix of those still due, and all of them once IDLE is reached. |
| OffsetDac.SweepAnyTiming | peripherals/offset_dac.py:133-174 | For any trace of spi.done and timer.done, an enabled controller leaving IDLE sends the words of ch1, ch2, ch3, ch4 in that order: all four if it returns to IDLE, a prefix of them if the trace ends first. |
| OffsetDac.OffsetDacController.constructor | peripherals/offset_dac.py:94-109 | The controller starts in IDLE with channel 0 and run clear, mode 0, the given enable and every offset at 0x8000. |
| OffsetDac.OffsetDacController.WriteControl | peripherals/offset_dac.py:94-102 | A control write sets enable from bit 0 and mode from bits 4-5. |
| OffsetDac.OffsetDacController.WriteOffset | peripherals/offset_dac.py:106-109 | A write to ch1..ch4 stores the low 16 bits in that channel only; any other channel is refused. |
| OffsetDac.OffsetDacController.Tick | peripherals/offset_dac.py:128-174 | One clock: the outputs are driven from the old registers, and the registers become `Next` of them. |
| Lcd.LookupTiming | peripherals/lcd.py:20-49 | The video timing table: "800x600@60Hz" gives its one entry, and any other name is a missing key. |
| Lcd.Defaults | peripherals/lcd.py:53-61 | Every default timing register fits 12 bits. |
| Lcd.DefaultsOrdered | peripherals/lcd.py:53-61 | For timings whose sums fit 12 bits and whose sync pulse fits in the blanking, the defaults are ordered: hres <= hsync_start <= hsync_end <= hscan, and the same vertically; hres is the active width and hscan exceeds it by the blanking, and the same vertically. |
| Lcd.SvgaDefaults | peripherals/lcd.py:20-32 | The table holds the 800x600@60Hz entry, and that entry gives 800/840/968/1056 and 600/601/605/628. |
| Lcd.FlagStep | peripherals/lcd.py:117-120 | A flag set at start and cleared at end tracks whether the next count lies in (start, end]. |
| Lcd.Flag | peripherals/lcd.py:117-120 | A sync or active flag after one clock: set when the counter reaches its start value, cleared when it reaches its end value, the clear written last. |
| Lcd.Step | peripherals/lcd.py:96-139 | The timing generator's registers after one clock: from IDLE it starts when enabled, with the counts at 0; running, every tick the sink is ready moves the pixel count, the line count at the end of a line, and the flags. `VideoTimingGenerator.Tick` is proved against it. |
| Lcd.StepKeepsRegs | peripherals/lcd.py:97-139 | Counters stay within their scan, the active and sync flags match their windows, and RUN is never left. |
| Lcd.PixelIndexStep | peripherals/lcd.py:111-137 | In RUN, each ready tick advances the raster position vcount * (hscan + 1) + hcount by one, modulo the frame size. |
| Lcd.Emit | peripherals/lcd.py:106-112 | valid iff RUN; de iff both counts are inside the active window; first iff at raster position 0; last iff at the frame's last position. |
| Lcd.LastPixel | peripherals/lcd.py:109 | The last raster position is exactly hcount = hscan and vcount = vscan. |
| Lcd.VideoTimingGenerator.constructor | peripherals/lcd.py:47-61 | The generator starts in IDLE with zero counts and flags, enabled, with the defaults of the chosen table entry. |
| Lcd.VideoTimingGenerator.Tick | peripherals/lcd.py:96-139 | One clock: the outputs are computed from the old registers, and the registers become `Step` of them. |
| Lcd.VideoTimingGenerator.AdvanceLine | peripherals/lcd.py:114-124 | hcount increments (12-bit) and resets after hscan; hactive and hsync follow their set and clear points. |
| Lcd.VideoTimingGenerator.AdvanceFrame | peripherals/lcd.py:126-136 | vcount increments (12-bit) and resets after vscan; vactive and vsync follow their set and clear points. |
| Lcd.BarWidth | peripherals/lcd.py:160 | The width of one colour bar, `hres[3:]`: an eighth of the line. |
| Lcd.BarWidthBound | peripherals/lcd.py:160 | hres >> 3 of a 12-bit hres is below 512. |
| Lcd.BarPeriod | peripherals/lcd.py:154-160 | The pixels per bar under the 12-bit compare: hres >> 3, or all 4096 values of pix when that is 0; between 1 and 4096. |
| Lcd.ColorBarsPattern.constructor | peripherals/lcd.py:146-155 | The pattern starts enabled and not valid, at pixel 0 of bar 0. |
| Lcd.ColorBarsPattern.Tick | peripherals/lcd.py:156-186 | valid follows enable and the colour becomes table[bar]. pix counts accepted pixels in 12 bits, and the wrap compare `pix == hres[3:] - 1` is 12 bits wide as in the generated Verilog: bar advances modulo 8 exactly when an accepted pixel has pix at the bar period minus one, where the period is hres >> 3, or 4096 when that is 0 (bar then steps only when pix reaches 4095). The accepted count stays bars * period + pix with bar = bars mod 8. |
| Lcd.BarAdvance | peripherals/lcd.py:158-162 | One accepted pixel: the 12-bit wrap value hres[3:] - 1 is the last pixel of a bar of BarPeriod pixels (4095 for a bar width of 0), and the bar count stays in step with the accepted pixels. |

## Left out

- The LVDS receive path (IBUFDS, IDELAYE2, ISERDESE2, BUFIO/BUFR), clock-domain crossing, `AsyncResetSynchronizer` and the `MultiReg` resynchronisation are FPGA primitives. The bitslip decision takes the frame pattern and the timer's done flag as inputs.
- The LiteX `stream.Converter`, `stream.Pipeline`, `SPIMaster`, `WaitTimer`, LiteDRAM and LiteEth internals are not part of this model. Only their observable contracts are modelled: up-converter packing order, and spi.done and timer.done as inputs. Pipeline latency is not modelled; one word moves through both stages per call.
- Sockets, RemoteClient and busy-wait polling (`software/spi.py:44-45`, `software/test_adc.py:151-152`) are I/O. Each received datagram's size is a parameter in 1..1024, its contents are the memory the reader points at, and completion is assumed.
- `udp_data_retrieve(bus, base, length)`, called by `test/test_upload.py` and `test/test_adc.py`, is not defined in any file of the repository. It is modelled by the same loop as `software/test_adc.py` with the `dma_reader` registers.
- Upload.Retrieve: datagrams of size 0 would make the source loop spin forever. The sizes parameter therefore requires every datagram to hold at least one byte.
- Upload.DramUpload.Upload requires a chunk length above 0 (a chunk length of 0 loops forever) and datagrams no longer than the chunk.
- Upload.FillMemory takes bytes. The `ValueError` that `bytes()` raises for values outside 0..255 is not modelled.
- Upload.Truncate takes a natural length. Python's slicing with a negative length is not modelled.
- Drivers.FrontendDriver.SetRange requires a gain in 0..255. Both of its callers pass constants in that range.
- The ADC register helpers `data_mode`, `ramp`, `single`, `dual`, `pat_deskew` and `pat_sync` are sequences of `set_reg` calls with constants and sleeps. They are covered by `Drivers.Adc.SetReg` and not modelled one by one. `get_samplerate` divides floats.
- The software `OffsetDAC` helper in `software/test_adc.py` (two CSR writes) is not part of this model.
- The front-end driver only uses `adcs[0]`, which is the only ADC it holds.
- AdcStatistics.SaturatedStep states the closed form only when nchannels divides 2^32. Otherwise the counter can step past 2^32 - nchannels and wrap, and the model's `CountNext` does wrap modulo 2^32 there.
- DownSampling.DownSampler.Push: the ratio is fixed when the decimator is built. In the source it is a 16-bit signal driven by a CSR that the host may rewrite between words; such a write keeps the throttle count and any bytes pending in the up-converters that are no longer selected, and the model does not express it. The stage methods `Throttle.Tick` and `Selector.Push` do take the ratio per call.
- DownSamplingLegacy.LegacyDownSampler.Push: the ratio is fixed when the decimator is built. In `peripherals/adc.py` and `peripherals/had1511.py` it is a 32-bit CSR that the host may rewrite while words stream; such a write keeps the throttle count and the pending converter bytes, and the model does not express it.
- AdcCore.Core.Step: the decimation ratio is fixed per core (see the two lines above); a mid-stream write of the downsampling CSR is not modelled.
- The video timing generator's timings are fixed at construction. Re-programming the timing CSRs at run time, and the `MultiReg` delay before new values take effect, are not modelled.
- Floats and presentation are out: the timer periods computed from clock frequencies, the pixel clock, `ADF4360Reg.__repr__` and the printing, plotting and CSV output.
- Python integers are unbounded and may be negative. The drivers take natural numbers where the hardware registers are unsigned, and model the masks (`& 0xff`, `& 0xffff`, `& (2**size - 1)`) explicitly.
- The front panel, SCPI server, framebuffer test, trigger CSR and SoC/platform files have no behaviour within this core.
