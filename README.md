# digitizer2 client core, modelled in Dafny

This project models the core of the digitizer2 firmware's Python client
(`scripts/Digitizer2Mixin.py`) and proves properties of that model. The core
has three parts:

- **Decoders.** These turn the 16-bit word stream read from the
  acquisition buffer into timestamps and samples:
  - `parse_mode0`, RAW mode: a 12-bit analog sample per word and two digital
    channels packed four samples per nibble;
  - `parse_mode2`, TDC mode: 32-bit packets with an overflow flag, three
    channels' event flags and sub-cycle positions, and a 22-bit cycle counter;
  - `parse_mode3`, MAXFIND mode: 32-bit packets with a 10-bit peak height and
    the cycle counter. A packet whose counter reads zero stands for an
    overflow.
- **Mode dispatch.** `acq_buffer_read` picks the decoder that matches the
  mode field of the acquisition configuration register.
- **Register helpers** of the client object:
  - the read-modify-write of one register bit;
  - the configuration, acquisition-mode and trigger-source setters built on
    that bit write;
  - the build-timestamp and status decoders;
  - the peak-finder threshold and the RAM write address.

Times are integer nanoseconds:

| decoder | time of an entry |
|---|---|
| TDC | `(cnt_accum + cnt_value) * 4 + pos` |
| MAXFIND | `(cnt_accum + cnt_value) * 4` |
| RAW, analog sample i | `2 * i` |
| RAW, digital sample j | `j` |

The modules are:

- `Bits`: single bits of Python integers.
- `Words`: 16-bit words, 32-bit packets, numpy slicing and int16 views.
- `Scan`: the overflow accumulator that TDC and MAXFIND share, with the
  flagged-packet counting and indexing both decoders use.
- `RawMode`, `TdcMode`, `MaxfindMode`: the three decoders.
- `Registers`: the register fields as pure functions.
- `Device`: the client object as the class `Digitizer`.
  - Its register bank is a map from `(port, offset)` to a 16-bit word.
  - The bit setters are methods that change that map.

The TDC and MAXFIND decoders are written as they are in the source:

- one pass over the packets;
- output arrays sized by the event count;
- a running overflow accumulator.

Each scan method is proved equal to a recursive reference definition (for
example `TdcMode.ChannelTimes`). The lemmas about each reference definition
say:

- which packet every output entry comes from;
- that a trailing odd word changes nothing;
- that timestamps come out in order when the hardware counter behaves.

## Model

| member | source | states |
|---|---|---|
| Bits.WithBitAt | scripts/Digitizer2Mixin.py:236-239 | `value \| (1 << bit)` or `value & ~(1 << bit)` makes bit `bit` equal `enabled` and leaves every other bit as it was |
| Bits.BitAsShiftAndMask | scripts/Digitizer2Mixin.py:232 | `bool(value & (1 << bit))` is `(value >> bit) & 1`: bit k is the parity of v shifted right by k |
| Words.Clamp | scripts/Digitizer2Mixin.py:43 | the result is the longest prefix of a length that is a multiple of m: `m * (len // m)` elements, fewer than m dropped |
| Words.StrideInterleave | scripts/Digitizer2Mixin.py:81 | `s[0::2]` and `s[1::2]` interleave back to s: element i is element i // 2 of the stride that starts at i % 2 |
| Words.PackPairs | scripts/Digitizer2Mixin.py:80-81 | a word buffer makes `len // 2` packets, packet i being word 2i shifted up 16 bits plus word 2i + 1 |
| Words.PackPairsIgnoresOddWord | scripts/Digitizer2Mixin.py:80 | appending one word to an even-length buffer leaves the packets unchanged |
| Words.AsInt16 | scripts/Digitizer2Mixin.py:54 | the int16 view of a 16-bit pattern is the signed value congruent to it mod 2^16 |
| Words.AsUint16 | scripts/Digitizer2Mixin.py:460 | the uint16 view of an int16 is the 16-bit pattern congruent to it mod 2^16 |
| Words.Int16RoundTrip | scripts/Digitizer2Mixin.py:460 | the int16 and uint16 views are inverse to each other |
| Scan.Counter | scripts/Digitizer2Mixin.py:93 | the counter field `packet & (2**22 - 1)` is below 2^22 |
| Scan.TdcFlagBits | scripts/Digitizer2Mixin.py:86-92 | the TDC overflow flag is bit 31 of the packet, and the A, D1 and D2 event flags are bits 30, 27 and 24 |
| Scan.MaxfindFlags | scripts/Digitizer2Mixin.py:140-143 | a MAXFIND packet has an event exactly when it is at least 2^22 (a non-zero height field), and an overflow exactly when it is a multiple of 2^22 (a zero counter) |
| Scan.Count | scripts/Digitizer2Mixin.py:96-98 | `count_nonzero` of a flag over n packets is at most n |
| Scan.Indices | scripts/Digitizer2Mixin.py:105-119 | the positions of the flagged packets: as many as the flag count, each flagged, strictly increasing, and every flagged packet listed |
| Scan.CyclesSplit | scripts/Digitizer2Mixin.py:106-110 | `cnt_accum + cnt_value` at packet i divided by 2^22 is the number of overflows up to and including packet i, and its remainder is packet i's counter |
| Scan.OverflowSeparates | scripts/Digitizer2Mixin.py:106 | an overflow counted between two packets puts the later one strictly later, whatever the counters say |
| Scan.CyclesNonDecreasing | scripts/Digitizer2Mixin.py:151-153 | if the counter only drops at a marked overflow, the accumulated cycle count never decreases in packet order |
| Scan.CyclesIncreasing | scripts/Digitizer2Mixin.py:105-107 | if the counter strictly rises except at a marked overflow, the accumulated cycle count strictly increases in packet order |
| RawMode.AnalogValue | scripts/Digitizer2Mixin.py:54 | the analog sample is the low 12 bits read as two's complement: in [-2048, 2048) and congruent to the word mod 2^12 |
| RawMode.NibbleBit | scripts/Digitizer2Mixin.py:60 | bit b of a word's nibble `(w >> 12) & 0xf` (`NibbleOf`) is bit 12 + b of the word |
| RawMode.UnpackBits | scripts/Digitizer2Mixin.py:62 | `np.unpackbits` gives eight booleans per byte |
| RawMode.NibblesBits | scripts/Digitizer2Mixin.py:60 | each element of `(ws >> 12) & 0xf` has bits 3:0 equal to bits 15:12 of its word |
| RawMode.JoinNibblesBits | scripts/Digitizer2Mixin.py:61 | each byte of `(hi << 4) \| lo` has lo's nibble in bits 3:0 and hi's nibble in bits 7:4 |
| RawMode.DigitalBytes | scripts/Digitizer2Mixin.py:57-61 | a channel's byte m joins the nibbles of its words c + 4m (high) and c + 4m + 2 (low); there are `len / 4` bytes |
| RawMode.DigitalSamples | scripts/Digitizer2Mixin.py:57-62 | a channel has twice as many digital samples as there are words |
| RawMode.JoinedWordBit | scripts/Digitizer2Mixin.py:60-61 | bit 7 - t of a joined byte is bit 15 - t of the high word (t < 4) or bit 19 - t of the low word |
| RawMode.UnpackedHighNibble | scripts/Digitizer2Mixin.py:60-62 | booleans 8g .. 8g + 3 are bits 15 .. 12 of the word that gave byte g its high nibble |
| RawMode.UnpackedLowNibble | scripts/Digitizer2Mixin.py:60-62 | booleans 8g + 4 .. 8g + 7 are bits 15 .. 12 of the word that gave byte g its low nibble |
| RawMode.HighNibbleSample | scripts/Digitizer2Mixin.py:57-62 | digital samples 8g .. 8g + 3 of channel c are bits 15 .. 12 of word c + 4g |
| RawMode.LowNibbleSample | scripts/Digitizer2Mixin.py:57-62 | digital samples 8g + 4 .. 8g + 7 of channel c are bits 15 .. 12 of word c + 4g + 2 |
| RawMode.DigitalSampleAt | scripts/Digitizer2Mixin.py:57-62 | digital sample 4q + r of channel c is bit 15 - r of word c + 2q: every word of a channel carries four consecutive samples, earliest in bit 15 |
| RawMode.ParseRaw | scripts/Digitizer2Mixin.py:32-68 | after clamping to n = a multiple of 4 words: n analog samples at 2i ns with value AnalogValue(word i); 2n samples per digital channel at j ns |
| RawMode.RawDigitalAt | scripts/Digitizer2Mixin.py:57-65 | D1 sample 4q + r is bit 15 - r of word 2q and D2 sample 4q + r is bit 15 - r of word 2q + 1 |
| RawMode.ParseRawIgnoresPartialGroup | scripts/Digitizer2Mixin.py:43 | up to three words past the last group of four change nothing |
| TdcMode.Pos | scripts/Digitizer2Mixin.py:88-92 | each channel's sub-cycle position is a 2-bit value |
| TdcMode.ChannelTimes | scripts/Digitizer2Mixin.py:96-119 | a channel gets one timestamp per packet that has its event flag |
| TdcMode.ChannelTimesAt | scripts/Digitizer2Mixin.py:105-119 | timestamp k of a channel comes from the k-th packet with its event flag: 4 ns times (overflows so far, this packet's included, times 2^22, plus its counter), plus its position |
| TdcMode.DecodeTdc | scripts/Digitizer2Mixin.py:71-121 | each channel's list is as long as the count of its event flag over the packed packets |
| TdcMode.DecodeTdcIgnoresOddWord | scripts/Digitizer2Mixin.py:80 | a trailing odd word changes no timestamp |
| TdcMode.ChannelTimesSorted | scripts/Digitizer2Mixin.py:105-119 | if the counter strictly rises except at a flagged overflow, each channel's timestamps strictly increase |
| TdcMode.OverflowCountedFirst | scripts/Digitizer2Mixin.py:106-110 | an event on a packet with the overflow flag is stamped after that overflow is added: words C000 0000 6000 0005 decode to analog times 2^24 and 2^24 + 22 ns |
| TdcMode.Record | scripts/Digitizer2Mixin.py:109-119 | one channel's step: the output array holds the timestamps of the first i + 1 packets, and the index counts them |
| TdcMode.RecordAll | scripts/Digitizer2Mixin.py:106-119 | one loop iteration keeps all three arrays filled with the timestamps of the packets seen so far |
| TdcMode.ScanPackets | scripts/Digitizer2Mixin.py:96-121 | the loop's three arrays equal the reference timestamp lists exactly |
| TdcMode.ParseTdc | scripts/Digitizer2Mixin.py:71-121 | `parse_mode2` returns exactly DecodeTdc of its words |
| MaxfindMode.Amplitude | scripts/Digitizer2Mixin.py:142-143 | the peak height is below 1024 and is non-zero exactly when the packet has an event |
| MaxfindMode.PeakTimes | scripts/Digitizer2Mixin.py:151-158 | one peak time per packet with a non-zero height |
| MaxfindMode.PeakHeights | scripts/Digitizer2Mixin.py:155-158 | one peak height per packet with a non-zero height |
| MaxfindMode.PeakAt | scripts/Digitizer2Mixin.py:140-158 | peak k comes from the k-th packet with a non-zero height: the height is that packet's, between 1 and 1023, and the time counts every zero-counter packet up to and including it |
| MaxfindMode.DecodeMaxfind | scripts/Digitizer2Mixin.py:124-160 | times and heights have the same length, the number of packets with a peak |
| MaxfindMode.DecodeMaxfindIgnoresOddWord | scripts/Digitizer2Mixin.py:136 | a trailing odd word changes nothing |
| MaxfindMode.PeakTimesSorted | scripts/Digitizer2Mixin.py:151-156 | if the counter only drops at a zero-counter packet, peak times never decrease |
| MaxfindMode.ZeroCounterPeak | scripts/Digitizer2Mixin.py:140-156 | a peak on a zero-counter packet is counted after its implied overflow: words 0040 0000 decode to one peak of height 1 at 2^24 ns |
| MaxfindMode.ScanPackets | scripts/Digitizer2Mixin.py:146-160 | the loop's two arrays equal the reference time and height lists exactly |
| MaxfindMode.ParseMaxfind | scripts/Digitizer2Mixin.py:124-160 | `parse_mode3` returns exactly DecodeMaxfind of its words |
| Registers.SetRegBit | scripts/Digitizer2Mixin.py:234-240 | the written register value has bit `bit` equal to `enabled` and every other bit unchanged, and it stays a 16-bit value |
| Registers.ModeField | scripts/Digitizer2Mixin.py:384-385 | `(conf >> 2) & 0b11` is bit 3 times 2 plus bit 2 |
| Registers.WithMode | scripts/Digitizer2Mixin.py:380-382 | after `acq_mode`'s two bit writes the mode field reads `mode & 0b11`, and bits other than 2 and 3 are unchanged |
| Registers.TriggerField | scripts/Digitizer2Mixin.py:395-411 | the 3-bit trigger field at position lo is its three bits weighted 4, 2, 1 |
| Registers.WithTrigger | scripts/Digitizer2Mixin.py:395-411 | after a trigger setter's three bit writes the field at lo reads `src & 0b111`, and bits outside it are unchanged |
| Registers.VersionValue | scripts/Digitizer2Mixin.py:209 | `high << 16 \| low` is a 32-bit value whose halves are the two registers |
| Registers.DecodeVersion | scripts/Digitizer2Mixin.py:208-216 | the decoded fields are within their bit widths (6, 4, 5, 5, 6, 6 bits) |
| Registers.VersionRoundTrip | scripts/Digitizer2Mixin.py:208-216 | encoding valid fields and decoding them gives them back |
| Registers.VersionCoversAllBits | scripts/Digitizer2Mixin.py:208-216 | the six fields tile all 32 bits: re-encoding the decoded fields gives the value back |
| Registers.StateIndex | scripts/Digitizer2Mixin.py:223 | there are five acquisition states, indexed 0 to 4 |
| Registers.StatusState | scripts/Digitizer2Mixin.py:222-226 | the state list lookup succeeds exactly for -5 <= status < 5 and then returns the state at status mod 5, Python's negative indexing included |
| Registers.StatusRoundTrip | scripts/Digitizer2Mixin.py:223 | each state's index looks up that state, and an in-range status is the index of the state it names |
| Registers.ThresholdWord | scripts/Digitizer2Mixin.py:460 | the stored 16-bit pattern reads back as the threshold through the int16 view, and equals it when non-negative |
| Registers.RamAddrHigh | scripts/Digitizer2Mixin.py:502 | `(addr >> 16) & 0x0fff` is below 2^12 and its bits 11:0 are bits 27:16 of the address |
| Registers.RamAddrLow | scripts/Digitizer2Mixin.py:501 | `addr & 0xffff` has bits 15:0 equal to those of the address |
| Registers.RamAddrSplit | scripts/Digitizer2Mixin.py:500-502 | high * 2^16 + low is the address mod 2^28 |
| Device.Digitizer.ReadRegBit | scripts/Digitizer2Mixin.py:230-232 | the bit read is `(value >> bit) & 1` of the register |
| Device.Digitizer.WriteRegBit | scripts/Digitizer2Mixin.py:234-240 | the register gets the old value with one bit forced; that bit reads back `enabled`; every other bit of every register is unchanged |
| Device.Digitizer.GetConfigBit | scripts/Digitizer2Mixin.py:242-243 | a configuration bit is `(value >> bit) & 1` of register (0, 0) |
| Device.Digitizer.SetConfigBit | scripts/Digitizer2Mixin.py:245-246 | only register (0, 0) changes, and the bit then reads back `enabled` |
| Device.Digitizer.GetAcqConf | scripts/Digitizer2Mixin.py:352-353 | every bit of the acquisition configuration value is the bit `_read_reg_bit` reads from register (0, 5) |
| Device.Digitizer.SetAcqConfBit | scripts/Digitizer2Mixin.py:349-350 | only register (0, 5) changes, and the bit then reads back `enabled` |
| Device.Digitizer.AcqMode | scripts/Digitizer2Mixin.py:372-382 | the selected mode then reads back as `mode & 0b11`, no other bit of register (0, 5) changes, and no other register changes |
| Device.Digitizer.AcqModeSelected | scripts/Digitizer2Mixin.py:384-385 | the selected mode is bit 3 times 2 plus bit 2 of register (0, 5) |
| Device.Digitizer.SetTriggerField | scripts/Digitizer2Mixin.py:396-398 | the three bit writes of a trigger setter together store WithTrigger of the old register |
| Device.Digitizer.AcqStartTrigSrc | scripts/Digitizer2Mixin.py:387-398 | bits 6:4 then read `src & 0b111`, and every other bit is unchanged |
| Device.Digitizer.AcqStopTrigSrc | scripts/Digitizer2Mixin.py:400-411 | bits 9:7 then read `src & 0b111`, and every other bit is unchanged |
| Device.Digitizer.GetVersion | scripts/Digitizer2Mixin.py:208-216 | the fields are within their widths and re-encode to exactly the 32 bits of registers (0, 3) and (0, 4) |
| Device.Digitizer.GetStatus | scripts/Digitizer2Mixin.py:218-226 | a state is returned exactly when the status register is below 5, and it is the state with that index |
| Device.Digitizer.MaxfindThreshold | scripts/Digitizer2Mixin.py:454-461 | register (0, 4) then reads back as the threshold through the int16 view, and nothing else changes |
| Device.Digitizer.RamWriteAddr | scripts/Digitizer2Mixin.py:500-502 | registers (2, 8) and (2, 9) then hold the address mod 2^28, and nothing else changes |
| Device.Digitizer.AcqBufferRead | scripts/Digitizer2Mixin.py:443-452 | modes 0, 2 and 3 decode the buffer with the RAW, TDC and MAXFIND decoder; any other mode returns the words unchanged |

## Left out

- **Floating point.** The source scales times by `4e-9`, `1e-9` and `2e-9`
  s. The model keeps exact integer nanoseconds instead.
- **Register transport.** `read_reg`, `write_reg` and `read_reg_n` talk to
  the device server.
  - They are modelled as one map of 16-bit registers in which a register
    never written reads 0.
  - This merges the read and write sides of a register. The source uses
    (0, 4) both as the version low word (read) and as the threshold (write).
- **Buffer transport.** `acq_buffer_read_raw` and `acq_buffer_count` are
  device I/O. `Device.Digitizer.AcqBufferRead` takes the fetched words as a
  parameter instead.
- **Device routines.** Not modelled:
  - the sleep-based sequencing;
  - the ADC programming routines (lines 263-343);
  - the RAM scratch routines `ram_buffer_init`, `ram_buffer_write`,
    `ram_buffer_read`, `ram_write_cmd` and the rest (lines 489-508, apart
    from `ram_write_addr`).
- **`analog_average`.** Its assert at line 471 refers to the undefined name
  `value`, so with asserts enabled every call raises NameError before any
  register is written. Under `python -O` the assert is stripped, and the call
  would write configuration bits 13 and 14 from `n & 0b01` and `n & 0b10`.
  Neither behaviour is modelled.
- **Thin wrappers.** These are not separate members:
  - `acq_reset`, `acq_stop`, `adc_power`, `analog_invert` and
    `_sampling_rst` are calls to the modelled one-bit setters;
  - `fpga_temperature` is a plain register read.
- **Enum types.** The `TriggerSource` and `AcqMode` enums are plain
  integers here, since the source passes them through `int()`.
- **Status result.** The status dictionary `{"acq_state": name}` is
  represented by the `AcqState` value.
- **numpy dtypes.** The inputs keep their widths as bounded subset types:
  16-bit words and 32-bit packets. The outputs are unbounded Dafny types, and
  their ranges are proved instead:
  - analog int16 samples are `int`, in [-2048, 2048) by `RawMode.AnalogValue`;
  - `np.unpackbits`' uint8 0/1 values are `bool`;
  - MAXFIND's uint16 heights are `nat`, below 1024 by `MaxfindMode.Amplitude`;
  - float64 times are `nat` nanoseconds.
- Device.Digitizer.MaxfindThreshold: requires its argument to be in the int16
  range; what `np.int16(value)` does out of range depends on the numpy
  version.
- Device.Digitizer.ReadRegBit: takes `bit` as a `nat`. Python's `1 << bit`
  raises ValueError for a negative bit, and that error path is not modelled.
- Device.Digitizer.GetConfigBit: takes `bit` as a `nat`, so the ValueError
  of a negative bit is not modelled.
- Device.Digitizer.WriteRegBit: takes `bit` as a `nat`, so the ValueError of
  a negative bit is not modelled. It also requires `bit < 16`, the width of the
  registers. The source would write a wider value for a higher bit.
- Device.Digitizer.SetConfigBit: requires `bit < 16`, as `WriteRegBit` does.
- Device.Digitizer.SetAcqConfBit: requires `bit < 16`, as `WriteRegBit` does.
- TdcMode.ScanPackets: its arrays are not promised to be freshly allocated.
- MaxfindMode.ScanPackets: its arrays are not promised to be freshly
  allocated.
- **Timestamp order.** The source does not guarantee ordered timestamps: a
  counter that jumps back without a marked overflow breaks the order.
  `TdcMode.ChannelTimesSorted` and `MaxfindMode.PeakTimesSorted` therefore
  require a well-behaved counter.
