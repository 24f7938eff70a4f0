/** The configuration fields the digitizer2 client reads and writes: the
    acquisition-mode and trigger-source fields of the acquisition
    configuration register, the firmware build timestamp, the acquisition
    state, the peak-finder threshold and the RAM write address. */
module Registers {
  import opened Bits
  import opened Words

  /** `None` for an index Python's list lookup rejects. */
  datatype Option<T> = None | Some(value: T)

  /** A register is addressed by a port and an offset within it. */
  type RegAddr = (nat, nat)

  /** `read_reg(port, offset)` on a bank of 16-bit registers; a register
      never written reads 0. */
  function Read(bank: map<RegAddr, Word>, a: RegAddr): Word
  {
    if a in bank then bank[a] else 0
  }

  /** `_write_reg_bit`'s new register value: the old one with bit `bit` forced
      to `enabled`. For a bit below 16 it is still a 16-bit value. */
  function SetRegBit(v: Word, bit: nat, enabled: bool): (r: Word)
    requires bit < 16
    ensures forall k: nat :: Bit(r, k) == if k == bit then enabled else Bit(v, k)
  {
    Pow2Sixteen();
    WithBitBound(v, bit, enabled, 16);
    forall k: nat ensures Bit(WithBit(v, bit, enabled), k) == if k == bit then enabled else Bit(v, k) {
      WithBitAt(v, bit, enabled, k);
    }
    WithBit(v, bit, enabled)
  }

  const RegConfig: RegAddr := (0, 0)
  const RegStatus: RegAddr := (0, 1)
  const RegVersionHigh: RegAddr := (0, 3)
  const RegVersionLow: RegAddr := (0, 4)
  const RegAThreshold: RegAddr := (0, 4)
  const RegConfigAcq: RegAddr := (0, 5)
  const PortRam: nat := 2
  const RegRamAddrLow: RegAddr := (PortRam, 8)
  const RegRamAddrHigh: RegAddr := (PortRam, 9)

  /** The acquisition modes the decoder knows (`AcqMode`). */
  const ModeRaw: nat := 0
  const ModeTdc: nat := 2
  const ModeMaxfind: nat := 3

  /** `(conf >> 2) & 0b11`: the acquisition mode field, bits 3:2. */
  function ModeField(conf: int): (m: nat)
    ensures m == (if Bit(conf, 3) then 2 else 0) + (if Bit(conf, 2) then 1 else 0)
  {
    BitOfShift(conf, 2, 0);
    BitOfShift(conf, 2, 1);
    TwoBits(conf / 4);
    assert Pow2(2) == 4;
    conf / 4 % 4
  }

  /** What `acq_mode(mode)` leaves in the configuration register: bit 2 from
      `mode & 0b01`, then bit 3 from `mode & 0b10`. Reading the mode back
      gives `mode & 0b11`, and no other bit of the register changes. */
  function WithMode(conf: Word, mode: int): (r: Word)
    ensures ModeField(r) == mode % 4
    ensures forall k: nat :: k != 2 && k != 3 ==> Bit(r, k) == Bit(conf, k)
  {
    TwoBits(mode);
    SetRegBit(SetRegBit(conf, 2, Bit(mode, 0)), 3, Bit(mode, 1))
  }

  /** The 3-bit trigger-source field whose lowest bit is lo: bits 6:4 for the
      start trigger, bits 9:7 for the stop trigger. */
  function TriggerField(conf: int, lo: nat): (t: nat)
    ensures t == (if Bit(conf, lo + 2) then 4 else 0) + (if Bit(conf, lo + 1) then 2 else 0) + (if Bit(conf, lo) then 1 else 0)
  {
    BitOfShift(conf, lo, 0);
    BitOfShift(conf, lo, 1);
    BitOfShift(conf, lo, 2);
    ThreeBits(conf / Pow2(lo));
    conf / Pow2(lo) % 8
  }

  /** What the trigger setters leave in the register: bits lo, lo + 1 and
      lo + 2 from `src & 0b001`, `src & 0b010` and `src & 0b100`, in that
      order. The field then holds `src & 0b111`, and no bit outside it changes. */
  function WithTrigger(conf: Word, lo: nat, src: int): (r: Word)
    requires lo + 2 < 16
    ensures TriggerField(r, lo) == src % 8
    ensures forall k: nat :: (k < lo || lo + 2 < k) ==> Bit(r, k) == Bit(conf, k)
  {
    ThreeBits(src);
    SetRegBit(SetRegBit(SetRegBit(conf, lo, Bit(src, 0)), lo + 1, Bit(src, 1)), lo + 2, Bit(src, 2))
  }

  /** A firmware build timestamp. */
  datatype Version = Version(year: nat, month: nat, day: nat, hour: nat, minute: nat, second: nat)

  /** The field widths of a build timestamp: 6-bit year, 4-bit month, 5-bit
      day and hour, 6-bit minute and second. */
  predicate ValidVersion(v: Version)
  {
    v.year < 64 && v.month < 16 && v.day < 32 && v.hour < 32 && v.minute < 64 && v.second < 64
  }

  /** `read_reg(0, 3) << 16 | read_reg(0, 4)`: the low word is below 2^16, so
      the `|` is an addition. */
  function VersionValue(high: Word, low: Word): (value: nat)
    ensures value < 0x1_0000_0000
    ensures value / 0x1_0000 == high && value % 0x1_0000 == low
  {
    high * 0x1_0000 + low
  }

  /** `get_version`: day in bits 31:27, month 26:23, year 22:17, hour 16:12,
      minute 11:6, second 5:0. */
  function DecodeVersion(value: nat): (v: Version)
    ensures ValidVersion(v)
  {
    Version(value / 0x2_0000 % 64, value / 0x80_0000 % 16, value / 0x800_0000 % 32,
            value / 0x1000 % 32, value / 0x40 % 64, value % 64)
  }

  /** The 32-bit value that holds a timestamp's fields in the positions
      `get_version` reads them from. */
  function EncodeVersion(v: Version): nat
  {
     ((((v.day * 16 + v.month) * 64 + v.year) * 32 + v.hour) * 64 + v.minute) * 64 + v.second
  }

  /** Every timestamp with fields of the right widths fits in 32 bits and is
      read back unchanged: the fields do not overlap. */
  lemma {:induction false} VersionRoundTrip(v: Version)
    requires ValidVersion(v)
    ensures EncodeVersion(v) < 0x1_0000_0000
    ensures DecodeVersion(EncodeVersion(v)) == v
  {
    var r1 := v.day * 16 + v.month;
    var r2 := r1 * 64 + v.year;
    var r3 := r2 * 32 + v.hour;
    var r4 := r3 * 64 + v.minute;
    var value := r4 * 64 + v.second;
    assert value / 0x40 == r4;
    assert value / 0x1000 == r4 / 64 == r3;
    assert value / 0x2_0000 == r3 / 32 == r2;
    assert value / 0x80_0000 == r2 / 64 == r1;
    assert value / 0x800_0000 == r1 / 16 == v.day;
  }

  /** Every 32-bit value is the encoding of its decoded timestamp: the fields
      cover all 32 bits. */
  lemma {:induction false} VersionCoversAllBits(value: nat)
    requires value < 0x1_0000_0000
    ensures EncodeVersion(DecodeVersion(value)) == value
  {
    var r4 := value / 64;
    var r3 := r4 / 64;
    var r2 := r3 / 32;
    var r1 := r2 / 64;
    assert value / 0x1000 == r3;
    assert value / 0x2_0000 == r2;
    assert value / 0x80_0000 == r1;
    assert value / 0x800_0000 == r1 / 16;
  }

  /** The acquisition states, in the order of the status register's values. */
  datatype AcqState = SReset | SWaitReady | SWaitTrig | SBuffering | SDone

  /** The status value of each state. */
  function StateIndex(s: AcqState): (i: nat)
    ensures i < 5
  {
    match s
    case SReset => 0
    case SWaitReady => 1
    case SWaitTrig => 2
    case SBuffering => 3
    case SDone => 4
  }

  /** `__status_to_dict`: index the list of five state names with the status
      value, the way Python indexes a list: -5..-1 count from the end, any
      other value outside 0..4 raises. */
  function StatusState(status: int): (r: Option<AcqState>)
    ensures r.Some? <==> -5 <= status < 5
    ensures r.Some? ==> StateIndex(r.value) == status % 5
  {
    var states := [SReset, SWaitReady, SWaitTrig, SBuffering, SDone];
    if 0 <= status < 5 then Some(states[status])
    else if -5 <= status < 0 then Some(states[status + 5])
    else None
  }

  /** Every state is named by its own status value and by no other in 0..4. */
  lemma StatusRoundTrip(s: AcqState, status: int)
    ensures StatusState(StateIndex(s)) == Some(s)
    ensures 0 <= status < 5 ==> StateIndex(StatusState(status).value) == status
  {
  }

  /** `np.int16(value).view(np.uint16)`: the threshold as the register stores it. */
  function ThresholdWord(value: Int16): (w: Word)
    ensures AsInt16(w) == value
    ensures value >= 0 ==> w == value
  {
    AsUint16(value)
  }

  /** `addr & 0xffff`: the low half of a RAM address, which is bits 15:0 of
      the address (of its two's complement when negative). */
  function RamAddrLow(addr: int): (w: Word)
    ensures forall k: nat :: k < 16 ==> Bit(w, k) == Bit(addr, k)
  {
    Pow2Sixteen();
    forall k: nat | k < 16 ensures Bit(addr % 0x1_0000, k) == Bit(addr, k) {
      BitOfSum(addr / 0x1_0000, addr % 0x1_0000, 16, k);
    }
    addr % 0x1_0000
  }

  /** `(addr >> 16) & 0x0fff`: the high part of a RAM address, which is bits
      27:16 of the address. */
  function RamAddrHigh(addr: int): (w: Word)
    ensures w < 0x1000
    ensures forall k: nat :: k < 12 ==> Bit(w, k) == Bit(addr, 16 + k)
  {
    Pow2Sixteen();
    assert Pow2(12) == 0x1000;
    var q := addr / 0x1_0000;
    forall k: nat | k < 12 ensures Bit(q % 0x1000, k) == Bit(addr, 16 + k) {
      BitOfShift(addr, 16, k);
      BitOfSum(q / 0x1000, q % 0x1000, 12, k);
    }
    q % 0x1000
  }

  /** The two parts together hold the address modulo 2^28: a 28-bit address
      is split without loss, higher bits are dropped, and a negative address
      is taken in two's complement. */
  lemma RamAddrSplit(addr: int)
    ensures RamAddrHigh(addr) * 0x1_0000 + RamAddrLow(addr) == addr % 0x1000_0000
  {
    var q := addr / 0x1_0000;
    assert addr == q * 0x1_0000 + addr % 0x1_0000;
    var h := q / 0x1000;
    assert q == h * 0x1000 + q % 0x1000;
    assert addr == h * 0x1000_0000 + (q % 0x1000 * 0x1_0000 + addr % 0x1_0000);
  }
}
