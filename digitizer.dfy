/** The digitizer2 client object: the register read-modify-write helpers,
    the configuration setters built on them, and the decoding read of the
    acquisition buffer. The host's register transport is modelled as a bank
    of 16-bit registers. */
module Device {
  import opened Bits
  import opened Words
  import opened Registers
  import opened RawMode
  import opened TdcMode
  import opened MaxfindMode

  /** What `acq_buffer_read` returns: one decoder's result, or the buffer
      unchanged for a mode without a decoder. */
  datatype Decoded = Raw(capture: RawCapture) | Tdc(events: TdcEvents) | Maxfind(peaks: Peaks) | Undecoded(words: seq<Word>)

  class Digitizer {
    /** The register bank behind `read_reg` / `write_reg`. */
    var regs: map<RegAddr, Word>

    /** `read_reg(port, offset)`. */
    function Reg(a: RegAddr): Word
      reads this
    {
      Read(regs, a)
    }

    /** `_read_reg_bit`: bit `bit` of a register, which is `(value >> bit) & 1`. */
    function ReadRegBit(a: RegAddr, bit: nat): (b: bool)
      reads this
      ensures b <==> Reg(a) / Pow2(bit) % 2 == 1
    {
      BitOfShift(Reg(a), bit, 0);
      Bit(Reg(a), bit)
    }

    /** `_write_reg_bit`: read the register, set or clear one bit, write it
        back. That bit reads back as `enabled`; every other bit of every
        register is unchanged. */
    method WriteRegBit(a: RegAddr, bit: nat, enabled: bool)
      requires bit < 16
      modifies this
      ensures regs == old(regs)[a := SetRegBit(old(Reg(a)), bit, enabled)]
      ensures ReadRegBit(a, bit) == enabled
      ensures forall b: RegAddr, k: nat :: (b != a || k != bit) ==> ReadRegBit(b, k) == Bit(Read(old(regs), b), k)
    {
      var value := Reg(a);
      regs := regs[a := SetRegBit(value, bit, enabled)];
    }

    /** `get_config_bit`. */
    function GetConfigBit(bit: nat): (b: bool)
      reads this
      ensures b <==> Reg(RegConfig) / Pow2(bit) % 2 == 1
    {
      ReadRegBit(RegConfig, bit)
    }

    /** `set_config_bit`: `_write_reg_bit` on the configuration register; the
        bit then reads back as `enabled`. */
    method SetConfigBit(bit: nat, enabled: bool)
      requires bit < 16
      modifies this
      ensures regs == old(regs)[RegConfig := SetRegBit(old(Reg(RegConfig)), bit, enabled)]
      ensures GetConfigBit(bit) == enabled
    {
      WriteRegBit(RegConfig, bit, enabled);
    }

    /** `_get_acq_conf`: the acquisition configuration register, whose bits
        are the ones `_read_reg_bit` reads from it. */
    function GetAcqConf(): (c: Word)
      reads this
      ensures forall k: nat :: Bit(c, k) == ReadRegBit(RegConfigAcq, k)
    {
      Reg(RegConfigAcq)
    }

    /** `_set_acq_conf_bit`: `_write_reg_bit` on the acquisition configuration
        register; the bit then reads back as `enabled`. */
    method SetAcqConfBit(bit: nat, enabled: bool)
      requires bit < 16
      modifies this
      ensures regs == old(regs)[RegConfigAcq := SetRegBit(old(Reg(RegConfigAcq)), bit, enabled)]
      ensures Bit(Reg(RegConfigAcq), bit) == enabled
    {
      WriteRegBit(RegConfigAcq, bit, enabled);
    }

    /** `acq_mode`: bit 2 from `mode & 0b01`, bit 3 from `mode & 0b10`. The
        selected mode then reads back as `mode & 0b11`, and no other bit of the
        register changes. */
    method AcqMode(mode: int)
      modifies this
      ensures regs == old(regs)[RegConfigAcq := WithMode(old(GetAcqConf()), mode)]
      ensures AcqModeSelected() == mode % 4
      ensures forall k: nat :: k != 2 && k != 3 ==> Bit(GetAcqConf(), k) == old(Bit(GetAcqConf(), k))
    {
      var bank, conf := regs, Reg(RegConfigAcq);
      SetAcqConfBit(2, Bit(mode, 0));
      assert regs == bank[RegConfigAcq := SetRegBit(conf, 2, Bit(mode, 0))];
      SetAcqConfBit(3, Bit(mode, 1));
    }

    /** `_acq_mode_selected`: `(conf >> 2) & 0b11`, the two mode bits 3 and 2. */
    function AcqModeSelected(): (m: nat)
      reads this
      ensures m == (if ReadRegBit(RegConfigAcq, 3) then 2 else 0) + (if ReadRegBit(RegConfigAcq, 2) then 1 else 0)
    {
      ModeField(GetAcqConf())
    }

    /** The three bit writes both trigger setters make: bits lo, lo + 1 and
        lo + 2 from `src & 0b001`, `src & 0b010` and `src & 0b100`, in that order. */
    method SetTriggerField(lo: nat, src: int)
      requires lo + 2 < 16
      modifies this
      ensures regs == old(regs)[RegConfigAcq := WithTrigger(old(GetAcqConf()), lo, src)]
    {
      var bank, conf := regs, Reg(RegConfigAcq);
      var c1 := SetRegBit(conf, lo, Bit(src, 0));
      var c2 := SetRegBit(c1, lo + 1, Bit(src, 1));
      SetAcqConfBit(lo, Bit(src, 0));
      assert regs == bank[RegConfigAcq := c1];
      SetAcqConfBit(lo + 1, Bit(src, 1));
      assert regs == bank[RegConfigAcq := c2];
      SetAcqConfBit(lo + 2, Bit(src, 2));
    }

    /** `acq_start_trig_src`: the start trigger source goes to bits 6:4. The
        field then holds `src & 0b111` and no bit outside it changes. */
    method AcqStartTrigSrc(src: int)
      modifies this
      ensures regs == old(regs)[RegConfigAcq := WithTrigger(old(GetAcqConf()), 4, src)]
      ensures TriggerField(GetAcqConf(), 4) == src % 8
      ensures forall k: nat :: (k < 4 || 6 < k) ==> Bit(GetAcqConf(), k) == old(Bit(GetAcqConf(), k))
    {
      SetTriggerField(4, src);
    }

    /** `acq_stop_trig_src`: the stop trigger source goes to bits 9:7. The
        field then holds `src & 0b111` and no bit outside it changes. */
    method AcqStopTrigSrc(src: int)
      modifies this
      ensures regs == old(regs)[RegConfigAcq := WithTrigger(old(GetAcqConf()), 7, src)]
      ensures TriggerField(GetAcqConf(), 7) == src % 8
      ensures forall k: nat :: (k < 7 || 9 < k) ==> Bit(GetAcqConf(), k) == old(Bit(GetAcqConf(), k))
    {
      SetTriggerField(7, src);
    }

    /** `get_version`: the build timestamp in the version registers, whose
        fields together are exactly the 32 bits of the two registers. */
    function GetVersion(): (v: Version)
      reads this
      ensures ValidVersion(v)
      ensures EncodeVersion(v) == VersionValue(Reg(RegVersionHigh), Reg(RegVersionLow))
    {
      var value := VersionValue(Reg(RegVersionHigh), Reg(RegVersionLow));
      VersionCoversAllBits(value);
      DecodeVersion(value)
    }

    /** `get_status`: the acquisition state, or `None` (the lookup raises)
        when the status register holds 5 or more. */
    function GetStatus(): (r: Option<AcqState>)
      reads this
      ensures r.Some? <==> Reg(RegStatus) < 5
      ensures r.Some? ==> StateIndex(r.value) == Reg(RegStatus)
    {
      StatusState(Reg(RegStatus))
    }

    /** `maxfind_threshold`: store the threshold's 16-bit pattern; the
        register read as int16 gives the threshold back. */
    method MaxfindThreshold(value: Int16)
      modifies this
      ensures regs == old(regs)[RegAThreshold := ThresholdWord(value)]
      ensures AsInt16(Reg(RegAThreshold)) == value
    {
      regs := regs[RegAThreshold := ThresholdWord(value)];
    }

    /** `ram_write_addr`: the low 16 bits to offset 8 and the next 12 bits to
        offset 9 of the RAM port; together they hold the address modulo 2^28. */
    method RamWriteAddr(addr: int)
      modifies this
      ensures regs == old(regs)[RegRamAddrLow := RamAddrLow(addr)][RegRamAddrHigh := RamAddrHigh(addr)]
      ensures Reg(RegRamAddrHigh) * 0x1_0000 + Reg(RegRamAddrLow) == addr % 0x1000_0000
    {
      regs := regs[RegRamAddrLow := RamAddrLow(addr)];
      regs := regs[RegRamAddrHigh := RamAddrHigh(addr)];
      RamAddrSplit(addr);
    }

    /** `acq_buffer_read` on an already fetched buffer: decode it with the
        parser of the selected mode, or return it unchanged. */
    method AcqBufferRead(data: seq<Word>) returns (r: Decoded)
      ensures AcqModeSelected() == ModeRaw ==> r == Raw(ParseRaw(data))
      ensures AcqModeSelected() == ModeTdc ==> r == Tdc(DecodeTdc(data))
      ensures AcqModeSelected() == ModeMaxfind ==> r == Maxfind(DecodeMaxfind(data))
      ensures AcqModeSelected() !in {ModeRaw, ModeTdc, ModeMaxfind} ==> r == Undecoded(data)
    {
      var mode := AcqModeSelected();
      if mode == ModeRaw {
        r := Raw(ParseRaw(data));
      } else if mode == ModeTdc {
        var timesA, timesD1, timesD2 := ParseTdc(data);
        r := Tdc(TdcEvents(timesA[..], timesD1[..], timesD2[..]));
      } else if mode == ModeMaxfind {
        var times, heights := ParseMaxfind(data);
        r := Maxfind(Peaks(times[..], heights[..]));
      } else {
        r := Undecoded(data);
      }
    }
  }
}
