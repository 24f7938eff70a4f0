/** Decoding of a TDC acquisition (mode 2). Every 32-bit packet carries an
    overflow flag (bit 31), then for each of the analog, digital-1 and digital-2
    channels an event flag and a 2-bit sub-cycle position (bits 30, 29:28; 27,
    26:25; 24, 23:22), and the 22-bit cycle counter (bits 21:0). Times are in
    nanoseconds: 4 ns per counter cycle, 1 ns per sub-cycle step. */
module TdcMode {
  import opened Words
  import opened Scan

  /** The three channels of a TDC decode. */
  datatype Channel = A | D1 | D2

  /** The event flag of a channel. */
  function EventFlag(ch: Channel): Flag
  {
    match ch
    case A => TdcEventA
    case D1 => TdcEventD1
    case D2 => TdcEventD2
  }

  /** `(packet >> 28) & 3`, `(packet >> 25) & 3`, `(packet >> 22) & 3`: the
      sub-cycle position of a channel's event. */
  function Pos(p: Packet, ch: Channel): (r: nat)
    ensures r < 4
  {
    match ch
    case A => p / 0x1000_0000 % 4
    case D1 => p / 0x200_0000 % 4
    case D2 => p / 0x40_0000 % 4
  }

  /** The timestamps (ns) one channel collects from the first n packets: one per
      packet whose event flag is set, `(cnt_accum + cnt_value) * 4 + pos`. */
  function ChannelTimes(ps: seq<Packet>, ch: Channel, n: nat): (r: seq<nat>)
    requires n <= |ps|
    ensures |r| == Count(ps, EventFlag(ch), n)
  {
    if n == 0 then []
    else ChannelTimes(ps, ch, n - 1)
         + (if Has(ps[n - 1], EventFlag(ch)) then [Cycles(ps, TdcOverflow, n - 1) * 4 + Pos(ps[n - 1], ch)] else [])
  }

  /** The k-th timestamp of a channel belongs to the k-th packet with that
      channel's event flag set, and counts every overflow flag up to and
      including that packet's own. */
  lemma {:induction false} ChannelTimesAt(ps: seq<Packet>, ch: Channel, n: nat, k: nat)
    requires n <= |ps|
    requires k < Count(ps, EventFlag(ch), n)
    ensures var i := Indices(ps, EventFlag(ch), n)[k];
            ChannelTimes(ps, ch, n)[k] == Cycles(ps, TdcOverflow, i) * 4 + Pos(ps[i], ch)
  {
    var f := EventFlag(ch);
    IndicesStep(ps, f, n, k);
    if k < Count(ps, f, n - 1) {
      ChannelTimesAt(ps, ch, n - 1, k);
      assert ChannelTimes(ps, ch, n)[k] == ChannelTimes(ps, ch, n - 1)[k];
    }
  }

  /** One more packet appends at most one timestamp, computed from the
      accumulator that already includes this packet's overflow. */
  lemma ChannelTimesStep(ps: seq<Packet>, ch: Channel, i: nat, accum: nat)
    requires i < |ps| && accum == CounterSpan * Count(ps, TdcOverflow, i + 1)
    ensures ChannelTimes(ps, ch, i + 1)
            == ChannelTimes(ps, ch, i)
               + (if Has(ps[i], EventFlag(ch)) then [(accum + Counter(ps[i])) * 4 + Pos(ps[i], ch)] else [])
  {
  }

  /** The three timestamp lists of one TDC decode. */
  datatype TdcEvents = TdcEvents(timesA: seq<nat>, timesD1: seq<nat>, timesD2: seq<nat>)

  /** What `parse_mode2` returns for a word buffer. */
  function DecodeTdc(words: seq<Word>): (r: TdcEvents)
    ensures |r.timesA| == Count(PackPairs(words), TdcEventA, |words| / 2)
    ensures |r.timesD1| == Count(PackPairs(words), TdcEventD1, |words| / 2)
    ensures |r.timesD2| == Count(PackPairs(words), TdcEventD2, |words| / 2)
  {
    var ps := PackPairs(words);
    TdcEvents(ChannelTimes(ps, A, |ps|), ChannelTimes(ps, D1, |ps|), ChannelTimes(ps, D2, |ps|))
  }

  /** A trailing odd word is dropped before packing and changes nothing. */
  lemma DecodeTdcIgnoresOddWord(words: seq<Word>, extra: Word)
    requires |words| % 2 == 0
    ensures DecodeTdc(words + [extra]) == DecodeTdc(words)
  {
    PackPairsIgnoresOddWord(words, extra);
  }

  /** When the counter strictly increases between packets that do not mark an
      overflow, every channel's timestamps come out strictly increasing. */
  lemma {:induction false} ChannelTimesSorted(ps: seq<Packet>, ch: Channel, k: nat, l: nat)
    requires CounterIncreases(ps, TdcOverflow)
    requires k < l < Count(ps, EventFlag(ch), |ps|)
    ensures ChannelTimes(ps, ch, |ps|)[k] < ChannelTimes(ps, ch, |ps|)[l]
  {
    var idx := Indices(ps, EventFlag(ch), |ps|);
    ChannelTimesAt(ps, ch, |ps|, k);
    ChannelTimesAt(ps, ch, |ps|, l);
    CyclesIncreasing(ps, TdcOverflow, idx[k], idx[l]);
  }

  /** An analog event on the overflow packet itself is stamped one full counter
      turn late: the overflow is added to the accumulator before the event's
      time is taken. Packets 0xC000_0000 (overflow, analog event at position 0,
      counter 0) and 0x6000_0005 (analog event at position 2, counter 5). */
  lemma OverflowCountedFirst()
    ensures DecodeTdc([0xC000, 0, 0x6000, 5]) == TdcEvents([0x100_0000, 0x100_0016], [], [])
  {
    var ps := PackPairs([0xC000, 0, 0x6000, 5]);
    assert ps == [0xC000_0000, 0x6000_0005];
    assert Has(ps[0], TdcOverflow) && Has(ps[0], TdcEventA) && !Has(ps[0], TdcEventD1) && !Has(ps[0], TdcEventD2);
    assert !Has(ps[1], TdcOverflow) && Has(ps[1], TdcEventA) && !Has(ps[1], TdcEventD1) && !Has(ps[1], TdcEventD2);
    assert Count(ps, TdcOverflow, 1) == Count(ps, TdcOverflow, 2) == 1;
    assert Counter(ps[0]) == 0 && Pos(ps[0], A) == 0 && Counter(ps[1]) == 5 && Pos(ps[1], A) == 2;
    assert ChannelTimes(ps, A, 1) == [0x100_0000];
    assert ChannelTimes(ps, A, 2) == [0x100_0000, 0x100_0016];
    assert ChannelTimes(ps, D1, 2) == [] && ChannelTimes(ps, D2, 2) == [];
  }

  /** The output array of channel ch holds, in its first idx slots, the
      timestamps of the first i packets, and idx is how many there are. */
  ghost predicate Filled(times: array<nat>, idx: nat, ps: seq<Packet>, ch: Channel, i: nat)
    reads times
  {
    && i <= |ps|
    && times.Length == Count(ps, EventFlag(ch), |ps|)
    && idx == Count(ps, EventFlag(ch), i) <= times.Length
    && times[..idx] == ChannelTimes(ps, ch, i)
  }

  /** One channel's share of one loop iteration: when the packet carries the
      channel's event, store its timestamp at idx and advance idx. */
  method Record(times: array<nat>, idx: nat, ps: seq<Packet>, ch: Channel, i: nat, cntAccum: nat)
    returns (next: nat)
    requires i < |ps| && cntAccum == CounterSpan * Count(ps, TdcOverflow, i + 1)
    requires Filled(times, idx, ps, ch, i)
    modifies times
    ensures Filled(times, next, ps, ch, i + 1)
  {
    CountMonotone(ps, EventFlag(ch), i + 1, |ps|);
    ChannelTimesStep(ps, ch, i, cntAccum);
    next := idx;
    if Has(ps[i], EventFlag(ch)) {
      times[idx] := (cntAccum + Counter(ps[i])) * 4 + Pos(ps[i], ch);
      assert times[..idx + 1] == times[..idx] + [times[idx]];
      next := idx + 1;
    }
  }

  /** One iteration of the loop of `parse_mode2`: every channel records the
      packet's event, if it has one, with the accumulator that already counts
      this packet's overflow. */
  method RecordAll(timesA: array<nat>, timesD1: array<nat>, timesD2: array<nat>,
                   idxA: nat, idxD1: nat, idxD2: nat, ps: seq<Packet>, i: nat, cntAccum: nat)
    returns (nextA: nat, nextD1: nat, nextD2: nat)
    requires timesA != timesD1 && timesA != timesD2 && timesD1 != timesD2
    requires i < |ps| && cntAccum == CounterSpan * Count(ps, TdcOverflow, i + 1)
    requires Filled(timesA, idxA, ps, A, i) && Filled(timesD1, idxD1, ps, D1, i) && Filled(timesD2, idxD2, ps, D2, i)
    modifies timesA, timesD1, timesD2
    ensures Filled(timesA, nextA, ps, A, i + 1) && Filled(timesD1, nextD1, ps, D1, i + 1) && Filled(timesD2, nextD2, ps, D2, i + 1)
  {
    nextA := Record(timesA, idxA, ps, A, i, cntAccum);
    nextD1 := Record(timesD1, idxD1, ps, D1, i, cntAccum);
    nextD2 := Record(timesD2, idxD2, ps, D2, i, cntAccum);
  }

  /** The loop of `parse_mode2` over the packed packets: size each output by
      its event count, then one pass in packet order with a running overflow
      accumulator. */
  method ScanPackets(packets: seq<Packet>) returns (timesA: array<nat>, timesD1: array<nat>, timesD2: array<nat>)
    ensures timesA[..] == ChannelTimes(packets, A, |packets|)
    ensures timesD1[..] == ChannelTimes(packets, D1, |packets|)
    ensures timesD2[..] == ChannelTimes(packets, D2, |packets|)
  {
    timesA := new nat[Count(packets, TdcEventA, |packets|)];
    timesD1 := new nat[Count(packets, TdcEventD1, |packets|)];
    timesD2 := new nat[Count(packets, TdcEventD2, |packets|)];
    var idxA: nat, idxD1: nat, idxD2: nat := 0, 0, 0;
    var cntAccum: nat := 0;
    for i := 0 to |packets|
      invariant cntAccum == CounterSpan * Count(packets, TdcOverflow, i)
      invariant Filled(timesA, idxA, packets, A, i)
      invariant Filled(timesD1, idxD1, packets, D1, i)
      invariant Filled(timesD2, idxD2, packets, D2, i)
    {
      cntAccum := cntAccum + CounterSpan * (if Has(packets[i], TdcOverflow) then 1 else 0);
      idxA, idxD1, idxD2 := RecordAll(timesA, timesD1, timesD2, idxA, idxD1, idxD2, packets, i, cntAccum);
    }
    assert timesA[..] == timesA[..idxA];
    assert timesD1[..] == timesD1[..idxD1];
    assert timesD2[..] == timesD2[..idxD2];
  }

  /** `parse_mode2`: pack word pairs into packets, then scan them. */
  method ParseTdc(words: seq<Word>) returns (timesA: array<nat>, timesD1: array<nat>, timesD2: array<nat>)
    ensures TdcEvents(timesA[..], timesD1[..], timesD2[..]) == DecodeTdc(words)
  {
    timesA, timesD1, timesD2 := ScanPackets(PackPairs(words));
  }
}
