/** Decoding of an analog maxfinder acquisition (mode 3). Every 32-bit packet
    holds a 10-bit peak height (bits 31:22; zero means "no peak") and the 22-bit
    cycle counter (bits 21:0). There is no overflow flag: a packet whose counter
    reads zero is taken to mark an overflow. Times are in nanoseconds, 4 ns per
    counter cycle. */
module MaxfindMode {
  import opened Words
  import opened Scan

  /** `(packet >> 22).astype(np.uint16)`: the peak height. */
  function Amplitude(p: Packet): (a: nat)
    ensures a < 0x400
    ensures a != 0 <==> Has(p, MaxfindEvent)
  {
    p / 0x40_0000
  }

  /** The peak times (ns) of the first n packets: one per packet with a
      non-zero peak height, `(cnt_accum + cnt_value) * 4`. */
  function PeakTimes(ps: seq<Packet>, n: nat): (r: seq<nat>)
    requires n <= |ps|
    ensures |r| == Count(ps, MaxfindEvent, n)
  {
    if n == 0 then []
    else PeakTimes(ps, n - 1)
         + (if Has(ps[n - 1], MaxfindEvent) then [Cycles(ps, MaxfindOverflow, n - 1) * 4] else [])
  }

  /** The peak heights of the first n packets, in the same order as their times. */
  function PeakHeights(ps: seq<Packet>, n: nat): (r: seq<nat>)
    requires n <= |ps|
    ensures |r| == Count(ps, MaxfindEvent, n)
  {
    if n == 0 then []
    else PeakHeights(ps, n - 1) + (if Has(ps[n - 1], MaxfindEvent) then [Amplitude(ps[n - 1])] else [])
  }

  /** The k-th peak belongs to the k-th packet with a non-zero height: its
      height is that packet's height, between 1 and 1023, and its time counts
      every zero-counter packet up to and including that packet itself. */
  lemma {:induction false} PeakAt(ps: seq<Packet>, n: nat, k: nat)
    requires n <= |ps|
    requires k < Count(ps, MaxfindEvent, n)
    ensures var i := Indices(ps, MaxfindEvent, n)[k];
            && PeakTimes(ps, n)[k] == Cycles(ps, MaxfindOverflow, i) * 4
            && PeakHeights(ps, n)[k] == Amplitude(ps[i])
            && 0 < PeakHeights(ps, n)[k] < 0x400
  {
    IndicesStep(ps, MaxfindEvent, n, k);
    if k < Count(ps, MaxfindEvent, n - 1) {
      PeakAt(ps, n - 1, k);
      assert PeakTimes(ps, n)[k] == PeakTimes(ps, n - 1)[k];
      assert PeakHeights(ps, n)[k] == PeakHeights(ps, n - 1)[k];
    }
  }

  /** The two lists of one maxfinder decode. */
  datatype Peaks = Peaks(times: seq<nat>, heights: seq<nat>)

  /** What `parse_mode3` returns for a word buffer. */
  function DecodeMaxfind(words: seq<Word>): (r: Peaks)
    ensures |r.times| == |r.heights| == Count(PackPairs(words), MaxfindEvent, |words| / 2)
  {
    var ps := PackPairs(words);
    Peaks(PeakTimes(ps, |ps|), PeakHeights(ps, |ps|))
  }

  /** A trailing odd word is dropped before packing and changes nothing. */
  lemma DecodeMaxfindIgnoresOddWord(words: seq<Word>, extra: Word)
    requires |words| % 2 == 0
    ensures DecodeMaxfind(words + [extra]) == DecodeMaxfind(words)
  {
    PackPairsIgnoresOddWord(words, extra);
  }

  /** When the counter never runs backwards except at a zero-counter packet,
      peak times never decrease. */
  lemma {:induction false} PeakTimesSorted(ps: seq<Packet>, k: nat, l: nat)
    requires CounterAdvances(ps, MaxfindOverflow)
    requires k <= l < Count(ps, MaxfindEvent, |ps|)
    ensures PeakTimes(ps, |ps|)[k] <= PeakTimes(ps, |ps|)[l]
  {
    var idx := Indices(ps, MaxfindEvent, |ps|);
    PeakAt(ps, |ps|, k);
    PeakAt(ps, |ps|, l);
    if k < l {
      CyclesNonDecreasing(ps, MaxfindOverflow, idx[k], idx[l]);
    }
  }

  /** A peak in a packet whose counter reads zero is both an overflow and an
      event: the overflow is counted first, so the peak lands one full counter
      turn late. Packet 0x0040_0000 has height 1 and counter 0. */
  lemma ZeroCounterPeak()
    ensures DecodeMaxfind([0x0040, 0]) == Peaks([0x100_0000], [1])
  {
    assert PackPairs([0x0040, 0]) == [0x40_0000];
  }

  /** The output arrays hold, in their first idx slots, the peaks of the first
      i packets, and idx is how many there are. */
  ghost predicate Filled(times: array<nat>, heights: array<nat>, idx: nat, ps: seq<Packet>, i: nat)
    reads times, heights
  {
    && i <= |ps|
    && times.Length == heights.Length == Count(ps, MaxfindEvent, |ps|)
    && idx == Count(ps, MaxfindEvent, i) <= times.Length
    && times[..idx] == PeakTimes(ps, i)
    && heights[..idx] == PeakHeights(ps, i)
  }

  /** The loop of `parse_mode3` over the packed packets: size both outputs by
      the event count, then one pass in packet order with a running overflow
      accumulator. */
  method ScanPackets(packets: seq<Packet>) returns (times: array<nat>, heights: array<nat>)
    ensures times[..] == PeakTimes(packets, |packets|)
    ensures heights[..] == PeakHeights(packets, |packets|)
  {
    times := new nat[Count(packets, MaxfindEvent, |packets|)];
    heights := new nat[Count(packets, MaxfindEvent, |packets|)];
    var idx: nat := 0;
    var cntAccum: nat := 0;
    for i := 0 to |packets|
      invariant cntAccum == CounterSpan * Count(packets, MaxfindOverflow, i)
      invariant Filled(times, heights, idx, packets, i)
    {
      cntAccum := cntAccum + CounterSpan * (if Has(packets[i], MaxfindOverflow) then 1 else 0);
      CountMonotone(packets, MaxfindEvent, i + 1, |packets|);
      if Has(packets[i], MaxfindEvent) {
        times[idx] := (cntAccum + Counter(packets[i])) * 4;
        heights[idx] := Amplitude(packets[i]);
        assert times[..idx + 1] == times[..idx] + [times[idx]];
        assert heights[..idx + 1] == heights[..idx] + [heights[idx]];
        idx := idx + 1;
      }
    }
    assert times[..] == times[..idx];
    assert heights[..] == heights[..idx];
  }

  /** `parse_mode3`: pack word pairs into packets, then scan them. */
  method ParseMaxfind(words: seq<Word>) returns (times: array<nat>, heights: array<nat>)
    ensures Peaks(times[..], heights[..]) == DecodeMaxfind(words)
  {
    times, heights := ScanPackets(PackPairs(words));
  }
}
