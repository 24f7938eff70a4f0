/** The overflow accumulator that the TDC and MAXFIND decoders share: a
    22-bit cycle counter in every packet, a per-mode rule for which packets mark
    a counter overflow, and the running sum `cnt_accum` that turns the wrapping
    counter into a cycle count that does not wrap. */
module Scan {
  import opened Bits
  import opened Words

  /** `2**TDC_CNT_BITS`: one full turn of the 22-bit cycle counter. */
  const CounterSpan: nat := 0x40_0000

  /** `packet & (2**22 - 1)`: the cycle counter field, bits 21:0. */
  function Counter(p: Packet): (c: nat)
    ensures c < CounterSpan
  {
    p % 0x40_0000
  }

  /** The one-bit flags the decoders extract from every packet before their
      scan: TDC's overflow flag (bit 31) and its three event flags (bits 30, 27
      and 24); MAXFIND's implied overflow (counter field zero) and its event
      (amplitude field, bits 31:22, non-zero). */
  datatype Flag = TdcOverflow | TdcEventA | TdcEventD1 | TdcEventD2 | MaxfindOverflow | MaxfindEvent

  /** Whether packet p carries flag f. */
  predicate Has(p: Packet, f: Flag)
  {
    match f
    case TdcOverflow => p / 0x8000_0000 % 2 == 1
    case TdcEventA => p / 0x4000_0000 % 2 == 1
    case TdcEventD1 => p / 0x800_0000 % 2 == 1
    case TdcEventD2 => p / 0x100_0000 % 2 == 1
    case MaxfindOverflow => Counter(p) == 0
    case MaxfindEvent => p / 0x40_0000 != 0
  }

  /** The TDC flags are single packet bits: overflow `1 << 31`, and the
      events of channels A, D1 and D2 `1 << 30`, `1 << 27` and `1 << 24`. */
  lemma TdcFlagBits(p: Packet)
    ensures Has(p, TdcOverflow) <==> Bit(p, 31)
    ensures Has(p, TdcEventA) <==> Bit(p, 30)
    ensures Has(p, TdcEventD1) <==> Bit(p, 27)
    ensures Has(p, TdcEventD2) <==> Bit(p, 24)
  {
    Pow2Sixteen();
    assert Pow2(20) == 0x10_0000;
    assert Pow2(24) == 0x100_0000;
    assert Pow2(27) == 0x800_0000;
    assert Pow2(30) == 0x4000_0000;
    assert Pow2(31) == 0x8000_0000;
    BitAsShiftAndMask(p, 31);
    BitAsShiftAndMask(p, 30);
    BitAsShiftAndMask(p, 27);
    BitAsShiftAndMask(p, 24);
  }

  /** A MAXFIND packet has an event exactly when its height field, bits 31:22,
      is non-zero: when the packet is at least one counter turn. A MAXFIND
      overflow is a packet whose 22 counter bits are all zero. */
  lemma MaxfindFlags(p: Packet)
    ensures Has(p, MaxfindEvent) <==> p >= CounterSpan
    ensures Has(p, MaxfindOverflow) <==> p == CounterSpan * (p / CounterSpan)
  {
  }

  /** `np.count_nonzero` of one flag over the first n packets. */
  function Count(ps: seq<Packet>, f: Flag, n: nat): (c: nat)
    requires n <= |ps|
    ensures c <= n
  {
    if n == 0 then 0 else Count(ps, f, n - 1) + (if Has(ps[n - 1], f) then 1 else 0)
  }

  /** Counting over a longer prefix never gives less. */
  lemma {:induction false} CountMonotone(ps: seq<Packet>, f: Flag, m: nat, n: nat)
    requires m <= n <= |ps|
    ensures Count(ps, f, m) <= Count(ps, f, n)
    decreases n
  {
    if m < n {
      CountMonotone(ps, f, m, n - 1);
    }
  }

  /** The positions, in packet order, of the first n packets for which f holds:
      entry k is "the k-th flagged packet". */
  function Indices(ps: seq<Packet>, f: Flag, n: nat): (r: seq<nat>)
    requires n <= |ps|
    ensures |r| == Count(ps, f, n)
    ensures forall k :: 0 <= k < |r| ==> r[k] < n && Has(ps[r[k]], f)
    ensures forall k, l :: 0 <= k < l < |r| ==> r[k] < r[l]
    ensures forall i :: 0 <= i < n && Has(ps[i], f) ==> i in r
  {
    if n == 0 then [] else Indices(ps, f, n - 1) + (if Has(ps[n - 1], f) then [n - 1] else [])
  }

  /** The k-th flagged index among n packets is the k-th among n - 1, or the
      last packet when that one is the extra flagged packet. */
  lemma IndicesStep(ps: seq<Packet>, f: Flag, n: nat, k: nat)
    requires 0 < n <= |ps| && k < Count(ps, f, n)
    ensures Indices(ps, f, n)[k] == if k < Count(ps, f, n - 1) then Indices(ps, f, n - 1)[k] else n - 1
  {
  }

  /** The cycle count the decoder assigns to packet i: `cnt_accum + cnt_value`,
      where the accumulator already includes an overflow carried by packet i itself. */
  function Cycles(ps: seq<Packet>, overflow: Flag, i: nat): nat
    requires i < |ps|
  {
    CounterSpan * Count(ps, overflow, i + 1) + Counter(ps[i])
  }

  /** The cycle count is whole counter turns plus the counter: it counts
      exactly the overflows up to packet i, and its remainder is packet i's
      counter. */
  lemma CyclesSplit(ps: seq<Packet>, overflow: Flag, i: nat)
    requires i < |ps|
    ensures Cycles(ps, overflow, i) / CounterSpan == Count(ps, overflow, i + 1)
    ensures Cycles(ps, overflow, i) % CounterSpan == Counter(ps[i])
  {
  }

  /** The hardware counter never runs backwards except across a marked overflow. */
  ghost predicate CounterAdvances(ps: seq<Packet>, overflow: Flag)
  {
    forall i :: 0 < i < |ps| && !Has(ps[i], overflow) ==> Counter(ps[i - 1]) <= Counter(ps[i])
  }

  /** The hardware counter strictly increases between packets except across a
      marked overflow. */
  ghost predicate CounterIncreases(ps: seq<Packet>, overflow: Flag)
  {
    forall i :: 0 < i < |ps| && !Has(ps[i], overflow) ==> Counter(ps[i - 1]) < Counter(ps[i])
  }

  /** An overflow marked between two packets (after the first, up to and
      including the second) puts the second strictly later, whatever the counters say. */
  lemma OverflowSeparates(ps: seq<Packet>, overflow: Flag, i: nat, j: nat)
    requires i < j < |ps|
    requires Count(ps, overflow, i + 1) < Count(ps, overflow, j + 1)
    ensures Cycles(ps, overflow, i) < Cycles(ps, overflow, j)
  {
  }

  /** With a counter that only advances, cycle counts never decrease in packet order. */
  lemma {:induction false} CyclesNonDecreasing(ps: seq<Packet>, overflow: Flag, i: nat, j: nat)
    requires CounterAdvances(ps, overflow)
    requires i <= j < |ps|
    ensures Cycles(ps, overflow, i) <= Cycles(ps, overflow, j)
    decreases j
  {
    if i < j {
      CyclesNonDecreasing(ps, overflow, i, j - 1);
      assert !Has(ps[j], overflow) ==> Counter(ps[j - 1]) <= Counter(ps[j]);
    }
  }

  /** With a counter that strictly increases, cycle counts strictly increase in packet order. */
  lemma {:induction false} CyclesIncreasing(ps: seq<Packet>, overflow: Flag, i: nat, j: nat)
    requires CounterIncreases(ps, overflow)
    requires i < j < |ps|
    ensures Cycles(ps, overflow, i) < Cycles(ps, overflow, j)
    decreases j
  {
    if i < j - 1 {
      CyclesIncreasing(ps, overflow, i, j - 1);
    }
    assert !Has(ps[j], overflow) ==> Counter(ps[j - 1]) < Counter(ps[j]);
  }
}
