/** Single bits of integers, read and written the way Python's `&`, `|`, `~`
    and `>>` treat one bit of an unbounded two's-complement integer. */
module Bits {

  /** 2 to the power k. */
  function Pow2(k: nat): (r: nat)
    ensures r >= 1
  {
    if k == 0 then 1 else 2 * Pow2(k - 1)
  }

  /** `bool(v & (1 << k))`. For a positive divisor Dafny's `/` rounds toward
      negative infinity like Python's `>>`, so this is also the two's-complement
      bit of a negative v. */
  predicate Bit(v: int, k: nat)
    decreases k
  {
    if k == 0 then v % 2 == 1 else Bit(v / 2, k - 1)
  }

  /** `v | (1 << b)`. */
  function SetBit(v: nat, b: nat): nat
  {
    if b == 0 then v - v % 2 + 1 else 2 * SetBit(v / 2, b - 1) + v % 2
  }

  /** `v & ~(1 << b)`. */
  function ClearBit(v: nat, b: nat): nat
  {
    if b == 0 then v - v % 2 else 2 * ClearBit(v / 2, b - 1) + v % 2
  }

  /** Bit b of v forced to `enabled`: the value a read-modify-write of one bit stores. */
  function WithBit(v: nat, b: nat, enabled: bool): nat
  {
    if enabled then SetBit(v, b) else ClearBit(v, b)
  }

  /** Forcing bit b changes bit b to `enabled` and no other bit. */
  lemma {:induction false} WithBitAt(v: nat, b: nat, enabled: bool, k: nat)
    ensures Bit(WithBit(v, b, enabled), k) == if k == b then enabled else Bit(v, k)
  {
    if b == 0 {
      if k != 0 {
        assert WithBit(v, b, enabled) / 2 == v / 2;
      }
    } else if k != 0 {
      WithBitAt(v / 2, b - 1, enabled, k - 1);
      assert WithBit(v, b, enabled) / 2 == WithBit(v / 2, b - 1, enabled);
    }
  }

  /** Forcing a bit below position n keeps a value below 2^n: a 16-bit
      register stays a 16-bit register. */
  lemma {:induction false} WithBitBound(v: nat, b: nat, enabled: bool, n: nat)
    requires v < Pow2(n) && b < n
    ensures WithBit(v, b, enabled) < Pow2(n)
  {
    if b != 0 {
      WithBitBound(v / 2, b - 1, enabled, n - 1);
    }
  }

  /** 2^16, the span of a 16-bit register. */
  lemma Pow2Sixteen()
    ensures Pow2(16) == 0x1_0000
  {
    assert Pow2(4) == 16;
    assert Pow2(8) == 256;
    assert Pow2(12) == 0x1000;
  }

  /** The bits of `x * 2^m + y`, for `0 <= y < 2^m`, are the m bits of y
      followed by the bits of x. */
  lemma {:induction false} BitOfSum(x: int, y: nat, m: nat, k: nat)
    requires y < Pow2(m)
    ensures Bit(x * Pow2(m) + y, k) == if k < m then Bit(y, k) else Bit(x, k - m)
  {
    if m != 0 {
      var h := x * Pow2(m - 1);
      assert x * Pow2(m) == 2 * h;
      if k != 0 {
        assert (x * Pow2(m) + y) / 2 == h + y / 2;
        BitOfSum(x, y / 2, m - 1, k - 1);
      }
    }
  }

  /** Bit lo + k of v is bit k of `v >> lo`. */
  lemma BitOfShift(v: int, lo: nat, k: nat)
    ensures Bit(v, lo + k) == Bit(v / Pow2(lo), k)
  {
    var x, y := v / Pow2(lo), v % Pow2(lo);
    assert v == x * Pow2(lo) + y;
    BitOfSum(x, y, lo, lo + k);
  }

  /** `bool(v & (1 << k))` is `(v >> k) & 1`: bit k is the parity of v
      shifted right by k. */
  lemma BitAsShiftAndMask(v: int, k: nat)
    ensures Bit(v, k) <==> v / Pow2(k) % 2 == 1
  {
    BitOfShift(v, k, 0);
  }

  /** A two-bit field is the sum of its bits. */
  lemma TwoBits(v: int)
    ensures v % 4 == (if Bit(v, 1) then 2 else 0) + (if Bit(v, 0) then 1 else 0)
  {
  }

  /** A three-bit field is the sum of its bits. */
  lemma ThreeBits(v: int)
    ensures v % 8 == (if Bit(v, 2) then 4 else 0) + (if Bit(v, 1) then 2 else 0) + (if Bit(v, 0) then 1 else 0)
  {
    assert Bit(v, 2) == Bit(v / 2 / 2, 0);
  }
}
