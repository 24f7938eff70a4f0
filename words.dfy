/** The device's unsigned 16-bit words, the 32-bit packets built from word
    pairs, and the numpy slicing and reinterpretation the decoders apply to them. */
module Words {

  /** An unsigned 16-bit word (`np.uint16`). */
  type Word = x: int | 0 <= x < 0x1_0000

  /** An unsigned 32-bit packet (`np.uint32`). */
  type Packet = x: int | 0 <= x < 0x1_0000_0000

  /** A signed 16-bit value (`np.int16`). */
  type Int16 = x: int | -0x8000 <= x < 0x8000

  /** `s[:s.size - (s.size % m)]`: drop the trailing partial group of m
      elements. The result is the longest prefix whose length is a multiple of m. */
  function Clamp<T>(s: seq<T>, m: nat): (r: seq<T>)
    requires m > 0
    ensures |r| == m * (|s| / m) && |s| - |r| < m && r == s[..|r|]
  {
    s[..|s| - |s| % m]
  }

  /** `s[start::2]`: every other element, from position start on. */
  function Stride<T>(s: seq<T>, start: nat): (r: seq<T>)
    ensures |r| == if start < |s| then (|s| - start + 1) / 2 else 0
    ensures forall k :: 0 <= k < |r| ==> r[k] == s[start + 2 * k]
  {
    if start < |s| then seq((|s| - start + 1) / 2, k requires 0 <= k < (|s| - start + 1) / 2 => s[start + 2 * k]) else []
  }

  /** The two strides interleave back to the sequence: element i sits at
      position i / 2 of the stride that starts at i % 2. */
  lemma StrideInterleave<T>(s: seq<T>)
    ensures forall i :: 0 <= i < |s| ==> i / 2 < |Stride(s, i % 2)| && s[i] == Stride(s, i % 2)[i / 2]
  {
    forall i | 0 <= i < |s|
      ensures i / 2 < |Stride(s, i % 2)| && s[i] == Stride(s, i % 2)[i / 2]
    {
      var h, b := i / 2, i % 2;
      assert i == 2 * h + b;
      assert |Stride(s, b)| == (|s| - b + 1) / 2;
    }
  }

  /** An even-length sequence splits into two halves of equal length. */
  lemma StrideHalves<T>(s: seq<T>)
    requires |s| % 2 == 0
    ensures |Stride(s, 0)| == |Stride(s, 1)| == |s| / 2
  {
  }

  /** `(w[0::2].astype(np.uint32) << 16) | w[1::2]` after clamping w to an even
      length; the low word is below 2^16, so the `|` is an addition. */
  function PackPairs(words: seq<Word>): (ps: seq<Packet>)
    ensures |ps| == |words| / 2
    ensures forall i :: 0 <= i < |ps| ==> ps[i] == words[2 * i] as int * 0x1_0000 + words[2 * i + 1]
  {
    var w := Clamp(words, 2);
    var hi, lo := Stride(w, 0), Stride(w, 1);
    seq(|hi|, i requires 0 <= i < |hi| => hi[i] as int * 0x1_0000 + lo[i])
  }

  /** A trailing odd word never reaches a packet. */
  lemma PackPairsIgnoresOddWord(words: seq<Word>, extra: Word)
    requires |words| % 2 == 0
    ensures PackPairs(words + [extra]) == PackPairs(words)
  {
    var a, b := PackPairs(words + [extra]), PackPairs(words);
    assert |a| == |b|;
    forall i | 0 <= i < |a| ensures a[i] == b[i] {
      assert (words + [extra])[2 * i] == words[2 * i];
      assert (words + [extra])[2 * i + 1] == words[2 * i + 1];
    }
  }

  /** `u.view(np.int16)`: the two's-complement reading of a 16-bit pattern. */
  function AsInt16(u: Word): (v: Int16)
    ensures (v - u) % 0x1_0000 == 0
  {
    if u < 0x8000 then u else u - 0x1_0000
  }

  /** `int(np.int16(v).view(np.uint16))`: the 16-bit pattern of a signed value. */
  function AsUint16(v: Int16): (u: Word)
    ensures (u - v) % 0x1_0000 == 0
  {
    if v < 0 then v + 0x1_0000 else v
  }

  /** The two reinterpretations are inverse to each other. */
  lemma Int16RoundTrip(v: Int16, u: Word)
    ensures AsInt16(AsUint16(v)) == v
    ensures AsUint16(AsInt16(u)) == u
  {
  }
}
