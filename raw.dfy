/** Decoding of a RAW acquisition (mode 0). The buffer is a sequence of groups
    of four 16-bit words. The low 12 bits of every word are one signed analog
    sample, one every 2 ns. The high 4 bits of the words at even positions
    carry digital channel 1 and those at odd positions channel 2, four samples
    per nibble, most significant bit first, one sample every 1 ns. */
module RawMode {
  import opened Words
  import opened Bits

  /** `((w & 0x0fff) << 4).view(np.int16) >> 4`: the low 12 bits of w read as
      a two's-complement number. */
  function AnalogValue(w: Word): (v: int)
    ensures v == if w % 0x1000 < 0x800 then w % 0x1000 else w % 0x1000 - 0x1000
    ensures -0x800 <= v < 0x800 && (v - w) % 0x1000 == 0
  {
    var shifted: Word := w % 0x1000 * 16;
    AsInt16(shifted) / 16
  }

  /** A 4-bit digital field. */
  type Nibble = x: int | 0 <= x < 16

  /** An unsigned byte (`np.uint8`). */
  type Byte = x: int | 0 <= x < 256

  /** `(w >> 12) & 0xf`: the digital nibble of a word. */
  function NibbleOf(w: Word): Nibble
  {
    w / 0x1000 % 16
  }

  /** Bit b of a word's nibble is bit 12 + b of the word. */
  lemma NibbleBit(w: Word, b: nat)
    requires b < 4
    ensures Bit(NibbleOf(w), b) == Bit(w, 12 + b)
  {
    BitOfShift(w, 12, b);
    var x := w / Pow2(12);
    assert Pow2(4) == 16;
    BitOfSum(x / 16, x % 16, 4, b);
    assert x == x / 16 * Pow2(4) + x % 16;
  }

  /** `np.unpackbits`: eight booleans per byte, most significant bit first. */
  function UnpackBits(bs: seq<Byte>): (r: seq<bool>)
    ensures |r| == 8 * |bs|
  {
    seq(8 * |bs|, i requires 0 <= i < 8 * |bs| => Bit(bs[i / 8], 7 - i % 8))
  }

  /** Boolean t of byte g's block of an unpacked buffer is bit 7 - t of byte g. */
  lemma UnpackBitsAt(bs: seq<Byte>, g: nat, t: nat)
    requires g < |bs| && t < 8
    ensures UnpackBits(bs)[8 * g + t] == Bit(bs[g], 7 - t)
  {
    assert (8 * g + t) / 8 == g && (8 * g + t) % 8 == t;
  }

  /** `(ws >> 12) & 0xf` element by element. */
  function Nibbles(ws: seq<Word>): (r: seq<Nibble>)
    ensures |r| == |ws| && forall k :: 0 <= k < |r| ==> r[k] == NibbleOf(ws[k])
  {
    seq(|ws|, k requires 0 <= k < |ws| => NibbleOf(ws[k]))
  }

  /** `(hi << 4) | lo` element by element. */
  function JoinNibbles(hi: seq<Nibble>, lo: seq<Nibble>): (r: seq<Byte>)
    requires |hi| == |lo|
    ensures |r| == |hi| && forall k :: 0 <= k < |r| ==> r[k] == hi[k] as int * 16 + lo[k]
  {
    seq(|hi|, k requires 0 <= k < |hi| => (hi[k] as int * 16 + lo[k]) as Byte)
  }

  /** Each element of the nibble array carries bits 15 .. 12 of its word. */
  lemma NibblesBits(ws: seq<Word>)
    ensures forall k, b: nat :: 0 <= k < |ws| && b < 4 ==> Bit(Nibbles(ws)[k], b) == Bit(ws[k], 12 + b)
  {
    forall k, b: nat | 0 <= k < |ws| && b < 4
      ensures Bit(Nibbles(ws)[k], b) == Bit(ws[k], 12 + b)
    {
      NibbleBit(ws[k], b);
    }
  }

  /** `(hi << 4) | lo`: each joined byte has lo's nibble in bits 3:0 and hi's
      nibble in bits 7:4. */
  lemma JoinNibblesBits(hi: seq<Nibble>, lo: seq<Nibble>)
    requires |hi| == |lo|
    ensures forall k, b: nat :: 0 <= k < |hi| && b < 8 ==>
              Bit(JoinNibbles(hi, lo)[k], b) == if b < 4 then Bit(lo[k], b) else Bit(hi[k], b - 4)
  {
    forall k, b: nat | 0 <= k < |hi| && b < 8
      ensures Bit(JoinNibbles(hi, lo)[k], b) == if b < 4 then Bit(lo[k], b) else Bit(hi[k], b - 4)
    {
      JoinedBit(hi[k], lo[k], b);
    }
  }

  /** In a buffer of whole groups of four words, each channel has two words
      per group: an even number in all. */
  lemma QuadStrides(words: seq<Word>, c: nat)
    requires |words| % 4 == 0 && c < 2
    ensures |Stride(words, c)| == |words| / 2 && |words| / 2 % 2 == 0
  {
    var k := |words| / 4;
    assert |words| == 4 * k;
    assert |Stride(words, c)| == (4 * k - c + 1) / 2 == 2 * k;
  }

  /** The bytes `extract_d_samples(data_u16, c)` unpacks: the nibbles of every
      other word from position c, combined pairwise, first nibble high. Byte m
      comes from words c + 4m and c + 4m + 2. */
  function DigitalBytes(words: seq<Word>, c: nat): (r: seq<Byte>)
    requires |words| % 4 == 0 && c < 2
    ensures |r| == |words| / 4
    ensures forall m :: 0 <= m < |r| ==> r[m] == NibbleOf(words[c + 4 * m]) as int * 16 + NibbleOf(words[c + 4 * m + 2])
  {
    QuadStrides(words, c);
    var ws := Stride(words, c);
    var nibbles := Nibbles(ws);
    StrideHalves(nibbles);
    var hi, lo := Stride(nibbles, 0), Stride(nibbles, 1);
    var r := JoinNibbles(hi, lo);
    assert forall m :: 0 <= m < |r| ==> r[m] == NibbleOf(words[c + 4 * m]) as int * 16 + NibbleOf(words[c + 4 * m + 2]) by {
      forall m | 0 <= m < |r|
        ensures r[m] == NibbleOf(words[c + 4 * m]) as int * 16 + NibbleOf(words[c + 4 * m + 2])
      {
        assert hi[m] == nibbles[2 * m] == NibbleOf(ws[2 * m]);
        assert lo[m] == nibbles[2 * m + 1] == NibbleOf(ws[2 * m + 1]);
        assert ws[2 * m] == words[c + 4 * m] && ws[2 * m + 1] == words[c + 4 * m + 2];
      }
    }
    r
  }

  /** `extract_d_samples(data_u16, c)`: the digital bytes of channel c, unpacked. */
  function DigitalSamples(words: seq<Word>, c: nat): (r: seq<bool>)
    requires |words| % 4 == 0 && c < 2
    ensures |r| == 2 * |words|
  {
    UnpackBits(DigitalBytes(words, c))
  }

  /** Bit k of a byte built from two nibbles is a bit of the low nibble for
      k < 4 and of the high nibble above. */
  lemma JoinedBit(hi: Nibble, lo: Nibble, k: nat)
    ensures Bit(hi as int * 16 + lo, k) == if k < 4 then Bit(lo, k) else Bit(hi, k - 4)
  {
    assert Pow2(4) == 16;
    BitOfSum(hi, lo, 4, k);
  }

  /** Bit 7 - t of the byte joined from the nibbles of words wHi and wLo is
      bit 15 - t of wHi for t < 4 and bit 19 - t of wLo for 4 <= t < 8. */
  lemma JoinedWordBit(wHi: Word, wLo: Word, b: int, t: nat)
    requires b == NibbleOf(wHi) as int * 16 + NibbleOf(wLo) && t < 8
    ensures Bit(b, 7 - t) == if t < 4 then Bit(wHi, 15 - t) else Bit(wLo, 19 - t)
  {
    JoinedBit(NibbleOf(wHi), NibbleOf(wLo), 7 - t);
    if t < 4 {
      NibbleBit(wHi, 3 - t);
    } else {
      NibbleBit(wLo, 7 - t);
    }
  }

  /** Byte g of channel c joins the nibbles of words c + 4g and c + 4g + 2. */
  lemma DigitalByteAt(words: seq<Word>, c: nat, g: nat)
    requires |words| % 4 == 0 && c < 2 && g < |words| / 4
    ensures c + 4 * g + 2 < |words|
    ensures DigitalBytes(words, c)[g] == NibbleOf(words[c + 4 * g]) as int * 16 + NibbleOf(words[c + 4 * g + 2])
  {
  }

  /** In an unpacked buffer whose byte g joins the nibbles of wHi and wLo,
      booleans 8g .. 8g + 3 are bits 15 .. 12 of wHi. */
  lemma UnpackedHighNibble(bs: seq<Byte>, g: nat, wHi: Word, wLo: Word, r: nat)
    requires g < |bs| && bs[g] == NibbleOf(wHi) as int * 16 + NibbleOf(wLo) && r < 4
    ensures UnpackBits(bs)[8 * g + r] == Bit(wHi, 15 - r)
  {
    UnpackBitsAt(bs, g, r);
    JoinedWordBit(wHi, wLo, bs[g], r);
  }

  /** In an unpacked buffer whose byte g joins the nibbles of wHi and wLo,
      booleans 8g + 4 .. 8g + 7 are bits 15 .. 12 of wLo. */
  lemma UnpackedLowNibble(bs: seq<Byte>, g: nat, wHi: Word, wLo: Word, r: nat)
    requires g < |bs| && bs[g] == NibbleOf(wHi) as int * 16 + NibbleOf(wLo) && r < 4
    ensures UnpackBits(bs)[8 * g + 4 + r] == Bit(wLo, 15 - r)
  {
    UnpackBitsAt(bs, g, 4 + r);
    JoinedWordBit(wHi, wLo, bs[g], 4 + r);
  }

  /** Samples 8g .. 8g + 3 of channel c are bits 15 .. 12 of word c + 4g. */
  lemma HighNibbleSample(words: seq<Word>, c: nat, g: nat, r: nat)
    requires |words| % 4 == 0 && c < 2 && g < |words| / 4 && r < 4
    ensures c + 4 * g < |words|
    ensures DigitalSamples(words, c)[8 * g + r] == Bit(words[c + 4 * g], 15 - r)
  {
    DigitalByteAt(words, c, g);
    UnpackedHighNibble(DigitalBytes(words, c), g, words[c + 4 * g], words[c + 4 * g + 2], r);
  }

  /** Samples 8g + 4 .. 8g + 7 of channel c are bits 15 .. 12 of word c + 4g + 2. */
  lemma LowNibbleSample(words: seq<Word>, c: nat, g: nat, r: nat)
    requires |words| % 4 == 0 && c < 2 && g < |words| / 4 && r < 4
    ensures c + 4 * g + 2 < |words|
    ensures DigitalSamples(words, c)[8 * g + 4 + r] == Bit(words[c + 4 * g + 2], 15 - r)
  {
    DigitalByteAt(words, c, g);
    UnpackedLowNibble(DigitalBytes(words, c), g, words[c + 4 * g], words[c + 4 * g + 2], r);
  }

  /** Sample group q of a channel lies in byte q / 2 of the buffer. */
  lemma GroupInByte(n: nat, q: nat)
    requires n % 4 == 0 && q < n / 2
    ensures q / 2 < n / 4 && q == 2 * (q / 2) + q % 2
  {
    var k := n / 4;
    assert n == 4 * k;
  }

  /** Digital sample 4q + r of channel c (0 for D1, 1 for D2), for r < 4, is
      bit 15 - r of word c + 2q: each word's top nibble holds four consecutive
      samples of its channel, earliest in bit 15. */
  lemma DigitalSampleAt(words: seq<Word>, c: nat, q: nat, r: nat)
    requires |words| % 4 == 0 && c < 2 && q < |words| / 2 && r < 4
    ensures c + 2 * q < |words|
    ensures DigitalSamples(words, c)[4 * q + r] == Bit(words[c + 2 * q], 15 - r)
  {
    GroupInByte(|words|, q);
    var g := q / 2;
    if q % 2 == 0 {
      HighNibbleSample(words, c, g, r);
      assert 4 * q + r == 8 * g + r && c + 2 * q == c + 4 * g;
    } else {
      LowNibbleSample(words, c, g, r);
      assert 4 * q + r == 8 * g + 4 + r && c + 2 * q == c + 4 * g + 2;
    }
  }

  /** One channel of a RAW decode: sample times (ns) and sample values. */
  datatype Trace<T> = Trace(times: seq<nat>, samples: seq<T>)

  /** The analog channel and the two digital channels of a RAW decode. */
  datatype RawCapture = RawCapture(a: Trace<int>, d1: Trace<bool>, d2: Trace<bool>)

  /** `parse_mode0`: clamp to whole groups of four words, then decode. */
  function ParseRaw(words: seq<Word>): (r: RawCapture)
    ensures var n := |words| - |words| % 4;
            && |r.a.times| == |r.a.samples| == n
            && |r.d1.times| == |r.d1.samples| == |r.d2.times| == |r.d2.samples| == 2 * n
            && (forall i :: 0 <= i < n ==> r.a.times[i] == 2 * i && r.a.samples[i] == AnalogValue(words[i]))
            && (forall j :: 0 <= j < 2 * n ==> r.d1.times[j] == j && r.d2.times[j] == j)
  {
    var w := Clamp(words, 4);
    RawCapture(Trace(seq(|w|, i => 2 * i), seq(|w|, i requires 0 <= i < |w| => AnalogValue(w[i]))),
               Trace(seq(2 * |w|, j => j), DigitalSamples(w, 0)),
               Trace(seq(2 * |w|, j => j), DigitalSamples(w, 1)))
  }

  /** Digital sample 4q + r (r < 4) of D1 and of D2 is bit 15 - r of word 2q
      and of word 2q + 1 respectively. */
  lemma RawDigitalAt(words: seq<Word>, q: nat, r: nat)
    requires q < (|words| - |words| % 4) / 2 && r < 4
    ensures 2 * q + 1 < |words|
    ensures ParseRaw(words).d1.samples[4 * q + r] == Bit(words[2 * q], 15 - r)
    ensures ParseRaw(words).d2.samples[4 * q + r] == Bit(words[2 * q + 1], 15 - r)
  {
    var w := Clamp(words, 4);
    DigitalSampleAt(w, 0, q, r);
    DigitalSampleAt(w, 1, q, r);
  }

  /** Up to three words past the last whole group are dropped and change nothing. */
  lemma ParseRawIgnoresPartialGroup(words: seq<Word>, extra: seq<Word>)
    requires |words| % 4 == 0 && |extra| < 4
    ensures ParseRaw(words + extra) == ParseRaw(words)
  {
    assert Clamp(words + extra, 4) == words;
    assert Clamp(words, 4) == words;
  }
}
