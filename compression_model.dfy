// The Huffman compression model behind the packed integer encoding of the
// data stream (com.unity.transport/Runtime/NetworkCompressionModel.cs).
//
// A 32-bit value is sent as the Huffman code of its bucket (one of 16 symbols)
// followed by the value's offset inside that bucket. Codes are canonical
// Huffman codes stored bit-reversed, because the stream is read least
// significant bit first; the decode table maps the next six stream bits to
// (symbol << 8) | length.

module CompressionModel {
  import opened Words

  const BucketSizes: seq<byte> := [0, 0, 1, 2, 3, 4, 6, 8, 10, 12, 15, 18, 21, 24, 27, 32]
  const BucketOffsets: seq<uint> :=
    [0, 1, 2, 4, 8, 16, 32, 96, 352, 1376, 5472, 38240, 300384, 2397536, 19174752, 153392480]
  /** The alphabet size, the sixteen code lengths, and a two-byte count of extra context models (none). */
  const DefaultModelData: seq<byte> := [16, 2, 3, 3, 3, 4, 4, 4, 5, 5, 5, 6, 6, 6, 6, 6, 6, 0, 0]
  const AlphabetSize: int := 16
  const MaxHuffmanSymbolLength: int := 6

  /** The code lengths of the default model and the bit-reversed canonical codes they yield. */
  const DefaultLengths: seq<byte> := [2, 3, 3, 3, 4, 4, 4, 5, 5, 5, 6, 6, 6, 6, 6, 6]
  const DefaultCodes: seq<byte> := [0, 2, 6, 1, 5, 13, 3, 11, 27, 7, 23, 55, 15, 47, 31, 63]

  datatype NetworkCompressionModel = NetworkCompressionModel(
    encodeTable: seq<ushort>,   // per symbol: (code << 8) | length
    decodeTable: seq<ushort>,   // per 6-bit window: (symbol << 8) | length
    bucketSizes: seq<byte>,
    bucketOffsets: seq<uint>)

  function SymbolLength(model: NetworkCompressionModel, symbol: int): int
    requires 0 <= symbol < |model.encodeTable|
  {
    model.encodeTable[symbol] % 256
  }

  function SymbolCode(model: NetworkCompressionModel, symbol: int): int
    requires 0 <= symbol < |model.encodeTable|
  {
    model.encodeTable[symbol] / 256
  }

  /**
   * What the packed encoding relies on: sixteen symbols with codes of 1..6
   * bits that fit their length, a decode table that maps every 6-bit window
   * starting with a symbol's code to that symbol, and buckets that tile the
   * values from 0 upward, bucket b holding offsets[b] .. offsets[b] + 2^sizes[b] - 1.
   */
  ghost predicate ValidModel(model: NetworkCompressionModel)
  {
    CodesFit(model) && DecodeCovers(model) && BucketsCover(model)
  }

  /** Sixteen symbols, each with a code of 1..6 bits that fits its length. */
  ghost predicate CodesFit(model: NetworkCompressionModel)
  {
    && |model.encodeTable| == AlphabetSize
    && (forall s | 0 <= s < AlphabetSize ::
          1 <= SymbolLength(model, s) <= MaxHuffmanSymbolLength
          && SymbolCode(model, s) < Pow2(SymbolLength(model, s)))
  }

  /** Every 6-bit window that starts with a symbol's code decodes to that symbol and its length. */
  ghost predicate DecodeCovers(model: NetworkCompressionModel)
  {
    && |model.encodeTable| == AlphabetSize
    && |model.decodeTable| == Pow2(MaxHuffmanSymbolLength)
    && (forall s, i | 0 <= s < AlphabetSize && 0 <= i < |model.decodeTable| :: WindowDecodes(model, s, i))
    && (forall i | 0 <= i < |model.decodeTable| :: model.decodeTable[i] % 256 <= MaxHuffmanSymbolLength)
  }

  /** The 6-bit window i, when it starts with symbol s's code, decodes to s and its length. */
  ghost predicate WindowDecodes(model: NetworkCompressionModel, s: int, i: int)
    requires 0 <= s < |model.encodeTable| && 0 <= i < |model.decodeTable|
  {
    i % Pow2(SymbolLength(model, s)) == SymbolCode(model, s) ==> model.decodeTable[i] == s * 256 + SymbolLength(model, s)
  }

  /** Sixteen buckets of at most 32 bits that tile the 32-bit values from 0 upward. */
  ghost predicate BucketsCover(model: NetworkCompressionModel)
  {
    && |model.bucketSizes| == AlphabetSize
    && |model.bucketOffsets| == AlphabetSize
    && model.bucketOffsets[0] == 0
    && (forall b | 0 <= b < AlphabetSize - 1 ::
          model.bucketOffsets[b + 1] == model.bucketOffsets[b] + Pow2(model.bucketSizes[b]))
    && (forall b | 0 <= b < AlphabetSize :: model.bucketSizes[b] <= 32)
    && model.bucketOffsets[AlphabetSize - 1] + Pow2(model.bucketSizes[AlphabetSize - 1]) >= U32
  }

  /** Offsets that each start where the previous bucket ends are strictly increasing. */
  lemma {:induction false} OffsetsIncrease(model: NetworkCompressionModel, i: int, j: int)
    requires BucketsCover(model)
    requires 0 <= i < j < AlphabetSize
    ensures model.bucketOffsets[i] < model.bucketOffsets[j]
    decreases j - i
  {
    assert model.bucketOffsets[j] == model.bucketOffsets[j - 1] + Pow2(model.bucketSizes[j - 1]);
    if i < j - 1 {
      OffsetsIncrease(model, i, j - 1);
    }
  }

  /**
   * Every 32-bit value falls in the bucket CalculateBucket finds: the value
   * lies between that bucket's offset and the offset plus 2^size.
   */
  lemma BucketHolds(model: NetworkCompressionModel, value: uint)
    requires BucketsCover(model)
    ensures var b := BucketFrom(model.bucketOffsets, value, 0);
      0 <= b < AlphabetSize
      && model.bucketOffsets[b] <= value < model.bucketOffsets[b] + Pow2(model.bucketSizes[b])
  {
    forall i, j | 0 <= i < j < |model.bucketOffsets|
      ensures model.bucketOffsets[i] < model.bucketOffsets[j]
    {
      OffsetsIncrease(model, i, j);
    }
    BucketIsLargest(model.bucketOffsets, value);
    var b := BucketFrom(model.bucketOffsets, value, 0);
    if b < AlphabetSize - 1 {
      assert value < model.bucketOffsets[b + 1];
    }
  }

  // ---------------------------------------------------------------------------
  // Buckets

  /** The powers of two of the bucket sizes. */
  lemma BucketPowers()
    ensures Pow2(0) == 1 && Pow2(1) == 2 && Pow2(2) == 4 && Pow2(3) == 8 && Pow2(4) == 16 && Pow2(6) == 64
    ensures Pow2(8) == 256 && Pow2(10) == 1024 && Pow2(12) == 4096 && Pow2(15) == 32768 && Pow2(18) == 262144
    ensures Pow2(21) == 2097152 && Pow2(24) == 16777216 && Pow2(27) == 134217728 && Pow2(32) == U32
  {
    assert Pow2(4) == 16;
    assert Pow2(6) == 64;
    assert Pow2(8) == 256 by { Pow2Add(4, 4); }
    assert Pow2(10) == 1024 by { Pow2Add(6, 4); }
    assert Pow2(12) == 4096 by { Pow2Add(6, 6); }
    assert Pow2(15) == 32768 by { Pow2Add(12, 3); }
    assert Pow2(18) == 262144 by { Pow2Add(12, 6); }
    assert Pow2(21) == 2097152 by { Pow2Add(15, 6); }
    assert Pow2(24) == 16777216 by { Pow2Add(12, 12); }
    assert Pow2(27) == 134217728 by { Pow2Add(24, 3); }
    assert Pow2(32) == U32 by { Pow2Add(24, 8); }
  }

  /** The buckets tile the 32-bit values: each starts where the previous one ends. */
  lemma BucketsTile()
    ensures |BucketSizes| == |BucketOffsets| == AlphabetSize
    ensures BucketOffsets[0] == 0
    ensures forall b | 0 <= b < AlphabetSize - 1 :: BucketOffsets[b + 1] == BucketOffsets[b] + Pow2(BucketSizes[b])
    ensures forall b | 0 <= b < AlphabetSize :: BucketSizes[b] <= 32
    ensures BucketOffsets[AlphabetSize - 1] + Pow2(BucketSizes[AlphabetSize - 1]) >= U32
  {
    BucketPowers();
    forall b | 0 <= b < AlphabetSize - 1
      ensures BucketOffsets[b + 1] == BucketOffsets[b] + Pow2(BucketSizes[b])
    {
      assert b == 0 || b == 1 || b == 2 || b == 3 || b == 4 || b == 5 || b == 6 || b == 7
        || b == 8 || b == 9 || b == 10 || b == 11 || b == 12 || b == 13 || b == 14;
    }
  }

  /**
   * The bucket the upward scan of CalculateBucket stops at when it starts
   * from bucket b: the first bucket at or after b whose successor's offset
   * exceeds value.
   */
  function BucketFrom(offsets: seq<uint>, value: uint, b: nat): (bucket: nat)
    requires b < |offsets| || b == 0
    ensures b <= bucket && (bucket < |offsets| || bucket == 0)
    ensures forall j | b < j <= bucket :: offsets[j] <= value
    ensures bucket + 1 < |offsets| ==> value < offsets[bucket + 1]
    decreases |offsets| - b
  {
    if b + 1 < |offsets| && value >= offsets[b + 1] then BucketFrom(offsets, value, b + 1) else b
  }

  /** Scans the bucket offsets upward for the bucket a value falls in. */
  method CalculateBucket(model: NetworkCompressionModel, value: uint) returns (bucketIndex: int)
    ensures bucketIndex == BucketFrom(model.bucketOffsets, value, 0)
  {
    bucketIndex := 0;
    while bucketIndex + 1 < |model.bucketOffsets| && value >= model.bucketOffsets[bucketIndex + 1]
      invariant 0 <= bucketIndex && (bucketIndex < |model.bucketOffsets| || bucketIndex == 0)
      invariant BucketFrom(model.bucketOffsets, value, bucketIndex) == BucketFrom(model.bucketOffsets, value, 0)
      decreases |model.bucketOffsets| - bucketIndex
    {
      bucketIndex := bucketIndex + 1;
    }
  }

  /** With increasing offsets starting at 0, the scan finds the largest bucket whose offset is at most value. */
  lemma BucketIsLargest(offsets: seq<uint>, value: uint)
    requires |offsets| >= 1 && offsets[0] == 0
    requires forall i, j | 0 <= i < j < |offsets| :: offsets[i] < offsets[j]
    ensures var b := BucketFrom(offsets, value, 0);
      0 <= b < |offsets| && offsets[b] <= value && forall j | b < j < |offsets| :: value < offsets[j]
  {
  }

  // ---------------------------------------------------------------------------
  // Bit reversal

  /** The 32-bit word with its bits in the opposite order: the swap cascade of ReverseBits. */
  function Reverse32(value: bv32): bv32
  {
    var v1 := ((value & 0x5555_5555) << 1) | ((value & 0xAAAA_AAAA) >> 1);
    var v2 := ((v1 & 0x3333_3333) << 2) | ((v1 & 0xCCCC_CCCC) >> 2);
    var v3 := ((v2 & 0x0F0F_0F0F) << 4) | ((v2 & 0xF0F0_F0F0) >> 4);
    var v4 := ((v3 & 0x00FF_00FF) << 8) | ((v3 & 0xFF00_FF00) >> 8);
    (v4 << 16) | (v4 >> 16)
  }

  /** Bit i of a 32-bit word. */
  function BitAt(x: bv32, i: bv32): bv32
    requires i < 32
  {
    (x >> i) & 1
  }

  lemma Reverse32Bit(value: bv32, i: bv32)
    requires i < 32
    ensures BitAt(Reverse32(value), i) == BitAt(value, 31 - i)
  {
  }

  lemma ShiftBit(x: bv32, s: bv32, i: bv32)
    requires s < 32 && i < 32 - s
    ensures BitAt(x >> s, i) == BitAt(x, i + s)
  {
  }

  /**
   * The low numBits bits of value in reverse order. The shift count is taken
   * modulo 32, as C# does for a 32-bit shift.
   */
  function ReverseBits(value: bv32, numBits: bv32): bv32
  {
    Reverse32(value) >> ((32 - numBits) & 31)
  }

  /** Only the low numBits bits of the result can be set. */
  lemma ReverseBitsFits(value: bv32, numBits: bv32)
    requires 1 <= numBits < 32
    ensures ReverseBits(value, numBits) >> numBits == 0
  {
  }

  /** Bit i of ReverseBits(value, n) is bit n - 1 - i of value. */
  lemma ReverseBitsReverses(value: bv32, numBits: bv32, i: bv32)
    requires 1 <= numBits <= 32 && i < numBits
    ensures BitAt(ReverseBits(value, numBits), i) == BitAt(value, numBits - 1 - i)
  {
    var shift := (32 - numBits) & 31;
    assert shift == 32 - numBits || numBits == 32;
    ShiftBit(Reverse32(value), shift, i);
    Reverse32Bit(value, i + shift);
  }

  /**
   * Bit reversal of the low n bits on integers: the least significant bit of
   * v becomes bit n - 1 of the result.
   */
  function RevInt(v: int, n: nat): (r: int)
    ensures 0 <= r < Pow2(n)
    decreases n
  {
    if n == 0 then 0 else (if v % 2 == 1 then Pow2(n - 1) else 0) + RevInt(v / 2, n - 1)
  }

  lemma ModAddMultiple(a: int, m: int, q: int)
    requires m > 0
    ensures (q * m + a) % m == a % m
  {
    DivUnique(q * m + a, m, q + a / m, a % m);
  }

  lemma DivDiv(v: nat, a: nat, b: nat)
    ensures v / Pow2(a) / Pow2(b) == v / Pow2(a + b)
  {
    Pow2Add(a, b);
    DivDivInt(v, Pow2(a), Pow2(b));
  }

  /** The low k bits of the reversal of n bits are the reversal of the top k of those n bits. */
  lemma {:induction false} RevIntLowBits(v: nat, n: nat, k: nat)
    requires k <= n
    ensures RevInt(v, n) % Pow2(k) == RevInt(v / Pow2(n - k), k)
  {
    if k == n {
      DivUnique(RevInt(v, n), Pow2(n), 0, RevInt(v, n));
      assert Pow2(n - k) == 1 && v / 1 == v;
    } else {
      var rest := RevInt(v / 2, n - 1);
      var pk := Pow2(k);
      var w := v / 2 / Pow2(n - 1 - k);
      RevIntLowBits(v / 2, n - 1, k);
      assert rest % pk == RevInt(w, k);
      DivDiv(v, 1, n - 1 - k);
      assert Pow2(1) == 2 && 1 + (n - 1 - k) == n - k;
      assert w == v / Pow2(n - k);
      RevIntTopBit(v, n, k, rest);
    }
  }

  /** Adding the top bit of an n-bit reversal does not change its low k bits. */
  lemma RevIntTopBit(v: nat, n: nat, k: nat, rest: nat)
    requires k < n && rest == RevInt(v / 2, n - 1)
    ensures RevInt(v, n) % Pow2(k) == rest % Pow2(k)
  {
    var pk := Pow2(k);
    if v % 2 == 1 {
      var q := Pow2(n - 1 - k);
      Pow2Add(k, n - 1 - k);
      assert k + (n - 1 - k) == n - 1;
      assert Pow2(n - 1) == pk * q;
      ModAddMultiple(rest, pk, q);
      assert RevInt(v, n) == q * pk + rest;
    } else {
      assert RevInt(v, n) == rest;
    }
  }

  /** Reversal is one-to-one on n-bit values. */
  lemma {:induction false} RevIntInjective(v: int, w: int, n: nat)
    requires 0 <= v < Pow2(n) && 0 <= w < Pow2(n)
    requires RevInt(v, n) == RevInt(w, n)
    ensures v == w
  {
    if n > 0 {
      var rv, rw := RevInt(v / 2, n - 1), RevInt(w / 2, n - 1);
      assert v % 2 == w % 2 && rv == rw;
      RevIntInjective(v / 2, w / 2, n - 1);
    }
  }

  // ---------------------------------------------------------------------------
  // Canonical Huffman codes

  /** Number of symbols among the first n whose code length is len. */
  function CountLength(lengths: seq<byte>, len: int, n: int): (count: int)
    requires 0 <= n <= |lengths|
    ensures 0 <= count <= n
    decreases n
  {
    if n == 0 then 0 else CountLength(lengths, len, n - 1) + (if lengths[n - 1] == len then 1 else 0)
  }

  lemma {:induction false} CountLengthGrows(lengths: seq<byte>, len: int, m: nat, n: nat)
    requires m <= n <= |lengths|
    ensures CountLength(lengths, len, m) <= CountLength(lengths, len, n)
    ensures m < n && lengths[m] == len ==> CountLength(lengths, len, m) < CountLength(lengths, len, n)
  {
    if m < n {
      CountLengthGrows(lengths, len, m, n - 1);
    }
  }

  /**
   * The first code word of length len: codes are handed out shortest first
   * and in symbol order within a length, and moving to the next length
   * appends a 0 bit to the next free code word.
   */
  function FirstCode(lengths: seq<byte>, len: int): (code: int)
    requires len >= 1
    ensures code >= 0
    decreases len
  {
    if len == 1 then 0 else 2 * (FirstCode(lengths, len - 1) + CountLength(lengths, len - 1, |lengths|))
  }

  /** The canonical code word of a symbol, most significant bit first. */
  function CanonicalCode(lengths: seq<byte>, symbol: int): int
    requires 0 <= symbol < |lengths| && lengths[symbol] >= 1
  {
    FirstCode(lengths, lengths[symbol]) + CountLength(lengths, lengths[symbol], symbol)
  }

  /** Kraft's inequality, in the form canonical codes need: all words of length maxLen fit in maxLen bits. */
  ghost predicate Fits(lengths: seq<byte>, maxLen: nat)
  {
    maxLen >= 1 && FirstCode(lengths, maxLen) + CountLength(lengths, maxLen, |lengths|) <= Pow2(maxLen)
  }

  /** Later lengths start after every code of an earlier length, extended by zero bits. */
  lemma {:induction false} FirstCodeGrows(lengths: seq<byte>, a: nat, b: nat)
    requires 1 <= a < b
    ensures FirstCode(lengths, b) >= (FirstCode(lengths, a) + CountLength(lengths, a, |lengths|)) * Pow2(b - a)
  {
    var x := FirstCode(lengths, a) + CountLength(lengths, a, |lengths|);
    if b == a + 1 {
      assert Pow2(1) == 2;
    } else {
      FirstCodeGrows(lengths, a, b - 1);
      var y := Pow2(b - 1 - a);
      assert Pow2(b - a) == 2 * y;
      assert FirstCode(lengths, b) >= 2 * FirstCode(lengths, b - 1);
      MulDouble(x, y);
    }
  }

  lemma CanonicalCodeBelowNext(lengths: seq<byte>, s: nat)
    requires s < |lengths| && lengths[s] >= 1
    ensures CanonicalCode(lengths, s) < FirstCode(lengths, lengths[s]) + CountLength(lengths, lengths[s], |lengths|)
  {
    CountLengthGrows(lengths, lengths[s], s, |lengths|);
  }

  /** Under Kraft's inequality every canonical code word fits in its length. */
  lemma CanonicalCodeFits(lengths: seq<byte>, maxLen: nat, s: nat)
    requires Fits(lengths, maxLen)
    requires s < |lengths| && 1 <= lengths[s] <= maxLen
    ensures CanonicalCode(lengths, s) < Pow2(lengths[s])
  {
    var len := lengths[s];
    var x := FirstCode(lengths, len) + CountLength(lengths, len, |lengths|);
    CanonicalCodeBelowNext(lengths, s);
    if len < maxLen {
      FirstCodeGrows(lengths, len, maxLen);
      Pow2Add(len, maxLen - len);
      var p := Pow2(maxLen - len);
      assert x * p <= Pow2(len) * p;
      MulCancelLe(x, Pow2(len), p);
    }
  }

  /**
   * Canonical codes are prefix-free: no code word is the beginning of a
   * longer (or equally long) code word of another symbol.
   */
  lemma CanonicalPrefixFree(lengths: seq<byte>, s: nat, t: nat)
    requires s < |lengths| && t < |lengths| && s != t
    requires 1 <= lengths[s] <= lengths[t]
    ensures CanonicalCode(lengths, t) / Pow2(lengths[t] - lengths[s]) != CanonicalCode(lengths, s)
  {
    var ls, lt := lengths[s], lengths[t];
    if ls == lt {
      assert Pow2(lt - ls) == 1;
      if s < t {
        CountLengthGrows(lengths, ls, s, t);
      } else {
        CountLengthGrows(lengths, ls, t, s);
      }
    } else {
      var p := Pow2(lt - ls);
      CanonicalCodeBelowNext(lengths, s);
      FirstCodeGrows(lengths, ls, lt);
      var cs := CanonicalCode(lengths, s);
      var ct := CanonicalCode(lengths, t);
      MulMonotone(cs + 1, FirstCode(lengths, ls) + CountLength(lengths, ls, |lengths|), p);
      assert ct >= (cs + 1) * p;
      DivAtLeast(ct, cs + 1, p);
    }
  }

  /** The `(byte)ReverseBits(code, length)` stored for a symbol. */
  function StoredCode(code: uint, length: byte): byte
  {
    ToU8(ReverseBits(code as bv32, length as bv32) as int)
  }

  /** The codes as stored: the canonical code reversed in its length, kept to a byte. */
  function HuffmanCode(lengths: seq<byte>, symbol: int): byte
    requires 0 <= symbol < |lengths| && lengths[symbol] >= 1
  {
    StoredCode(ToU32(CanonicalCode(lengths, symbol)), lengths[symbol])
  }

  /**
   * Reversed canonical codes of lengths that satisfy Kraft's inequality have
   * disjoint decode classes: the reversed code of the shorter symbol is never
   * the low part of the reversed code of the other.
   */
  lemma ReversedCanonicalDisjoint(lengths: seq<byte>, maxLen: nat, s: nat, t: nat)
    requires Fits(lengths, maxLen)
    requires s < |lengths| && t < |lengths| && s != t
    requires 1 <= lengths[s] <= lengths[t] <= maxLen
    ensures RevInt(CanonicalCode(lengths, t), lengths[t]) % Pow2(lengths[s])
      != RevInt(CanonicalCode(lengths, s), lengths[s])
  {
    var ls, lt := lengths[s], lengths[t];
    var cs, ct := CanonicalCode(lengths, s), CanonicalCode(lengths, t);
    CanonicalCodeFits(lengths, maxLen, s);
    CanonicalCodeFits(lengths, maxLen, t);
    RevIntLowBits(ct, lt, ls);
    CanonicalPrefixFree(lengths, s, t);
    var top := ct / Pow2(lt - ls);
    TopBitsFit(ct, lt, ls);
    if RevInt(top, ls) == RevInt(cs, ls) {
      RevIntInjective(top, cs, ls);
    }
  }

  /** The top k of n bits of an n-bit value form a k-bit value. */
  lemma TopBitsFit(c: int, n: nat, k: nat)
    requires 0 <= c < Pow2(n) && k <= n
    ensures 0 <= c / Pow2(n - k) < Pow2(k)
  {
    var p := Pow2(n - k);
    Pow2Add(k, n - k);
    assert k + (n - k) == n;
    assert c < Pow2(k) * p;
    DivBelow(c, Pow2(k), p);
    DivAtLeast(c, 0, p);
  }

  /**
   * The first-length-check of GenerateHuffmanDecodeTable: the first symbol
   * from k on whose length exceeds maxLen, or n when there is none.
   */
  function FirstTooLong(lengths: seq<byte>, maxLen: int, k: nat, n: nat): (r: nat)
    requires n <= |lengths|
    ensures (k <= n ==> k <= r <= n) && (k > n ==> r == n)
    ensures forall j | k <= j < r :: lengths[j] <= maxLen
    ensures r < n ==> lengths[r] > maxLen
    decreases n - k
  {
    if k >= n then n else if lengths[k] > maxLen then k else FirstTooLong(lengths, maxLen, k + 1, n)
  }

  /**
   * Builds bit-reversed canonical Huffman codes from code lengths. Fails
   * (the source throws) on an alphabet above 256 symbols, a maximum length
   * above 8, or a symbol longer than the maximum; the codes are then untouched.
   * Symbols of length 0 get no code.
   */
  method GenerateHuffmanCodes(symbolCodes: array<byte>, symbolLengths: seq<byte>, alphabetSize: int, maxCodeLength: int)
    returns (ok: bool)
    requires 0 <= alphabetSize <= |symbolLengths| && alphabetSize <= symbolCodes.Length
    requires 0 <= maxCodeLength
    modifies symbolCodes
    ensures ok <==> (alphabetSize <= 256 && maxCodeLength <= 8
      && forall s | 0 <= s < alphabetSize :: symbolLengths[s] <= maxCodeLength)
    ensures !ok ==> symbolCodes[..] == old(symbolCodes[..])
    ensures ok && alphabetSize < 256 ==> forall s | 0 <= s < symbolCodes.Length ::
      symbolCodes[s] == if s < alphabetSize && symbolLengths[s] >= 1
        then HuffmanCode(symbolLengths[..alphabetSize], s) else old(symbolCodes[s])
  {
    if alphabetSize > 256 || maxCodeLength > 8 {
      return false;
    }
    var lengthCounts, symbolList;
    ok, lengthCounts, symbolList := ListSymbolsByLength(symbolLengths[..alphabetSize], maxCodeLength);
    if ok {
      AssignCodes(symbolCodes, symbolLengths[..alphabetSize], maxCodeLength, lengthCounts, symbolList);
    }
  }

  /**
   * The first loop of GenerateHuffmanCodes: per code length, the symbols of
   * that length in increasing order. Fails when a length exceeds maxCodeLength.
   */
  method ListSymbolsByLength(lens: seq<byte>, maxCodeLength: int)
    returns (ok: bool, lengthCounts: array<byte>, symbolList: array2<byte>)
    requires |lens| <= 256 && 0 <= maxCodeLength <= 8
    ensures fresh(lengthCounts) && fresh(symbolList)
    ensures ok <==> forall s | 0 <= s < |lens| :: lens[s] <= maxCodeLength
    ensures ok ==> SymbolsListed(lens, maxCodeLength, lengthCounts, symbolList)
  {
    lengthCounts := new byte[maxCodeLength + 1](_ => 0);
    symbolList := new byte[maxCodeLength + 1, |lens|];
    var symbol := 0;
    while symbol < |lens|
      modifies lengthCounts, symbolList
      invariant 0 <= symbol <= |lens|
      invariant forall s | 0 <= s < symbol :: lens[s] <= maxCodeLength
      invariant forall len | 0 <= len <= maxCodeLength :: lengthCounts[len] <= symbol
      invariant forall len, j | 0 <= len <= maxCodeLength && 0 <= j < lengthCounts[len] ::
        symbolList[len, j] < symbol && lens[symbolList[len, j]] == len
      invariant |lens| < 256 ==> forall len | 0 <= len <= maxCodeLength ::
        lengthCounts[len] == CountLength(lens, len, symbol)
      invariant |lens| < 256 ==> forall len, j | 0 <= len <= maxCodeLength && 0 <= j < lengthCounts[len] ::
        CountLength(lens, len, symbolList[len, j]) == j
    {
      var length := lens[symbol];
      if length > maxCodeLength {
        return false, lengthCounts, symbolList;
      }
      symbolList[length, lengthCounts[length]] := symbol;
      lengthCounts[length] := ToU8(lengthCounts[length] as int + 1);
      symbol := symbol + 1;
    }
    ok := true;
  }

  /**
   * What the first loop leaves behind: every length is at most
   * maxCodeLength, and row len of symbolList lists
   * lengthCounts[len] symbols, all of length len; when the byte counters
   * cannot wrap (fewer than 256 symbols) the counts are exact and entry j is
   * the j-th symbol of that length.
   */
  ghost predicate SymbolsListed(lens: seq<byte>, maxCodeLength: int, lengthCounts: array<byte>, symbolList: array2<byte>)
    reads lengthCounts, symbolList
  {
    && 0 <= maxCodeLength
    && (forall s | 0 <= s < |lens| :: lens[s] <= maxCodeLength)
    && lengthCounts.Length == maxCodeLength + 1
    && symbolList.Length0 == maxCodeLength + 1 && symbolList.Length1 == |lens|
    && (forall len | 0 <= len <= maxCodeLength :: lengthCounts[len] <= |lens|)
    && (forall len, j | 0 <= len <= maxCodeLength && 0 <= j < lengthCounts[len] ::
          symbolList[len, j] < |lens| && lens[symbolList[len, j]] == len)
    && (|lens| < 256 ==> forall len | 0 <= len <= maxCodeLength ::
          lengthCounts[len] == CountLength(lens, len, |lens|))
    && (|lens| < 256 ==> forall len, j | 0 <= len <= maxCodeLength && 0 <= j < lengthCounts[len] ::
          CountLength(lens, len, symbolList[len, j]) == j)
  }

  /**
   * The second loop of GenerateHuffmanCodes: lengths from 1 up, each symbol
   * of the length in turn receives the next code word, bit-reversed; moving
   * to the next length doubles the next code word.
   */
  method AssignCodes(symbolCodes: array<byte>, lens: seq<byte>, maxCodeLength: int,
                     lengthCounts: array<byte>, symbolList: array2<byte>)
    requires |lens| <= symbolCodes.Length && |lens| <= 256 && maxCodeLength <= 8
    requires SymbolsListed(lens, maxCodeLength, lengthCounts, symbolList)
    requires symbolCodes != lengthCounts
    modifies symbolCodes
    ensures |lens| < 256 ==> forall s | 0 <= s < symbolCodes.Length ::
      symbolCodes[s] == if s < |lens| && lens[s] >= 1 then HuffmanCode(lens, s) else old(symbolCodes[s])
  {
    var nextCodeWord: uint := 0;
    var length := 1;
    while length <= maxCodeLength
      modifies symbolCodes
      invariant 1 <= length <= maxCodeLength + 1
      invariant |lens| < 256 ==> nextCodeWord == FirstCode(lens, length)
      invariant |lens| < 256 ==> forall s | 0 <= s < symbolCodes.Length ::
        symbolCodes[s] == if s < |lens| && 1 <= lens[s] < length
          then HuffmanCode(lens, s) else old(symbolCodes[s])
    {
      nextCodeWord := AssignLength(symbolCodes, lens, maxCodeLength, lengthCounts, symbolList, length, nextCodeWord);
      if |lens| < 256 {
        FirstCodeSmall(lens, length);
      }
      nextCodeWord := ToU32(nextCodeWord * 2);
      length := length + 1;
    }
  }

  /** The inner loop of the second loop: codes for the symbols of one length. */
  method AssignLength(symbolCodes: array<byte>, lens: seq<byte>, maxCodeLength: int,
                      lengthCounts: array<byte>, symbolList: array2<byte>, length: int, first: uint)
    returns (nextCodeWord: uint)
    requires |lens| <= symbolCodes.Length && |lens| <= 256 && 1 <= length <= maxCodeLength <= 8
    requires SymbolsListed(lens, maxCodeLength, lengthCounts, symbolList)
    requires symbolCodes != lengthCounts
    requires |lens| < 256 ==> first == FirstCode(lens, length)
    modifies symbolCodes
    ensures |lens| < 256 ==> nextCodeWord == FirstCode(lens, length) + CountLength(lens, length, |lens|)
    ensures |lens| < 256 ==> forall s | 0 <= s < symbolCodes.Length ::
      symbolCodes[s] == if s < |lens| && lens[s] == length then HuffmanCode(lens, s) else old(symbolCodes[s])
  {
    nextCodeWord := first;
    var lengthCount := lengthCounts[length];
    var i := 0;
    while i < lengthCount
      modifies symbolCodes
      invariant 0 <= i <= lengthCount
      invariant |lens| < 256 ==> nextCodeWord == FirstCode(lens, length) + i
      invariant |lens| < 256 ==> forall s | 0 <= s < symbolCodes.Length ::
        symbolCodes[s] == if s < |lens| && lens[s] == length && CountLength(lens, length, s) < i
          then HuffmanCode(lens, s) else old(symbolCodes[s])
    {
      var symbol := symbolList[length, i];
      if lens[symbol] != length {
        assert false;
      }
      var code := StoredCode(nextCodeWord, length);
      if |lens| < 256 {
        FirstCodeSmall(lens, length);
        assert ToU32(CanonicalCode(lens, symbol)) == nextCodeWord;
        assert code == HuffmanCode(lens, symbol);
        forall s | 0 <= s < |lens| && s != symbol && lens[s] == length
          ensures CountLength(lens, length, s) != i
        {
          CountLengthInjective(lens, length, s, symbol);
        }
      }
      symbolCodes[symbol] := code;
      nextCodeWord := ToU32(nextCodeWord + 1);
      i := i + 1;
    }
    if |lens| < 256 {
      forall s | 0 <= s < |lens| && lens[s] == length
        ensures CountLength(lens, length, s) < lengthCount
      {
        CountLengthGrows(lens, length, s, |lens|);
      }
    }
  }

  lemma CountLengthInjective(lengths: seq<byte>, len: int, s: int, t: int)
    requires 0 <= s < |lengths| && 0 <= t < |lengths| && s != t
    requires lengths[s] == len && lengths[t] == len
    ensures CountLength(lengths, len, s) != CountLength(lengths, len, t)
  {
    if s < t {
      CountLengthGrows(lengths, len, s, t);
    } else {
      CountLengthGrows(lengths, len, t, s);
    }
  }

  /** With fewer than 256 symbols and lengths up to 8, the code words stay below 2^16. */
  lemma FirstCodeSmall(lengths: seq<byte>, len: int)
    requires |lengths| < 256 && 1 <= len <= 8
    ensures FirstCode(lengths, len) + CountLength(lengths, len, |lengths|) <= 0x1_0000
  {
    FirstCodeBound(lengths, len);
    Pow2Monotone(len, 8);
    assert Pow2(8) == 256;
    MulMonotone(|lengths|, 256, Pow2(len) - 1);
    MulMonotone(Pow2(len) - 1, 256, 256);
  }

  /** The next code word never leaves 32 bits: at most n * (2^len - 1) words precede length len + 1. */
  lemma {:induction false} FirstCodeBound(lengths: seq<byte>, len: nat)
    requires len >= 1
    ensures FirstCode(lengths, len) + CountLength(lengths, len, |lengths|) <= |lengths| * (Pow2(len) - 1)
  {
    var n := |lengths|;
    if len > 1 {
      FirstCodeBound(lengths, len - 1);
      var prev := FirstCode(lengths, len - 1) + CountLength(lengths, len - 1, n);
      assert FirstCode(lengths, len) == 2 * prev;
      assert Pow2(len) == 2 * Pow2(len - 1);
      DoubleBound(prev, CountLength(lengths, len, n), n, Pow2(len - 1));
    }
  }

  lemma DoubleBound(prev: int, count: int, n: int, p: int)
    requires prev <= n * (p - 1) && count <= n
    ensures 2 * prev + count <= n * (2 * p - 1)
  {
  }

  // ---------------------------------------------------------------------
  // Decode table

  /** Whether the do-while loop for a code of this length writes entry i: code, code + 2^length, ... below maxCode. */
  ghost predicate Covers(code: int, length: nat, maxCode: int, i: int)
  {
    code <= i < maxCode && (i - code) % Pow2(length) == 0
  }

  /** Entry i of the decode table after the first n symbols were processed: the last one whose code covers i. */
  ghost function DecodeEntry(lens: seq<byte>, codes: seq<byte>, maxCode: int, n: int, i: int, initial: int): int
    requires 0 <= n <= |lens| && n <= |codes|
    decreases n
  {
    if n == 0 then initial
    else if lens[n - 1] > 0 && Covers(codes[n - 1], lens[n - 1], maxCode, i) then (n - 1) * 256 + lens[n - 1]
    else DecodeEntry(lens, codes, maxCode, n - 1, i, initial)
  }

  /** No stored code is a low-bit prefix of another: the decode classes of two symbols never meet. */
  ghost predicate ClassesDisjoint(lens: seq<byte>, codes: seq<byte>)
    requires |lens| <= |codes|
  {
    forall s, t | 0 <= s < |lens| && 0 <= t < |lens| && s != t && 1 <= lens[s] <= lens[t] ::
      codes[t] % Pow2(lens[s]) != codes[s]
  }

  lemma ResidueZero(d: int, m: int)
    requires m > 0 && 0 <= d < m && d % m == 0
    ensures d == 0
  {
    DivUnique(d, m, 0, d);
  }

  lemma MultipleMod(k: int, m: int)
    requires m > 0
    ensures (k * m) % m == 0
  {
    DivUnique(k * m, m, k, 0);
  }

  /** Two values of the same class modulo m less than m apart are equal. */
  lemma SameClassClose(a: int, b: int, m: int)
    requires m > 0 && a % m == 0 && b % m == 0 && b <= a < b + m
    ensures a == b
  {
    var q := b / m;
    assert b == m * q;
    DivUnique(a, m, q, a - b);
  }

  /** An index at or above code is in code's class modulo m exactly when its residue is code. */
  lemma ClassResidue(code: int, m: int, i: int)
    requires m > 0 && 0 <= code < m && i >= 0
    ensures (code <= i && (i - code) % m == 0) <==> i % m == code
  {
    if code <= i && (i - code) % m == 0 {
      var q := (i - code) / m;
      assert i - code == m * q;
      DivUnique(i, m, q, code);
    }
    if i % m == code {
      var q := i / m;
      assert i == m * q + code;
      DivAtLeast(i, 0, m);
      assert q >= 0;
      DivUnique(i - code, m, q, 0);
    }
  }

  /** Below maxCode, the do-while loop reaches exactly the indices whose low bits are the code. */
  lemma CoversResidue(code: int, length: nat, maxCode: int, i: int)
    requires 0 <= code < Pow2(length) && 0 <= i < maxCode
    ensures Covers(code, length, maxCode, i) <==> i % Pow2(length) == code
  {
    ClassResidue(code, Pow2(length), i);
  }

  /** Reducing modulo pa * k and then modulo pa is reducing modulo pa. */
  lemma ModMod(i: int, pa: int, k: int)
    requires i >= 0 && pa > 0 && k > 0
    ensures (i % (pa * k)) % pa == i % pa
  {
    var pb := pa * k;
    MulAtLeast(pa, k);
    var q, r := i / pb, i % pb;
    var q', r' := r / pa, r % pa;
    assert i == pb * q + r;
    assert r == pa * q' + r';
    assert pb * q == pa * (k * q);
    assert i == pa * (k * q + q') + r';
    DivUnique(i, pa, k * q + q', r');
  }

  /** The low a bits of the low b bits are the low a bits, for a <= b. */
  lemma ModModPow2(i: int, a: nat, b: nat)
    requires a <= b && i >= 0
    ensures (i % Pow2(b)) % Pow2(a) == i % Pow2(a)
  {
    Pow2Add(a, b - a);
    ModMod(i, Pow2(a), Pow2(b - a));
  }

  /**
   * With disjoint classes, the decode table entry at any index whose low
   * bits are a symbol's stored code names that symbol and its length.
   */
  lemma {:induction false} DecodeEntryFinds(lens: seq<byte>, codes: seq<byte>, maxLen: nat, n: int, s: int, i: int, initial: int)
    requires |lens| == |codes| && 0 <= n <= |lens|
    requires forall t | 0 <= t < |lens| && lens[t] >= 1 :: codes[t] < Pow2(lens[t])
    requires ClassesDisjoint(lens, codes)
    requires 0 <= s < n && lens[s] >= 1
    requires 0 <= i < Pow2(maxLen) && i % Pow2(lens[s]) == codes[s]
    ensures DecodeEntry(lens, codes, Pow2(maxLen), n, i, initial) == s * 256 + lens[s]
    decreases n
  {
    var t := n - 1;
    if t == s {
      CoversResidue(codes[s], lens[s], Pow2(maxLen), i);
    } else {
      if lens[t] >= 1 {
        CoversResidue(codes[t], lens[t], Pow2(maxLen), i);
        if lens[s] <= lens[t] {
          ModModPow2(i, lens[s] as nat, lens[t] as nat);
        } else {
          ModModPow2(i, lens[t] as nat, lens[s] as nat);
        }
      }
      DecodeEntryFinds(lens, codes, maxLen, n - 1, s, i, initial);
    }
  }

  /** Every decode table entry, covered or left at a short initial value, holds a length of at most maxLen. */
  lemma {:induction false} DecodeEntryShort(lens: seq<byte>, codes: seq<byte>, maxCode: int, maxLen: int, n: int, i: int, initial: int)
    requires 0 <= n <= |lens| && n <= |codes| && n <= 256
    requires forall t | 0 <= t < n :: lens[t] <= maxLen
    requires 0 <= initial < 256 && initial <= maxLen
    ensures DecodeEntry(lens, codes, maxCode, n, i, initial) % 256 <= maxLen
    decreases n
  {
    if n > 0 {
      if lens[n - 1] > 0 && Covers(codes[n - 1], lens[n - 1], maxCode, i) {
        DivUnique((n - 1) * 256 + lens[n - 1], 256, n - 1, lens[n - 1] as int);
      } else {
        DecodeEntryShort(lens, codes, maxCode, maxLen, n - 1, i, initial);
      }
    }
  }

  /** The do-while loop for one symbol: stores entry at code, code + 2^length, ... below maxCode. */
  method WriteDecodeEntries(decodeTable: array<ushort>, code: int, length: int, maxCode: int, entry: ushort)
    requires 1 <= length && 0 <= code < maxCode <= decodeTable.Length
    modifies decodeTable
    ensures forall i | 0 <= i < decodeTable.Length ::
      decodeTable[i] == if Covers(code, length, maxCode, i) then entry else old(decodeTable[i])
  {
    var step := Pow2(length);
    var c := code;
    decodeTable[c] := entry;
    c := c + step;
    ghost var k := 1;
    MultipleMod(0, step);
    assert Covers(code, length, maxCode, code);
    forall i | 0 <= i < decodeTable.Length && Covers(code, length, maxCode, i) && i < c
      ensures i == code
    {
      ResidueZero(i - code, step);
    }
    while c < maxCode
      invariant k >= 1 && c == code + k * step
      invariant forall i | 0 <= i < decodeTable.Length ::
        decodeTable[i] == if Covers(code, length, maxCode, i) && i < c then entry else old(decodeTable[i])
      decreases maxCode - c
    {
      MultipleMod(k, step);
      assert (c - code) % step == 0;
      assert Covers(code, length, maxCode, c);
      ghost var before := decodeTable[..];
      decodeTable[c] := entry;
      forall i | 0 <= i < decodeTable.Length
        ensures decodeTable[i] == if Covers(code, length, maxCode, i) && i < c + step then entry else old(decodeTable[i])
      {
        if i == c {
        } else if i < c {
          assert decodeTable[i] == before[i];
        } else if Covers(code, length, maxCode, i) && i < c + step {
          SameClassClose(i - code, c - code, step);
        } else {
          assert decodeTable[i] == before[i];
        }
      }
      c := c + step;
      k := k + 1;
    }
  }

  /**
   * Fills the decode table: each entry whose low bits are a symbol's
   * stored code holds (symbol << 8) | length. Fails (the source throws) on
   * an alphabet above 256 symbols, a maximum length above 8, or a symbol
   * longer than the maximum, after having filled the entries of the
   * symbols before it.
   */
  method GenerateHuffmanDecodeTable(decodeTable: array<ushort>, symbolLengths: seq<byte>, symbolCodes: seq<byte>,
                                    alphabetSize: int, maxCodeLength: int)
    returns (ok: bool)
    requires 0 <= alphabetSize <= |symbolLengths| && alphabetSize <= |symbolCodes|
    requires 0 <= maxCodeLength
    requires maxCodeLength <= 8 ==> Pow2(maxCodeLength) <= decodeTable.Length
    requires forall s | 0 <= s < alphabetSize && 0 < symbolLengths[s] <= maxCodeLength <= 8 ::
      symbolCodes[s] < Pow2(maxCodeLength)
    modifies decodeTable
    ensures ok <==> (alphabetSize <= 256 && maxCodeLength <= 8 &&
                     FirstTooLong(symbolLengths, maxCodeLength, 0, alphabetSize) == alphabetSize)
    ensures alphabetSize > 256 || maxCodeLength > 8 ==> decodeTable[..] == old(decodeTable[..])
    ensures alphabetSize <= 256 && maxCodeLength <= 8 ==>
      var done := FirstTooLong(symbolLengths, maxCodeLength, 0, alphabetSize);
      forall i | 0 <= i < decodeTable.Length ::
        decodeTable[i] as int == DecodeEntry(symbolLengths, symbolCodes, Pow2(maxCodeLength), done, i, old(decodeTable[i]) as int)
  {
    if alphabetSize > 256 || maxCodeLength > 8 {
      return false;
    }
    var maxCode := Pow2(maxCodeLength);
    var symbol := 0;
    while symbol < alphabetSize
      invariant 0 <= symbol <= alphabetSize
      invariant FirstTooLong(symbolLengths, maxCodeLength, 0, alphabetSize)
             == FirstTooLong(symbolLengths, maxCodeLength, symbol, alphabetSize)
      invariant forall i | 0 <= i < decodeTable.Length ::
        decodeTable[i] == DecodeEntry(symbolLengths, symbolCodes, maxCode, symbol, i, old(decodeTable[i]))
    {
      var length := symbolLengths[symbol];
      if length > maxCodeLength {
        return false;
      }
      if length > 0 {
        WriteDecodeEntries(decodeTable, symbolCodes[symbol] as int, length as int, maxCode, (symbol * 256 + length as int) as ushort);
      }
      symbol := symbol + 1;
    }
    return true;
  }

  // ---------------------------------------------------------------------
  // The built-in model

  /** Canonical code words of the built-in lengths, most significant bit first. */
  const DefaultCanonicalCodes: seq<int> := [0, 2, 3, 4, 10, 11, 12, 26, 27, 28, 58, 59, 60, 61, 62, 63]

  /**
   * The built-in lengths (one symbol of length 2, three each of lengths 3,
   * 4 and 5, six of length 6) satisfy Kraft's inequality with equality and
   * give the canonical code words listed above.
   */
  lemma DefaultCanonical()
    ensures Fits(DefaultLengths, MaxHuffmanSymbolLength)
    ensures FirstCode(DefaultLengths, MaxHuffmanSymbolLength) + CountLength(DefaultLengths, MaxHuffmanSymbolLength, AlphabetSize)
         == Pow2(MaxHuffmanSymbolLength)
    ensures forall s | 0 <= s < AlphabetSize :: CanonicalCode(DefaultLengths, s) == DefaultCanonicalCodes[s]
  {
    assert CountLength(DefaultLengths, 1, 1) == 0;
    assert CountLength(DefaultLengths, 1, 2) == 0;
    assert CountLength(DefaultLengths, 1, 3) == 0;
    assert CountLength(DefaultLengths, 1, 4) == 0;
    assert CountLength(DefaultLengths, 1, 5) == 0;
    assert CountLength(DefaultLengths, 1, 6) == 0;
    assert CountLength(DefaultLengths, 1, 7) == 0;
    assert CountLength(DefaultLengths, 1, 8) == 0;
    assert CountLength(DefaultLengths, 1, 9) == 0;
    assert CountLength(DefaultLengths, 1, 10) == 0;
    assert CountLength(DefaultLengths, 1, 11) == 0;
    assert CountLength(DefaultLengths, 1, 12) == 0;
    assert CountLength(DefaultLengths, 1, 13) == 0;
    assert CountLength(DefaultLengths, 1, 14) == 0;
    assert CountLength(DefaultLengths, 1, 15) == 0;
    assert CountLength(DefaultLengths, 1, 16) == 0;
    assert CountLength(DefaultLengths, 2, 1) == 1;
    assert CountLength(DefaultLengths, 2, 2) == 1;
    assert CountLength(DefaultLengths, 2, 3) == 1;
    assert CountLength(DefaultLengths, 2, 4) == 1;
    assert CountLength(DefaultLengths, 2, 5) == 1;
    assert CountLength(DefaultLengths, 2, 6) == 1;
    assert CountLength(DefaultLengths, 2, 7) == 1;
    assert CountLength(DefaultLengths, 2, 8) == 1;
    assert CountLength(DefaultLengths, 2, 9) == 1;
    assert CountLength(DefaultLengths, 2, 10) == 1;
    assert CountLength(DefaultLengths, 2, 11) == 1;
    assert CountLength(DefaultLengths, 2, 12) == 1;
    assert CountLength(DefaultLengths, 2, 13) == 1;
    assert CountLength(DefaultLengths, 2, 14) == 1;
    assert CountLength(DefaultLengths, 2, 15) == 1;
    assert CountLength(DefaultLengths, 2, 16) == 1;
    assert CountLength(DefaultLengths, 3, 1) == 0;
    assert CountLength(DefaultLengths, 3, 2) == 1;
    assert CountLength(DefaultLengths, 3, 3) == 2;
    assert CountLength(DefaultLengths, 3, 4) == 3;
    assert CountLength(DefaultLengths, 3, 5) == 3;
    assert CountLength(DefaultLengths, 3, 6) == 3;
    assert CountLength(DefaultLengths, 3, 7) == 3;
    assert CountLength(DefaultLengths, 3, 8) == 3;
    assert CountLength(DefaultLengths, 3, 9) == 3;
    assert CountLength(DefaultLengths, 3, 10) == 3;
    assert CountLength(DefaultLengths, 3, 11) == 3;
    assert CountLength(DefaultLengths, 3, 12) == 3;
    assert CountLength(DefaultLengths, 3, 13) == 3;
    assert CountLength(DefaultLengths, 3, 14) == 3;
    assert CountLength(DefaultLengths, 3, 15) == 3;
    assert CountLength(DefaultLengths, 3, 16) == 3;
    assert CountLength(DefaultLengths, 4, 1) == 0;
    assert CountLength(DefaultLengths, 4, 2) == 0;
    assert CountLength(DefaultLengths, 4, 3) == 0;
    assert CountLength(DefaultLengths, 4, 4) == 0;
    assert CountLength(DefaultLengths, 4, 5) == 1;
    assert CountLength(DefaultLengths, 4, 6) == 2;
    assert CountLength(DefaultLengths, 4, 7) == 3;
    assert CountLength(DefaultLengths, 4, 8) == 3;
    assert CountLength(DefaultLengths, 4, 9) == 3;
    assert CountLength(DefaultLengths, 4, 10) == 3;
    assert CountLength(DefaultLengths, 4, 11) == 3;
    assert CountLength(DefaultLengths, 4, 12) == 3;
    assert CountLength(DefaultLengths, 4, 13) == 3;
    assert CountLength(DefaultLengths, 4, 14) == 3;
    assert CountLength(DefaultLengths, 4, 15) == 3;
    assert CountLength(DefaultLengths, 4, 16) == 3;
    assert CountLength(DefaultLengths, 5, 1) == 0;
    assert CountLength(DefaultLengths, 5, 2) == 0;
    assert CountLength(DefaultLengths, 5, 3) == 0;
    assert CountLength(DefaultLengths, 5, 4) == 0;
    assert CountLength(DefaultLengths, 5, 5) == 0;
    assert CountLength(DefaultLengths, 5, 6) == 0;
    assert CountLength(DefaultLengths, 5, 7) == 0;
    assert CountLength(DefaultLengths, 5, 8) == 1;
    assert CountLength(DefaultLengths, 5, 9) == 2;
    assert CountLength(DefaultLengths, 5, 10) == 3;
    assert CountLength(DefaultLengths, 5, 11) == 3;
    assert CountLength(DefaultLengths, 5, 12) == 3;
    assert CountLength(DefaultLengths, 5, 13) == 3;
    assert CountLength(DefaultLengths, 5, 14) == 3;
    assert CountLength(DefaultLengths, 5, 15) == 3;
    assert CountLength(DefaultLengths, 5, 16) == 3;
    assert CountLength(DefaultLengths, 6, 1) == 0;
    assert CountLength(DefaultLengths, 6, 2) == 0;
    assert CountLength(DefaultLengths, 6, 3) == 0;
    assert CountLength(DefaultLengths, 6, 4) == 0;
    assert CountLength(DefaultLengths, 6, 5) == 0;
    assert CountLength(DefaultLengths, 6, 6) == 0;
    assert CountLength(DefaultLengths, 6, 7) == 0;
    assert CountLength(DefaultLengths, 6, 8) == 0;
    assert CountLength(DefaultLengths, 6, 9) == 0;
    assert CountLength(DefaultLengths, 6, 10) == 0;
    assert CountLength(DefaultLengths, 6, 11) == 1;
    assert CountLength(DefaultLengths, 6, 12) == 2;
    assert CountLength(DefaultLengths, 6, 13) == 3;
    assert CountLength(DefaultLengths, 6, 14) == 4;
    assert CountLength(DefaultLengths, 6, 15) == 5;
    assert CountLength(DefaultLengths, 6, 16) == 6;
    assert FirstCode(DefaultLengths, 1) == 0;
    assert FirstCode(DefaultLengths, 2) == 0;
    assert FirstCode(DefaultLengths, 3) == 2;
    assert FirstCode(DefaultLengths, 4) == 10;
    assert FirstCode(DefaultLengths, 5) == 26;
    assert FirstCode(DefaultLengths, 6) == 58;
    assert Pow2(6) == 64;
    forall s | 0 <= s < AlphabetSize
      ensures CanonicalCode(DefaultLengths, s) == DefaultCanonicalCodes[s]
    {
      assert s == 0 || s == 1 || s == 2 || s == 3 || s == 4 || s == 5 || s == 6 || s == 7 || s == 8
          || s == 9 || s == 10 || s == 11 || s == 12 || s == 13 || s == 14 || s == 15;
    }
  }

  lemma DefaultStoredCodesLow()
    ensures StoredCode(0, 2) == 0 && StoredCode(2, 3) == 2 && StoredCode(3, 3) == 6 && StoredCode(4, 3) == 1 &&
            StoredCode(10, 4) == 5 && StoredCode(11, 4) == 13 && StoredCode(12, 4) == 3 && StoredCode(26, 5) == 11
  {
  }

  lemma DefaultStoredCodesHigh()
    ensures StoredCode(27, 5) == 27 && StoredCode(28, 5) == 7 && StoredCode(58, 6) == 23 && StoredCode(59, 6) == 55 &&
            StoredCode(60, 6) == 15 && StoredCode(61, 6) == 47 && StoredCode(62, 6) == 31 && StoredCode(63, 6) == 63
  {
  }

  lemma DefaultReversedCodesLow()
    ensures RevInt(0, 2) == 0 && RevInt(2, 3) == 2 && RevInt(3, 3) == 6 && RevInt(4, 3) == 1 &&
            RevInt(10, 4) == 5 && RevInt(11, 4) == 13 && RevInt(12, 4) == 3 && RevInt(26, 5) == 11
  {
    assert Pow2(0) == 1 && Pow2(1) == 2 && Pow2(2) == 4 && Pow2(3) == 8 && Pow2(4) == 16 && Pow2(5) == 32;
  }

  lemma DefaultReversedCodesHigh()
    ensures RevInt(27, 5) == 27 && RevInt(28, 5) == 7 && RevInt(58, 6) == 23 && RevInt(59, 6) == 55 &&
            RevInt(60, 6) == 15 && RevInt(61, 6) == 47 && RevInt(62, 6) == 31 && RevInt(63, 6) == 63
  {
    assert Pow2(0) == 1 && Pow2(1) == 2 && Pow2(2) == 4 && Pow2(3) == 8 && Pow2(4) == 16 && Pow2(5) == 32;
  }

  lemma HuffmanCodeOf(lengths: seq<byte>, s: int, c: uint)
    requires 0 <= s < |lengths| && lengths[s] >= 1 && CanonicalCode(lengths, s) == c as int
    ensures HuffmanCode(lengths, s) == StoredCode(c, lengths[s])
  {
    assert ToU32(c as int) == c;
  }

  /** Symbol by symbol, the stored codes are the byte-wide and the integer reversals of the canonical code words. */
  lemma DefaultCodeTable()
    ensures forall s | 0 <= s < AlphabetSize ::
      1 <= DefaultLengths[s] <= MaxHuffmanSymbolLength && 0 <= DefaultCanonicalCodes[s] < 64 && DefaultCodes[s] < 64 &&
      StoredCode(DefaultCanonicalCodes[s] as uint, DefaultLengths[s]) == DefaultCodes[s] &&
      RevInt(DefaultCanonicalCodes[s], DefaultLengths[s]) == DefaultCodes[s] &&
      DefaultCodes[s] < Pow2(DefaultLengths[s])
  {
    DefaultCodeRanges();
    DefaultCodeValues();
  }

  lemma DefaultCodeRanges()
    ensures forall s | 0 <= s < AlphabetSize ::
      1 <= DefaultLengths[s] <= MaxHuffmanSymbolLength && 0 <= DefaultCanonicalCodes[s] < 64 && DefaultCodes[s] < 64 &&
      DefaultCodes[s] < Pow2(DefaultLengths[s])
  {
    assert Pow2(2) == 4 && Pow2(3) == 8 && Pow2(4) == 16 && Pow2(5) == 32 && Pow2(6) == 64;
    forall s | 0 <= s < AlphabetSize
      ensures 1 <= DefaultLengths[s] <= MaxHuffmanSymbolLength && 0 <= DefaultCanonicalCodes[s] < 64 && DefaultCodes[s] < 64
      ensures DefaultCodes[s] < Pow2(DefaultLengths[s])
    {
      assert s == 0 || s == 1 || s == 2 || s == 3 || s == 4 || s == 5 || s == 6 || s == 7 || s == 8
          || s == 9 || s == 10 || s == 11 || s == 12 || s == 13 || s == 14 || s == 15;
    }
  }

  lemma DefaultCodeValues()
    ensures forall s | 0 <= s < AlphabetSize ::
      0 <= DefaultCanonicalCodes[s] < U32 &&
      StoredCode(DefaultCanonicalCodes[s] as uint, DefaultLengths[s]) == DefaultCodes[s] &&
      RevInt(DefaultCanonicalCodes[s], DefaultLengths[s]) == DefaultCodes[s]
  {
    DefaultStoredTable();
    DefaultReversedTable();
  }

  lemma DefaultStoredTable()
    ensures forall s | 0 <= s < AlphabetSize ::
      0 <= DefaultCanonicalCodes[s] < U32 &&
      StoredCode(DefaultCanonicalCodes[s] as uint, DefaultLengths[s]) == DefaultCodes[s]
  {
    DefaultStoredTableLow();
    DefaultStoredTableHigh();
  }

  lemma DefaultStoredTableLow()
    ensures forall s | 0 <= s < 8 ::
      0 <= DefaultCanonicalCodes[s] < U32 &&
      StoredCode(DefaultCanonicalCodes[s] as uint, DefaultLengths[s]) == DefaultCodes[s]
  {
    DefaultStoredCodesLow();
    forall s | 0 <= s < 8
      ensures 0 <= DefaultCanonicalCodes[s] < U32
      ensures StoredCode(DefaultCanonicalCodes[s] as uint, DefaultLengths[s]) == DefaultCodes[s]
    {
      assert s == 0 || s == 1 || s == 2 || s == 3 || s == 4 || s == 5 || s == 6 || s == 7;
    }
  }

  lemma DefaultStoredTableHigh()
    ensures forall s | 8 <= s < AlphabetSize ::
      0 <= DefaultCanonicalCodes[s] < U32 &&
      StoredCode(DefaultCanonicalCodes[s] as uint, DefaultLengths[s]) == DefaultCodes[s]
  {
    DefaultStoredCodesHigh();
    forall s | 8 <= s < AlphabetSize
      ensures 0 <= DefaultCanonicalCodes[s] < U32
      ensures StoredCode(DefaultCanonicalCodes[s] as uint, DefaultLengths[s]) == DefaultCodes[s]
    {
      assert s == 8 || s == 9 || s == 10 || s == 11 || s == 12 || s == 13 || s == 14 || s == 15;
    }
  }

  lemma DefaultReversedTable()
    ensures forall s | 0 <= s < AlphabetSize ::
      RevInt(DefaultCanonicalCodes[s], DefaultLengths[s]) == DefaultCodes[s]
  {
    DefaultReversedTableLow();
    DefaultReversedTableHigh();
  }

  lemma DefaultReversedTableLow()
    ensures forall s | 0 <= s < 8 :: RevInt(DefaultCanonicalCodes[s], DefaultLengths[s]) == DefaultCodes[s]
  {
    DefaultReversedCodesLow();
    forall s | 0 <= s < 8
      ensures RevInt(DefaultCanonicalCodes[s], DefaultLengths[s]) == DefaultCodes[s]
    {
      assert s == 0 || s == 1 || s == 2 || s == 3 || s == 4 || s == 5 || s == 6 || s == 7;
    }
  }

  lemma DefaultReversedTableHigh()
    ensures forall s | 8 <= s < AlphabetSize :: RevInt(DefaultCanonicalCodes[s], DefaultLengths[s]) == DefaultCodes[s]
  {
    DefaultReversedCodesHigh();
    forall s | 8 <= s < AlphabetSize
      ensures RevInt(DefaultCanonicalCodes[s], DefaultLengths[s]) == DefaultCodes[s]
    {
      assert s == 8 || s == 9 || s == 10 || s == 11 || s == 12 || s == 13 || s == 14 || s == 15;
    }
  }

  /** The built-in codes are what the generator stores for the built-in lengths. */
  lemma DefaultCodesGenerated()
    ensures forall s | 0 <= s < AlphabetSize :: HuffmanCode(DefaultLengths, s) == DefaultCodes[s]
  {
    DefaultCanonical();
    DefaultCodeTable();
    forall s | 0 <= s < AlphabetSize
      ensures HuffmanCode(DefaultLengths, s) == DefaultCodes[s]
    {
      var c := DefaultCanonicalCodes[s];
      HuffmanCodeOf(DefaultLengths, s, c as uint);
    }
  }

  /** The built-in codes are the canonical code words reversed in their lengths, so each fits its length. */
  lemma DefaultCodesReversed()
    ensures forall s | 0 <= s < AlphabetSize ::
      RevInt(CanonicalCode(DefaultLengths, s), DefaultLengths[s]) == DefaultCodes[s] &&
      DefaultCodes[s] < Pow2(DefaultLengths[s])
  {
    DefaultCanonical();
    DefaultCodeTable();
  }

  /** The built-in codes have pairwise disjoint decode classes. */
  lemma DefaultClassesDisjoint()
    ensures ClassesDisjoint(DefaultLengths, DefaultCodes)
  {
    DefaultCanonical();
    DefaultCodesReversed();
    forall s, t | 0 <= s < |DefaultLengths| && 0 <= t < |DefaultLengths| && s != t
        && 1 <= DefaultLengths[s] <= DefaultLengths[t]
      ensures DefaultCodes[t] % Pow2(DefaultLengths[s]) != DefaultCodes[s]
    {
      DefaultCodeTable();
      assert DefaultLengths[t] <= MaxHuffmanSymbolLength;
      ReversedCanonicalDisjoint(DefaultLengths, MaxHuffmanSymbolLength, s, t);
      assert RevInt(CanonicalCode(DefaultLengths, t), DefaultLengths[t]) == DefaultCodes[t];
      assert RevInt(CanonicalCode(DefaultLengths, s), DefaultLengths[s]) == DefaultCodes[s];
    }
  }

  /**
   * The first part of the constructor: reads the alphabet size and the
   * sixteen code lengths from the built-in model data, and the count of
   * further context models, which is zero.
   */
  method ReadDefaultLengths() returns (symbolLengths: array<byte>)
    ensures fresh(symbolLengths)
    ensures symbolLengths[..] == DefaultLengths
  {
    var modelData := DefaultModelData;
    var readOffset := 0;
    var defaultModelAlphabetSize := modelData[readOffset];
    readOffset := readOffset + 1;
    if defaultModelAlphabetSize as int != AlphabetSize {
      assert false;
    }
    symbolLengths := new byte[AlphabetSize];
    for i := 0 to AlphabetSize
      invariant readOffset == i + 1
      invariant symbolLengths[..i] == DefaultLengths[..i]
    {
      symbolLengths[i] := modelData[readOffset];
      readOffset := readOffset + 1;
    }
    var numModels := modelData[readOffset] as int + modelData[readOffset + 1] as int * 256;
    assert numModels == 0;
  }

  /** The encode table: per symbol, (code << 8) | length. */
  method PackEncodeTable(symbolCodes: seq<byte>, symbolLengths: seq<byte>) returns (encodeTable: array<ushort>)
    requires |symbolCodes| == |symbolLengths|
    ensures encodeTable.Length == |symbolCodes|
    ensures forall s | 0 <= s < |symbolCodes| ::
      encodeTable[s] as int == symbolCodes[s] as int * 256 + symbolLengths[s] as int
  {
    encodeTable := new ushort[|symbolCodes|](_ => 0);
    for i := 0 to |symbolCodes|
      invariant forall s | 0 <= s < i :: encodeTable[s] as int == symbolCodes[s] as int * 256 + symbolLengths[s] as int
    {
      encodeTable[i] := (symbolCodes[i] as int * 256 + symbolLengths[i] as int) as ushort;
    }
  }

  /** The per-context code generation of the constructor, into a zeroed array. */
  method GenerateDefaultCodes(lengths: seq<byte>) returns (codes: seq<byte>)
    requires lengths == DefaultLengths
    ensures codes == DefaultCodes
  {
    var symbolCodes := new byte[AlphabetSize](_ => 0);
    var ok := GenerateHuffmanCodes(symbolCodes, lengths, AlphabetSize, MaxHuffmanSymbolLength);
    DefaultCodeTable();
    DefaultCodesGenerated();
    assert lengths[..AlphabetSize] == DefaultLengths;
    assert ok;
    codes := symbolCodes[..];
  }

  /** The per-context decode table generation of the constructor, into a zeroed array. */
  method GenerateDefaultDecodeTable(lengths: seq<byte>, codes: seq<byte>) returns (decoded: seq<ushort>)
    requires |lengths| == AlphabetSize && |codes| == AlphabetSize
    requires forall s | 0 <= s < AlphabetSize ::
      1 <= lengths[s] as int <= MaxHuffmanSymbolLength && codes[s] < 64
    ensures |decoded| == Pow2(MaxHuffmanSymbolLength)
    ensures forall i | 0 <= i < |decoded| ::
      decoded[i] as int == DecodeEntry(lengths, codes, Pow2(MaxHuffmanSymbolLength), AlphabetSize, i, 0)
  {
    assert Pow2(MaxHuffmanSymbolLength) == 64;
    var decodeTable := new ushort[Pow2(MaxHuffmanSymbolLength)](_ => 0);
    ghost var zeroes := decodeTable[..];
    assert forall i | 0 <= i < |zeroes| :: zeroes[i] == 0;
    NoneTooLong(lengths, MaxHuffmanSymbolLength, 0, AlphabetSize);
    var ok := GenerateHuffmanDecodeTable(decodeTable, lengths, codes, AlphabetSize, MaxHuffmanSymbolLength);
    decoded := decodeTable[..];
    forall i | 0 <= i < |decoded|
      ensures decoded[i] as int == DecodeEntry(lengths, codes, Pow2(MaxHuffmanSymbolLength), AlphabetSize, i, 0)
    {
      assert zeroes[i] == 0;
      assert decoded[i] as int == DecodeEntry(lengths, codes, Pow2(MaxHuffmanSymbolLength), AlphabetSize, i, zeroes[i] as int);
    }
  }

  /** When none of the lengths k .. n - 1 exceeds maxLen, the scan runs to n. */
  lemma {:induction false} NoneTooLong(lengths: seq<byte>, maxLen: int, k: nat, n: nat)
    requires k <= n <= |lengths|
    requires forall j | k <= j < n :: lengths[j] as int <= maxLen
    ensures FirstTooLong(lengths, maxLen, k, n) == n
    decreases n - k
  {
    if k < n {
      NoneTooLong(lengths, maxLen, k + 1, n);
    }
  }

  /**
   * The constructor: reads the built-in model data, generates the codes and
   * the decode table, and packs the encode table. The result is a valid
   * model whose encode table holds the built-in lengths and codes.
   */
  method NewModel() returns (model: NetworkCompressionModel)
    ensures ValidModel(model)
    ensures model.bucketSizes == BucketSizes && model.bucketOffsets == BucketOffsets
    ensures forall s | 0 <= s < AlphabetSize ::
      SymbolLength(model, s) == DefaultLengths[s] && SymbolCode(model, s) == DefaultCodes[s]
  {
    var symbolLengths := ReadDefaultLengths();
    var lengths := symbolLengths[..];
    var codes := GenerateDefaultCodes(lengths);
    var decoded := GenerateDefaultDecodeTable(lengths, codes);
    var encodeTable := PackEncodeTable(codes, lengths);
    var encoded := encodeTable[..];
    forall s | 0 <= s < AlphabetSize
      ensures encoded[s] as int == DefaultCodes[s] as int * 256 + DefaultLengths[s] as int
    {
      assert encoded[s] == encodeTable[s];
    }
    model := NetworkCompressionModel(encoded, decoded, BucketSizes, BucketOffsets);
    DefaultModelValid(model);
  }

  /** A model holding the built-in tables is valid. */
  lemma DefaultModelValid(model: NetworkCompressionModel)
    requires |model.encodeTable| == AlphabetSize
    requires forall s | 0 <= s < AlphabetSize ::
      model.encodeTable[s] as int == DefaultCodes[s] as int * 256 + DefaultLengths[s] as int
    requires |model.decodeTable| == Pow2(MaxHuffmanSymbolLength)
    requires forall i | 0 <= i < |model.decodeTable| ::
      model.decodeTable[i] as int == DecodeEntry(DefaultLengths, DefaultCodes, Pow2(MaxHuffmanSymbolLength), AlphabetSize, i, 0)
    requires model.bucketSizes == BucketSizes && model.bucketOffsets == BucketOffsets
    ensures ValidModel(model)
    ensures forall s | 0 <= s < AlphabetSize ::
      SymbolLength(model, s) == DefaultLengths[s] && SymbolCode(model, s) == DefaultCodes[s]
  {
    DefaultCodeTable();
    DefaultClassesDisjoint();
    BucketsTile();
    forall s | 0 <= s < AlphabetSize
      ensures SymbolLength(model, s) == DefaultLengths[s] && SymbolCode(model, s) == DefaultCodes[s]
    {
      DivUnique(model.encodeTable[s] as int, 256, DefaultCodes[s] as int, DefaultLengths[s] as int);
    }
    forall s, i | 0 <= s < AlphabetSize && 0 <= i < |model.decodeTable|
      ensures WindowDecodes(model, s, i)
    {
      if i % Pow2(SymbolLength(model, s)) == SymbolCode(model, s) {
        DecodeEntryFinds(DefaultLengths, DefaultCodes, MaxHuffmanSymbolLength, AlphabetSize, s, i, 0);
      }
    }
    forall i | 0 <= i < |model.decodeTable|
      ensures model.decodeTable[i] % 256 <= MaxHuffmanSymbolLength
    {
      DecodeEntryShort(DefaultLengths, DefaultCodes, Pow2(MaxHuffmanSymbolLength), MaxHuffmanSymbolLength, AlphabetSize, i, 0);
    }
  }
}
