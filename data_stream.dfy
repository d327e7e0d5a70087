// The bit and byte stream codec (com.unity.transport/Runtime/DataStream.cs).
//
// The writer appends bytes in host order (little-endian here) or network
// order, and packs integers as a Huffman-coded bucket followed by the offset
// inside the bucket, least significant bit first through a 64-bit bit
// buffer. The reader walks the same bytes with a context holding its read
// index and its own bit buffer.
//
// The bit buffers are modelled as integers. The source ORs new bits in above
// the pending ones; since every bit at or above the bit index is zero (an
// invariant of both classes), that OR is an addition, which is how it is
// written here.

module DataStream {
  import opened Wrappers
  import opened Words
  import opened CompressionModel

  // ---------------------------------------------------------------------------
  // Byte order

  /** The value of bytes stored least significant first. */
  function LittleEndian(s: seq<byte>): int
    decreases |s|
  {
    if |s| == 0 then 0 else s[0] + 256 * LittleEndian(s[1..])
  }

  /** The n low bytes of v, least significant first: how a little-endian host stores v. */
  function LittleEndianBytes(v: int, n: int): (s: seq<byte>)
    requires n >= 0
    ensures |s| == n
    decreases n
  {
    if n == 0 then [] else [v % 256] + LittleEndianBytes(v / 256, n - 1)
  }

  /** Reducing modulo a * b splits into the residue modulo a and the next digit. */
  lemma ModSplit(v: int, a: int, b: int)
    requires v >= 0 && a > 0 && b > 0
    ensures v % (a * b) == v % a + a * ((v / a) % b)
  {
    var q, r := v / a, v % a;
    var q2, r2 := q / b, q % b;
    assert v == a * q + r;
    assert q == b * q2 + r2;
    assert v == (a * b) * q2 + (a * r2 + r);
    assert a * r2 + r < a * b by {
      MulMonotone(r2, b - 1, a);
      assert a * r2 <= a * (b - 1);
    }
    MulAtLeast(a, 1);
    assert 0 <= a * r2;
    DivUnique(v, a * b, q2, a * r2 + r);
  }

  lemma {:induction false} LittleEndianBound(s: seq<byte>)
    ensures 0 <= LittleEndian(s) < Pow2(8 * |s|)
    decreases |s|
  {
    if |s| > 0 {
      LittleEndianBound(s[1..]);
      Pow2Add(8, 8 * (|s| - 1));
      Pow2Bytes();
      DigitsThenRest(s[0] as int, 256, LittleEndian(s[1..]), Pow2(8 * (|s| - 1)), 0);
    }
  }

  /** Reading back the n bytes a value was stored as gives the value modulo 2^(8n). */
  lemma {:induction false} LittleEndianOfBytes(v: int, n: int)
    requires v >= 0 && n >= 0
    ensures LittleEndian(LittleEndianBytes(v, n)) == v % Pow2(8 * n)
    decreases n
  {
    if n > 0 {
      var s := LittleEndianBytes(v, n);
      assert s[1..] == LittleEndianBytes(v / 256, n - 1);
      LittleEndianOfBytes(v / 256, n - 1);
      Pow2Add(8, 8 * (n - 1));
      assert Pow2(8) == 256;
      ModSplit(v, 256, Pow2(8 * (n - 1)));
    }
  }

  /** Storing the value of n bytes gives back the same bytes. */
  lemma {:induction false} BytesOfLittleEndian(s: seq<byte>)
    ensures LittleEndianBytes(LittleEndian(s), |s|) == s
    decreases |s|
  {
    if |s| > 0 {
      LittleEndianBound(s[1..]);
      var v := LittleEndian(s);
      DivUnique(v, 256, LittleEndian(s[1..]), s[0]);
      BytesOfLittleEndian(s[1..]);
    }
  }

  /** Bytes placed after others count 2^8 per earlier byte higher. */
  lemma {:induction false} LittleEndianConcat(s: seq<byte>, t: seq<byte>)
    ensures LittleEndian(s + t) == LittleEndian(s) + LittleEndian(t) * Pow2(8 * |s|)
    decreases |s|
  {
    if |s| == 0 {
      assert s + t == t;
    } else {
      var u := s[1..];
      assert (s + t)[1..] == u + t;
      LittleEndianConcat(u, t);
      var p := Pow2(8 * |u|);
      Pow2Add(8, 8 * |u|);
      assert Pow2(8) == 256;
      assert Pow2(8 * |s|) == 256 * p;
      var lt := LittleEndian(t);
      assert LittleEndian(s + t) == s[0] + 256 * (LittleEndian(u) + lt * p);
      assert 256 * (lt * p) == lt * (256 * p);
    }
  }

  /** Appending a byte adds it above all the earlier ones. */
  lemma LittleEndianAppend(s: seq<byte>, b: byte)
    ensures LittleEndian(s + [b]) == LittleEndian(s) + b * Pow2(8 * |s|)
  {
    LittleEndianConcat(s, [b]);
    assert [b][1..] == [];
    assert LittleEndian([b]) == b;
  }

  lemma LittleEndian4(b: seq<byte>)
    requires |b| == 4
    ensures LittleEndian(b) == b[0] as int + 256 * b[1] as int + 0x1_0000 * b[2] as int + 0x100_0000 * b[3] as int
  {
    assert b[1..][1..][1..][1..] == [];
    assert LittleEndian(b[1..][1..][1..]) == b[3];
    assert LittleEndian(b[1..][1..]) == b[2] as int + 256 * b[3] as int;
    assert LittleEndian(b[1..]) == b[1] as int + 256 * b[2] as int + 0x1_0000 * b[3] as int;
  }

  /** ByteSwap(short): the two bytes of the 16-bit pattern exchanged. */
  function ByteSwap16(value: ushort): ushort
  {
    (value % 256) * 256 + value / 256
  }

  /** Swapping the bytes of a little-endian pair reads it most significant byte first. */
  lemma SwappedPair(b: seq<byte>)
    requires |b| == 2
    ensures 0 <= LittleEndian(b) < 0x1_0000 && ByteSwap16(LittleEndian(b)) == 256 * b[0] as int + b[1] as int
  {
    assert b[1..][1..] == [];
    Digits2(b[0], b[1]);
  }

  /** ByteSwap(int): the four bytes of the 32-bit pattern in the opposite order. */
  function ByteSwap32(value: uint): uint
  {
    (value % 256) * 0x100_0000 + (value / 256 % 256) * 0x1_0000 + (value / 0x1_0000 % 256) * 256 + value / 0x100_0000
  }

  /** A 16-bit value is its low byte plus 256 times its high byte, and back. */
  lemma Digits2(lo: int, hi: int)
    requires 0 <= lo < 256 && 0 <= hi < 256
    ensures (lo + 256 * hi) % 256 == lo && (lo + 256 * hi) / 256 == hi
  {
    DivUnique(lo + 256 * hi, 256, hi, lo);
  }

  /** A 32-bit value is its four bytes, and back. */
  lemma Digits4(a0: int, a1: int, a2: int, a3: int)
    requires 0 <= a0 < 256 && 0 <= a1 < 256 && 0 <= a2 < 256 && 0 <= a3 < 256
    ensures var v := a0 + 256 * a1 + 0x1_0000 * a2 + 0x100_0000 * a3;
      v % 256 == a0 && v / 256 % 256 == a1 && v / 0x1_0000 % 256 == a2 && v / 0x100_0000 == a3
  {
    var v := a0 + 256 * a1 + 0x1_0000 * a2 + 0x100_0000 * a3;
    DivUnique(v, 256, a1 + 256 * a2 + 0x1_0000 * a3, a0);
    DivUnique(a1 + 256 * a2 + 0x1_0000 * a3, 256, a2 + 256 * a3, a1);
    DivUnique(v, 0x1_0000, a2 + 256 * a3, a0 + 256 * a1);
    DivUnique(a2 + 256 * a3, 256, a3, a2);
    DivUnique(v, 0x100_0000, a3, a0 + 256 * a1 + 0x1_0000 * a2);
  }

  lemma SplitBytes4(v: uint)
    ensures v == v % 256 + 256 * (v / 256 % 256) + 0x1_0000 * (v / 0x1_0000 % 256) + 0x100_0000 * (v / 0x100_0000)
    ensures v / 0x100_0000 < 256
  {
    DivDivInt(v, 256, 256);
    DivDivInt(v, 0x1_0000, 256);
  }

  /** Swapping twice restores a 16-bit value. */
  lemma ByteSwap16Involution(value: ushort)
    ensures ByteSwap16(ByteSwap16(value)) == value
  {
    Digits2(value / 256, value % 256);
  }

  /** Swapping twice restores a 32-bit value. */
  lemma ByteSwap32Involution(value: uint)
    ensures ByteSwap32(ByteSwap32(value)) == value
  {
    SplitBytes4(value);
    Digits4(value / 0x100_0000, value / 0x1_0000 % 256, value / 256 % 256, value % 256);
  }

  /** Stored by a little-endian host, the swapped value puts the most significant byte first. */
  lemma NetworkOrderBytes32(value: uint)
    ensures LittleEndianBytes(ByteSwap32(value), 4)
      == [value / 0x100_0000, value / 0x1_0000 % 256, value / 256 % 256, value % 256]
  {
    SplitBytes4(value);
    var r := ByteSwap32(value);
    Digits4(value / 0x100_0000, value / 0x1_0000 % 256, value / 256 % 256, value % 256);
    DivDivInt(r, 256, 256);
    DivDivInt(r, 0x1_0000, 256);
    assert r / 256 / 256 / 256 == r / 0x100_0000 by {
      DivDivInt(r, 256, 256);
      DivDivInt(r / 256 / 256, 256, 1);
      DivDivInt(r, 0x1_0000, 256);
    }
  }

  // ---------------------------------------------------------------------------
  // Zig-zag and delta packing

  /**
   * WritePackedInt's interleaving (value >> 31) ^ (value << 1), reinterpreted
   * as unsigned: the sign mask is all ones for a negative value, so the
   * doubled value is complemented.
   */
  function ZigZag(value: int32): uint
  {
    if value >= 0 then 2 * value else -2 * value - 1
  }

  /** ReadPackedInt's (int)(folded >> 1) ^ -(int)(folded & 1). */
  function UnZigZag(folded: uint): int32
  {
    if folded % 2 == 0 then folded / 2 else -(folded / 2) - 1
  }

  /** De-interleaving undoes interleaving on every 32-bit signed value. */
  lemma ZigZagRoundTrip(value: int32)
    ensures UnZigZag(ZigZag(value)) == value
  {
  }

  /** Interleaving undoes de-interleaving on every 32-bit unsigned value: the map is a bijection. */
  lemma UnZigZagRoundTrip(folded: uint)
    ensures ZigZag(UnZigZag(folded)) == folded
  {
  }

  /** WritePackedIntDelta's difference: (int)(baseline - value) in 32-bit arithmetic. */
  function IntDelta(value: int32, baseline: int32): int32
  {
    ToI32(baseline - value)
  }

  /** WritePackedUIntDelta's difference: the unsigned difference reinterpreted as signed. */
  function UIntDelta(value: uint, baseline: uint): int32
  {
    ToI32(ToU32(baseline - value))
  }

  /** ReadPackedIntDelta's baseline - delta in 32-bit arithmetic recovers the value written. */
  lemma IntDeltaRoundTrip(value: int32, baseline: int32)
    ensures ToI32(baseline - IntDelta(value, baseline)) == value
  {
    var d := baseline - value;
    var w := ToI32(d);
    assert (d - w) % U32 == 0;
    var k := (d - w) / U32;
    assert baseline - w == value + k * U32;
    ModAddMultiple(value, U32, k);
  }

  /** ReadPackedUIntDelta's baseline - (uint)delta recovers the value written. */
  lemma UIntDeltaRoundTrip(value: uint, baseline: uint)
    ensures ToU32(baseline - ToU32(UIntDelta(value, baseline))) == value
  {
    var d := ToU32(baseline - value);
    var w := ToI32(d);
    ResidueSum32(w - d, d - (baseline - value));
    assert (baseline - w - value) % U32 == 0;
    U32Residue(baseline - w, value);
    assert (w - ToU32(w)) % U32 == 0;
    ResidueSum32(w - ToU32(w), 0);
    ResidueSum32(baseline - w - value, w - ToU32(w));
    U32Residue(baseline - ToU32(w), value);
  }

  // ---------------------------------------------------------------------------
  // Packed integers

  /** The bucket WritePackedUInt codes a value in. */
  function PackedBucket(model: NetworkCompressionModel, value: uint): nat
  {
    BucketFrom(model.bucketOffsets, value, 0)
  }

  /** How many bits WritePackedUInt appends for a value: its bucket's code length plus the bucket size. */
  function PackedCount(model: NetworkCompressionModel, value: uint): int
    requires CodesFit(model) && BucketsCover(model)
  {
    BucketHolds(model, value);
    var b := PackedBucket(model, value);
    SymbolLength(model, b) + model.bucketSizes[b]
  }

  /** The bits WritePackedUInt appends, first bit lowest: the bucket's code, then the offset inside the bucket. */
  function PackedBits(model: NetworkCompressionModel, value: uint): int
    requires CodesFit(model) && BucketsCover(model)
  {
    BucketHolds(model, value);
    var b := PackedBucket(model, value);
    SymbolCode(model, b) + Scaled(value - model.bucketOffsets[b], SymbolLength(model, b))
  }

  /** The encode table entry and the bucket of a value, as WritePackedUInt reads them. */
  lemma PackedEntry(model: NetworkCompressionModel, value: uint)
    requires CodesFit(model) && BucketsCover(model)
    ensures var b := PackedBucket(model, value); var e := model.encodeTable[b] as int;
      && 0 <= b < AlphabetSize && |model.bucketSizes| == |model.bucketOffsets| == AlphabetSize
      && 0 <= e % 256 <= MaxHuffmanSymbolLength && e / 256 < Pow2(e % 256)
      && model.bucketSizes[b] <= 32 && 0 <= value - model.bucketOffsets[b] < Pow2(model.bucketSizes[b])
      && PackedCount(model, value) == e % 256 + model.bucketSizes[b] as int
      && PackedBits(model, value) == e / 256 + Scaled(value - model.bucketOffsets[b], e % 256)
  {
    BucketHolds(model, value);
    var b := PackedBucket(model, value);
    assert 1 <= SymbolLength(model, b) <= MaxHuffmanSymbolLength && SymbolCode(model, b) < Pow2(SymbolLength(model, b));
  }

  /** CodeThenOffset for arbitrary positive radices pl and ps. */
  lemma DigitsThenRest(code: int, pl: int, off: int, ps: int, rest: int)
    requires 0 <= code < pl && 0 <= off < ps && rest >= 0
    ensures 0 <= code + off * pl < pl * ps
    ensures var x := code + off * pl + rest * (pl * ps);
      x >= 0 && x % pl == code && (x / pl) % ps == off
  {
    MulMonotone(off, ps - 1, pl);
    MulAtLeast(pl, 1);
    var upper := off + rest * ps;
    var x := code + off * pl + rest * (pl * ps);
    assert (off + rest * ps) * pl == off * pl + rest * (pl * ps);
    assert 0 <= upper by {
      if rest > 0 { MulAtLeast(ps, rest); }
    }
    DivUnique(x, pl, upper, code);
    DivUnique(upper, ps, rest, off);
  }

  /**
   * A code of len bits followed by an offset of size bits, and anything
   * above: the low len bits give back the code and the next size bits the
   * offset.
   */
  lemma CodeThenOffset(code: int, len: nat, off: int, size: nat, rest: int)
    requires 0 <= code < Pow2(len) && 0 <= off < Pow2(size) && rest >= 0
    ensures 0 <= code + off * Pow2(len) < Pow2(len + size)
    ensures var x := code + off * Pow2(len) + rest * Pow2(len + size);
      x >= 0 && x % Pow2(len) == code && (x / Pow2(len)) % Pow2(size) == off
  {
    Pow2Add(len, size);
    DigitsThenRest(code, Pow2(len), off, Pow2(size), rest);
  }

  /** The packed encoding of a value is at most 38 bits and fits in its count. */
  lemma PackedFits(model: NetworkCompressionModel, value: uint)
    requires CodesFit(model) && BucketsCover(model)
    ensures 1 <= PackedCount(model, value) <= 38
    ensures 0 <= PackedBits(model, value) < Pow2(PackedCount(model, value))
  {
    PackedParts(model, value);
    var b := PackedBucket(model, value);
    var len, size := SymbolLength(model, b), model.bucketSizes[b];
    CodeThenOffset(SymbolCode(model, b), len, value - model.bucketOffsets[b], size, 0);
  }

  /**
   * How many bits FillBitBuffer leaves in the bit buffer: it adds whole
   * bytes while at most 56 bits are pending and input remains.
   */
  function FillLevel(bitIndex: int, bytesLeft: int): (level: int)
    ensures bitIndex <= level
    decreases bytesLeft
  {
    if bitIndex <= 56 && bytesLeft > 0 then FillLevel(bitIndex + 8, bytesLeft - 1) else bitIndex
  }

  /**
   * What ReadPackedUInt decodes from the unread bits (first bit lowest),
   * given the number of bits the bit buffer holds after filling: the decode
   * table entry of the next six bits names a bucket and a code length, and
   * the offset follows the code. None where the source throws: too few bits
   * for the code or the offset, a bucket past the table, or a size above 32.
   * The result is the value and the number of bits consumed.
   */
  function DecodePacked(model: NetworkCompressionModel, unread: int, filled: int): Option<(uint, int)>
    requires |model.decodeTable| == Pow2(MaxHuffmanSymbolLength)
    requires |model.bucketSizes| == |model.bucketOffsets|
  {
    assert Pow2(6) == 64;
    var entry := model.decodeTable[unread % 64];
    var symbol, length := entry / 256, entry % 256;
    if filled < length || symbol >= |model.bucketOffsets| then None
    else
      var bits := model.bucketSizes[symbol] as int;
      if bits > 32 || filled - length < bits then None
      else
        var raw := (unread / Pow2(length)) % Pow2(bits);
        Some((ToU32(raw + model.bucketOffsets[symbol]), length + bits))
  }

  /** The cases in which DecodePacked finds no value: a code or an offset longer than the bits there are, or an unknown bucket. */
  lemma DecodePackedFails(model: NetworkCompressionModel, unread: int, filled: int)
    requires |model.decodeTable| == Pow2(MaxHuffmanSymbolLength)
    requires |model.bucketSizes| == |model.bucketOffsets|
    requires var entry := model.decodeTable[unread % 64]; var symbol, length := entry / 256, entry % 256;
      filled < length || symbol >= |model.bucketOffsets|
      || model.bucketSizes[symbol] as int > 32 || filled - length < model.bucketSizes[symbol] as int
    ensures DecodePacked(model, unread, filled) == None
  {
  }

  /** Otherwise DecodePacked reads the offset after the code, and the two together consume length + bits bits. */
  lemma DecodePackedSucceeds(model: NetworkCompressionModel, unread: int, filled: int, length: int, symbol: int, bits: int, raw: int)
    requires |model.decodeTable| == Pow2(MaxHuffmanSymbolLength)
    requires |model.bucketSizes| == |model.bucketOffsets|
    requires unread >= 0
    requires length == model.decodeTable[unread % 64] % 256 && symbol == model.decodeTable[unread % 64] / 256
    requires length <= filled && 0 <= symbol < |model.bucketOffsets| && bits == model.bucketSizes[symbol] as int
    requires bits <= 32 && bits <= filled - length
    requires raw == (unread / Pow2(length)) % Pow2(bits)
    ensures DecodePacked(model, unread, filled) == Some((ToU32(raw + model.bucketOffsets[symbol] as int), length + bits))
    ensures unread / Pow2(length) / Pow2(bits) == unread / Pow2(length + bits)
  {
    Pow2Add(length, bits);
    DivDivInt(unread, Pow2(length), Pow2(bits));
  }

  /** Bits that start with a symbol's code select that symbol and its length in the decode table. */
  lemma DecodeTableSelects(model: NetworkCompressionModel, x: int, b: int)
    requires ValidModel(model) && 0 <= b < AlphabetSize && x >= 0
    requires x % Pow2(SymbolLength(model, b)) == SymbolCode(model, b)
    ensures Pow2(MaxHuffmanSymbolLength) == 64
    ensures model.decodeTable[x % 64] / 256 == b
    ensures model.decodeTable[x % 64] % 256 == SymbolLength(model, b)
  {
    var len := SymbolLength(model, b);
    assert Pow2(6) == 64;
    ModModPow2(x, len as nat, 6);
    assert WindowDecodes(model, b, x % 64);
    Digits2(len, b);
  }

  /** DecodePacked, once the table entry and the offset bits are known. */
  lemma DecodePackedFound(model: NetworkCompressionModel, stream: int, filled: int, b: int, len: nat, off: int)
    requires |model.decodeTable| == Pow2(MaxHuffmanSymbolLength) == 64
    requires |model.bucketSizes| == |model.bucketOffsets| == AlphabetSize
    requires 0 <= b < AlphabetSize && model.bucketSizes[b] <= 32
    requires stream >= 0 && model.decodeTable[stream % 64] / 256 == b && model.decodeTable[stream % 64] % 256 == len
    requires (stream / Pow2(len)) % Pow2(model.bucketSizes[b]) == off
    requires 0 <= model.bucketOffsets[b] + off < U32
    requires filled >= len + model.bucketSizes[b]
    ensures DecodePacked(model, stream, filled) == Some(((model.bucketOffsets[b] + off) as uint, len + model.bucketSizes[b]))
  {
  }

  /** The pieces of a packed value: its bucket's code and length, and its offset inside the bucket. */
  lemma PackedParts(model: NetworkCompressionModel, value: uint)
    requires CodesFit(model) && BucketsCover(model)
    ensures var b := PackedBucket(model, value);
      && 0 <= b < AlphabetSize
      && 1 <= SymbolLength(model, b) <= MaxHuffmanSymbolLength
      && 0 <= SymbolCode(model, b) < Pow2(SymbolLength(model, b))
      && model.bucketSizes[b] <= 32
      && 0 <= value - model.bucketOffsets[b] < Pow2(model.bucketSizes[b])
      && PackedCount(model, value) == SymbolLength(model, b) + model.bucketSizes[b]
      && PackedBits(model, value) == SymbolCode(model, b) + (value - model.bucketOffsets[b]) * Pow2(SymbolLength(model, b))
  {
    BucketHolds(model, value);
    var b := PackedBucket(model, value);
    ScaledIsProduct(value - model.bucketOffsets[b], SymbolLength(model, b));
  }

  /**
   * The packed round trip: whatever follows a packed value in the stream,
   * decoding its bits yields the value and consumes exactly the bits written,
   * provided the bit buffer holds them.
   */
  lemma PackedRoundTrip(model: NetworkCompressionModel, value: uint, rest: int, filled: int)
    requires ValidModel(model)
    requires rest >= 0 && filled >= PackedCount(model, value)
    ensures DecodePacked(model, PackedBits(model, value) + rest * Pow2(PackedCount(model, value)), filled)
         == Some((value, PackedCount(model, value)))
  {
    PackedParts(model, value);
    var b := PackedBucket(model, value);
    var len, code := SymbolLength(model, b), SymbolCode(model, b);
    var off, size := value - model.bucketOffsets[b], model.bucketSizes[b];
    var stream := code + off * Pow2(len) + rest * Pow2(len + size);
    CodeThenOffset(code, len, off, size, rest);
    DecodeTableSelects(model, stream, b);
    DecodePackedFound(model, stream, filled, b, len, off);
  }

  // ---------------------------------------------------------------------------
  // The capacity check of WritePackedUInt

  /**
   * The check WritePackedUInt intends: after appending count bits to
   * bitIndex pending ones, the bytes in use still fit the capacity.
   */
  function PackedWriteFits(length: int, bitIndex: int, count: int, capacity: int): bool
  {
    length + (bitIndex + count + 7) / 8 <= capacity
  }

  /**
   * The check as written: `+` binds tighter than `&`, so the sum of the bit
   * index and the whole encode entry is masked with 0xff + bits + 7 instead
   * of the entry being masked to its code length.
   */
  function PackedWriteFitsAsWritten(length: int, bitIndex: int, encodeEntry: ushort, bits: int, capacity: int): bool
    requires 0 <= bitIndex < 8 && 0 <= bits <= 32
  {
    var masked := (bitIndex + encodeEntry) as bv32 & (0xff + bits + 7) as bv32;
    length + masked as int / 8 <= capacity
  }

  /**
   * The check as written lets through a write that overruns the buffer:
   * packing 0 with the built-in model (a 2-bit code and no offset bits) into
   * an empty writer of capacity 1 holding 7 pending bits. The masked sum is
   * 9 & 262 == 0, so the check passes, yet the 9 pending bits need 2 bytes.
   */
  lemma PackedWriteAsWrittenOverruns()
    ensures PackedWriteFitsAsWritten(0, 7, DefaultCodes[0] as int * 256 + DefaultLengths[0] as int, BucketSizes[0] as int, 1)
    ensures !PackedWriteFits(0, 7, DefaultLengths[0] as int + BucketSizes[0] as int, 1)
  {
    assert (9 as bv32 & 262 as bv32) == 0;
  }

  // ---------------------------------------------------------------------------
  // Arithmetic on bit positions

  lemma ShiftedAdd(x: int, v: int, pa: int, pb: int)
    ensures (x + v * pa) * pb == x * pb + v * (pa * pb)
  {
  }

  /** Appending v at bit position a of a buffer that starts at bit position b. */
  lemma AppendAt(x: int, v: int, a: nat, b: nat)
    ensures (x + v * Pow2(a)) * Pow2(b) == x * Pow2(b) + v * Pow2(b + a)
  {
    Pow2Add(b, a);
    ShiftedAdd(x, v, Pow2(a), Pow2(b));
  }

  /** AppendAt for values placed with Scaled. */
  lemma AppendScaled(x: int, v: int, a: nat, b: nat)
    ensures Scaled(x + Scaled(v, a), b) == Scaled(x, b) + Scaled(v, b + a)
  {
    ScaledIsProduct(v, a);
    ScaledIsProduct(x + Scaled(v, a), b);
    ScaledIsProduct(x, b);
    ScaledIsProduct(v, b + a);
    AppendAt(x, v, a, b);
  }

  /** Two raw writes at bit position bi of a stream whose bit buffer starts after le's bytes. */
  lemma TwoAppends(le: int, bb: int, code: int, off: int, len: nat, bi: nat, bytes: nat)
    ensures le + Scaled(bb + Scaled(code, bi) + Scaled(off, bi + len), 8 * bytes)
      == (le + Scaled(bb, 8 * bytes)) + Scaled(code + Scaled(off, len), 8 * bytes + bi)
  {
    AppendScaled(bb + Scaled(code, bi), off, bi + len, 8 * bytes);
    AppendScaled(bb, code, bi, 8 * bytes);
    AppendScaled(code, off, len, 8 * bytes + bi);
    ScaledIsProduct(off, bi + len);
    ScaledIsProduct(off, len);
  }

  /** A value below 2^a with v < 2^n added at position a stays below 2^(a+n). */
  lemma AppendFits(x: int, v: int, a: nat, n: nat)
    requires 0 <= x < Pow2(a) && 0 <= v < Pow2(n)
    ensures 0 <= x + v * Pow2(a) < Pow2(a + n)
  {
    DigitsThenRest(x, Pow2(a), v, Pow2(n), 0);
    Pow2Add(a, n);
  }

  /** One step of emitting the lowest byte of a bit buffer holding bitIndex >= 1 bits. */
  lemma EmitByte(bitBuffer: int, bitIndex: int)
    requires 1 <= bitIndex && 0 <= bitBuffer < Pow2(bitIndex)
    ensures LittleEndianBytes(bitBuffer, (bitIndex + 7) / 8)
      == [bitBuffer % 256] + LittleEndianBytes(bitBuffer / 256, (bitIndex - 8 + 7) / 8)
    ensures 0 <= bitBuffer / 256 < Pow2(if bitIndex >= 8 then bitIndex - 8 else 0)
  {
    assert Pow2(8) == 256;
    if bitIndex >= 8 {
      Pow2Add(8, bitIndex - 8);
      DivBelow(bitBuffer, Pow2(bitIndex - 8), 256);
    } else {
      Pow2Monotone(bitIndex, 8);
    }
  }

  /** Emitting the lowest pending byte moves it from the padded pending bytes to the flushed ones. */
  lemma EmitStep(flushed: seq<byte>, bitBuffer: int, bitIndex: int)
    requires 1 <= bitIndex && 0 <= bitBuffer < Pow2(bitIndex)
    ensures flushed + LittleEndianBytes(bitBuffer, (bitIndex + 7) / 8)
      == (flushed + [bitBuffer % 256]) + LittleEndianBytes(bitBuffer / 256, (bitIndex - 8 + 7) / 8)
    ensures 0 <= bitBuffer / 256 < Pow2(if bitIndex >= 8 then bitIndex - 8 else 0)
  {
    EmitByte(bitBuffer, bitIndex);
  }

  /** Pending bits, padded to whole bytes, read back as their value. */
  lemma PaddedBits(bitBuffer: int, bitIndex: int)
    requires 0 <= bitIndex && 0 <= bitBuffer < Pow2(bitIndex)
    ensures LittleEndian(LittleEndianBytes(bitBuffer, (bitIndex + 7) / 8)) == bitBuffer
  {
    var k := (bitIndex + 7) / 8;
    LittleEndianOfBytes(bitBuffer, k);
    Pow2Monotone(bitIndex, 8 * k);
    DivUnique(bitBuffer, Pow2(8 * k), 0, bitBuffer);
  }

  // ---------------------------------------------------------------------------
  // The writer

  /**
   * DataStreamWriter: a byte buffer of fixed capacity, the number of bytes
   * flushed into it, and up to 64 pending bits of packed writes.
   */
  class DataStreamWriter {
    var buffer: array<byte>
    var length: int
    var bitBuffer: int
    var bitIndex: int

    /** Inside a packed write: the pending bits lie below the bit index and their bytes fit the buffer. */
    ghost predicate Pending()
      reads this
    {
      && 0 <= length
      && 0 <= bitIndex <= 64
      && 0 <= bitBuffer < Pow2(bitIndex)
      && length + (bitIndex + 7) / 8 <= buffer.Length
    }

    /** Between calls: fewer than eight bits are pending. */
    ghost predicate Valid()
      reads this
    {
      Pending() && bitIndex < 8
    }

    /** The bytes in use: those flushed, then the pending bits padded with zeros to whole bytes. */
    ghost function Data(): seq<byte>
      reads this, buffer
      requires Pending()
    {
      buffer[..length] + LittleEndianBytes(bitBuffer, (bitIndex + 7) / 8)
    }

    /** Every bit written so far as one number, the first bit lowest. */
    ghost function Stream(): int
      reads this, buffer
      requires Pending()
    {
      LittleEndian(buffer[..length]) + Scaled(bitBuffer, 8 * length)
    }

    /** The number of bits written so far. */
    ghost function BitCount(): int
      reads this
    {
      8 * length + bitIndex
    }

    /** Capacity's getter: the size of the buffer. */
    function Capacity(): int
      reads this
    {
      buffer.Length
    }

    /** Length: the bytes in use, a partly filled last byte counting as a whole one. */
    function Length(): (n: int)
      reads this, buffer
      requires Pending()
      ensures n == |Data()|
      ensures BitCount() <= 8 * n < BitCount() + 8
    {
      length + (bitIndex + 7) / 8
    }

    /** The bytes in use read back as a little-endian number are the bit stream. */
    lemma DataIsStream()
      requires Pending()
      ensures LittleEndian(Data()) == Stream()
    {
      LittleEndianConcat(buffer[..length], LittleEndianBytes(bitBuffer, (bitIndex + 7) / 8));
      PaddedBits(bitBuffer, bitIndex);
      ScaledIsProduct(bitBuffer, 8 * length);
    }

    /** DataStreamWriter(capacity): an empty writer. */
    constructor (capacity: nat)
      ensures Valid() && Capacity() == capacity && fresh(buffer)
      ensures Data() == [] && BitCount() == 0 && Stream() == 0
    {
      buffer := new byte[capacity];
      length := 0;
      bitBuffer := 0;
      bitIndex := 0;
    }

    /**
     * Capacity's setter: moves the flushed bytes to a buffer of the new size,
     * refusing to shrink below the bytes in use.
     */
    method SetCapacity(value: int) returns (ok: bool)
      requires Valid()
      modifies this
      ensures Valid()
      ensures ok <==> old(buffer.Length) == value || old(Length()) <= value
      ensures ok ==> Capacity() == value
      ensures !ok ==> buffer == old(buffer)
      ensures length == old(length) && bitBuffer == old(bitBuffer) && bitIndex == old(bitIndex)
      ensures Data() == old(Data()) && Stream() == old(Stream())
    {
      if buffer.Length == value {
        return true;
      }
      if Length() > value {
        return false;
      }
      ghost var flushed := buffer[..length];
      var newBuffer := new byte[value];
      forall i | 0 <= i < length {
        newBuffer[i] := buffer[i];
      }
      assert newBuffer[..length] == flushed;
      buffer := newBuffer;
      assert buffer[..length] == flushed;
      ok := true;
    }

    /** The body of the Flush and FlushBits loops: stores the lowest pending byte and drops it from the bit buffer. */
    method EmitLowByte()
      requires 1 <= bitIndex && 0 <= bitBuffer < Pow2(bitIndex) && 0 <= length < buffer.Length
      modifies this, buffer
      ensures buffer == old(buffer) && length == old(length) + 1
      ensures bitIndex == old(bitIndex) - 8 && bitBuffer == old(bitBuffer) / 256
      ensures 0 <= bitBuffer < Pow2(if bitIndex > 0 then bitIndex else 0)
      ensures buffer[..length] + LittleEndianBytes(bitBuffer, (bitIndex + 7) / 8)
        == old(buffer[..length]) + LittleEndianBytes(old(bitBuffer), (old(bitIndex) + 7) / 8)
      ensures forall i | length <= i < buffer.Length :: buffer[i] == old(buffer[i])
    {
      EmitStep(buffer[..length], bitBuffer, bitIndex);
      ghost var flushed := buffer[..length] + [bitBuffer % 256];
      buffer[length] := bitBuffer % 256;
      assert buffer[..length + 1] == flushed;
      length := length + 1;
      bitIndex := bitIndex - 8;
      bitBuffer := bitBuffer / 256;
    }

    /**
     * Flush: moves the pending bits into the buffer as whole bytes, the last
     * one padded with zeros. The bytes in use and the stream are unchanged.
     */
    method Flush()
      requires Valid()
      modifies this, buffer
      ensures Valid() && buffer == old(buffer)
      ensures bitIndex == 0 && bitBuffer == 0 && length == old(Length())
      ensures Data() == old(Data()) && Stream() == old(Stream())
      ensures forall i | old(Length()) <= i < buffer.Length :: buffer[i] == old(buffer[i])
    {
      ghost var data := Data();
      DataIsStream();
      while bitIndex > 0
        invariant buffer == old(buffer)
        invariant -8 < bitIndex < 8 && 0 <= length
        invariant 0 <= bitBuffer < Pow2(if bitIndex > 0 then bitIndex else 0)
        invariant length + (bitIndex + 7) / 8 == old(Length())
        invariant buffer[..length] + LittleEndianBytes(bitBuffer, (bitIndex + 7) / 8) == data
        invariant forall i | old(Length()) <= i < buffer.Length :: buffer[i] == old(buffer[i])
        decreases bitIndex
      {
        EmitLowByte();
      }
      bitIndex := 0;
      DataIsStream();
    }

    /** FlushBits: moves every whole byte of pending bits into the buffer. */
    method FlushBits()
      requires Pending()
      modifies this, buffer
      ensures Valid() && buffer == old(buffer)
      ensures Data() == old(Data()) && Stream() == old(Stream()) && BitCount() == old(BitCount())
    {
      ghost var data := Data();
      DataIsStream();
      while bitIndex >= 8
        invariant buffer == old(buffer)
        invariant 0 <= bitIndex <= 64 && 0 <= length
        invariant 0 <= bitBuffer < Pow2(bitIndex)
        invariant length + (bitIndex + 7) / 8 == old(Length())
        invariant buffer[..length] + LittleEndianBytes(bitBuffer, (bitIndex + 7) / 8) == data
        invariant 8 * length + bitIndex == old(BitCount())
        decreases bitIndex
      {
        EmitLowByte();
      }
      DataIsStream();
    }

    /**
     * WriteRawBitsInternal: places numbits bits of value above the pending
     * ones. The source's range checks are its callers' obligations here.
     */
    method WriteRawBitsInternal(value: int, numbits: int)
      requires Pending() && 0 <= numbits <= 32 && 0 <= value < Pow2(numbits)
      requires bitIndex + numbits <= 64 && length + (bitIndex + numbits + 7) / 8 <= buffer.Length
      modifies this
      ensures Pending() && buffer == old(buffer) && length == old(length)
      ensures bitIndex == old(bitIndex) + numbits
      ensures bitBuffer == old(bitBuffer) + Scaled(value, old(bitIndex))
      ensures buffer[..] == old(buffer[..])
    {
      AppendFits(bitBuffer, value, bitIndex, numbits);
      ScaledIsProduct(value, bitIndex);
      bitBuffer := bitBuffer + value * Pow2(bitIndex);
      bitIndex := bitIndex + numbits;
    }

    /** The two raw writes and the flush of WritePackedUInt: a code of len bits, then off in bits bits. */
    method WriteCodeAndOffset(code: int, len: int, off: int, bits: int, ghost written: int)
      requires Valid() && 0 <= len <= 32 && 0 <= code < Pow2(len) && 0 <= bits <= 32 && 0 <= off < Pow2(bits)
      requires len + bits <= 56 && PackedWriteFits(length, bitIndex, len + bits, buffer.Length)
      requires written == code + Scaled(off, len)
      modifies this, buffer
      ensures Valid() && buffer == old(buffer)
      ensures Stream() == old(Stream()) + Scaled(written, old(BitCount()))
      ensures BitCount() == old(BitCount()) + len + bits
    {
      ghost var before, count := Stream(), BitCount();
      ghost var flushed, bb, bi := buffer[..length], bitBuffer, bitIndex;
      WriteRawBitsInternal(code, len);
      WriteRawBitsInternal(off, bits);
      WrittenStream(before, count, written, flushed, bb, code, off, len, bi);
      FlushBits();
    }

    /** The stream once code and off are placed above bb's bits, in front of the flushed bytes. */
    lemma WrittenStream(before: int, count: nat, written: int, flushed: seq<byte>, bb: int, code: int, off: int, len: nat, bi: nat)
      requires Pending() && buffer[..length] == flushed && bitBuffer == bb + Scaled(code, bi) + Scaled(off, bi + len)
      requires before == LittleEndian(flushed) + Scaled(bb, 8 * length)
      requires count == 8 * length + bi && written == code + Scaled(off, len)
      ensures Stream() == before + Scaled(written, count)
    {
      TwoAppends(LittleEndian(flushed), bb, code, off, len, bi, length);
    }

    /**
     * WritePackedUInt: appends the value's bucket code and its offset inside
     * the bucket, with the capacity check the source intends.
     */
    method WritePackedUInt(value: uint, model: NetworkCompressionModel) returns (ok: bool)
      requires Valid() && CodesFit(model) && BucketsCover(model)
      modifies this, buffer
      ensures Valid() && buffer == old(buffer)
      ensures ok <==> PackedWriteFits(old(length), old(bitIndex), PackedCount(model, value), buffer.Length)
      ensures !ok ==> length == old(length) && bitIndex == old(bitIndex) && bitBuffer == old(bitBuffer)
      ensures !ok ==> buffer[..] == old(buffer[..])
      ensures ok ==> Stream() == old(Stream()) + Scaled(PackedBits(model, value), old(BitCount()))
      ensures ok ==> BitCount() == old(BitCount()) + PackedCount(model, value)
      ensures ok ==> Length() == old(length) + (old(bitIndex) + PackedCount(model, value) + 7) / 8
    {
      var bucket := CalculateBucket(model, value);
      PackedEntry(model, value);
      var bits := model.bucketSizes[bucket] as int;
      var encodeEntry := model.encodeTable[bucket] as int;
      if length + (bitIndex + encodeEntry % 256 + bits + 7) / 8 > buffer.Length {
        return false;
      }
      WriteBucketEntry(model, value, bucket);
      ok := true;
    }

    /** The write half of WritePackedUInt: the bucket's code, then the offset inside the bucket. */
    method WriteBucketEntry(model: NetworkCompressionModel, value: uint, bucket: int)
      requires Valid() && CodesFit(model) && BucketsCover(model) && bucket == PackedBucket(model, value)
      requires PackedWriteFits(length, bitIndex, PackedCount(model, value), buffer.Length)
      modifies this, buffer
      ensures Valid() && buffer == old(buffer)
      ensures Stream() == old(Stream()) + Scaled(PackedBits(model, value), old(BitCount()))
      ensures BitCount() == old(BitCount()) + PackedCount(model, value)
    {
      PackedEntry(model, value);
      var offset := model.bucketOffsets[bucket];
      var bits := model.bucketSizes[bucket] as int;
      var encodeEntry := model.encodeTable[bucket] as int;
      WriteCodeAndOffset(encodeEntry / 256, encodeEntry % 256, value - offset, bits, PackedBits(model, value));
    }

    /** WritePackedInt: the zig-zag interleaved value, packed. */
    method WritePackedInt(value: int32, model: NetworkCompressionModel) returns (ok: bool)
      requires Valid() && CodesFit(model) && BucketsCover(model)
      modifies this, buffer
      ensures Valid() && buffer == old(buffer)
      ensures ok <==> PackedWriteFits(old(length), old(bitIndex), PackedCount(model, ZigZag(value)), buffer.Length)
      ensures !ok ==> length == old(length) && bitIndex == old(bitIndex) && bitBuffer == old(bitBuffer)
      ensures ok ==> Stream() == old(Stream()) + Scaled(PackedBits(model, ZigZag(value)), old(BitCount()))
      ensures ok ==> BitCount() == old(BitCount()) + PackedCount(model, ZigZag(value))
    {
      ok := WritePackedUInt(ZigZag(value), model);
    }

    /** WritePackedUIntDelta: the difference from the baseline, packed as a signed value. */
    method WritePackedUIntDelta(value: uint, baseline: uint, model: NetworkCompressionModel) returns (ok: bool)
      requires Valid() && CodesFit(model) && BucketsCover(model)
      modifies this, buffer
      ensures Valid() && buffer == old(buffer)
      ensures ok <==> PackedWriteFits(old(length), old(bitIndex), PackedCount(model, ZigZag(UIntDelta(value, baseline))), buffer.Length)
      ensures ok ==> Stream() == old(Stream()) + Scaled(PackedBits(model, ZigZag(UIntDelta(value, baseline))), old(BitCount()))
      ensures ok ==> BitCount() == old(BitCount()) + PackedCount(model, ZigZag(UIntDelta(value, baseline)))
    {
      ok := WritePackedInt(UIntDelta(value, baseline), model);
    }

    /** WritePackedIntDelta: the difference from the baseline, packed as a signed value. */
    method WritePackedIntDelta(value: int32, baseline: int32, model: NetworkCompressionModel) returns (ok: bool)
      requires Valid() && CodesFit(model) && BucketsCover(model)
      modifies this, buffer
      ensures Valid() && buffer == old(buffer)
      ensures ok <==> PackedWriteFits(old(length), old(bitIndex), PackedCount(model, ZigZag(IntDelta(value, baseline))), buffer.Length)
      ensures ok ==> Stream() == old(Stream()) + Scaled(PackedBits(model, ZigZag(IntDelta(value, baseline))), old(BitCount()))
      ensures ok ==> BitCount() == old(BitCount()) + PackedCount(model, ZigZag(IntDelta(value, baseline)))
    {
      ok := WritePackedInt(IntDelta(value, baseline), model);
    }

    /**
     * WriteBytes: flushes the pending bits and copies the bytes after them,
     * refusing a write beyond the capacity.
     */
    method WriteBytes(data: seq<byte>) returns (ok: bool)
      requires Valid()
      modifies this, buffer
      ensures Valid() && buffer == old(buffer)
      ensures ok <==> old(Length()) + |data| <= buffer.Length
      ensures !ok ==> length == old(length) && bitIndex == old(bitIndex) && bitBuffer == old(bitBuffer)
      ensures !ok ==> buffer[..] == old(buffer[..])
      ensures ok ==> Data() == old(Data()) + data && bitIndex == 0
      ensures ok ==> forall i | old(Length()) + |data| <= i < buffer.Length :: buffer[i] == old(buffer[i])
    {
      if Length() + |data| > buffer.Length {
        return false;
      }
      ghost var before := Data();
      Flush();
      ghost var flushed := buffer[..length];
      assert flushed == before;
      forall i | 0 <= i < |data| {
        buffer[length + i] := data[i];
      }
      assert buffer[..length + |data|] == flushed + data;
      length := length + |data|;
      ok := true;
    }

    /** Write(byte[], length): the first length bytes of the array, or all of it when length is negative. */
    method WriteArray(value: seq<byte>, count: int) returns (ok: bool)
      requires Valid() && count <= |value|
      modifies this, buffer
      ensures Valid() && buffer == old(buffer)
      ensures var n := if count < 0 then |value| else count;
        (ok <==> old(Length()) + n <= buffer.Length) && (ok ==> Data() == old(Data()) + value[..n])
    {
      var n := if count < 0 then |value| else count;
      ok := WriteBytes(value[..n]);
    }

    /** Write(byte): one byte; the mark is where it went, for a later UpdateByte. */
    method WriteByte(value: byte) returns (ok: bool, mark: int)
      requires Valid()
      modifies this, buffer
      ensures Valid() && buffer == old(buffer) && mark == old(Length())
      ensures ok <==> old(Length()) + 1 <= buffer.Length
      ensures ok ==> Data() == old(Data()) + [value] && bitIndex == 0
    {
      mark := Length();
      ok := WriteBytes([value]);
    }

    /** Write(ushort): two bytes in host (little-endian) order. */
    method WriteUShort(value: ushort) returns (ok: bool, mark: int)
      requires Valid()
      modifies this, buffer
      ensures Valid() && buffer == old(buffer) && mark == old(Length())
      ensures ok <==> old(Length()) + 2 <= buffer.Length
      ensures ok ==> Data() == old(Data()) + [value % 256, value / 256]
      ensures !ok ==> Data() == old(Data())
    {
      mark := Length();
      ok := WriteBytes(LittleEndianBytes(value, 2));
    }

    /** Write(uint): four bytes in host (little-endian) order. */
    method WriteUInt(value: uint) returns (ok: bool, mark: int)
      requires Valid()
      modifies this, buffer
      ensures Valid() && buffer == old(buffer) && mark == old(Length())
      ensures ok <==> old(Length()) + 4 <= buffer.Length
      ensures ok ==> Data() == old(Data()) + LittleEndianBytes(value, 4)
      ensures ok ==> LittleEndian(Data()[mark..mark + 4]) == value
    {
      mark := Length();
      var bytes := LittleEndianBytes(value, 4);
      LittleEndianOfBytes(value, 4);
      Pow2Bytes();
      assert LittleEndian(bytes) == value;
      ok := WriteBytes(bytes);
      if ok {
        assert Data()[mark..mark + 4] == bytes;
      }
    }

    /** WriteNetworkByteOrder(ushort): two bytes, most significant first. */
    method WriteUShortNetworkByteOrder(value: ushort) returns (ok: bool, mark: int)
      requires Valid()
      modifies this, buffer
      ensures Valid() && buffer == old(buffer) && mark == old(Length())
      ensures ok <==> old(Length()) + 2 <= buffer.Length
      ensures ok ==> Data() == old(Data()) + [value / 256, value % 256] && bitIndex == 0
    {
      mark := Length();
      Digits2(value / 256, value % 256);
      ok := WriteBytes(LittleEndianBytes(ByteSwap16(value), 2));
    }

    /** WriteNetworkByteOrder(uint): four bytes, most significant first. */
    method WriteUIntNetworkByteOrder(value: uint) returns (ok: bool, mark: int)
      requires Valid()
      modifies this, buffer
      ensures Valid() && buffer == old(buffer) && mark == old(Length())
      ensures ok <==> old(Length()) + 4 <= buffer.Length
      ensures ok ==> Data() == old(Data()) + [value / 0x100_0000, value / 0x1_0000 % 256, value / 256 % 256, value % 256] && bitIndex == 0
    {
      mark := Length();
      NetworkOrderBytes32(value);
      ok := WriteBytes(LittleEndianBytes(ByteSwap32(value), 4));
    }

    /**
     * The Update of every Deferred* mark: rewrites bytes at an earlier write
     * position and restores the write position. It is refused while bits are
     * pending; when the rewrite would pass the capacity the source throws with
     * the write position left at the mark, and so does this model.
     */
    method UpdateAt(offset: int, bytes: seq<byte>) returns (ok: bool)
      requires Valid() && 0 <= offset <= length
      modifies this, buffer
      ensures Valid() && buffer == old(buffer)
      ensures ok <==> old(bitIndex) == 0 && offset + |bytes| <= buffer.Length
      ensures old(bitIndex) != 0 ==> length == old(length) && bitIndex == old(bitIndex) && bitBuffer == old(bitBuffer)
      ensures !ok ==> buffer[..] == old(buffer[..])
      ensures old(bitIndex) == 0 && !ok ==> length == offset
      ensures ok ==> length == old(length) && bitIndex == 0
      ensures ok ==> buffer[..] == old(buffer[..])[..offset] + bytes + old(buffer[..])[offset + |bytes|..]
      ensures ok && offset + |bytes| <= old(length) ==> Data() == old(Data())[..offset] + bytes + old(Data())[offset + |bytes|..]
    {
      if bitIndex != 0 {
        return false;
      }
      ghost var before := buffer[..];
      var oldOffset := length;
      length := offset;
      assert Data() == before[..offset];
      ok := WriteBytes(bytes);
      if ok {
        assert Data() == buffer[..length];
        assert buffer[..offset + |bytes|] == before[..offset] + bytes;
        assert buffer[..] == before[..offset] + bytes + before[offset + |bytes|..];
        length := oldOffset;
      }
    }

    /** DeferredByte.Update. */
    method UpdateByte(mark: int, value: byte) returns (ok: bool)
      requires Valid() && 0 <= mark <= length
      modifies this, buffer
      ensures Valid() && buffer == old(buffer)
      ensures ok <==> old(bitIndex) == 0 && mark + 1 <= buffer.Length
      ensures ok && mark + 1 <= old(length) ==> Data() == old(Data())[mark := value]
    {
      ok := UpdateAt(mark, [value]);
      if ok && mark + 1 <= old(length) {
        assert Data() == old(Data())[mark := value];
      }
    }

    /** DeferredUShort.Update. */
    method UpdateUShort(mark: int, value: ushort) returns (ok: bool)
      requires Valid() && 0 <= mark <= length
      modifies this, buffer
      ensures Valid() && buffer == old(buffer)
      ensures ok <==> old(bitIndex) == 0 && mark + 2 <= buffer.Length
      ensures ok ==> length == old(length) && bitIndex == 0
      ensures ok && mark + 2 <= old(length) ==> Data() == old(Data())[..mark] + [value % 256, value / 256] + old(Data())[mark + 2..]
    {
      ok := UpdateAt(mark, LittleEndianBytes(value, 2));
    }

    /** DeferredUInt.Update. */
    method UpdateUInt(mark: int, value: uint) returns (ok: bool)
      requires Valid() && 0 <= mark <= length
      modifies this, buffer
      ensures Valid() && buffer == old(buffer)
      ensures ok <==> old(bitIndex) == 0 && mark + 4 <= buffer.Length
      ensures ok ==> length == old(length) && bitIndex == 0
      ensures ok && mark + 4 <= old(length) ==> Data() == old(Data())[..mark] + LittleEndianBytes(value, 4) + old(Data())[mark + 4..]
    {
      ok := UpdateAt(mark, LittleEndianBytes(value, 4));
    }

    /** DeferredUShortNetworkByteOrder.Update. */
    method UpdateUShortNetworkByteOrder(mark: int, value: ushort) returns (ok: bool)
      requires Valid() && 0 <= mark <= length
      modifies this, buffer
      ensures Valid() && buffer == old(buffer)
      ensures ok <==> old(bitIndex) == 0 && mark + 2 <= buffer.Length
      ensures ok ==> length == old(length) && bitIndex == 0
      ensures ok && mark + 2 <= old(length) ==> Data() == old(Data())[..mark] + [value / 256, value % 256] + old(Data())[mark + 2..]
    {
      Digits2(value / 256, value % 256);
      ok := UpdateAt(mark, LittleEndianBytes(ByteSwap16(value), 2));
    }

    /** DeferredUIntNetworkByteOrder.Update. */
    method UpdateUIntNetworkByteOrder(mark: int, value: uint) returns (ok: bool)
      requires Valid() && 0 <= mark <= length
      modifies this, buffer
      ensures Valid() && buffer == old(buffer)
      ensures ok <==> old(bitIndex) == 0 && mark + 4 <= buffer.Length
      ensures ok ==> length == old(length) && bitIndex == 0
      ensures ok && mark + 4 <= old(length) ==>
        Data() == old(Data())[..mark] + [value / 0x100_0000, value / 0x1_0000 % 256, value / 256 % 256, value % 256] + old(Data())[mark + 4..]
    {
      NetworkOrderBytes32(value);
      ok := UpdateAt(mark, LittleEndianBytes(ByteSwap32(value), 4));
    }

    /** Clear: moves the write position back to the start and drops the pending bits. */
    method Clear()
      requires Valid()
      modifies this
      ensures Valid() && buffer == old(buffer)
      ensures Data() == [] && BitCount() == 0 && Stream() == 0
    {
      length := 0;
      bitIndex := 0;
      bitBuffer := 0;
    }
  }

  // ---------------------------------------------------------------------------
  // Reading bits

  /** Taking in the next byte above the pending bits changes neither the unread bits nor their count. */
  lemma FillStep(rest: seq<byte>, bitBuffer: int, bitIndex: nat)
    requires |rest| >= 1 && 0 <= bitBuffer < Pow2(bitIndex)
    ensures 0 <= bitBuffer + rest[0] * Pow2(bitIndex) < Pow2(bitIndex + 8)
    ensures bitBuffer + LittleEndian(rest) * Pow2(bitIndex)
      == (bitBuffer + rest[0] * Pow2(bitIndex)) + LittleEndian(rest[1..]) * Pow2(bitIndex + 8)
  {
    Pow2Bytes();
    AppendFits(bitBuffer, rest[0], bitIndex, 8);
    Pow2Add(bitIndex, 8);
    NextDigit(bitBuffer, rest[0], LittleEndian(rest[1..]), Pow2(bitIndex));
  }

  lemma NextDigit(x: int, d: int, l: int, p: int)
    ensures x + (d + 256 * l) * p == (x + d * p) + l * (p * 256)
  {
  }

  /** Splitting off the lowest n of bitIndex pending bits, with more bits above them. */
  lemma ConsumeBits(bitBuffer: int, rest: int, bitIndex: nat, n: nat)
    requires n <= bitIndex && 0 <= bitBuffer < Pow2(bitIndex) && rest >= 0
    ensures 0 <= bitBuffer / Pow2(n) < Pow2(bitIndex - n)
    ensures (bitBuffer + rest * Pow2(bitIndex)) % Pow2(n) == bitBuffer % Pow2(n)
    ensures (bitBuffer + rest * Pow2(bitIndex)) / Pow2(n) == bitBuffer / Pow2(n) + rest * Pow2(bitIndex - n)
  {
    Pow2Add(n, bitIndex - n);
    SplitLow(bitBuffer, rest, Pow2(n), Pow2(bitIndex - n));
  }

  /** ConsumeBits for arbitrary positive radices. */
  lemma SplitLow(x: int, rest: int, pn: int, pm: int)
    requires pn > 0 && pm > 0 && 0 <= x < pn * pm
    ensures 0 <= x / pn < pm
    ensures (x + rest * (pn * pm)) % pn == x % pn
    ensures (x + rest * (pn * pm)) / pn == x / pn + rest * pm
  {
    DivBelow(x, pm, pn);
    assert x + rest * (pn * pm) == pn * (x / pn + rest * pm) + x % pn;
    DivUnique(x + rest * (pn * pm), pn, x / pn + rest * pm, x % pn);
  }

  /** FillBitBuffer stops above 56 bits or when the input is exhausted. */
  lemma {:induction false} FillLevelEnough(bitIndex: int, bytesLeft: int)
    requires bytesLeft >= 0
    ensures FillLevel(bitIndex, bytesLeft) > 56 || FillLevel(bitIndex, bytesLeft) == bitIndex + 8 * bytesLeft
    decreases bytesLeft
  {
    if bitIndex <= 56 && bytesLeft > 0 {
      FillLevelEnough(bitIndex + 8, bytesLeft - 1);
    }
  }

  /**
   * Reading back a packed value: when the unread bits start with the value's
   * packed bits and at least that many bits remain, ReadPackedUInt's decode
   * after filling the bit buffer gives the value and consumes its bits.
   */
  lemma PackedReadBack(model: NetworkCompressionModel, value: uint, rest: int, bitIndex: int, bytesLeft: int)
    requires ValidModel(model) && rest >= 0 && bytesLeft >= 0
    requires bitIndex + 8 * bytesLeft >= PackedCount(model, value)
    ensures DecodePacked(model, PackedBits(model, value) + rest * Pow2(PackedCount(model, value)), FillLevel(bitIndex, bytesLeft))
         == Some((value, PackedCount(model, value)))
  {
    PackedFits(model, value);
    FillLevelEnough(bitIndex, bytesLeft);
    PackedRoundTrip(model, value, rest, FillLevel(bitIndex, bytesLeft));
  }

  // ---------------------------------------------------------------------------
  // The reader

  /** DataStreamReader.Context: the read position, updated in place by every read. */
  class ReaderContext {
    var readByteIndex: int
    var bitIndex: int
    var bitBuffer: int

    /** default(Context): nothing read yet. */
    constructor ()
      ensures readByteIndex == 0 && bitIndex == 0 && bitBuffer == 0
    {
      readByteIndex := 0;
      bitIndex := 0;
      bitBuffer := 0;
    }
  }

  /** DataStreamReader: read-only access to a range of bytes, walked with a context. */
  datatype DataStreamReader = DataStreamReader(data: seq<byte>)
  {
    /** A context within the data whose bit buffer holds at most 64 bits, all below its bit index. */
    ghost predicate ValidContext(ctx: ReaderContext)
      reads ctx
    {
      && 0 <= ctx.readByteIndex <= |data|
      && 0 <= ctx.bitIndex <= 64 && ctx.bitIndex <= 8 * ctx.readByteIndex
      && 0 <= ctx.bitBuffer < Pow2(ctx.bitIndex)
    }

    /** The bits not yet consumed as one number, the next bit lowest: the bit buffer, then the unread bytes. */
    ghost function Unread(ctx: ReaderContext): int
      reads ctx
      requires ValidContext(ctx)
    {
      ctx.bitBuffer + LittleEndian(data[ctx.readByteIndex..]) * Pow2(ctx.bitIndex)
    }

    /** The unread bits form a natural number. */
    lemma UnreadNonNegative(ctx: ReaderContext)
      requires ValidContext(ctx)
      ensures Unread(ctx) >= 0
    {
      LittleEndianBound(data[ctx.readByteIndex..]);
      MulMonotone(0, LittleEndian(data[ctx.readByteIndex..]), Pow2(ctx.bitIndex));
    }

    /** The number of bits not yet consumed. */
    ghost function Available(ctx: ReaderContext): int
      reads ctx
    {
      ctx.bitIndex + 8 * (|data| - ctx.readByteIndex)
    }

    /** How many bits the bit buffer holds once FillBitBuffer has run. */
    ghost function Filled(ctx: ReaderContext): int
      reads ctx
    {
      FillLevel(ctx.bitIndex, |data| - ctx.readByteIndex)
    }

    /** A fresh context sees the whole data. */
    lemma FreshContext(ctx: ReaderContext)
      requires ctx.readByteIndex == 0 && ctx.bitIndex == 0 && ctx.bitBuffer == 0
      ensures ValidContext(ctx)
      ensures Unread(ctx) == LittleEndian(data) && Available(ctx) == 8 * |data|
    {
      assert data[0..] == data;
    }

    /** GetBitsRead: the bits consumed so far. */
    function GetBitsRead(ctx: ReaderContext): (n: int)
      reads ctx
      requires ValidContext(ctx)
      ensures 0 <= n && n + Available(ctx) == 8 * |data|
    {
      ctx.readByteIndex * 8 - ctx.bitIndex
    }

    /** GetBytesRead: the bytes consumed so far, a partly consumed byte counting as a whole one. */
    function GetBytesRead(ctx: ReaderContext): (n: int)
      reads ctx
      requires ValidContext(ctx)
      ensures 0 <= n <= |data|
      ensures GetBitsRead(ctx) <= 8 * n < GetBitsRead(ctx) + 8
    {
      ctx.readByteIndex - ctx.bitIndex / 8
    }

    /**
     * ReadBytes: gives back the whole bytes still in the bit buffer, drops a
     * partly consumed byte, and copies the next length bytes.
     */
    method ReadBytes(ctx: ReaderContext, length: int) returns (ok: bool, bytes: seq<byte>)
      requires ValidContext(ctx) && length >= 0
      modifies ctx
      ensures ValidContext(ctx)
      ensures ok <==> old(GetBytesRead(ctx)) + length <= |data|
      ensures !ok ==> ctx.readByteIndex == old(ctx.readByteIndex) && ctx.bitIndex == old(ctx.bitIndex) && ctx.bitBuffer == old(ctx.bitBuffer)
      ensures ok ==> bytes == data[old(GetBytesRead(ctx))..old(GetBytesRead(ctx)) + length]
      ensures ok ==> ctx.readByteIndex == old(GetBytesRead(ctx)) + length && ctx.bitIndex == 0 && ctx.bitBuffer == 0
    {
      if GetBytesRead(ctx) + length > |data| {
        return false, [];
      }
      ctx.readByteIndex := ctx.readByteIndex - ctx.bitIndex / 8;
      ctx.bitIndex := 0;
      ctx.bitBuffer := 0;
      bytes := data[ctx.readByteIndex..ctx.readByteIndex + length];
      ctx.readByteIndex := ctx.readByteIndex + length;
      ok := true;
    }

    /** ReadByte. */
    method ReadByte(ctx: ReaderContext) returns (ok: bool, value: byte)
      requires ValidContext(ctx)
      modifies ctx
      ensures ValidContext(ctx)
      ensures ok <==> old(GetBytesRead(ctx)) + 1 <= |data|
      ensures ok ==> value == data[old(GetBytesRead(ctx))] && GetBytesRead(ctx) == old(GetBytesRead(ctx)) + 1
      ensures ok ==> ctx.bitIndex == 0
    {
      var bytes;
      ok, bytes := ReadBytes(ctx, 1);
      value := if ok then bytes[0] else 0;
    }

    /** ReadUShort: two bytes in host (little-endian) order. */
    method ReadUShort(ctx: ReaderContext) returns (ok: bool, value: ushort)
      requires ValidContext(ctx)
      modifies ctx
      ensures ValidContext(ctx)
      ensures ok <==> old(GetBytesRead(ctx)) + 2 <= |data|
      ensures ok ==> value == LittleEndian(data[old(GetBytesRead(ctx))..old(GetBytesRead(ctx)) + 2])
      ensures ok ==> GetBytesRead(ctx) == old(GetBytesRead(ctx)) + 2
    {
      var bytes;
      ok, bytes := ReadBytes(ctx, 2);
      value := 0;
      if ok {
        LittleEndianBound(bytes);
        Pow2Bytes();
        value := LittleEndian(bytes);
      }
    }

    /** ReadUInt: four bytes in host (little-endian) order. */
    method ReadUInt(ctx: ReaderContext) returns (ok: bool, value: uint)
      requires ValidContext(ctx)
      modifies ctx
      ensures ValidContext(ctx)
      ensures ok <==> old(GetBytesRead(ctx)) + 4 <= |data|
      ensures ok ==> value == LittleEndian(data[old(GetBytesRead(ctx))..old(GetBytesRead(ctx)) + 4])
      ensures ok ==> GetBytesRead(ctx) == old(GetBytesRead(ctx)) + 4
    {
      var bytes;
      ok, bytes := ReadBytes(ctx, 4);
      value := 0;
      if ok {
        LittleEndianBound(bytes);
        Pow2Bytes();
        value := LittleEndian(bytes);
      }
    }

    /** ReadUShortNetworkByteOrder: two bytes, most significant first. */
    method ReadUShortNetworkByteOrder(ctx: ReaderContext) returns (ok: bool, value: ushort)
      requires ValidContext(ctx)
      modifies ctx
      ensures ValidContext(ctx)
      ensures ok <==> old(GetBytesRead(ctx)) + 2 <= |data|
      ensures ok ==> value == 256 * data[old(GetBytesRead(ctx))] as int + data[old(GetBytesRead(ctx)) + 1] as int
      ensures ok ==> GetBytesRead(ctx) == old(GetBytesRead(ctx)) + 2
    {
      ghost var start := GetBytesRead(ctx);
      var host;
      ok, host := ReadUShort(ctx);
      value := ByteSwap16(host);
      if ok {
        SwappedPair(data[start..start + 2]);
      }
    }

    /** ReadUIntNetworkByteOrder: four bytes, most significant first. */
    method ReadUIntNetworkByteOrder(ctx: ReaderContext) returns (ok: bool, value: uint)
      requires ValidContext(ctx)
      modifies ctx
      ensures ValidContext(ctx)
      ensures ok <==> old(GetBytesRead(ctx)) + 4 <= |data|
      ensures ok ==> var i := old(GetBytesRead(ctx));
        value == 0x100_0000 * data[i] as int + 0x1_0000 * data[i + 1] as int + 256 * data[i + 2] as int + data[i + 3] as int
      ensures ok ==> GetBytesRead(ctx) == old(GetBytesRead(ctx)) + 4
    {
      ghost var start := GetBytesRead(ctx);
      var host;
      ok, host := ReadUInt(ctx);
      value := ByteSwap32(host);
      if ok {
        var b := data[start..start + 4];
        LittleEndian4(b);
        Digits4(b[0], b[1], b[2], b[3]);
      }
    }

    /** ReadBytesIntoArray: length bytes, one ReadByte at a time. */
    method ReadBytesIntoArray(ctx: ReaderContext, dest: array<byte>, length: int) returns (ok: bool)
      requires ValidContext(ctx) && 0 <= length <= dest.Length
      modifies ctx, dest
      ensures ValidContext(ctx)
      ensures ok <==> old(GetBytesRead(ctx)) + length <= |data|
      ensures ok ==> dest[..length] == data[old(GetBytesRead(ctx))..old(GetBytesRead(ctx)) + length]
      ensures ok ==> GetBytesRead(ctx) == old(GetBytesRead(ctx)) + length
      ensures forall j | length <= j < dest.Length :: dest[j] == old(dest[j])
    {
      ghost var start := GetBytesRead(ctx);
      var i := 0;
      while i < length
        invariant 0 <= i <= length && ValidContext(ctx)
        invariant GetBytesRead(ctx) == start + i
        invariant dest[..i] == data[start..start + i]
        invariant forall j | i <= j < dest.Length :: dest[j] == old(dest[j])
      {
        var b;
        ok, b := ReadByte(ctx);
        if !ok {
          return;
        }
        dest[i] := b;
        i := i + 1;
      }
      ok := true;
    }

    /** ReadBytesAsArray: a new array of the next length bytes. */
    method ReadBytesAsArray(ctx: ReaderContext, length: int) returns (ok: bool, bytes: array<byte>)
      requires ValidContext(ctx) && length >= 0
      modifies ctx
      ensures ValidContext(ctx) && fresh(bytes) && bytes.Length == length
      ensures ok <==> old(GetBytesRead(ctx)) + length <= |data|
      ensures ok ==> bytes[..] == data[old(GetBytesRead(ctx))..old(GetBytesRead(ctx)) + length]
    {
      bytes := new byte[length];
      ok := ReadBytesIntoArray(ctx, bytes, length);
      assert bytes[..] == bytes[..length];
    }

    /** FillBitBuffer: moves whole bytes into the bit buffer while at most 56 bits are pending. */
    method FillBitBuffer(ctx: ReaderContext)
      requires ValidContext(ctx)
      modifies ctx
      ensures ValidContext(ctx)
      ensures Unread(ctx) == old(Unread(ctx)) && Available(ctx) == old(Available(ctx))
      ensures ctx.bitIndex == old(Filled(ctx))
      ensures ctx.bitIndex > 56 || ctx.readByteIndex == |data|
    {
      while ctx.bitIndex <= 56 && ctx.readByteIndex < |data|
        invariant ValidContext(ctx)
        invariant Unread(ctx) == old(Unread(ctx)) && Available(ctx) == old(Available(ctx))
        invariant Filled(ctx) == old(Filled(ctx))
        decreases |data| - ctx.readByteIndex
      {
        var rest := data[ctx.readByteIndex..];
        FillStep(rest, ctx.bitBuffer, ctx.bitIndex);
        assert rest[1..] == data[ctx.readByteIndex + 1..];
        ctx.bitBuffer := ctx.bitBuffer + data[ctx.readByteIndex] * Pow2(ctx.bitIndex);
        ctx.readByteIndex := ctx.readByteIndex + 1;
        ctx.bitIndex := ctx.bitIndex + 8;
      }
    }

    /** ReadRawBitsInternal: the next numbits bits, refused when they are not all in the bit buffer. */
    method ReadRawBitsInternal(ctx: ReaderContext, numbits: int) returns (ok: bool, res: uint)
      requires ValidContext(ctx)
      modifies ctx
      ensures ValidContext(ctx)
      ensures ok <==> 0 <= numbits <= 32 && numbits <= old(ctx.bitIndex)
      ensures !ok ==> ctx.readByteIndex == old(ctx.readByteIndex) && ctx.bitIndex == old(ctx.bitIndex) && ctx.bitBuffer == old(ctx.bitBuffer)
      ensures ok ==> res == old(Unread(ctx)) % Pow2(numbits)
      ensures ok ==> Unread(ctx) == old(Unread(ctx)) / Pow2(numbits)
      ensures ok ==> Available(ctx) == old(Available(ctx)) - numbits && ctx.readByteIndex == old(ctx.readByteIndex)
    {
      if numbits < 0 || numbits > 32 || ctx.bitIndex < numbits {
        return false, 0;
      }
      var rest := LittleEndian(data[ctx.readByteIndex..]);
      LittleEndianBound(data[ctx.readByteIndex..]);
      ConsumeBits(ctx.bitBuffer, rest, ctx.bitIndex, numbits);
      Pow2Monotone(numbits, 32);
      Pow2Bytes();
      res := ctx.bitBuffer % Pow2(numbits);
      ctx.bitBuffer := ctx.bitBuffer / Pow2(numbits);
      ctx.bitIndex := ctx.bitIndex - numbits;
      ok := true;
    }

    /** The first six unread bits are in the bit buffer once FillBitBuffer has run. */
    lemma PeekAfterFill(ctx: ReaderContext)
      requires ValidContext(ctx) && (ctx.bitIndex > 56 || ctx.readByteIndex == |data|)
      ensures ctx.bitBuffer % 64 == Unread(ctx) % 64
    {
      var rest := LittleEndian(data[ctx.readByteIndex..]);
      LittleEndianBound(data[ctx.readByteIndex..]);
      assert Pow2(6) == 64;
      if ctx.bitIndex >= 6 {
        ConsumeBits(ctx.bitBuffer, rest, ctx.bitIndex, 6);
      } else {
        assert data[ctx.readByteIndex..] == [];
      }
    }

    /** Dropping the lowest n bits of the bit buffer. */
    method SkipBits(ctx: ReaderContext, n: int)
      requires ValidContext(ctx) && 0 <= n <= ctx.bitIndex
      modifies ctx
      ensures ValidContext(ctx) && ctx.readByteIndex == old(ctx.readByteIndex)
      ensures Unread(ctx) == old(Unread(ctx)) / Pow2(n) && Available(ctx) == old(Available(ctx)) - n
    {
      var rest := LittleEndian(data[ctx.readByteIndex..]);
      LittleEndianBound(data[ctx.readByteIndex..]);
      ConsumeBits(ctx.bitBuffer, rest, ctx.bitIndex, n);
      ctx.bitBuffer := ctx.bitBuffer / Pow2(n);
      ctx.bitIndex := ctx.bitIndex - n;
    }

    /**
     * ReadPackedUInt: fills the bit buffer, looks the next six bits up in the
     * decode table, skips the symbol's code and reads the bucket offset. It
     * fails (the source throws) when the code or the offset is not all
     * in the bit buffer.
     */
    method ReadPackedUInt(ctx: ReaderContext, model: NetworkCompressionModel) returns (ok: bool, value: uint)
      requires ValidContext(ctx) && |model.decodeTable| == Pow2(MaxHuffmanSymbolLength) && |model.bucketSizes| == |model.bucketOffsets|
      modifies ctx
      ensures ValidContext(ctx)
      ensures ok <==> DecodePacked(model, old(Unread(ctx)), old(Filled(ctx))).Some?
      ensures ok ==> DecodePacked(model, old(Unread(ctx)), old(Filled(ctx))) == Some((value, old(Available(ctx)) - Available(ctx)))
      ensures ok ==> Unread(ctx) == old(Unread(ctx)) / Pow2(old(Available(ctx)) - Available(ctx))
    {
      FillBitBuffer(ctx);
      ok, value := DecodeBuffered(ctx, model);
    }

    /** ReadPackedUInt once the bit buffer is filled: the code, then the bucket offset. */
    method DecodeBuffered(ctx: ReaderContext, model: NetworkCompressionModel) returns (ok: bool, value: uint)
      requires ValidContext(ctx) && |model.decodeTable| == Pow2(MaxHuffmanSymbolLength) && |model.bucketSizes| == |model.bucketOffsets|
      requires ctx.bitIndex > 56 || ctx.readByteIndex == |data|
      modifies ctx
      ensures ValidContext(ctx)
      ensures ok <==> DecodePacked(model, old(Unread(ctx)), old(ctx.bitIndex)).Some?
      ensures ok ==> DecodePacked(model, old(Unread(ctx)), old(ctx.bitIndex)) == Some((value, old(Available(ctx)) - Available(ctx)))
      ensures ok ==> Unread(ctx) == old(Unread(ctx)) / Pow2(old(Available(ctx)) - Available(ctx))
    {
      ghost var unread, filled, avail := Unread(ctx), ctx.bitIndex, Available(ctx);
      UnreadNonNegative(ctx);
      PeekAfterFill(ctx);
      assert Pow2(6) == 64;
      var peekBits := ctx.bitBuffer % 64;
      var huffmanEntry := model.decodeTable[peekBits];
      var symbol := huffmanEntry / 256;
      var length := huffmanEntry % 256;
      if ctx.bitIndex < length {
        DecodePackedFails(model, unread, filled);
        return false, 0;
      }
      SkipBits(ctx, length);
      if symbol >= |model.bucketOffsets| {
        DecodePackedFails(model, unread, filled);
        return false, 0;
      }
      var offset := model.bucketOffsets[symbol];
      var bits := model.bucketSizes[symbol];
      var raw;
      ok, raw := ReadRawBitsInternal(ctx, bits);
      if !ok {
        DecodePackedFails(model, unread, filled);
        return false, 0;
      }
      value := ToU32(raw as int + offset as int);
      DecodePackedSucceeds(model, unread, filled, length, symbol, bits as int, raw as int);
    }

    /** ReadPackedInt: a packed value, de-interleaved back to a signed one. */
    method ReadPackedInt(ctx: ReaderContext, model: NetworkCompressionModel) returns (ok: bool, value: int32)
      requires ValidContext(ctx) && |model.decodeTable| == Pow2(MaxHuffmanSymbolLength) && |model.bucketSizes| == |model.bucketOffsets|
      modifies ctx
      ensures ValidContext(ctx)
      ensures ok <==> DecodePacked(model, old(Unread(ctx)), old(Filled(ctx))).Some?
      ensures ok ==> DecodePacked(model, old(Unread(ctx)), old(Filled(ctx))) == Some((ZigZag(value), old(Available(ctx)) - Available(ctx)))
      ensures ok ==> Unread(ctx) == old(Unread(ctx)) / Pow2(old(Available(ctx)) - Available(ctx))
    {
      var folded;
      ok, folded := ReadPackedUInt(ctx, model);
      value := UnZigZag(folded);
      UnZigZagRoundTrip(folded);
    }

    /** ReadPackedIntDelta: baseline minus the packed signed difference, in 32-bit arithmetic. */
    method ReadPackedIntDelta(ctx: ReaderContext, baseline: int32, model: NetworkCompressionModel) returns (ok: bool, value: int32)
      requires ValidContext(ctx) && |model.decodeTable| == Pow2(MaxHuffmanSymbolLength) && |model.bucketSizes| == |model.bucketOffsets|
      modifies ctx
      ensures ValidContext(ctx)
      ensures ok <==> DecodePacked(model, old(Unread(ctx)), old(Filled(ctx))).Some?
      ensures ok ==> exists delta: int32 ::
        && DecodePacked(model, old(Unread(ctx)), old(Filled(ctx))) == Some((ZigZag(delta), old(Available(ctx)) - Available(ctx)))
        && value == ToI32(baseline - delta)
      ensures ok ==> Unread(ctx) == old(Unread(ctx)) / Pow2(old(Available(ctx)) - Available(ctx))
    {
      var delta;
      ok, delta := ReadPackedInt(ctx, model);
      value := ToI32(baseline - delta);
    }

    /** ReadPackedUIntDelta: baseline minus the packed difference, in unsigned 32-bit arithmetic. */
    method ReadPackedUIntDelta(ctx: ReaderContext, baseline: uint, model: NetworkCompressionModel) returns (ok: bool, value: uint)
      requires ValidContext(ctx) && |model.decodeTable| == Pow2(MaxHuffmanSymbolLength) && |model.bucketSizes| == |model.bucketOffsets|
      modifies ctx
      ensures ValidContext(ctx)
      ensures ok <==> DecodePacked(model, old(Unread(ctx)), old(Filled(ctx))).Some?
      ensures ok ==> exists delta: int32 ::
        && DecodePacked(model, old(Unread(ctx)), old(Filled(ctx))) == Some((ZigZag(delta), old(Available(ctx)) - Available(ctx)))
        && value == ToU32(baseline - ToU32(delta))
      ensures ok ==> Unread(ctx) == old(Unread(ctx)) / Pow2(old(Available(ctx)) - Available(ctx))
    {
      var delta;
      ok, delta := ReadPackedInt(ctx, model);
      value := ToU32(baseline - ToU32(delta));
    }
  }
}
