// The reliability window of the reliable pipeline stage
// (com.unity.transport/Runtime/Pipelines/ReliableUtility.cs).
//
// Each connection owns a shared context (sequence numbers, ack masks,
// statistics, timers) and one process buffer per direction. A process buffer
// starts with a small context (capacity, resume and delivered sequence ids,
// timestamps), followed by a table of PacketInformation records and a table
// of packet slots; sequence s lives in slot s % capacity. An ack mask is a
// 32-bit word whose bit d stands for the sequence d behind the latest one.
//
// The byte buffers are modelled by their fields: the two tables are arrays
// of records, a packet slot holds the header stored with the packet and its
// payload.

module ReliableUtility {
  import opened Wrappers
  import opened Words
  import opened Bits
  import opened SequenceHelpers
  import opened DataStream

  const NullEntry: int := -1
  const DefaultMinimumResendTime: int := 64
  const MaximumResendTime: int := 200

  // ErrorCodes
  const StalePacketError: int := -1
  const DuplicatedPacketError: int := -2
  const OutgoingQueueIsFull: int := -7
  const InsufficientMemory: int := -8

  // PacketType
  const PayloadPacket: ushort := 0
  const AckPacket: ushort := 1

  /** NetworkParameterConstants.MTU, the size of a packet slot. */
  const MTU: int := 1400
  /** sizeof(PacketHeader): four ushorts and a uint. */
  const HeaderSize: int := 12
  /** sizeof(Context): seven ints, then two longs aligned to 8. */
  const ContextSize: int := 48
  /** sizeof(SharedContext). */
  const SharedContextSize: int := 96
  /** sizeof(PacketInformation): two ints and a long. */
  const PacketInformationSize: int := 16
  /** sizeof(PacketTimers): two ushorts, an int and two longs. */
  const PacketTimersSize: int := 24

  // ---------------------------------------------------------------------------
  // Records

  datatype SequenceBufferContext = SequenceBufferContext(sequence: int32, acked: int32, ackMask: uint)

  /** The statistics counters (unbounded here; see README). */
  datatype Statistics = Statistics(
    packetsReceived: int, packetsSent: int, packetsDropped: int, packetsOutOfOrder: int,
    packetsDuplicated: int, packetsStale: int, packetsResent: int)

  const NoStatistics := Statistics(0, 0, 0, 0, 0, 0, 0)

  datatype PacketHeader = PacketHeader(
    packetType: ushort, processingTime: ushort, sequenceId: ushort, ackedSequenceId: ushort, ackMask: uint)

  const ZeroHeader := PacketHeader(0, 0, 0, 0, 0)

  datatype PacketInformation = PacketInformation(sequenceId: int32, size: int, sendTime: int)

  /** A packet slot: the header stored with a packet queued for resend, and the payload. */
  datatype Slot = Slot(header: PacketHeader, payload: seq<byte>)

  datatype PacketTimers = PacketTimers(processingTime: ushort, sequenceId: int32, sentTime: int, receiveTime: int)

  const ZeroTimers := PacketTimers(0, 0, 0, 0)

  // ---------------------------------------------------------------------------
  // The packet header on the wire: the struct's bytes on a little-endian host

  function EncodeHeader(h: PacketHeader): (b: seq<byte>)
    ensures |b| == HeaderSize
  {
    LittleEndianBytes(h.packetType, 2) + LittleEndianBytes(h.processingTime, 2)
    + LittleEndianBytes(h.sequenceId, 2) + LittleEndianBytes(h.ackedSequenceId, 2)
    + LittleEndianBytes(h.ackMask, 4)
  }

  /** The value of n little-endian bytes fits n bytes. */
  function Field(b: seq<byte>, n: nat): (v: int)
    requires |b| == n && n <= 4
    ensures 0 <= v < Pow2(8 * n)
  {
    LittleEndianBound(b);
    LittleEndian(b)
  }

  function DecodeHeader(b: seq<byte>): PacketHeader
    requires |b| >= HeaderSize
  {
    Pow2Bytes();
    PacketHeader(Field(b[0..2], 2), Field(b[2..4], 2), Field(b[4..6], 2), Field(b[6..8], 2), Field(b[8..12], 4))
  }

  /** A field stored in n bytes reads back as itself. */
  lemma FieldRoundTrip(v: int, n: nat)
    requires n <= 4 && 0 <= v < Pow2(8 * n)
    ensures Field(LittleEndianBytes(v, n), n) == v
  {
    LittleEndianOfBytes(v, n);
    DivUnique(v, Pow2(8 * n), 0, v);
  }

  /** Decoding an encoded header gives the header back. */
  lemma HeaderRoundTrip(h: PacketHeader)
    ensures DecodeHeader(EncodeHeader(h)) == h
  {
    Pow2Bytes();
    SplitFields(LittleEndianBytes(h.packetType, 2), LittleEndianBytes(h.processingTime, 2),
      LittleEndianBytes(h.sequenceId, 2), LittleEndianBytes(h.ackedSequenceId, 2), LittleEndianBytes(h.ackMask, 4));
    FieldRoundTrip(h.packetType, 2);
    FieldRoundTrip(h.processingTime, 2);
    FieldRoundTrip(h.sequenceId, 2);
    FieldRoundTrip(h.ackedSequenceId, 2);
    FieldRoundTrip(h.ackMask, 4);
  }

  /** The header's byte ranges are its five fields. */
  lemma SplitFields(f0: seq<byte>, f1: seq<byte>, f2: seq<byte>, f3: seq<byte>, f4: seq<byte>)
    requires |f0| == 2 && |f1| == 2 && |f2| == 2 && |f3| == 2 && |f4| == 4
    ensures var b := f0 + f1 + f2 + f3 + f4;
      b[0..2] == f0 && b[2..4] == f1 && b[4..6] == f2 && b[6..8] == f3 && b[8..12] == f4
  {
  }

  /** Every 12 bytes are the encoding of the header they decode to. */
  lemma HeaderBytesRoundTrip(b: seq<byte>)
    requires |b| == HeaderSize
    ensures EncodeHeader(DecodeHeader(b)) == b
  {
    BytesOfLittleEndian(b[0..2]);
    BytesOfLittleEndian(b[2..4]);
    BytesOfLittleEndian(b[4..6]);
    BytesOfLittleEndian(b[6..8]);
    BytesOfLittleEndian(b[8..12]);
    assert b == b[0..2] + b[2..4] + b[4..6] + b[6..8] + b[8..12];
  }

  // ---------------------------------------------------------------------------
  // Buffer layout

  /** (x + 3) & ~3: x rounded up to a multiple of 4. */
  function Align4(x: nat): (r: nat)
    ensures r % 4 == 0 && x <= r < x + 4
  {
    (x + 3) / 4 * 4
  }

  const IndexStride: int := Align4(PacketInformationSize)
  const DataStride: int := Align4(MTU)

  function SharedCapacityNeeded(windowSize: int): int
  {
    SharedContextSize + PacketTimersSize * windowSize * 2
  }

  function ProcessCapacityNeeded(windowSize: int): int
  {
    ContextSize + windowSize * PacketInformationSize + windowSize * MTU
  }

  /** Where InitializeProcessContext puts the tables: the index table right after the context. */
  function IndexPtrOffset(): int { ContextSize }

  function DataPtrOffset(windowSize: int): int { IndexPtrOffset() + IndexStride * windowSize }

  /**
   * The process buffer is exactly the context, the index table and the data
   * table: the last data slot ends at the capacity ProcessCapacityNeeded asks
   * for, and no two slots overlap.
   */
  lemma ProcessLayout(windowSize: nat, i: nat, j: nat)
    requires i < j < windowSize
    ensures DataPtrOffset(windowSize) + DataStride * windowSize == ProcessCapacityNeeded(windowSize)
    ensures IndexPtrOffset() + IndexStride * i + IndexStride <= IndexPtrOffset() + IndexStride * j
    ensures IndexPtrOffset() + IndexStride * windowSize == DataPtrOffset(windowSize)
    ensures DataPtrOffset(windowSize) + DataStride * i + DataStride <= DataPtrOffset(windowSize) + DataStride * j
  {
    assert IndexStride == 16 && DataStride == MTU;
  }

  /** The shared buffer is the shared context, then the local timers, then the remote timers. */
  lemma SharedLayout(windowSize: nat)
    ensures SharedContextSize + PacketTimersSize * windowSize + PacketTimersSize * windowSize
      == SharedCapacityNeeded(windowSize)
  {
  }

  // ---------------------------------------------------------------------------
  // Ack masks

  /** mask << s as a uint. */
  function ShiftLeft32(mask: uint, s: nat): (r: uint)
  {
    Pow2Bytes();
    ShiftLeft(mask, s, 32)
  }

  /** mask | (1 << k) as a uint. */
  function OrBit(mask: uint, k: nat): (r: uint)
    requires k < 32
  {
    Pow2Bytes();
    SetBitBound(mask, k, 32);
    SetBit(mask, k)
  }

  /** rc's ack mask says the sequence s has arrived: it is at most 31 behind the latest, and its bit is set. */
  ghost predicate Recorded(rc: SequenceBufferContext, s: ushort)
  {
    var d := ToU16(ToU16(rc.sequence) - s);
    d < 32 && Bit(rc.ackMask, d)
  }

  /** Read's distance for a packet older than the latest, recomputed without wrap when it looks too large. */
  function OlderDistance(rc: SequenceBufferContext, windowSize: int, s: ushort): int
  {
    var d := AbsDistance(s, ToU16(rc.sequence));
    if d >= 0xFFFF - windowSize then rc.sequence - s else d
  }

  /** The packet is too old for the window that ends at the latest sequence plus one. */
  predicate IsStale(rc: SequenceBufferContext, windowSize: int, s: ushort)
  {
    StalePacket(s, ToU16(rc.sequence + 1), ToU16(windowSize))
  }

  /** Read's first case: the packet is the latest so far (its successor is newer than the latest). */
  predicate IsNewest(rc: SequenceBufferContext, s: ushort)
  {
    GreaterThan16(ToU16(s + 1), ToU16(rc.sequence))
  }

  predicate IsOlder(rc: SequenceBufferContext, s: ushort)
  {
    LessThan16(s, ToU16(rc.sequence))
  }

  /** What Read returns for sequence s: the stale and duplicated error codes, or s. */
  function ReadResult(rc: SequenceBufferContext, windowSize: int, s: ushort): int
  {
    if IsStale(rc, windowSize, s) then StalePacketError
    else if IsNewest(rc, s) then s
    else if IsOlder(rc, s) && Bit(rc.ackMask, OlderDistance(rc, windowSize, s) % 32) then DuplicatedPacketError
    else s
  }

  /** The received-packets context after Read of sequence s. */
  function ReceiveUpdate(rc: SequenceBufferContext, windowSize: int, s: ushort): SequenceBufferContext
  {
    if IsStale(rc, windowSize, s) then rc
    else if IsNewest(rc, s) then Advance(rc, windowSize, s)
    else if IsOlder(rc, s) then
      var d := OlderDistance(rc, windowSize, s) % 32;
      if Bit(rc.ackMask, d) then rc else rc.(ackMask := OrBit(rc.ackMask, d))
    else rc
  }

  /** Read's update for a newer sequence: shift the mask by the distance and record bit 0, or restart past the window. */
  function Advance(rc: SequenceBufferContext, windowSize: int, s: ushort): SequenceBufferContext
  {
    var d := AbsDistance(s, ToU16(rc.sequence));
    var mask := if d > windowSize - 1 then 1 else OrBit(ShiftLeft32(rc.ackMask, d % 32), 0);
    rc.(ackMask := mask, sequence := s)
  }

  /** Read's statistics for a newer sequence: the clear bits shifted out and the sequences skipped past the window are dropped. */
  function AdvanceStats(st: Statistics, rc: SequenceBufferContext, windowSize: int, s: ushort): Statistics
  {
    var d := AbsDistance(s, ToU16(rc.sequence));
    var window := windowSize - 1;
    var scanned := Missing(rc.ackMask, window, if d < window then d else window);
    st.(packetsDropped := st.packetsDropped + scanned + (if d > window then d - window else 0))
  }

  /** How many of the n bits below bit window (from the top down) are clear: packets never received. */
  function Missing(mask: uint, window: int, n: int): (count: nat)
    ensures count <= if n < 0 then 0 else n
    decreases n
  {
    if n <= 0 then 0 else Missing(mask, window, n - 1) + (if Bit(mask, (window - (n - 1)) % 32) then 0 else 1)
  }

  /** The statistics after Read of sequence s. */
  function ReadStats(st: Statistics, rc: SequenceBufferContext, windowSize: int, s: ushort): Statistics
  {
    var st := st.(packetsReceived := st.packetsReceived + 1);
    if IsStale(rc, windowSize, s) then st.(packetsStale := st.packetsStale + 1)
    else if IsNewest(rc, s) then AdvanceStats(st, rc, windowSize, s)
    else if IsOlder(rc, s) then
      if Bit(rc.ackMask, OlderDistance(rc, windowSize, s) % 32) then st.(packetsDuplicated := st.packetsDuplicated + 1)
      else st.(packetsOutOfOrder := st.packetsOutOfOrder + 1)
    else st
  }

  /** A packet that is not stale is at most windowSize - 1 behind the latest one. */
  lemma NotStaleIsClose(rc: SequenceBufferContext, windowSize: int, s: ushort)
    requires 1 <= windowSize <= 32 && !IsStale(rc, windowSize, s) && IsOlder(rc, s)
    ensures 1 <= ToU16(ToU16(rc.sequence) - s) <= windowSize - 1
  {
    var latest := ToU16(rc.sequence);
    var dd := ToU16(latest - s);
    assert 1 <= dd <= 0x8000 by {
      assert LessThan16(s, latest);
    }
    var o := ToU16(rc.sequence + 1);
    ResidueCombine(o - (rc.sequence + 1), latest - rc.sequence, dd - (latest - s));
    assert o - s - (dd + 1) == (o - (rc.sequence + 1)) - (latest - rc.sequence) - (dd - (latest - s));
    U16Residue(o - s, dd + 1);
    var w := ToU16(windowSize);
    assert w == windowSize;
    assert !StalePacket(s, o, w);
  }

  /** The older-packet distance picks the bit of the packet's own distance from the latest. */
  lemma OlderDistanceBit(rc: SequenceBufferContext, windowSize: int, s: ushort)
    requires 1 <= windowSize <= 32 && !IsStale(rc, windowSize, s) && IsOlder(rc, s)
    ensures OlderDistance(rc, windowSize, s) % 32 == ToU16(ToU16(rc.sequence) - s)
  {
    NotStaleIsClose(rc, windowSize, s);
    var latest := ToU16(rc.sequence);
    var dd := ToU16(latest - s);
    ResidueCombine(0, latest - rc.sequence, dd - (latest - s));
    assert rc.sequence - s - dd == 0 - (latest - rc.sequence) - (dd - (latest - s));
    OlderIsFar(latest, s, dd, windowSize);
    assert OlderDistance(rc, windowSize, s) == rc.sequence - s;
    ResidueMod32(rc.sequence - s, dd);
  }

  /** A sequence dd behind the latest is U16 - dd ahead of it on the circle, so Read takes the far branch. */
  lemma OlderIsFar(latest: ushort, s: ushort, dd: int, windowSize: int)
    requires 1 <= dd <= windowSize - 1 && windowSize <= 32 && dd == ToU16(latest - s)
    ensures AbsDistance(s, latest) == U16 - dd >= 0xFFFF - windowSize
  {
    if s < latest {
      U16Residue(latest - s, latest - s);
    } else {
      U16Residue(latest - s, latest - s + U16);
    }
  }

  /** Multiples of U16 combine into a multiple of U16. */
  lemma ResidueCombine(x: int, y: int, z: int)
    requires x % U16 == 0 && y % U16 == 0 && z % U16 == 0
    ensures (x - y - z) % U16 == 0
  {
    assert x - y - z == U16 * (x / U16 - y / U16 - z / U16);
  }

  /** Residues modulo U16 agree modulo 32. */
  lemma ResidueMod32(x: int, y: int)
    requires 0 <= y < 32 && (x - y) % U16 == 0
    ensures x % 32 == y
  {
    var k := (x - y) / U16;
    assert x - y == U16 * k;
    DivUnique(x, 32, 2048 * k, y);
  }

  /** A packet Read accepts is recorded in the ack mask afterwards. */
  lemma ReadRecords(rc: SequenceBufferContext, windowSize: int, s: ushort)
    requires 1 <= windowSize <= 32 && ReadResult(rc, windowSize, s) >= 0
    requires IsNewest(rc, s) || IsOlder(rc, s)
    ensures Recorded(ReceiveUpdate(rc, windowSize, s), s)
  {
    var rc' := ReceiveUpdate(rc, windowSize, s);
    if IsNewest(rc, s) {
      var d := AbsDistance(s, ToU16(rc.sequence));
      if d <= windowSize - 1 {
        BitOfSetBit(ShiftLeft32(rc.ackMask, d % 32), 0, 0);
      }
      assert ToU16(ToU16(rc'.sequence) - s) == 0;
    } else {
      OlderDistanceBit(rc, windowSize, s);
      BitOfSetBit(rc.ackMask, OlderDistance(rc, windowSize, s) % 32, ToU16(ToU16(rc.sequence) - s));
    }
  }

  /** x and y are congruent modulo U16 and y is a ushort, so y is x's ushort. */
  lemma U16Residue(x: int, y: int)
    requires 0 <= y < U16 && (x - y) % U16 == 0
    ensures ToU16(x) == y
  {
  }

  /** Distances on the 16-bit circle add up when the sum stays below half of it. */
  lemma DistancesAdd(latest: ushort, s: ushort, t: ushort)
    requires AbsDistance(s, latest) <= 0x7FFF && ToU16(latest - t) < 32
    ensures ToU16(s - t) == AbsDistance(s, latest) + ToU16(latest - t)
  {
    var d := AbsDistance(s, latest);
    var dt := ToU16(latest - t);
    assert (s - t - (d + dt)) % U16 == 0 by {
      assert s - t - (d + dt) == (s - latest - d) + (latest - t - dt);
    }
    U16Residue(s - t, d + dt);
  }

  /** A packet whose successor is newer than the latest one is at most 0x7FFF ahead of it. */
  lemma NewestIsClose(latest: ushort, s: ushort)
    requires GreaterThan16(ToU16(s as int + 1), latest)
    ensures AbsDistance(s, latest) <= 0x7FFF
  {
    if s < 0xFFFF {
      assert ToU16(s as int + 1) == s + 1;
    } else {
      assert ToU16(s as int + 1) == 0;
    }
  }

  /** Shifting a mask by d and setting bit 0 moves bit dt to bit d + dt. */
  lemma ShiftedMaskKeeps(mask: uint, d: nat, dt: nat)
    requires d + dt < 32 && Bit(mask, dt)
    ensures Bit(OrBit(ShiftLeft32(mask, d), 0), d + dt)
  {
    Pow2Bytes();
    BitOfShiftLeft(mask, d, 32, d + dt);
    BitOfSetBit(ShiftLeft32(mask, d), 0, d + dt);
  }

  /** Read's update for a newer packet within the window: shift by the distance, record bit 0. */
  lemma NewestUpdate(rc: SequenceBufferContext, windowSize: int, s: ushort)
    requires !IsStale(rc, windowSize, s) && IsNewest(rc, s)
    requires AbsDistance(s, ToU16(rc.sequence)) <= windowSize - 1 && AbsDistance(s, ToU16(rc.sequence)) < 32
    ensures ReceiveUpdate(rc, windowSize, s).ackMask
      == OrBit(ShiftLeft32(rc.ackMask, AbsDistance(s, ToU16(rc.sequence))), 0)
    ensures ReceiveUpdate(rc, windowSize, s).sequence == s
  {
    var d := AbsDistance(s, ToU16(rc.sequence));
    NewestMask(rc, windowSize, s);
    SmallMod32(d);
  }

  lemma SmallMod32(d: int)
    requires 0 <= d < 32
    ensures d % 32 == d
  {
  }

  /** The newest-branch mask, stated with the shift exactly as the update computes it. */
  lemma NewestMask(rc: SequenceBufferContext, windowSize: int, s: ushort)
    requires !IsStale(rc, windowSize, s) && IsNewest(rc, s)
    requires AbsDistance(s, ToU16(rc.sequence)) <= windowSize - 1
    ensures ReceiveUpdate(rc, windowSize, s).ackMask
      == OrBit(ShiftLeft32(rc.ackMask, AbsDistance(s, ToU16(rc.sequence)) % 32), 0)
    ensures ReceiveUpdate(rc, windowSize, s).sequence == s
  {
  }

  /** After the shift by d, a sequence dt behind the old latest is d + dt behind the new one, and still recorded. */
  lemma RecordedAfterShift(rc: SequenceBufferContext, s: ushort, t: ushort, d: nat, dt: nat)
    requires ToU16(s - t) == d + dt && d + dt < 32 && Bit(rc.ackMask, dt)
    ensures Recorded(rc.(ackMask := OrBit(ShiftLeft32(rc.ackMask, d), 0), sequence := s), t)
  {
    ShiftedMaskKeeps(rc.ackMask, d, dt);
  }

  lemma KeepRecordedNewest(rc: SequenceBufferContext, windowSize: int, s: ushort, t: ushort)
    requires 1 <= windowSize <= 32 && Recorded(rc, t)
    requires !IsStale(rc, windowSize, s) && IsNewest(rc, s) && ToU16(s - t) < windowSize
    ensures Recorded(ReceiveUpdate(rc, windowSize, s), t)
  {
    var latest := ToU16(rc.sequence);
    var d := AbsDistance(s, latest);
    var dt := ToU16(latest - t);
    NewestIsClose(latest, s);
    DistancesAdd(latest, s, t);
    NewestUpdate(rc, windowSize, s);
    RecordedAfterShift(rc, s, t, d, dt);
  }

  lemma KeepRecordedOlder(rc: SequenceBufferContext, windowSize: int, s: ushort, t: ushort)
    requires 1 <= windowSize <= 32 && Recorded(rc, t)
    requires !IsStale(rc, windowSize, s) && !IsNewest(rc, s) && IsOlder(rc, s)
    ensures Recorded(ReceiveUpdate(rc, windowSize, s), t)
  {
    var d := OlderDistance(rc, windowSize, s) % 32;
    BitOfSetBit(rc.ackMask, d, ToU16(ToU16(rc.sequence) - t));
  }

  /**
   * Read forgets nothing inside the window: a sequence recorded before is
   * still recorded when it is less than windowSize behind the new latest one.
   */
  lemma ReadKeepsRecorded(rc: SequenceBufferContext, windowSize: int, s: ushort, t: ushort)
    requires 1 <= windowSize <= 32 && Recorded(rc, t)
    requires ToU16(ToU16(ReceiveUpdate(rc, windowSize, s).sequence) - t) < windowSize
    ensures Recorded(ReceiveUpdate(rc, windowSize, s), t)
  {
    if !IsStale(rc, windowSize, s) && IsNewest(rc, s) {
      KeepRecordedNewest(rc, windowSize, s, t);
    } else if !IsStale(rc, windowSize, s) && IsOlder(rc, s) {
      KeepRecordedOlder(rc, windowSize, s, t);
    }
  }

  /**
   * A sequence already recorded, other than the latest, is never accepted
   * again: Read calls it stale or duplicated.
   */
  lemma RecordedIsRejected(rc: SequenceBufferContext, windowSize: int, s: ushort)
    requires 1 <= windowSize <= 32 && Recorded(rc, s) && s != ToU16(rc.sequence)
    ensures ReadResult(rc, windowSize, s) < 0
  {
    if !IsStale(rc, windowSize, s) {
      assert IsOlder(rc, s) && !IsNewest(rc, s);
      OlderDistanceBit(rc, windowSize, s);
    }
  }

  /** The latest sequence itself is accepted again: Read does not count it as duplicated. */
  lemma LatestIsAcceptedAgain(rc: SequenceBufferContext, windowSize: int)
    requires 1 <= windowSize <= 32 && 0 <= rc.sequence < U16
    ensures ReadResult(rc, windowSize, rc.sequence) == rc.sequence
  {
  }

  /**
   * ReleaseOrResumePackets' test that the remote peer acknowledged sent
   * sequence id: the id lies inside the window behind the last acked id, and
   * its bit in the returned mask is set.
   */
  predicate AckedByRemote(sent: SequenceBufferContext, windowSize: int, id: int)
  {
    var last := ToU16(sent.acked);
    AbsDistance(last, ToU16(id)) < windowSize && Bit(sent.ackMask, (last - id) % 32)
  }

  /**
   * A header carries the receiver's latest sequence and ack mask; a sent
   * packet counts as acknowledged exactly when the receiver had recorded it
   * inside the window.
   */
  lemma AckedMeansRecorded(rc: SequenceBufferContext, sent: SequenceBufferContext, windowSize: int, id: ushort)
    requires 1 <= windowSize <= 32
    requires sent.acked == ToU16(rc.sequence) && sent.ackMask == rc.ackMask
    ensures AckedByRemote(sent, windowSize, id) <==> ToU16(ToU16(rc.sequence) - id) < windowSize && Recorded(rc, id)
  {
    var last := ToU16(rc.sequence);
    assert AbsDistance(last, id) == ToU16(last - id);
    assert ToU16(last - id) < 32 ==> (last - id) % 32 == ToU16(last - id);
  }

  /** The received-packets context after ReadAckPacket: it moves only to a newer acked id. */
  function AckUpdate(sent: SequenceBufferContext, h: PacketHeader): SequenceBufferContext
  {
    if GreaterThan16(h.ackedSequenceId, ToU16(sent.acked)) then sent.(acked := h.ackedSequenceId, ackMask := h.ackMask)
    else sent
  }

  // ---------------------------------------------------------------------------
  // The buffers

  /** The shared buffer of one connection's reliable stage. */
  class SharedContext {
    const length: int
    var windowSize: int
    var minimumResendTime: int
    var sentPackets: SequenceBufferContext
    var receivedPackets: SequenceBufferContext
    var stats: Statistics
    var errorCode: int
    var rtt: RttInfo
    var localTimers: array<PacketTimers>
    var remoteTimers: array<PacketTimers>

    ghost predicate Valid()
      reads this
    {
      && 1 <= windowSize
      && localTimers.Length == windowSize && remoteTimers.Length == windowSize
      && localTimers != remoteTimers
    }

    /** What the per-packet operations never change: the window, the minimum resend time and the timer tables. */
    ghost function Settings(): (int, int, array<PacketTimers>, array<PacketTimers>)
      reads this
    {
      (windowSize, minimumResendTime, localTimers, remoteTimers)
    }

    /** A zero-filled buffer of the given length, as the pipeline hands it over. */
    constructor (length: nat)
      ensures this.length == length && windowSize == 0 && stats == NoStatistics
      ensures sentPackets == SequenceBufferContext(0, 0, 0) && receivedPackets == sentPackets
    {
      this.length := length;
      windowSize := 0;
      minimumResendTime := 0;
      sentPackets := SequenceBufferContext(0, 0, 0);
      receivedPackets := SequenceBufferContext(0, 0, 0);
      stats := NoStatistics;
      errorCode := 0;
      rtt := RttInfo(0, 0.0, 0.0, 0);
      localTimers := new PacketTimers[0];
      remoteTimers := new PacketTimers[0];
    }
  }

  /** A send or receive process buffer of one connection's reliable stage. */
  class ProcessBuffer {
    const length: int
    var capacity: int
    var resume: int
    var delivered: int
    var lastSentTime: int
    var previousTimestamp: int
    var info: array<PacketInformation>
    var slots: array<Slot>

    /**
     * The tables have one entry per slot; an occupied slot holds a sequence
     * that maps to it, and its size is the length of its payload.
     */
    ghost predicate Valid()
      reads this`capacity, this`info, this`slots, info, slots
    {
      && 1 <= capacity
      && info.Length == capacity && slots.Length == capacity
      && forall j :: 0 <= j < capacity ==>
           && (info[j].sequenceId >= 0 ==> info[j].sequenceId % capacity == j)
           && info[j].size == |slots[j].payload|
    }

    /** The payload stored for sequence s, if its slot holds s. */
    ghost function Stored(s: int): Option<seq<byte>>
      reads this`capacity, this`info, this`slots, info, slots
      requires Valid() && s >= 0
    {
      var j := s % capacity;
      if info[j].sequenceId == s then Some(slots[j].payload) else None
    }

    /** A zero-filled buffer of the given length, as the pipeline hands it over. */
    constructor (length: nat)
      ensures this.length == length && capacity == 0 && resume == 0 && delivered == 0
    {
      this.length := length;
      capacity := 0;
      resume := 0;
      delivered := 0;
      lastSentTime := 0;
      previousTimestamp := 0;
      info := new PacketInformation[0];
      slots := new Slot[0];
    }
  }

  // ---------------------------------------------------------------------------
  // Operations on a process buffer

  /**
   * InitializeProcessContext: refuses a buffer whose size is not the one
   * ProcessCapacityNeeded asks for; otherwise sets up one slot per window
   * entry, all free, and no resume or delivered sequence.
   */
  method InitializeProcessContext(p: ProcessBuffer, windowSize: int) returns (r: int)
    requires windowSize >= 1
    modifies p
    ensures r == 0 || r == InsufficientMemory
    ensures r == InsufficientMemory <==> p.length != ProcessCapacityNeeded(windowSize)
    ensures r != 0 ==> p.capacity == old(p.capacity) && p.resume == old(p.resume) && p.delivered == old(p.delivered)
    ensures r != 0 ==> p.info == old(p.info) && p.slots == old(p.slots)
    ensures r == 0 ==> p.Valid() && fresh(p.info) && fresh(p.slots)
    ensures r == 0 ==> p.capacity == windowSize && p.resume == NullEntry && p.delivered == NullEntry
    ensures r == 0 ==> forall j :: 0 <= j < windowSize ==> p.info[j].sequenceId == NullEntry
  {
    if p.length != ProcessCapacityNeeded(windowSize) {
      return InsufficientMemory;
    }
    p.capacity := windowSize;
    // The zero-filled tables, every slot released.
    p.info := new PacketInformation[windowSize](_ => PacketInformation(NullEntry, 0, 0));
    p.slots := new Slot[windowSize](_ => Slot(ZeroHeader, []));
    p.resume := NullEntry;
    p.delivered := NullEntry;
    assert forall j :: 0 <= j < windowSize ==> p.info[j].size == 0 && p.slots[j].payload == [];
    r := 0;
  }

  /** TryAquire: takes the slot of sequence when it is free, recording the sequence there. */
  method TryAquire(p: ProcessBuffer, sequence: int32) returns (ok: bool)
    requires p.Valid() && sequence >= 0
    modifies p.info
    ensures p.Valid()
    ensures ok <==> old(p.info[sequence % p.capacity].sequenceId) == NullEntry
    ensures ok ==> p.info[..] == old(p.info[..])[sequence % p.capacity := old(p.info[sequence % p.capacity]).(sequenceId := sequence)]
    ensures !ok ==> p.info[..] == old(p.info[..])
  {
    var index := sequence % p.capacity;
    if p.info[index].sequenceId == NullEntry {
      p.info[index] := p.info[index].(sequenceId := sequence);
      return true;
    }
    return false;
  }

  /**
   * Release(start, count): frees count consecutive slots from the slot of
   * start. The source does not wrap around the table, so the range must fit.
   */
  method Release(p: ProcessBuffer, startSequence: int, count: int)
    requires p.Valid() && startSequence >= 0 && startSequence % p.capacity + count <= p.capacity
    modifies p.info
    ensures p.Valid()
    ensures forall j :: 0 <= j < p.capacity ==>
      p.info[j] == (if startSequence % p.capacity <= j < startSequence % p.capacity + count
                    then old(p.info[j]).(sequenceId := NullEntry) else old(p.info[j]))
  {
    var index := startSequence % p.capacity;
    var i := 0;
    while i < count
      invariant 0 <= i && (count >= 0 ==> i <= count) && (count < 0 ==> i == 0)
      invariant p.Valid()
      invariant forall j :: 0 <= j < p.capacity ==>
        p.info[j] == (if index <= j < index + i then old(p.info[j]).(sequenceId := NullEntry) else old(p.info[j]))
    {
      p.info[index + i] := p.info[index + i].(sequenceId := NullEntry);
      i := i + 1;
    }
  }

  /**
   * SetPacket: stores a received payload in the slot of sequence, to be
   * delivered later. A payload longer than a slot is not stored (the source
   * throws in checked builds and returns in others).
   */
  method SetPacket(p: ProcessBuffer, sequence: int32, data: seq<byte>) returns (ok: bool)
    requires p.Valid() && sequence >= 0
    modifies p.info, p.slots
    ensures p.Valid()
    ensures ok <==> |data| <= DataStride
    ensures !ok ==> p.info[..] == old(p.info[..]) && p.slots[..] == old(p.slots[..])
    ensures ok ==> var j := sequence % p.capacity;
      && p.info[..] == old(p.info[..])[j := PacketInformation(sequence, |data|, -1)]
      && p.slots[..] == old(p.slots[..])[j := old(p.slots[j]).(payload := data)]
    ensures ok ==> p.Stored(sequence) == Some(data)
  {
    if |data| > DataStride {
      return false;
    }
    var index := sequence % p.capacity;
    p.info[index] := PacketInformation(sequence, |data|, -1);
    p.slots[index] := p.slots[index].(payload := data);
    ok := true;
  }

  /**
   * SetHeaderAndPacket: stores a sent packet, its header and the two parts
   * of its payload, with the send time, for a later resend. The payload is
   * placed after the header inside the slot, so a payload that does not fit
   * beside the header is not stored.
   */
  method SetHeaderAndPacket(p: ProcessBuffer, sequence: int32, header: PacketHeader, buffer1: seq<byte>, buffer2: seq<byte>, timestamp: int)
    returns (ok: bool)
    requires p.Valid() && sequence >= 0
    modifies p.info, p.slots
    ensures p.Valid()
    ensures ok <==> HeaderSize + |buffer1| + |buffer2| <= DataStride
    ensures !ok ==> p.info[..] == old(p.info[..]) && p.slots[..] == old(p.slots[..])
    ensures ok ==> var j := sequence % p.capacity;
      && p.info[..] == old(p.info[..])[j := PacketInformation(sequence, |buffer1| + |buffer2|, timestamp)]
      && p.slots[..] == old(p.slots[..])[j := Slot(header, buffer1 + buffer2)]
  {
    if HeaderSize + |buffer1| + |buffer2| > DataStride {
      return false;
    }
    var index := sequence % p.capacity;
    p.info[index] := PacketInformation(sequence, |buffer1| + |buffer2|, timestamp);
    p.slots[index] := Slot(header, buffer1 + buffer2);
    ok := true;
  }

  /**
   * The payload bytes a resend finds in the slot after SetHeaderAndPacket as
   * written in ReliableUtility.cs. buffer1 is copied after the header, but
   * buffer2 is copied to `&dataPtr + buffer1.Length`, an address computed
   * from the local pointer variable rather than from the slot, so the slot
   * keeps the bytes it held before (area, the bytes after the header) where
   * buffer2 belongs.
   */
  function StoredAsWritten(area: seq<byte>, buffer1: seq<byte>, buffer2: seq<byte>): (stored: seq<byte>)
    requires |buffer1| + |buffer2| <= |area|
    ensures |stored| == |buffer1| + |buffer2|
  {
    buffer1 + area[|buffer1|..|buffer1| + |buffer2|]
  }

  /** As written, the stored packet is not buffer1 + buffer2 whenever the slot held other bytes where buffer2 belongs. */
  lemma AsWrittenLosesSecondPart(area: seq<byte>, buffer1: seq<byte>, buffer2: seq<byte>)
    requires |buffer1| + |buffer2| <= |area|
    requires area[|buffer1|..|buffer1| + |buffer2|] != buffer2
    ensures StoredAsWritten(area, buffer1, buffer2) != buffer1 + buffer2
  {
    var stored := StoredAsWritten(area, buffer1, buffer2);
    assert stored[|buffer1|..] == area[|buffer1|..|buffer1| + |buffer2|];
    assert (buffer1 + buffer2)[|buffer1|..] == buffer2;
  }

  /**
   * A fresh, zero-filled slot, a one-byte header of an earlier stage in
   * buffer1 and a two-byte payload in buffer2: a resend sends the header
   * byte and two zeros instead of the payload.
   */
  lemma AsWrittenResendSendsZeros()
    ensures var area: seq<byte> := seq(DataStride - HeaderSize, _ => 0);
      StoredAsWritten(area, [7], [1, 2]) == [7, 0, 0] != [7] + [1, 2]
  {
    var area: seq<byte> := seq(DataStride - HeaderSize, _ => 0);
    assert area[1..3] == [0, 0];
    assert ([7] + [1, 2])[1] == 1;
  }

  /**
   * As written, the size check compares the payload alone with the slot
   * size, but the payload is copied after the 12-byte header: a payload of
   * a whole slot passes the check and its last bytes land past the end of
   * its slot, in the next slot or past the buffer.
   */
  lemma AsWrittenSizeCheckOverruns(windowSize: int, index: int)
    requires windowSize >= 1 && 0 <= index < windowSize
    ensures var total := DataStride;
      && total <= DataStride
      && DataPtrOffset(windowSize) + index * DataStride + HeaderSize + total
         > DataPtrOffset(windowSize) + (index + 1) * DataStride
  {
  }

  // ---------------------------------------------------------------------------
  // Timers and resend time

  /** Round-trip statistics; the two smoothed values are floats in the source. */
  datatype RttInfo = RttInfo(lastRtt: int32, smoothedRtt: real, smoothedVariance: real, resendTimeout: int)

  /** C#'s (int) cast of a float in range: truncation toward zero. */
  function Truncate(x: real): (n: int)
    ensures x >= 0.0 ==> 0 <= n && n as real <= x < n as real + 1.0
    ensures x < 0.0 ==> n <= 0 && n as real - 1.0 < x <= n as real
  {
    if x >= 0.0 then x.Floor else -((-x).Floor)
  }

  /**
   * A new round-trip sample: the smoothed round trip moves an eighth of the
   * way towards it, the smoothed variance a quarter of the way towards the
   * distance to it, and the resend timeout becomes the smoothed round trip
   * plus four variances.
   */
  function RttUpdate(rtt: RttInfo, sample: int32): (r: RttInfo)
    ensures r.lastRtt == sample
    ensures rtt.smoothedRtt <= sample as real ==> rtt.smoothedRtt <= r.smoothedRtt <= sample as real
    ensures sample as real <= rtt.smoothedRtt ==> sample as real <= r.smoothedRtt <= rtt.smoothedRtt
    ensures rtt.smoothedVariance >= 0.0 ==> r.smoothedVariance >= 0.0
    ensures r.smoothedRtt >= 0.0 && r.smoothedVariance >= 0.0 ==> r.resendTimeout >= 0
  {
    var delta := sample as real - rtt.smoothedRtt;
    var smoothed := rtt.smoothedRtt + delta / 8.0;
    var variance := rtt.smoothedVariance + ((if delta < 0.0 then -delta else delta) - rtt.smoothedVariance) / 4.0;
    RttInfo(sample, smoothed, variance, Truncate(smoothed + 4.0 * variance))
  }

  /**
   * The local timers and round-trip statistics after an ack for sequenceId
   * arrives: only the first ack of a sequence whose timer slot still belongs
   * to it counts; it records the arrival and the remote processing time and
   * feeds the round trip, net of that processing time and at least 1, to
   * the statistics.
   */
  function AckTiming(timers: seq<PacketTimers>, rtt: RttInfo, sequenceId: ushort, timestamp: int, processingTime: ushort)
    : (seq<PacketTimers>, RttInfo)
    requires |timers| >= 1
  {
    var j := sequenceId % |timers|;
    var t := timers[j];
    if t.sequenceId == sequenceId && t.receiveTime <= 0 then
      var sample := timestamp - t.sentTime - processingTime;
      (timers[j := t.(receiveTime := timestamp, processingTime := processingTime)],
       RttUpdate(rtt, ToI32(if sample > 1 then sample else 1)))
    else (timers, rtt)
  }

  /** A repeated ack of the same sequence changes nothing: the first arrival time (when positive) is kept. */
  lemma AckTimingOnce(timers: seq<PacketTimers>, rtt: RttInfo, sequenceId: ushort, t1: int, p1: ushort, t2: int, p2: ushort)
    requires |timers| >= 1 && t1 > 0
    ensures var (timers', rtt') := AckTiming(timers, rtt, sequenceId, t1, p1);
      AckTiming(timers', rtt', sequenceId, t2, p2) == (timers', rtt')
  {
  }

  /**
   * CurrentResendTime: the estimated resend timeout, capped at
   * MaximumResendTime and otherwise raised to the configured minimum.
   */
  function CurrentResendTime(rtt: RttInfo, minimumResendTime: int): (t: int)
    ensures rtt.resendTimeout > MaximumResendTime ==> t == MaximumResendTime
    ensures rtt.resendTimeout <= MaximumResendTime ==> t >= rtt.resendTimeout && t >= minimumResendTime
    ensures rtt.resendTimeout <= MaximumResendTime ==> t == rtt.resendTimeout || t == minimumResendTime
  {
    if rtt.resendTimeout > MaximumResendTime then MaximumResendTime
    else if rtt.resendTimeout > minimumResendTime then rtt.resendTimeout
    else minimumResendTime
  }

  /**
   * CalculateProcessingTime: the time since the remote sequence arrived, as
   * a ushort, when its timer slot still belongs to it; otherwise 0.
   */
  function CalculateProcessingTime(remoteTimers: seq<PacketTimers>, sequenceId: ushort, timestamp: int): (t: ushort)
    requires |remoteTimers| >= 1
    ensures remoteTimers[sequenceId % |remoteTimers|].sequenceId != sequenceId ==> t == 0
  {
    var timer := remoteTimers[sequenceId % |remoteTimers|];
    if timer.sequenceId == sequenceId then ToU16(timestamp - timer.receiveTime) else 0
  }

  /** StoreTimestamp: starts the round-trip timer of a sent sequence. */
  method StoreTimestamp(shared: SharedContext, sequenceId: ushort, timestamp: int)
    requires shared.Valid()
    modifies shared.localTimers
    ensures shared.localTimers[..] == old(shared.localTimers[..])[sequenceId % shared.windowSize := PacketTimers(0, sequenceId, timestamp, 0)]
  {
    shared.localTimers[sequenceId % shared.windowSize] := PacketTimers(0, sequenceId, timestamp, 0);
  }

  /**
   * StoreRemoteReceiveTimestamp: records when a remote sequence arrived, so
   * that the processing time reported with its ack is measured from then.
   */
  method StoreRemoteReceiveTimestamp(shared: SharedContext, sequenceId: ushort, timestamp: int)
    requires shared.Valid()
    modifies shared.remoteTimers
    ensures var j := sequenceId % shared.windowSize;
      shared.remoteTimers[..] == old(shared.remoteTimers[..])[j := old(shared.remoteTimers[j]).(sequenceId := sequenceId, receiveTime := timestamp)]
    ensures forall later :: CalculateProcessingTime(shared.remoteTimers[..], sequenceId, later) == ToU16(later - timestamp)
  {
    var j := sequenceId % shared.windowSize;
    shared.remoteTimers[j] := shared.remoteTimers[j].(sequenceId := sequenceId, receiveTime := timestamp);
  }

  /** StoreReceiveTimestamp: the timer and round-trip update of AckTiming. */
  method StoreReceiveTimestamp(shared: SharedContext, sequenceId: ushort, timestamp: int, processingTime: ushort)
    requires shared.Valid()
    modifies shared`rtt, shared.localTimers
    ensures (shared.localTimers[..], shared.rtt)
      == AckTiming(old(shared.localTimers[..]), old(shared.rtt), sequenceId, timestamp, processingTime)
  {
    var j := sequenceId % shared.windowSize;
    var t := shared.localTimers[j];
    if t.sequenceId == sequenceId {
      if t.receiveTime > 0 {
        return;
      }
      shared.localTimers[j] := t.(receiveTime := timestamp, processingTime := processingTime);
      var sample := timestamp - t.sentTime - processingTime;
      shared.rtt := RttUpdate(shared.rtt, ToI32(if sample > 1 then sample else 1));
    }
  }

  // ---------------------------------------------------------------------------
  // Receiving

  /** ReadAckPacket: takes the ack timing of the header and moves the acked id forward if it is newer. */
  method ReadAckPacket(shared: SharedContext, timestamp: int, header: PacketHeader)
    requires shared.Valid()
    modifies shared`sentPackets, shared`rtt, shared.localTimers
    ensures (shared.localTimers[..], shared.rtt)
      == AckTiming(old(shared.localTimers[..]), old(shared.rtt), header.ackedSequenceId, timestamp, header.processingTime)
    ensures shared.sentPackets == AckUpdate(old(shared.sentPackets), header)
  {
    StoreReceiveTimestamp(shared, header.ackedSequenceId, timestamp, header.processingTime);
    if !GreaterThan16(header.ackedSequenceId, ToU16(shared.sentPackets.acked)) {
      return;
    }
    shared.sentPackets := shared.sentPackets.(acked := header.ackedSequenceId, ackMask := header.ackMask);
  }

  /**
   * Read: classifies a received header as stale, duplicated or accepted,
   * updates the received-packets window and the statistics, and for an
   * accepted packet stamps its arrival and takes in the acks it carries.
   */
  method Read(shared: SharedContext, timestamp: int, header: PacketHeader) returns (r: int)
    requires shared.Valid()
    modifies shared, shared.localTimers, shared.remoteTimers
    ensures shared.Valid() && shared.Settings() == old(shared.Settings()) && shared.errorCode == old(shared.errorCode)
    ensures r == ReadResult(old(shared.receivedPackets), shared.windowSize, header.sequenceId)
    ensures shared.receivedPackets == ReceiveUpdate(old(shared.receivedPackets), shared.windowSize, header.sequenceId)
    ensures shared.stats == ReadStats(old(shared.stats), old(shared.receivedPackets), shared.windowSize, header.sequenceId)
    ensures r < 0 ==> && shared.sentPackets == old(shared.sentPackets) && shared.rtt == old(shared.rtt)
                      && shared.localTimers[..] == old(shared.localTimers[..])
                      && shared.remoteTimers[..] == old(shared.remoteTimers[..])
    ensures r >= 0 ==> && shared.sentPackets == AckUpdate(old(shared.sentPackets), header)
                       && (shared.localTimers[..], shared.rtt)
                          == AckTiming(old(shared.localTimers[..]), old(shared.rtt), header.ackedSequenceId, timestamp, header.processingTime)
                       && var j := header.sequenceId % shared.windowSize;
                          shared.remoteTimers[..] == old(shared.remoteTimers[..])[j := old(shared.remoteTimers[j]).(sequenceId := header.sequenceId, receiveTime := timestamp)]
  {
    var result, next, stats := ReadWindow(shared.receivedPackets, shared.stats, shared.windowSize, header.sequenceId);
    shared.stats := stats;
    shared.receivedPackets := next;
    if result < 0 {
      return result;
    }
    StoreRemoteReceiveTimestamp(shared, header.sequenceId, timestamp);
    ReadAckPacket(shared, timestamp, header);
    r := header.sequenceId;
  }

  /**
   * The window arithmetic of Read on the received-packets context rc and
   * the statistics st: its result, the new context and the new statistics.
   */
  method ReadWindow(rc: SequenceBufferContext, st: Statistics, windowSize: int, s: ushort)
    returns (r: int, next: SequenceBufferContext, stats: Statistics)
    ensures r == ReadResult(rc, windowSize, s)
    ensures next == ReceiveUpdate(rc, windowSize, s)
    ensures stats == ReadStats(st, rc, windowSize, s)
  {
    stats := st.(packetsReceived := st.packetsReceived + 1);
    next := rc;
    if StalePacket(s, ToU16(rc.sequence + 1), ToU16(windowSize)) {
      stats := stats.(packetsStale := stats.packetsStale + 1);
      return StalePacketError, next, stats;
    }
    if GreaterThan16(ToU16(s as int + 1), ToU16(rc.sequence)) {
      next, stats := AdvanceWindow(rc, stats, windowSize, s);
    } else if LessThan16(s, ToU16(rc.sequence)) {
      var distance := OlderDistance(rc, windowSize, s);
      if Bit(rc.ackMask, distance % 32) {
        stats := stats.(packetsDuplicated := stats.packetsDuplicated + 1);
        return DuplicatedPacketError, next, stats;
      }
      stats := stats.(packetsOutOfOrder := stats.packetsOutOfOrder + 1);
      next := rc.(ackMask := OrBit(rc.ackMask, distance % 32));
    }
    r := s;
  }

  /**
   * Read's update for a packet newer than the latest one: the mask shifts by
   * the distance and records the new packet, or restarts when the distance
   * exceeds the window; the bits shifted out unset, and the sequences
   * skipped beyond the window, count as dropped.
   */
  method AdvanceWindow(rc: SequenceBufferContext, st: Statistics, windowSize: int, s: ushort)
    returns (next: SequenceBufferContext, stats: Statistics)
    requires !IsStale(rc, windowSize, s) && IsNewest(rc, s)
    ensures next == ReceiveUpdate(rc, windowSize, s)
    ensures stats == ReadStats(st.(packetsReceived := st.packetsReceived - 1), rc, windowSize, s)
  {
    NewestRead(st.(packetsReceived := st.packetsReceived - 1), rc, windowSize, s);
    var window := windowSize - 1;
    var distance := AbsDistance(s, ToU16(rc.sequence));
    var missing := CountMissing(rc.ackMask, window, if distance < window then distance else window);
    var dropped := st.packetsDropped + missing;
    var mask: uint;
    if distance > window {
      dropped := dropped + distance - window;
      mask := 1;
    } else {
      mask := OrBit(ShiftLeft32(rc.ackMask, distance % 32), 0);
    }
    stats := st.(packetsDropped := dropped);
    next := rc.(ackMask := mask, sequence := s);
  }

  /** For a newer sequence inside the window, Read's update and statistics are those of advancing the window. */
  lemma NewestRead(st: Statistics, rc: SequenceBufferContext, windowSize: int, s: ushort)
    requires !IsStale(rc, windowSize, s) && IsNewest(rc, s)
    ensures ReceiveUpdate(rc, windowSize, s) == Advance(rc, windowSize, s)
    ensures ReadStats(st, rc, windowSize, s) == AdvanceStats(st.(packetsReceived := st.packetsReceived + 1), rc, windowSize, s)
  {
  }

  /** Read's count of the packets dropped before a newer one: the clear bits about to be shifted out. */
  method CountMissing(mask: uint, window: int, scan: int) returns (count: nat)
    ensures count == Missing(mask, window, scan)
  {
    count := 0;
    var i := 0;
    while i < scan
      invariant 0 <= i && (scan >= 0 ==> i <= scan) && (scan < 0 ==> i == 0)
      invariant count == Missing(mask, window, i)
    {
      if !Bit(mask, (window - i) % 32) {
        count := count + 1;
      }
      i := i + 1;
    }
  }

  /**
   * ShouldSendAck: more than a frame has passed since the last send and the
   * latest received sequence has not been acknowledged yet.
   */
  predicate ShouldSendAck(shared: SharedContext, p: ProcessBuffer)
    reads shared, p
  {
    p.lastSentTime < p.previousTimestamp && shared.receivedPackets.acked < shared.receivedPackets.sequence
  }

  /**
   * ResumeReceive: delivers the stored packet of startSequence, if its slot
   * holds it, and asks to be resumed for the next sequence when that is not
   * above the latest received one.
   */
  method ResumeReceive(shared: SharedContext, p: ProcessBuffer, startSequence: int, needsResume: bool)
    returns (slice: Option<seq<byte>>, resume: bool)
    requires p.Valid() && startSequence >= NullEntry
    modifies p`resume, p`delivered
    ensures startSequence == NullEntry ==> slice == None && resume == needsResume && p.resume == old(p.resume) && p.delivered == old(p.delivered)
    ensures startSequence >= 0 ==> slice == p.Stored(startSequence)
    ensures startSequence >= 0 && slice.None? ==> p.resume == NullEntry && p.delivered == old(p.delivered) && resume == needsResume
    ensures startSequence >= 0 && slice.Some? ==>
      && p.delivered == startSequence
      && if ToU16(startSequence + 1) <= shared.receivedPackets.sequence
         then p.resume == ToU16(startSequence + 1) && resume
         else p.resume == NullEntry && resume == needsResume
  {
    if startSequence == NullEntry {
      return None, needsResume;
    }
    p.resume := NullEntry;
    var index := startSequence % p.capacity;
    resume := needsResume;
    if p.info[index].sequenceId == startSequence {
      slice := Some(p.slots[index].payload);
      p.delivered := startSequence;
      if ToU16(startSequence + 1) <= shared.receivedPackets.sequence {
        p.resume := ToU16(startSequence + 1);
        resume := true;
      }
      return;
    }
    slice := None;
  }

  // ---------------------------------------------------------------------------
  // Sending

  /**
   * Write: takes the slot of the next send sequence (failing with
   * OutgoingQueueIsFull when the slot still holds an unacknowledged packet),
   * fills the header with that sequence and the receive window to
   * acknowledge, stores the packet for resend and starts its timer.
   */
  method Write(shared: SharedContext, p: ProcessBuffer, buffer1: seq<byte>, buffer2: seq<byte>, timestamp: int, header: PacketHeader)
    returns (r: int, h: PacketHeader)
    requires shared.Valid() && p.Valid()
    modifies shared, shared.localTimers, p.info, p.slots
    ensures shared.Valid() && p.Valid() && shared.Settings() == old(shared.Settings())
    ensures var sequence := ToU16(old(shared.sentPackets.sequence)); var j := sequence % p.capacity;
      old(p.info[j].sequenceId) != NullEntry ==>
        && r == OutgoingQueueIsFull && h == header && shared.errorCode == OutgoingQueueIsFull
        && shared.sentPackets == old(shared.sentPackets) && shared.receivedPackets == old(shared.receivedPackets)
        && shared.stats == old(shared.stats) && shared.localTimers[..] == old(shared.localTimers[..])
        && p.info[..] == old(p.info[..]) && p.slots[..] == old(p.slots[..])
    ensures var sequence := ToU16(old(shared.sentPackets.sequence)); var j := sequence % p.capacity;
      var rc := old(shared.receivedPackets);
      old(p.info[j].sequenceId) == NullEntry ==>
        && r == sequence && shared.errorCode == old(shared.errorCode)
        && h == header.(sequenceId := sequence, ackedSequenceId := ToU16(rc.sequence), ackMask := rc.ackMask,
                        processingTime := CalculateProcessingTime(shared.remoteTimers[..], ToU16(rc.sequence), timestamp))
        && shared.sentPackets == old(shared.sentPackets).(sequence := ToU16(old(shared.sentPackets.sequence) + 1))
        && shared.receivedPackets == rc.(acked := rc.sequence)
        && shared.stats == old(shared.stats).(packetsSent := old(shared.stats.packetsSent) + 1)
        && shared.localTimers[..] == old(shared.localTimers[..])[sequence % shared.windowSize := PacketTimers(0, sequence, timestamp, 0)]
        && (HeaderSize + |buffer1| + |buffer2| <= DataStride ==>
             && p.info[..] == old(p.info[..])[j := PacketInformation(sequence, |buffer1| + |buffer2|, timestamp)]
             && p.slots[..] == old(p.slots[..])[j := Slot(h, buffer1 + buffer2)])
        && (HeaderSize + |buffer1| + |buffer2| > DataStride ==>
             && p.info[..] == old(p.info[..])[j := old(p.info[j]).(sequenceId := sequence)]
             && p.slots[..] == old(p.slots[..]))
  {
    var sequence := ToU16(shared.sentPackets.sequence);
    var acquired := TryAquire(p, sequence);
    if !acquired {
      shared.errorCode := OutgoingQueueIsFull;
      return OutgoingQueueIsFull, header;
    }
    shared.stats := shared.stats.(packetsSent := shared.stats.packetsSent + 1);
    var rc := shared.receivedPackets;
    h := header.(sequenceId := sequence, ackedSequenceId := ToU16(rc.sequence), ackMask := rc.ackMask);
    shared.receivedPackets := rc.(acked := rc.sequence);
    h := h.(processingTime := CalculateProcessingTime(shared.remoteTimers[..], h.ackedSequenceId, timestamp));
    shared.sentPackets := shared.sentPackets.(sequence := ToU16(shared.sentPackets.sequence + 1));
    var stored := SetHeaderAndPacket(p, sequence, h, buffer1, buffer2, timestamp);
    StoreTimestamp(shared, sequence, timestamp);
    r := sequence;
  }

  /**
   * WriteAckPacket: an ack-only header carrying the receive window; it is
   * not stored and does not use up a sequence.
   */
  method WriteAckPacket(shared: SharedContext, timestamp: int, header: PacketHeader) returns (h: PacketHeader)
    requires shared.Valid()
    modifies shared`receivedPackets
    ensures var rc := old(shared.receivedPackets);
      && h == header.(packetType := AckPacket, ackedSequenceId := ToU16(rc.sequence), ackMask := rc.ackMask,
                      processingTime := CalculateProcessingTime(shared.remoteTimers[..], ToU16(rc.sequence), timestamp))
      && shared.receivedPackets == rc.(acked := rc.sequence)
  {
    var rc := shared.receivedPackets;
    h := header.(packetType := AckPacket, ackedSequenceId := ToU16(rc.sequence), ackMask := rc.ackMask);
    h := h.(processingTime := CalculateProcessingTime(shared.remoteTimers[..], h.ackedSequenceId, timestamp));
    shared.receivedPackets := rc.(acked := rc.sequence);
  }

  /**
   * Where ReleaseOrResumePackets starts its backward walk: 0 when the last
   * acked id is 0 or 1, otherwise -windowSize as a ushort, so that the walk
   * does not cross zero.
   */
  function ReleaseStart(windowSize: int, lastAcked: ushort): ushort
  {
    ToU16(windowSize * ((1 - lastAcked) / 0x8000))
  }

  /** A slot entry either stays as it was or is released because the remote acknowledged it. */
  predicate ReleasedIfAcked(before: PacketInformation, after: PacketInformation, sent: SequenceBufferContext, windowSize: int)
  {
    || after == before
    || (before.sequenceId >= 0 && AckedByRemote(sent, windowSize, before.sequenceId)
        && after == before.(sequenceId := NullEntry, sendTime := -1))
  }

  /** A stored packet the remote has not acknowledged and whose resend time has passed. */
  predicate TimedOut(info: PacketInformation, sent: SequenceBufferContext, windowSize: int, timestamp: int, resendTime: int)
  {
    info.sequenceId >= 0 && !AckedByRemote(sent, windowSize, info.sequenceId) && timestamp > info.sendTime + resendTime
  }

  /** The slot ReleaseOrResumePackets visits at step k of its walk. */
  function WalkSlot(start: ushort, k: int, capacity: int): (j: int)
    requires capacity >= 1
    ensures 0 <= j < capacity
  {
    ToU16(start - k) % capacity
  }

  /** The table after visiting slot index: released when it holds a packet the remote acknowledged. */
  function VisitInfos(infos: seq<PacketInformation>, index: int, sent: SequenceBufferContext, windowSize: int)
    : seq<PacketInformation>
    requires 0 <= index < |infos|
  {
    var info := infos[index];
    if info.sequenceId >= 0 && AckedByRemote(sent, windowSize, info.sequenceId)
    then infos[index := info.(sequenceId := NullEntry, sendTime := -1)]
    else infos
  }

  /** The resume sequence after visiting slot index: its packet, when that has timed out. */
  function VisitResume(infos: seq<PacketInformation>, index: int, sent: SequenceBufferContext, windowSize: int,
                       timestamp: int, resendTime: int, resume: int): int
    requires 0 <= index < |infos|
  {
    if TimedOut(infos[index], sent, windowSize, timestamp, resendTime) then infos[index].sequenceId else resume
  }

  /** The table after the first k steps of the walk from start. */
  function Walk(infos: seq<PacketInformation>, sent: SequenceBufferContext, windowSize: int, start: ushort, k: nat)
    : (r: seq<PacketInformation>)
    requires |infos| >= 1
    ensures |r| == |infos|
  {
    if k == 0 then infos
    else VisitInfos(Walk(infos, sent, windowSize, start, k - 1), WalkSlot(start, k - 1, |infos|), sent, windowSize)
  }

  /** The resume sequence after the first k steps of the walk from start. */
  function WalkResume(infos: seq<PacketInformation>, sent: SequenceBufferContext, windowSize: int, start: ushort, k: nat,
                      timestamp: int, resendTime: int, resume: int): int
    requires |infos| >= 1
  {
    if k == 0 then resume
    else VisitResume(Walk(infos, sent, windowSize, start, k - 1), WalkSlot(start, k - 1, |infos|), sent, windowSize,
                     timestamp, resendTime, WalkResume(infos, sent, windowSize, start, k - 1, timestamp, resendTime, resume))
  }

  /** The walk changes a slot only by releasing a packet the remote acknowledged. */
  lemma {:induction false} WalkReleasesOnlyAcked(infos: seq<PacketInformation>, sent: SequenceBufferContext, windowSize: int,
                                                 start: ushort, k: nat, j: int)
    requires |infos| >= 1 && 0 <= j < |infos|
    ensures ReleasedIfAcked(infos[j], Walk(infos, sent, windowSize, start, k)[j], sent, windowSize)
  {
    if k > 0 {
      WalkReleasesOnlyAcked(infos, sent, windowSize, start, k - 1, j);
    }
  }

  /** Every slot the walk visits that held a packet the remote acknowledged is released. */
  lemma {:induction false} WalkReleasesVisited(infos: seq<PacketInformation>, sent: SequenceBufferContext, windowSize: int,
                                               start: ushort, k: nat, m: nat)
    requires |infos| >= 1 && m < k
    requires var j := WalkSlot(start, m, |infos|);
      infos[j].sequenceId >= 0 && AckedByRemote(sent, windowSize, infos[j].sequenceId)
    ensures Walk(infos, sent, windowSize, start, k)[WalkSlot(start, m, |infos|)].sequenceId == NullEntry
  {
    var j := WalkSlot(start, m, |infos|);
    if m < k - 1 {
      WalkReleasesVisited(infos, sent, windowSize, start, k - 1, m);
    } else {
      WalkReleasesOnlyAcked(infos, sent, windowSize, start, k - 1, j);
    }
  }

  /** The walk resumes, if it changes the resume sequence at all, a packet of the table that timed out. */
  lemma {:induction false} WalkResumesTimedOut(infos: seq<PacketInformation>, sent: SequenceBufferContext, windowSize: int,
                                               start: ushort, k: nat, timestamp: int, resendTime: int, resume: int)
    requires |infos| >= 1
    ensures var r := WalkResume(infos, sent, windowSize, start, k, timestamp, resendTime, resume);
      r == resume || exists j :: 0 <= j < |infos| && r == infos[j].sequenceId && TimedOut(infos[j], sent, windowSize, timestamp, resendTime)
  {
    if k > 0 {
      WalkResumesTimedOut(infos, sent, windowSize, start, k - 1, timestamp, resendTime, resume);
      var j := WalkSlot(start, k - 1, |infos|);
      var before := Walk(infos, sent, windowSize, start, k - 1);
      if TimedOut(before[j], sent, windowSize, timestamp, resendTime) {
        WalkReleasesOnlyAcked(infos, sent, windowSize, start, k - 1, j);
        assert before[j] == infos[j];
      }
    }
  }

  /** One step of ReleaseOrResumePackets' walk: the slot at index. */
  method VisitSlot(p: ProcessBuffer, index: int, sent: SequenceBufferContext, windowSize: int, timestamp: int, resendTime: int)
    requires p.Valid() && 0 <= index < p.capacity
    modifies p.info, p`resume
    ensures p.Valid()
    ensures p.info[..] == VisitInfos(old(p.info[..]), index, sent, windowSize)
    ensures p.resume == VisitResume(old(p.info[..]), index, sent, windowSize, timestamp, resendTime, old(p.resume))
  {
    var info := p.info[index];
    if info.sequenceId >= 0 {
      if AckedByRemote(sent, windowSize, info.sequenceId) {
        Release(p, info.sequenceId, 1);
        p.info[index] := p.info[index].(sendTime := -1);
      } else if timestamp > info.sendTime + resendTime {
        p.resume := info.sequenceId;
      }
    }
  }

  /**
   * ReleaseOrResumePackets: walks windowSize slots backwards from
   * ReleaseStart, releasing every stored packet the remote acknowledged and
   * picking a timed-out one to resend; answers whether a resend is pending.
   */
  method ReleaseOrResumePackets(shared: SharedContext, p: ProcessBuffer, timestamp: int) returns (resume: bool)
    requires shared.Valid() && p.Valid()
    modifies p.info, p`resume
    ensures p.Valid()
    ensures resume <==> p.resume != NullEntry
    ensures old(p.resume) >= NullEntry ==> p.resume >= NullEntry
    ensures var start := ReleaseStart(shared.windowSize, ToU16(shared.sentPackets.acked));
      && p.info[..] == Walk(old(p.info[..]), shared.sentPackets, shared.windowSize, start, shared.windowSize)
      && p.resume == WalkResume(old(p.info[..]), shared.sentPackets, shared.windowSize, start, shared.windowSize,
                                timestamp, CurrentResendTime(shared.rtt, shared.minimumResendTime), old(p.resume))
  {
    var sent := shared.sentPackets;
    var windowSize := shared.windowSize;
    var start := ReleaseStart(windowSize, ToU16(sent.acked));
    var resendTime := CurrentResendTime(shared.rtt, shared.minimumResendTime);
    ghost var infos := p.info[..];
    var i := 0;
    while i < windowSize
      invariant 0 <= i <= windowSize
      invariant p.Valid() && p.capacity == |infos|
      invariant p.info[..] == Walk(infos, sent, windowSize, start, i)
      invariant p.resume == WalkResume(infos, sent, windowSize, start, i, timestamp, resendTime, old(p.resume))
    {
      // the slot of sequence start - i, counted down as a ushort
      VisitSlot(p, WalkSlot(start, i, p.capacity), sent, windowSize, timestamp, resendTime);
      i := i + 1;
    }
    WalkResumesTimedOut(infos, sent, windowSize, start, windowSize, timestamp, resendTime, old(p.resume));
    resume := p.resume != NullEntry;
  }

  /**
   * What ReleaseOrResumePackets promises: every stored packet the remote
   * acknowledged in the slots it walks is released, nothing else is, and a
   * new resume sequence is a stored packet that timed out.
   */
  lemma ReleaseOrResumeEffect(infos: seq<PacketInformation>, sent: SequenceBufferContext, windowSize: int,
                              timestamp: int, resendTime: int, resume: int)
    requires |infos| >= 1 && windowSize >= 0
    ensures var start := ReleaseStart(windowSize, ToU16(sent.acked));
      var after := Walk(infos, sent, windowSize, start, windowSize);
      && (forall j :: 0 <= j < |infos| ==> ReleasedIfAcked(infos[j], after[j], sent, windowSize))
      && (forall m :: 0 <= m < windowSize ==>
            var j := WalkSlot(start, m, |infos|);
            infos[j].sequenceId >= 0 && AckedByRemote(sent, windowSize, infos[j].sequenceId) ==> after[j].sequenceId == NullEntry)
  {
    var start := ReleaseStart(windowSize, ToU16(sent.acked));
    forall j | 0 <= j < |infos|
      ensures ReleasedIfAcked(infos[j], Walk(infos, sent, windowSize, start, windowSize)[j], sent, windowSize)
    {
      WalkReleasesOnlyAcked(infos, sent, windowSize, start, windowSize, j);
    }
    forall m | 0 <= m < windowSize && infos[WalkSlot(start, m, |infos|)].sequenceId >= 0
                && AckedByRemote(sent, windowSize, infos[WalkSlot(start, m, |infos|)].sequenceId)
      ensures Walk(infos, sent, windowSize, start, windowSize)[WalkSlot(start, m, |infos|)].sequenceId == NullEntry
    {
      WalkReleasesVisited(infos, sent, windowSize, start, windowSize, m);
    }
  }

  /** Slot i holds a packet whose resend time has not passed yet. */
  predicate Pending(infos: seq<PacketInformation>, i: int, resendTime: int, timestamp: int)
    requires |infos| >= 1
  {
    var info := infos[i % |infos|];
    info.sequenceId >= 0 && info.sendTime + resendTime > timestamp
  }

  /** The last sequence in [lo, hi) whose slot is Pending, or NullEntry. */
  function LastPending(infos: seq<PacketInformation>, lo: int, hi: int, resendTime: int, timestamp: int): (r: int)
    requires |infos| >= 1 && lo >= 0
    ensures r == NullEntry || (lo <= r < hi && Pending(infos, r, resendTime, timestamp))
    decreases hi - lo
  {
    if hi <= lo then NullEntry
    else if Pending(infos, hi - 1, resendTime, timestamp) then hi - 1
    else LastPending(infos, lo, hi - 1, resendTime, timestamp)
  }

  /** No sequence after the one LastPending picks, up to hi, is Pending. */
  lemma {:induction false} LastPendingIsLast(infos: seq<PacketInformation>, lo: int, hi: int, resendTime: int, timestamp: int, i: int)
    requires |infos| >= 1 && lo >= 0
    requires var r := LastPending(infos, lo, hi, resendTime, timestamp); (if r == NullEntry then lo else r + 1) <= i < hi
    ensures !Pending(infos, i, resendTime, timestamp)
    decreases hi - lo
  {
    if hi > lo && !Pending(infos, hi - 1, resendTime, timestamp) && i < hi - 1 {
      LastPendingIsLast(infos, lo, hi - 1, resendTime, timestamp, i);
    }
  }

  /**
   * ResumeSend: resends the packet of the resume sequence with a fresh
   * header window and send time, and sets the resume sequence to the last
   * later sequence, up to the latest received one, whose slot is Pending.
   */
  method ResumeSend(shared: SharedContext, p: ProcessBuffer, timestamp: int)
    returns (slice: seq<byte>, header: PacketHeader, needsResume: bool)
    requires shared.Valid() && p.Valid() && p.resume >= 0
    modifies shared`stats, p.info, p`resume
    ensures p.Valid()
    ensures var sequence := ToU16(old(p.resume)); var j := sequence % p.capacity;
      && p.info[..] == old(p.info[..])[j := old(p.info[j]).(sendTime := timestamp)]
      && slice == p.slots[j].payload
      && header == p.slots[j].header.(ackedSequenceId := ToU16(shared.receivedPackets.sequence), ackMask := shared.receivedPackets.ackMask)
      && shared.stats == old(shared.stats).(packetsResent := old(shared.stats.packetsResent) + 1)
      && p.resume == LastPending(p.info[..], sequence + 1, shared.receivedPackets.sequence + 1, CurrentResendTime(shared.rtt, shared.minimumResendTime), timestamp)
    ensures needsResume <==> p.resume != NullEntry
  {
    var sequence := ToU16(p.resume);
    var index := sequence % p.capacity;
    p.info[index] := p.info[index].(sendTime := timestamp);
    var rc := shared.receivedPackets;
    header := p.slots[index].header.(ackedSequenceId := ToU16(rc.sequence), ackMask := rc.ackMask);
    slice := p.slots[index].payload;
    shared.stats := shared.stats.(packetsResent := shared.stats.packetsResent + 1);
    p.resume := FindResume(p, sequence + 1, rc.sequence + 1, CurrentResendTime(shared.rtt, shared.minimumResendTime), timestamp);
    needsResume := p.resume != NullEntry;
  }

  /** ResumeSend's scan for another packet to resume: the last Pending sequence in [lo, hi). */
  method FindResume(p: ProcessBuffer, lo: int, hi: int, resendTime: int, timestamp: int) returns (next: int)
    requires p.Valid() && lo >= 0
    ensures next == LastPending(p.info[..], lo, hi, resendTime, timestamp)
  {
    var infos := p.info[..];
    next := NullEntry;
    var i := lo;
    while i < hi
      invariant lo <= i && (lo <= hi ==> i <= hi) && (hi < lo ==> i == lo)
      invariant next == LastPending(infos, lo, i, resendTime, timestamp)
    {
      if Pending(infos, i, resendTime, timestamp) {
        next := i;
      }
      i := i + 1;
    }
  }

  // ---------------------------------------------------------------------------
  // Context set-up

  /**
   * InitializeContext: sets up both process buffers and the shared context:
   * nothing sent or received yet, the default minimum resend time and the
   * initial round-trip estimate.
   */
  method InitializeContext(shared: SharedContext, send: ProcessBuffer, recv: ProcessBuffer, windowSize: int)
    returns (sendResult: int, recvResult: int)
    requires windowSize >= 1 && send != recv
    modifies shared, send, recv
    ensures sendResult == 0 <==> send.length == ProcessCapacityNeeded(windowSize)
    ensures recvResult == 0 <==> recv.length == ProcessCapacityNeeded(windowSize)
    ensures sendResult == 0 ==> send.Valid() && send.capacity == windowSize && send.resume == NullEntry && send.delivered == NullEntry
    ensures recvResult == 0 ==> recv.Valid() && recv.capacity == windowSize && recv.resume == NullEntry && recv.delivered == NullEntry
    ensures shared.Valid() && fresh(shared.localTimers) && fresh(shared.remoteTimers)
    ensures shared.windowSize == windowSize && shared.minimumResendTime == DefaultMinimumResendTime
    ensures shared.sentPackets == SequenceBufferContext(0, NullEntry, 0)
    ensures shared.receivedPackets == SequenceBufferContext(NullEntry, 0, 0)
    ensures shared.stats == NoStatistics && shared.errorCode == 0 && shared.rtt == InitialRtt
  {
    sendResult := InitializeProcessContext(send, windowSize);
    recvResult := InitializeProcessContext(recv, windowSize);
    ResetSharedContext(shared, windowSize);
  }

  /** The first round-trip estimate: 50 with a variance of 5, and a resend timeout of 50. */
  const InitialRtt := RttInfo(50, 50.0, 5.0, 50)

  /** The shared-context half of InitializeContext. */
  method ResetSharedContext(shared: SharedContext, windowSize: int)
    requires windowSize >= 1
    modifies shared
    ensures shared.Valid() && fresh(shared.localTimers) && fresh(shared.remoteTimers)
    ensures shared.windowSize == windowSize && shared.minimumResendTime == DefaultMinimumResendTime
    ensures shared.sentPackets == SequenceBufferContext(0, NullEntry, 0)
    ensures shared.receivedPackets == SequenceBufferContext(NullEntry, 0, 0)
    ensures shared.stats == NoStatistics && shared.errorCode == 0 && shared.rtt == InitialRtt
  {
    shared.windowSize := windowSize;
    shared.sentPackets := SequenceBufferContext(0, NullEntry, 0);
    shared.minimumResendTime := DefaultMinimumResendTime;
    shared.receivedPackets := SequenceBufferContext(NullEntry, 0, 0);
    shared.stats := NoStatistics;
    shared.errorCode := 0;
    shared.rtt := InitialRtt;
    shared.localTimers := new PacketTimers[windowSize](_ => ZeroTimers);
    shared.remoteTimers := new PacketTimers[windowSize](_ => ZeroTimers);
  }
}
