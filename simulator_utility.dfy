// The packet-delay simulator's bookkeeping: a fixed table of delayed-packet
// records at the start of a process buffer, each slot owning a payload area
// of MaxPacketSize bytes after the records.

module SimulatorUtility {
  import opened Wrappers
  import opened Words

  /** The size of a DelayedPacket record: two ints and a long. */
  const DelayedPacketSize := 16
  /** long.MaxValue, where the scan for the oldest ready packet starts. */
  const LongMax := 0x7FFF_FFFF_FFFF_FFFF

  /** The simulator's configuration. */
  datatype Parameters = Parameters(maxPacketCount: int32, maxPacketSize: int32, packetDelayMs: int32,
                                   packetDropInterval: int32, packetDropPercentage: int32)

  /** One slot's record: where its payload is, how long it is, and when it is due (0 for a free slot). */
  datatype DelayedPacket = DelayedPacket(processBufferOffset: int32, packetSize: int32, delayUntil: int64)

  const FreeRecord := DelayedPacket(0, 0, 0)

  /** The SimulatorUtility value: the slot count, the payload area size and the fixed delay. */
  datatype Simulator = Simulator(packetCount: int32, maxPacketSize: int32, packetDelayMs: int32)

  /** The simulator's shared context: its configuration and the statistics of the last scan. */
  class Context {
    var maxPacketCount: int
    var maxPacketSize: int
    var packetDelayMs: int
    var packetDrop: int
    var packetCount: int
    var packetDropCount: int
    var readyPackets: int
    var waitingPackets: int
    var nextPacketTime: int
    var statsTime: int

    /** A zero-filled shared buffer. */
    constructor ()
      ensures packetCount == 0 && packetDropCount == 0
    {
      maxPacketCount, maxPacketSize, packetDelayMs, packetDrop := 0, 0, 0, 0;
      packetCount, packetDropCount, readyPackets, waitingPackets := 0, 0, 0, 0;
      nextPacketTime, statsTime := 0, 0;
    }
  }

  /** InitializeContext: copies the configuration and zeroes the packet counters. */
  method InitializeContext(param: Parameters, ctx: Context)
    modifies ctx
    ensures ctx.maxPacketCount == param.maxPacketCount && ctx.maxPacketSize == param.maxPacketSize
    ensures ctx.packetDelayMs == param.packetDelayMs && ctx.packetDrop == param.packetDropInterval
    ensures ctx.packetCount == 0 && ctx.packetDropCount == 0
    ensures ctx.readyPackets == old(ctx.readyPackets) && ctx.waitingPackets == old(ctx.waitingPackets)
    ensures ctx.nextPacketTime == old(ctx.nextPacketTime) && ctx.statsTime == old(ctx.statsTime)
  {
    ctx.maxPacketCount := param.maxPacketCount;
    ctx.maxPacketSize := param.maxPacketSize;
    ctx.packetDelayMs := param.packetDelayMs;
    ctx.packetDrop := param.packetDropInterval;
    ctx.packetCount := 0;
    ctx.packetDropCount := 0;
  }

  /**
   * Where slot i's payload area starts: after all the records, MaxPacketSize
   * bytes per earlier slot; the area of every slot ends inside a buffer of
   * ReceiveCapacity bytes.
   */
  function PayloadOffset(sim: Simulator, i: int): (o: int)
    ensures 0 <= i < sim.packetCount && sim.maxPacketSize >= 0 ==>
      0 <= o && o + sim.maxPacketSize <= sim.packetCount * (DelayedPacketSize + sim.maxPacketSize)
  {
    var o := sim.packetCount * DelayedPacketSize + sim.maxPacketSize * i;
    if 0 <= i < sim.packetCount && sim.maxPacketSize >= 0 then
      MulMonotone(i + 1, sim.packetCount as int, sim.maxPacketSize as int);
      o
    else o
  }

  /** A record whose payload lies inside a process buffer of n bytes. */
  predicate Fits(r: DelayedPacket, n: int)
  {
    0 <= r.processBufferOffset && 0 <= r.packetSize && r.processBufferOffset + r.packetSize <= n
  }

  /**
   * The process buffer of the simulator stage: the record table (the first
   * packetCount * 16 bytes of the source's buffer, kept as records here)
   * and the buffer's bytes, in which the payload areas lie.
   */
  class DelayBuffer {
    var records: array<DelayedPacket>
    var data: array<byte>

    /** The buffer is ReceiveCapacity bytes (an int), one record per slot, and every record points inside it. */
    ghost predicate Valid(sim: Simulator)
      reads this, records
    {
      && sim.packetCount >= 0 && sim.maxPacketSize >= 0
      && records.Length == sim.packetCount
      && data.Length == sim.packetCount * (DelayedPacketSize + sim.maxPacketSize) < U31
      && forall i :: 0 <= i < records.Length ==> Fits(records[i], data.Length)
    }

    /** A zero-filled process buffer: every slot free. */
    constructor (sim: Simulator)
      requires sim.packetCount >= 0 && sim.maxPacketSize >= 0
      requires sim.packetCount * (DelayedPacketSize + sim.maxPacketSize) < U31
      ensures Valid(sim) && fresh(records) && fresh(data)
      ensures forall i :: 0 <= i < records.Length ==> records[i] == FreeRecord
    {
      records := new DelayedPacket[sim.packetCount](_ => FreeRecord);
      data := new byte[sim.packetCount * (DelayedPacketSize + sim.maxPacketSize)](_ => 0);
    }
  }

  /** A slot holds a delayed packet. */
  predicate Queued(r: DelayedPacket)
  {
    r.delayUntil != 0
  }

  /** A held packet that is due at time now. */
  predicate Ready(r: DelayedPacket, now: int)
  {
    Queued(r) && r.delayUntil <= now
  }

  /** The first free slot, or -1 when every slot holds a packet. */
  function FirstFree(rs: seq<DelayedPacket>): (i: int)
    ensures -1 <= i < |rs|
    ensures i >= 0 ==> !Queued(rs[i])
    ensures forall j :: 0 <= j < |rs| && (i == -1 || j < i) ==> Queued(rs[j])
  {
    if |rs| == 0 then -1
    else if !Queued(rs[0]) then 0
    else
      var k := FirstFree(rs[1..]);
      if k < 0 then -1 else k + 1
  }

  /**
   * GetEmptyDataSlot: the first free slot, with the offset of its payload
   * area and of its record. The record offset is the source's loop variable:
   * when no slot is free it is left at the last slot's record.
   */
  method GetEmptyDataSlot(sim: Simulator, buf: DelayBuffer, payloadOffsetIn: int, dataOffsetIn: int)
    returns (found: bool, payloadOffset: int, dataOffset: int)
    requires buf.Valid(sim)
    ensures var i := FirstFree(buf.records[..]);
      && (found <==> i >= 0)
      && (found ==> payloadOffset == PayloadOffset(sim, i) && dataOffset == DelayedPacketSize * i)
      && (!found ==> payloadOffset == payloadOffsetIn)
      && (!found ==> dataOffset == if sim.packetCount > 0 then DelayedPacketSize * (sim.packetCount - 1) else dataOffsetIn)
  {
    found, payloadOffset, dataOffset := false, payloadOffsetIn, dataOffsetIn;
    var i := 0;
    while i < sim.packetCount
      invariant 0 <= i <= sim.packetCount
      invariant forall j :: 0 <= j < i ==> Queued(buf.records[j])
      invariant payloadOffset == payloadOffsetIn
      invariant dataOffset == if i > 0 then DelayedPacketSize * (i - 1) else dataOffsetIn
    {
      dataOffset := DelayedPacketSize * i;
      if buf.records[i].delayUntil == 0 {
        found := true;
        payloadOffset := sim.packetCount * DelayedPacketSize + sim.maxPacketSize * i;
        return;
      }
      i := i + 1;
    }
  }

  /** d with the bytes from start on replaced by p. */
  function Spliced(d: seq<byte>, start: int, p: seq<byte>): (r: seq<byte>)
    requires 0 <= start && start + |p| <= |d|
    ensures |r| == |d| && r[start..start + |p|] == p
    ensures forall k :: 0 <= k < |d| && !(start <= k < start + |p|) ==> r[k] == d[k]
  {
    d[..start] + p + d[start + |p|..]
  }

  /** StorePacketPayload: copies the two source slices one after the other into the destination area. */
  method StorePacketPayload(dest: array<byte>, start: int, source1: seq<byte>, source2: seq<byte>)
    requires 0 <= start && start + |source1| + |source2| <= dest.Length
    modifies dest
    ensures dest[..] == Spliced(old(dest[..]), start, source1 + source2)
  {
    var position := 0;
    while position < |source1|
      invariant 0 <= position <= |source1|
      invariant forall k :: 0 <= k < dest.Length ==>
        dest[k] == if start <= k < start + position then source1[k - start] else old(dest[k])
    {
      dest[start + position] := source1[position];
      position := position + 1;
    }
    var i := 0;
    while i < |source2|
      invariant 0 <= i <= |source2| && position == |source1| + i
      invariant forall k :: 0 <= k < dest.Length ==>
        dest[k] == if start <= k < start + |source1| then source1[k - start]
                   else if start + |source1| <= k < start + position then source2[k - start - |source1|]
                   else old(dest[k])
    {
      dest[start + position] := source2[i];
      position := position + 1;
      i := i + 1;
    }
    assert forall k :: 0 <= k < dest.Length ==> dest[..][k] == Spliced(old(dest[..]), start, source1 + source2)[k];
  }

  /**
   * DelayPacket: stores the packet in the first free slot's payload area
   * and records it as due PacketDelayMs after timestamp (in unchecked long
   * arithmetic); without a free slot nothing changes. needsUpdate is set on
   * success and otherwise left as it was.
   */
  method DelayPacket(sim: Simulator, buf: DelayBuffer, buffer1: seq<byte>, buffer2: seq<byte>, timestamp: int64,
                     needsUpdateIn: bool)
    returns (ok: bool, needsUpdate: bool)
    requires buf.Valid(sim) && |buffer1| + |buffer2| <= sim.maxPacketSize
    modifies buf.records, buf.data
    ensures buf.Valid(sim)
    ensures var i := FirstFree(old(buf.records[..]));
      && (ok <==> i >= 0)
      && (ok ==> buf.records[..] == old(buf.records[..])[i := DelayedPacket(PayloadOffset(sim, i), |buffer1| + |buffer2|,
                                                                             ToI64(timestamp + sim.packetDelayMs))])
      && (ok ==> buf.data[..] == Spliced(old(buf.data[..]), PayloadOffset(sim, i), buffer1 + buffer2))
    ensures !ok ==> buf.records[..] == old(buf.records[..]) && buf.data[..] == old(buf.data[..])
    ensures needsUpdate <==> needsUpdateIn || ok
  {
    needsUpdate := needsUpdateIn;
    var found, packetPayloadOffset, packetDataOffset := GetEmptyDataSlot(sim, buf, 0, 0);
    if !found {
      return false, needsUpdate;
    }
    StorePacketPayload(buf.data, packetPayloadOffset, buffer1, buffer2);
    var packet := DelayedPacket(packetPayloadOffset, |buffer1| + |buffer2|, ToI64(timestamp + sim.packetDelayMs));
    buf.records[packetDataOffset / DelayedPacketSize] := packet;
    needsUpdate := true;
    ok := true;
  }

  /**
   * The scan of GetDelayedPacket over rs: the slot and due time of the
   * oldest ready packet (the first of equals), starting from (-1, LongMax).
   */
  function Oldest(rs: seq<DelayedPacket>, now: int): (o: (int, int))
    ensures -1 <= o.0 < |rs|
  {
    if |rs| == 0 then (-1, LongMax)
    else
      var prev := Oldest(rs[..|rs| - 1], now);
      var r := rs[|rs| - 1];
      if Ready(r, now) && r.delayUntil < prev.1 then (|rs| - 1, r.delayUntil as int) else prev
  }

  /** The number of held packets. */
  function CountQueued(rs: seq<DelayedPacket>): nat
  {
    if |rs| == 0 then 0 else CountQueued(rs[..|rs| - 1]) + (if Queued(rs[|rs| - 1]) then 1 else 0)
  }

  /** The number of held packets due at time now. */
  function CountReady(rs: seq<DelayedPacket>, now: int): nat
  {
    if |rs| == 0 then 0 else CountReady(rs[..|rs| - 1], now) + (if Ready(rs[|rs| - 1], now) then 1 else 0)
  }

  /**
   * What the scan picks: a ready packet due no later than any other ready
   * one and strictly earlier than every ready one in an earlier slot; it
   * picks nothing only when no ready packet is due before LongMax.
   */
  lemma {:induction false} OldestIsEarliest(rs: seq<DelayedPacket>, now: int)
    ensures var o := Oldest(rs, now);
      && (o.0 >= 0 ==> Ready(rs[o.0], now) && o.1 == rs[o.0].delayUntil < LongMax)
      && (o.0 == -1 ==> o.1 == LongMax)
      && (forall j :: 0 <= j < |rs| && Ready(rs[j], now) ==> o.1 <= rs[j].delayUntil)
      && (forall j :: 0 <= j < o.0 && Ready(rs[j], now) ==> o.1 < rs[j].delayUntil)
  {
    if |rs| > 0 {
      var front := rs[..|rs| - 1];
      OldestIsEarliest(front, now);
      assert forall j :: 0 <= j < |rs| - 1 ==> rs[j] == front[j];
    }
  }

  /**
   * GetDelayedPacket: scans every slot, records the statistics of the scan,
   * and hands out the oldest ready packet, freeing its slot. A resume is
   * requested when more than one packet is ready; otherwise an update is
   * requested while any packet is held.
   */
  method GetDelayedPacket(sim: Simulator, buf: DelayBuffer, ctx: Context, now: int64)
    returns (found: bool, packet: seq<byte>, needsResume: bool, needsUpdate: bool)
    requires buf.Valid(sim)
    modifies buf.records, ctx
    ensures buf.Valid(sim)
    ensures var rs := old(buf.records[..]);
      && ctx.readyPackets == CountReady(rs, now) && ctx.waitingPackets == CountQueued(rs)
      && ctx.nextPacketTime == Oldest(rs, now).1 && ctx.statsTime == now
    ensures ctx.maxPacketCount == old(ctx.maxPacketCount) && ctx.maxPacketSize == old(ctx.maxPacketSize)
    ensures ctx.packetDelayMs == old(ctx.packetDelayMs) && ctx.packetDrop == old(ctx.packetDrop)
    ensures ctx.packetCount == old(ctx.packetCount) && ctx.packetDropCount == old(ctx.packetDropCount)
    ensures needsResume <==> CountReady(old(buf.records[..]), now) > 1
    ensures needsUpdate <==> CountReady(old(buf.records[..]), now) <= 1 && CountQueued(old(buf.records[..])) > 0
    ensures var rs := old(buf.records[..]); var i := Oldest(rs, now).0;
      && (found <==> i >= 0)
      && (found ==> buf.records[..] == rs[i := rs[i].(delayUntil := 0)])
      && (found ==> packet == buf.data[rs[i].processBufferOffset..rs[i].processBufferOffset + rs[i].packetSize])
      && (!found ==> buf.records[..] == rs && packet == [])
  {
    ghost var rs := buf.records[..];
    var oldestPacketIndex := -1;
    var oldestTime := LongMax;
    var readyPackets := 0;
    var packetsInQueue := 0;
    var i := 0;
    while i < sim.packetCount
      invariant 0 <= i <= sim.packetCount && buf.records[..] == rs
      invariant (oldestPacketIndex, oldestTime) == Oldest(rs[..i], now)
      invariant readyPackets == CountReady(rs[..i], now) && packetsInQueue == CountQueued(rs[..i])
    {
      assert rs[..i + 1][..i] == rs[..i];
      var packet := buf.records[i];
      if packet.delayUntil != 0 {
        packetsInQueue := packetsInQueue + 1;
        if packet.delayUntil <= now {
          readyPackets := readyPackets + 1;
          if packet.delayUntil < oldestTime {
            oldestPacketIndex := i;
            oldestTime := packet.delayUntil as int;
          }
        }
      }
      i := i + 1;
    }
    assert rs[..i] == rs;
    ctx.readyPackets := readyPackets;
    ctx.waitingPackets := packetsInQueue;
    ctx.nextPacketTime := oldestTime;
    ctx.statsTime := now;
    needsResume, needsUpdate := false, false;
    if readyPackets > 1 {
      needsUpdate, needsResume := false, true;
    } else if packetsInQueue > 0 {
      needsUpdate, needsResume := true, false;
    }
    if oldestPacketIndex >= 0 {
      var record := buf.records[oldestPacketIndex];
      buf.records[oldestPacketIndex] := record.(delayUntil := 0);
      packet := buf.data[record.processBufferOffset..record.processBufferOffset + record.packetSize];
      return true, packet, needsResume, needsUpdate;
    }
    return false, [], needsResume, needsUpdate;
  }

  /**
   * A packet delayed into slot i while every other slot is free comes back
   * intact from the first scan at or after its due time.
   */
  lemma DelayedPacketReturns(sim: Simulator, rs: seq<DelayedPacket>, d: seq<byte>, i: int, payload: seq<byte>,
                             due: int64, now: int)
    requires 0 <= i < |rs| && 0 <= PayloadOffset(sim, i) && PayloadOffset(sim, i) + |payload| <= |d| < U31
    requires forall j :: 0 <= j < |rs| && j != i ==> !Queued(rs[j])
    requires due != 0 && due <= now && due < LongMax
    ensures var rs' := rs[i := DelayedPacket(PayloadOffset(sim, i), |payload|, due)];
      var d' := Spliced(d, PayloadOffset(sim, i), payload);
      && Oldest(rs', now).0 == i
      && d'[rs'[i].processBufferOffset..rs'[i].processBufferOffset + rs'[i].packetSize] == payload
  {
    var rs' := rs[i := DelayedPacket(PayloadOffset(sim, i), |payload|, due)];
    OldestIsEarliest(rs', now);
    assert Ready(rs'[i], now);
  }

  /**
   * The free-slot test of GetDelayedPacket's scan as written: the long
   * delayUntil is cast to int before it is compared with 0.
   */
  predicate QueuedAsWritten(r: DelayedPacket)
  {
    ToI32(r.delayUntil) != 0
  }

  /**
   * As written, a packet due at a multiple of 2^32 milliseconds is passed
   * over by GetDelayedPacket's scan although GetEmptyDataSlot counts its
   * slot as taken: it is never handed out and its slot is never freed.
   * The model's scan (Queued) compares the whole long with 0.
   */
  lemma AsWrittenScanLosesPacket()
    ensures var r := DelayedPacket(16, 1, U32);
      && Ready(r, U32) && FirstFree([r]) == -1
      && !QueuedAsWritten(r)
      && Oldest([r], U32).0 == 0
  {
    var r := DelayedPacket(16, 1, U32);
    assert [r][..0] == [];
  }

  /**
   * ShouldDropPacket: the interval rule drops a packet when
   * (PacketCount - 1) % PacketDropInterval is 0 in C#'s truncating
   * remainder; the percentage rule drops it when the random draw, scaled to
   * [0, 100), is below PacketDropPercentage.
   */
  function ShouldDropPacket(packetCount: int, param: Parameters, packetLoss: real): (drop: bool)
    ensures packetCount >= 1 && param.packetDropPercentage <= 0 ==>
      (drop <==> param.packetDropInterval > 0 && (packetCount - 1) % param.packetDropInterval as int == 0)
    ensures param.packetDropInterval <= 0 ==>
      (drop <==> param.packetDropPercentage > 0 && packetLoss < param.packetDropPercentage as real)
  {
    (param.packetDropInterval > 0 && RemT(packetCount - 1, param.packetDropInterval as int) == 0)
    || (param.packetDropPercentage > 0 && packetLoss < param.packetDropPercentage as real)
  }

  /**
   * With the interval rule alone, the first packet is dropped and then
   * every k-th one after it: packets 1, k + 1, 2k + 1, ...
   */
  lemma IntervalDropsEveryKth(k: int32, n: int)
    requires k > 0 && n >= 1
    ensures var param := Parameters(0, 0, 0, k, 0);
      && ShouldDropPacket(1, param, 0.0)
      && (ShouldDropPacket(n + k as int, param, 0.0) <==> ShouldDropPacket(n, param, 0.0))
      && (1 < n <= k as int ==> !ShouldDropPacket(n, param, 0.0))
  {
    var x, d := n - 1, k as int;
    DivUnique(x + d, d, x / d + 1, x % d);
    if n <= d {
      DivUnique(x, d, 0, x);
    }
  }
}
