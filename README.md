# A verified model of the Unity transport core

This project models, in Dafny, the sequential core of Unity's low-level
networking package (`com.unity.transport`) and the NetCode helpers of its
sample project that sit on top of it, and proves what that code promises.

One Dafny module stands for each source file:

- `SequenceHelpers` and `MultiQueue` (Utilities.cs):
  - wrap-around comparison of 16-bit and 32-bit sequence numbers (section 3.2 of RFC 1982);
  - the per-bucket FIFO that grows in place, as a class over an array.
- `DataStream` (DataStream.cs):
  - the writer as a class over a byte array with a 64-bit bit buffer, and the reader over a context object;
  - byte, short and int writes and reads in host and network byte order;
  - deferred updates;
  - zig-zag, delta and Huffman-packed integers.
  - Every write is stated as "the data grows by these bytes" or "the bit stream grows by these bits". Every read is stated against a decoding function, and the two are tied by round-trip lemmas.
- `CompressionModel` (NetworkCompressionModel.cs):
  - bucket search;
  - bit reversal;
  - canonical Huffman code generation and the decode table, with their loops.
  - Proved: the built-in model's codes are prefix-free, and its decode table maps every code back to its symbol.
- `ReliableUtility`, `ReliableSequenced` and `UnreliableSequenced` (the pipeline stages):
  - the reliability window (slot table, ack mask, resend timing);
  - in-order delivery with resume;
  - the newest-only filter.
- `SimulatorUtility`: the packet-delay slot table and the interval drop rule.
- `NetworkPipeline`: the per-connection buffer layout of pipelines and the deduplicated update lists.
- `Driver` and `Connections` (NetworkDriver.cs):
  - the connection table, with its free list and versions;
  - the connect, accept, disconnect and timeout state machine;
  - the handling of each packet type;
  - the per-connection event queues.
- `NetworkEndPoints`: byte swaps, ports, dotted-quad parsing and endpoint equality.
- `NetworkLogging`: the bounded NUL-terminated log string and the level-filtered logger.
- `NetworkBindings` (network.bindings.c): the initialise/terminate reference count, socket creation failure handling and handle clearing on close.
- `SnapshotAcks`, `CommandData`, `GhostDeltaPrediction`: the 256-tick acknowledgement window, the 32-entry command ring and integer delta prediction.
- `Sqp`: the server query protocol messages as encoders and decoders with remainders, and the server's challenge token table.

C# fixed-width integers are subset types of `int` (`byte`, `ushort`,
`uint`, `int32`, ...). Their wrap-around and truncating casts are written
out where the source relies on them (`Words` in common.dfy). The host is
taken to be little-endian, as every platform the package ships for is.
What the source reports by throwing an exception (mostly only in builds
with collection checks) is modelled as a failure result (`ok == false`,
`None`, `Fail`) that changes nothing, unless noted below.

## Model

| member | source | states |
|---|---|---|
| SequenceHelpers.AbsDistance | com.unity.transport/Runtime/Utilities.cs:159-167 | the distance is the 16-bit forward distance (lhs - rhs) mod 2^16, in [0, 2^16), and 0 exactly for equal ids |
| SequenceHelpers.IsNewer | com.unity.transport/Runtime/Utilities.cs:169-173 | current is newer exactly when it is 1..2^31 ahead of old on the 32-bit circle; a value is never newer than itself |
| SequenceHelpers.IsNewerAntipodes | com.unity.transport/Runtime/Utilities.cs:169-173 | two ids exactly 2^31 apart are each newer than the other (the order is not antisymmetric there) |
| SequenceHelpers.NotNewerIsBehind | com.unity.transport/Runtime/Utilities.cs:169-173 | x is not newer than target exactly when x lies less than 2^31 behind target |
| SequenceHelpers.NewerByDistance | com.unity.transport/Runtime/Utilities.cs:169-173 | among ids less than 2^31 behind a reference, IsNewer is "closer to the reference" |
| SequenceHelpers.GreaterThan16 | com.unity.transport/Runtime/Utilities.cs:175-180 | lhs is greater exactly when it is 1..0x7FFF ahead of rhs, or exactly 0x8000 ahead while numerically smaller |
| SequenceHelpers.LessThan16 | com.unity.transport/Runtime/Utilities.cs:182-185 | LessThan16(lhs, rhs) is GreaterThan16(rhs, lhs), stated as distances |
| SequenceHelpers.GreaterThan16Order | com.unity.transport/Runtime/Utilities.cs:175-185 | GreaterThan16 is irreflexive, asymmetric and total on distinct ids, and LessThan16 is its converse |
| SequenceHelpers.StalePacket | com.unity.transport/Runtime/Utilities.cs:187-190 | for a window below 0x8000: a sequence at most windowSize behind oldSequence is never stale, one further back by up to 0x7FFF is |
| SequenceHelpers.BitMaskToString | com.unity.transport/Runtime/Utilities.cs:192-208 | 32 characters, character i is '1' exactly when bit 31 - i of the mask is set |
| MultiQueue.NativeMultiQueue.constructor | com.unity.transport/Runtime/Utilities.cs:23-29 | a new queue has no buckets and initialMessageCapacity slots per bucket, and its layout invariant holds |
| MultiQueue.NativeMultiQueue.Enqueue | com.unity.transport/Runtime/Utilities.cs:43-73 | the buckets grow to bucket + 1 (new ones empty), value is appended to the bucket, every other bucket keeps its items, and the layout invariant is kept |
| MultiQueue.NativeMultiQueue.Store | com.unity.transport/Runtime/Utilities.cs:71-72 | writing the tail slot and advancing the tail appends value to the bucket and keeps the invariant |
| MultiQueue.NativeMultiQueue.AddBuckets | com.unity.transport/Runtime/Utilities.cs:46-53 | growing the head/tail list (zeroed) and the item list adds empty buckets and keeps every item |
| MultiQueue.NativeMultiQueue.GrowCapacity | com.unity.transport/Runtime/Utilities.cs:55-70 | the per-bucket capacity doubles until idx fits, and no bucket's contents change |
| MultiQueue.NativeMultiQueue.MoveBuckets | com.unity.transport/Runtime/Utilities.cs:61-69 | moving every bucket, last bucket first, re-establishes the layout invariant in the wider layout |
| MultiQueue.NativeMultiQueue.MoveBucket | com.unity.transport/Runtime/Utilities.cs:65-68 | moving one bucket, last item first, puts it in the new layout while lower buckets stay in the old one |
| MultiQueue.NativeMultiQueue.Dequeue | com.unity.transport/Runtime/Utilities.cs:79-104 | succeeds exactly for an existing non-empty bucket, returns its oldest item and removes it; otherwise nothing changes |
| MultiQueue.NativeMultiQueue.Peek | com.unity.transport/Runtime/Utilities.cs:110-126 | succeeds exactly for an existing non-empty bucket and returns its oldest item, changing nothing |
| MultiQueue.NativeMultiQueue.Clear | com.unity.transport/Runtime/Utilities.cs:132-138 | an existing bucket is emptied, everything else is unchanged; a missing bucket is ignored |
| MultiQueue.StoreKeeps | com.unity.transport/Runtime/Utilities.cs:71-72 | writing the tail slot and advancing the tail keeps the bounds and places the appended item |
| MultiQueue.AddBucketsKeeps | com.unity.transport/Runtime/Utilities.cs:46-53 | zeroed new head/tail entries and a longer item list keep every item where it was |
| MultiQueue.ClearKeeps | com.unity.transport/Runtime/Utilities.cs:132-138 | zeroing a bucket's head and tail empties it and keeps the layout |
| MultiQueue.PopKeeps | com.unity.transport/Runtime/Utilities.cs:93-100 | advancing the head of a non-empty bucket drops its oldest item and keeps the layout |
| MultiQueue.MoveStep | com.unity.transport/Runtime/Utilities.cs:65-68 | one copy from the old slot to the new slot keeps the move invariant |
| MultiQueue.MoveBucketDone | com.unity.transport/Runtime/Utilities.cs:63-69 | after bucket b moves, buckets b and up are in the new layout and the lower ones in the old |
| MultiQueue.SlotDistinct | com.unity.transport/Runtime/Utilities.cs:67-71 | distinct slots (bucket, index) below the capacity are at distinct flat positions, so writes never collide |
| MultiQueue.SlotGrows | com.unity.transport/Runtime/Utilities.cs:63-68 | with a wider layout a slot never moves down, so moving from the top down never overwrites an item not yet moved |
| CommandData.Before | sampleproject/Assets/NetCode/Command/ICommandData.cs:16-26 | the scan holds (0, 0) on an empty buffer; a held nonzero tick is the tick of the held index and is not newer than the target |
| CommandData.DataAtTick | sampleproject/Assets/NetCode/Command/ICommandData.cs:28-35 | a found command is in the buffer, has a nonzero tick and is not newer than the target |
| CommandData.BeforeIsNewest | sampleproject/Assets/NetCode/Command/ICommandData.cs:14-35 | with nonzero ticks, nothing is found exactly when every command is newer than the target; otherwise the command found lies no further behind the target than any eligible command |
| CommandData.BeforeStep | sampleproject/Assets/NetCode/Command/ICommandData.cs:21-25 | one scan step: the held tick becomes 0 only when nothing was held and the entry is too new, and only moves closer behind the target |
| CommandData.FindTick | sampleproject/Assets/NetCode/Command/ICommandData.cs:42-50 | the first index holding the tick, or -1 exactly when no entry holds it |
| CommandData.Oldest | sampleproject/Assets/NetCode/Command/ICommandData.cs:40-56 | the scan holds (0, 0) on an empty buffer, else an index and that entry's tick |
| CommandData.OldestIsOldest | sampleproject/Assets/NetCode/Command/ICommandData.cs:40-56 | with nonzero ticks all less than 2^31 behind a reference, the held entry is the furthest behind it |
| CommandData.OldestStep | sampleproject/Assets/NetCode/Command/ICommandData.cs:51-55 | one oldest-scan step: the held tick only moves further behind the reference |
| CommandData.AddedStoresCommand | sampleproject/Assets/NetCode/Command/ICommandData.cs:37-61 | after adding, the command is in the buffer; the length grows by one only for a new tick below 32 entries, never beyond 32; at most the replaced entry changes; distinct ticks stay distinct and the tick is then found |
| CommandData.CommandBuffer.constructor | sampleproject/Assets/NetCode/Command/ICommandData.cs:5-10 | a new buffer holds no commands |
| CommandData.CommandBuffer.GetDataAtTick | sampleproject/Assets/NetCode/Command/ICommandData.cs:14-36 | the loop returns DataAtTick of the buffer: a command in the buffer, nonzero tick, not newer than the target (the newest such by BeforeIsNewest) |
| CommandData.CommandBuffer.AddCommandData | sampleproject/Assets/NetCode/Command/ICommandData.cs:37-61 | the buffer becomes Added(old buffer, command): same-tick replacement, append below 32 entries, else overwrite the oldest |
| GhostDeltaPrediction.DivInt | sampleproject/Assets/NetCode/Snapshot/GhostDeltaPredictor.cs:10-11 | C# int division: fails exactly on a zero divisor and on int.MinValue / -1, else truncates toward zero |
| GhostDeltaPrediction.Sixteenths | sampleproject/Assets/NetCode/Snapshot/GhostDeltaPredictor.cs:10-11 | for distinct ticks the fraction exists unless it is the MinValue / -1 overflow; equal divisor ticks always fail |
| GhostDeltaPrediction.NewPredictor | sampleproject/Assets/NetCode/Snapshot/GhostDeltaPredictor.cs:8-12 | the constructor fails when two consecutive baselines are equal; otherwise its fractions are the two sixteenths |
| GhostDeltaPrediction.DistinctTicksDivisor | sampleproject/Assets/NetCode/Snapshot/GhostDeltaPredictor.cs:10-11 | the (int) distance of two ticks is 0 exactly when the ticks are equal |
| GhostDeltaPrediction.EvenTicks | sampleproject/Assets/NetCode/Snapshot/GhostDeltaPredictor.cs:8-12 | evenly spaced ticks (step below 2^27) give predictFrac = applyFrac = 16, whatever the 32-bit wrap of the ticks |
| GhostDeltaPrediction.Abs | sampleproject/Assets/NetCode/Snapshot/GhostDeltaPredictor.cs:19 | math.abs: non-negative and equal to x or -x, except that int.MinValue stays int.MinValue |
| GhostDeltaPrediction.PredictBaseline | sampleproject/Assets/NetCode/Snapshot/GhostDeltaPredictor.cs:16-17 | a zero predictFrac predicts baseline1; a one-step fraction extrapolates the older step linearly (2·baseline1 − baseline2) when nothing wraps; partner: EqualBaselinesPredictSame |
| GhostDeltaPrediction.PredictInt | sampleproject/Assets/NetCode/Snapshot/GhostDeltaPredictor.cs:14-22 | baseline0 when the prediction missed by at least the last step; a value that did not move or a zero applyFrac stays baseline0; with a one-step fraction and a close prediction it extrapolates to 2·baseline0 − baseline1 when nothing wraps; partners: ConstantStays, LinearMotion |
| GhostDeltaPrediction.EqualBaselinesPredictSame | sampleproject/Assets/NetCode/Snapshot/GhostDeltaPredictor.cs:16-17 | two equal older baselines predict baseline1 itself |
| GhostDeltaPrediction.ConstantStays | sampleproject/Assets/NetCode/Snapshot/GhostDeltaPredictor.cs:14-22 | a value whose three baselines agree is predicted unchanged, whatever the predictor |
| GhostDeltaPrediction.LinearMotion | sampleproject/Assets/NetCode/Snapshot/GhostDeltaPredictor.cs:14-22 | with one-step fractions, a value moving by d per tick (no wrap) is extrapolated to baseline0 + d |
| SnapshotAcks.Updated | sampleproject/Assets/NetCode/Connection/NetworkSnapshotAckComponent.cs:6-27 | the first acknowledgement sets word 0 and the tick; an older or repeated tick changes nothing |
| SnapshotAcks.UpdateShifts | sampleproject/Assets/NetCode/Connection/NetworkSnapshotAckComponent.cs:13-25 | a tick 1..63 ahead of the last one shifts the window by exactly that distance (the int cast and the six-bit shift mask do not disturb it) |
| SnapshotAcks.ShiftCount | sampleproject/Assets/NetCode/Connection/NetworkSnapshotAckComponent.cs:16 | the (int) distance masked to six bits is the unsigned distance modulo 64 |
| SnapshotAcks.JoinBit | sampleproject/Assets/NetCode/Connection/NetworkSnapshotAckComponent.cs:17-22 | bit j of (hi << s) OR (lo >> (64 - s)) is bit j - s of hi for j >= s, else bit j + 64 - s of lo |
| SnapshotAcks.ShiftedLowBit | sampleproject/Assets/NetCode/Connection/NetworkSnapshotAckComponent.cs:23-24 | bit j of the new word 0 is bit j - s of the old word 0 (for j >= s) or bit j of the new mask |
| SnapshotAcks.ShiftedHighBit | sampleproject/Assets/NetCode/Connection/NetworkSnapshotAckComponent.cs:17-22 | bit j of new word i (1..3) comes from old word i, or from the top of old word i - 1 |
| SnapshotAcks.ShiftedBit | sampleproject/Assets/NetCode/Connection/NetworkSnapshotAckComponent.cs:13-26 | after a shift by s in 1..63, window position d is set exactly when position d - s was set before or d names a bit of the new mask |
| SnapshotAcks.UpdateThenQuery | sampleproject/Assets/NetCode/Connection/NetworkSnapshotAckComponent.cs:6-54 | after acknowledging a tick at most 63 ahead, tick t is known exactly when the new mask names it, or it was known before and is still within 256 of the new tick |
| SnapshotAcks.KnownShifted | sampleproject/Assets/NetCode/Connection/NetworkSnapshotAckComponent.cs:29-54 | what the shifted window answers for tick t, in terms of the mask and of what the old window answered |
| SnapshotAcks.NetworkSnapshotAck.constructor | sampleproject/Assets/NetCode/Connection/NetworkSnapshotAckComponent.cs:55-74 | a new component is all zeros: nothing acknowledged, no remote time |
| SnapshotAcks.NetworkSnapshotAck.UpdateReceivedByRemote | sampleproject/Assets/NetCode/Connection/NetworkSnapshotAckComponent.cs:6-27 | the last tick and the four masks become Updated(old tick, old masks, tick, mask) |
| SnapshotAcks.NetworkSnapshotAck.IsReceivedByRemote | sampleproject/Assets/NetCode/Connection/NetworkSnapshotAckComponent.cs:29-54 | the answer is Known: tick and last tick nonzero, tick not newer and at most 255 behind, and its bit set in the right mask |
| SnapshotAcks.NetworkSnapshotAck.UpdateRemoteTime | sampleproject/Assets/NetCode/Connection/NetworkSnapshotAckComponent.cs:63-71 | a nonzero newer remote time is recorded with the 32-bit round trip and the local time; anything else changes nothing, so the remote time never goes back |
| UnreliableSequenced.SequenceCounter.constructor | com.unity.transport/Runtime/Pipelines/UnreliableSequencedPipelineStage.cs:55-56 | a process buffer starts zero-filled |
| UnreliableSequenced.HeaderSequence | com.unity.transport/Runtime/Pipelines/UnreliableSequencedPipelineStage.cs:19 | the header's sequence number is read little-endian from the first two bytes |
| UnreliableSequenced.InitializeConnection | com.unity.transport/Runtime/Pipelines/UnreliableSequencedPipelineStage.cs:43-53 | a non-empty receive buffer is set to -1, so that the first number sent (0) is newer than it; an empty one is left alone |
| UnreliableSequenced.Receive | com.unity.transport/Runtime/Pipelines/UnreliableSequencedPipelineStage.cs:11-29 | the rest of the packet is delivered exactly when its number is newer (GreaterThan16) than the last delivered, which it then becomes; otherwise nothing is delivered and nothing changes |
| UnreliableSequenced.Send | com.unity.transport/Runtime/Pipelines/UnreliableSequencedPipelineStage.cs:31-41 | the header gets the current number (little-endian) when it has room, and the counter moves on by one modulo 2^16 in either case |
| UnreliableSequenced.Sent | com.unity.transport/Runtime/Pipelines/UnreliableSequencedPipelineStage.cs:37-38 | a sender starting at first stamps first, first + 1, ... modulo 2^16 |
| UnreliableSequenced.DeliveredIncreasing | com.unity.transport/Runtime/Pipelines/UnreliableSequencedPipelineStage.cs:21-26 | every number delivered is newer than the one delivered before it, the first newer than the last seen |
| UnreliableSequenced.RepeatDropped | com.unity.transport/Runtime/Pipelines/UnreliableSequencedPipelineStage.cs:21-28 | a repeat of the last number delivered is dropped |
| UnreliableSequenced.SuccessorNewer | com.unity.transport/Runtime/Pipelines/UnreliableSequencedPipelineStage.cs:21-38 | the next number sent is newer than the previous one, also across 65535 to 0 |
| UnreliableSequenced.InOrderAllDelivered | com.unity.transport/Runtime/Pipelines/UnreliableSequencedPipelineStage.cs:11-41 | packets that arrive in the order sent, to a receiver in step with the sender, are all delivered, across the wrap |
| UnreliableSequenced.FreshConnectionDelivers | com.unity.transport/Runtime/Pipelines/UnreliableSequencedPipelineStage.cs:43-53 | a receiver initialised to -1 delivers every in-order packet of a fresh sender starting at 0 |
| NetworkBindings.CounterAfter | com.unity.transport/Runtime/Bindings/ios/network.bindings.c:37-65 | the reference count after a run of initialize/terminate calls never goes below zero |
| NetworkBindings.InitializeAdds | com.unity.transport/Runtime/Bindings/ios/network.bindings.c:37-50 | n initializations raise the count by exactly n |
| NetworkBindings.TerminateTakes | com.unity.transport/Runtime/Bindings/ios/network.bindings.c:52-65 | n terminations from a count of at least n lower it by exactly n |
| NetworkBindings.BalancedCalls | com.unity.transport/Runtime/Bindings/ios/network.bindings.c:37-65 | n initializations followed by n terminations restore the count |
| NetworkBindings.TerminateFloors | com.unity.transport/Runtime/Bindings/ios/network.bindings.c:52-65 | extra terminations leave the count at zero instead of going below it |
| NetworkBindings.Bindings.constructor | com.unity.transport/Runtime/Bindings/ios/network.bindings.c:21 | the bindings start with a zero count, no startups or cleanups and no open sockets |
| NetworkBindings.Bindings.Initialize | com.unity.transport/Runtime/Bindings/ios/network.bindings.c:37-50 | returns 0 and raises the count by one; the system is started up only when the count was zero |
| NetworkBindings.Bindings.Terminate | com.unity.transport/Runtime/Bindings/ios/network.bindings.c:52-65 | returns SUCCESS and lowers a positive count by one; the system is cleaned up whenever the count is zero afterwards |
| NetworkBindings.Bindings.CreateAndBind | com.unity.transport/Runtime/Bindings/ios/network.bindings.c:127-160 | returns -1 and sets the error code, leaving the handle untouched and no socket open, when socket(), the IPv6-only option or bind() fails; otherwise returns 0 and the handle is the new open socket |
| NetworkBindings.Bindings.CloseSocket | com.unity.transport/Runtime/Bindings/ios/network.bindings.c:127-160 | closing releases the handle |
| NetworkBindings.Bindings.Close | com.unity.transport/Runtime/Bindings/ios/network.bindings.c:244-253 | returns the close result, sets the error code only on SOCKET_ERROR, always clears the handle and releases the socket |
| NetworkBindings.Cell.constructor | com.unity.transport/Runtime/Bindings/ios/network.bindings.c:128 | an out-parameter cell holds the value it was created with |
| SimulatorUtility.Context.constructor | com.unity.transport/Runtime/Pipelines/SimulatorUtility.cs:50-66 | a fresh shared context has no packets counted and none dropped |
| SimulatorUtility.InitializeContext | com.unity.transport/Runtime/Pipelines/SimulatorUtility.cs:83-95 | the configuration is copied into the context and both packet counters are zeroed; the scan statistics are left alone |
| SimulatorUtility.PayloadOffset | com.unity.transport/Runtime/Pipelines/SimulatorUtility.cs:97-117 | every slot's payload area starts after the record table and ends inside the ReceiveCapacity-sized buffer |
| SimulatorUtility.DelayBuffer.constructor | com.unity.transport/Runtime/Pipelines/SimulatorUtility.cs:76-81 | a zero-filled process buffer: every slot is free and every record points inside the buffer |
| SimulatorUtility.FirstFree | com.unity.transport/Runtime/Pipelines/SimulatorUtility.cs:104-117 | the result is a free slot with every earlier slot taken, or -1 exactly when every slot is taken |
| SimulatorUtility.GetEmptyDataSlot | com.unity.transport/Runtime/Pipelines/SimulatorUtility.cs:97-118 | finds a slot exactly when one is free, and then reports the first free slot's payload and record offsets; otherwise the payload offset is untouched and the record offset is the last slot's |
| SimulatorUtility.Spliced | com.unity.transport/Runtime/Pipelines/SimulatorUtility.cs:121-129 | the result has the same length, holds p at start and keeps every other byte |
| SimulatorUtility.StorePacketPayload | com.unity.transport/Runtime/Pipelines/SimulatorUtility.cs:121-129 | the destination afterwards is the old destination with the two slices written one after the other from start |
| SimulatorUtility.DelayPacket | com.unity.transport/Runtime/Pipelines/SimulatorUtility.cs:189-222 | fails and changes nothing when no slot is free; otherwise the first free slot records the payload's place, size and due time timestamp + PacketDelayMs, the payload is copied into its area, and the buffer stays well formed |
| SimulatorUtility.OldestIsEarliest | com.unity.transport/Runtime/Pipelines/SimulatorUtility.cs:139-161 | the scan picks a ready packet due no later than every ready packet and strictly earlier than every ready packet in an earlier slot, and picks none only when nothing is ready before long.MaxValue |
| SimulatorUtility.GetDelayedPacket | com.unity.transport/Runtime/Pipelines/SimulatorUtility.cs:131-186 | records the ready and waiting counts, the next due time and the scan time; requests a resume when more than one packet is ready and otherwise an update while any is held; hands out the oldest ready packet's bytes and frees only its slot |
| SimulatorUtility.DelayedPacketReturns | com.unity.transport/Runtime/Pipelines/SimulatorUtility.cs:131-222 | a packet delayed into a slot while the others are free is handed back intact by the first scan at or after its due time |
| SimulatorUtility.AsWrittenScanLosesPacket | com.unity.transport/Runtime/Pipelines/SimulatorUtility.cs:146 | a packet due at 2^32 ms occupies its slot yet is skipped by the scan as written, so it is never handed out |
| SimulatorUtility.ShouldDropPacket | com.unity.transport/Runtime/Pipelines/SimulatorUtility.cs:225-237 | the interval rule drops exactly when (PacketCount - 1) is a multiple of the interval; the percentage rule drops exactly when the scaled random draw is below the percentage |
| SimulatorUtility.IntervalDropsEveryKth | com.unity.transport/Runtime/Pipelines/SimulatorUtility.cs:225-228 | with interval k, packet 1 is dropped, then every k-th after it, and none in between |
| ReliableUtility.EncodeHeader | com.unity.transport/Runtime/Pipelines/ReliableUtility.cs:103-111 | a packet header occupies exactly twelve bytes |
| ReliableUtility.HeaderRoundTrip | com.unity.transport/Runtime/Pipelines/ReliableUtility.cs:103-111 | decoding an encoded header gives the same header back |
| ReliableUtility.HeaderBytesRoundTrip | com.unity.transport/Runtime/Pipelines/ReliableUtility.cs:103-111 | every twelve bytes are the encoding of the header they decode to, so the two directions are inverse |
| ReliableUtility.Align4 | com.unity.transport/Runtime/Pipelines/ReliableUtility.cs:196-198 | (x + 3) & ~3 is the least multiple of 4 not below x |
| ReliableUtility.ProcessLayout | com.unity.transport/Runtime/Pipelines/ReliableUtility.cs:152-163 | the context, the index table and the data table fill exactly the capacity ProcessCapacityNeeded asks for, and no two index or data slots overlap |
| ReliableUtility.SharedLayout | com.unity.transport/Runtime/Pipelines/ReliableUtility.cs:139-150 | the shared buffer is the shared context followed by the local and the remote timer tables |
| ReliableUtility.Missing | com.unity.transport/Runtime/Pipelines/ReliableUtility.cs:646-655 | the count of lost packets never exceeds the number of bits scanned |
| ReliableUtility.NotStaleIsClose | com.unity.transport/Runtime/Pipelines/ReliableUtility.cs:634-638 | an older packet that passes the stale test is between 1 and windowSize - 1 behind the latest |
| ReliableUtility.OlderDistanceBit | com.unity.transport/Runtime/Pipelines/ReliableUtility.cs:669-684 | for an older packet the bit Read tests and sets is the packet's own distance behind the latest |
| ReliableUtility.NewestIsClose | com.unity.transport/Runtime/Pipelines/ReliableUtility.cs:644 | a packet treated as the newest is at most 0x7FFF ahead of the latest |
| ReliableUtility.ShiftedMaskKeeps | com.unity.transport/Runtime/Pipelines/ReliableUtility.cs:663-664 | shifting the mask by d and setting bit 0 keeps every set bit, d places higher |
| ReliableUtility.NewestUpdate | com.unity.transport/Runtime/Pipelines/ReliableUtility.cs:644-668 | for a newer packet inside the window the new latest is the packet and the mask is the old one shifted by the distance with bit 0 set |
| ReliableUtility.RecordedAfterShift | com.unity.transport/Runtime/Pipelines/ReliableUtility.cs:663-664 | a sequence recorded before the shift is still recorded after it, when it stays within 32 of the new latest |
| ReliableUtility.ReadRecords | com.unity.transport/Runtime/Pipelines/ReliableUtility.cs:629-693 | a packet Read accepts is recorded in the ack mask afterwards |
| ReliableUtility.KeepRecordedNewest | com.unity.transport/Runtime/Pipelines/ReliableUtility.cs:644-668 | a newer packet keeps every earlier record that stays inside the window |
| ReliableUtility.KeepRecordedOlder | com.unity.transport/Runtime/Pipelines/ReliableUtility.cs:669-686 | an older packet keeps every earlier record |
| ReliableUtility.ReadKeepsRecorded | com.unity.transport/Runtime/Pipelines/ReliableUtility.cs:629-693 | Read forgets no recorded sequence that is still inside the window behind the new latest |
| ReliableUtility.RecordedIsRejected | com.unity.transport/Runtime/Pipelines/ReliableUtility.cs:629-686 | a recorded sequence other than the latest is never accepted again: Read calls it stale or duplicated |
| ReliableUtility.LatestIsAcceptedAgain | com.unity.transport/Runtime/Pipelines/ReliableUtility.cs:644-668 | the latest sequence itself is accepted again rather than counted as duplicated |
| ReliableUtility.AckedMeansRecorded | com.unity.transport/Runtime/Pipelines/ReliableUtility.cs:359-383 | a sent packet counts as acknowledged exactly when the receiver had recorded it inside the window |
| ReliableUtility.SharedContext.constructor | com.unity.transport/Runtime/Pipelines/ReliableUtility.cs:57-82 | a zero-filled shared buffer: no window, no statistics, nothing sent or received |
| ReliableUtility.ProcessBuffer.constructor | com.unity.transport/Runtime/Pipelines/ReliableUtility.cs:84-96 | a zero-filled process buffer: no slots, no resume or delivered sequence |
| ReliableUtility.InitializeProcessContext | com.unity.transport/Runtime/Pipelines/ReliableUtility.cs:186-205 | fails with InsufficientMemory, changing nothing, exactly when the buffer is not the needed size; otherwise one free slot per window entry and no resume or delivered sequence |
| ReliableUtility.TryAquire | com.unity.transport/Runtime/Pipelines/ReliableUtility.cs:296-309 | takes the slot of a sequence exactly when it is free, recording the sequence there and changing nothing else |
| ReliableUtility.Release | com.unity.transport/Runtime/Pipelines/ReliableUtility.cs:316-324 | frees exactly count consecutive slots starting at the slot of the start sequence |
| ReliableUtility.SetPacket | com.unity.transport/Runtime/Pipelines/ReliableUtility.cs:207-245 | stores a payload that fits a slot in its sequence's slot, so that the slot then holds that payload for that sequence; an oversized payload changes nothing |
| ReliableUtility.SetHeaderAndPacket | com.unity.transport/Runtime/Pipelines/ReliableUtility.cs:247-275 | the corrected store (see Findings): a packet whose payload fits in the slot beside its 12-byte header is stored with its header, buffer1 followed by buffer2, and the send time; a larger one changes nothing |
| ReliableUtility.StoredAsWritten | com.unity.transport/Runtime/Pipelines/ReliableUtility.cs:266-273 | as written, the slot's payload is buffer1 followed by the bytes the slot already held, because buffer2 is copied to an address derived from the local pointer variable; its length is the total size |
| ReliableUtility.AsWrittenLosesSecondPart | com.unity.transport/Runtime/Pipelines/ReliableUtility.cs:270-273 | as written, whenever the slot held other bytes where buffer2 belongs, the stored packet is not buffer1 + buffer2 |
| ReliableUtility.AsWrittenResendSendsZeros | com.unity.transport/Runtime/Pipelines/ReliableUtility.cs:270-273 | as written, a fresh slot with a one-byte earlier-stage header in buffer1 and a payload [1, 2] in buffer2 stores [7, 0, 0] |
| ReliableUtility.AsWrittenSizeCheckOverruns | com.unity.transport/Runtime/Pipelines/ReliableUtility.cs:253-271 | as written, a payload of a whole slot passes the size check, yet copied after the 12-byte header it ends past its slot |
| ReliableUtility.Truncate | com.unity.transport/Runtime/Pipelines/ReliableUtility.cs:576 | the float-to-int cast truncates toward zero |
| ReliableUtility.RttUpdate | com.unity.transport/Runtime/Pipelines/ReliableUtility.cs:569-577 | the smoothed round trip moves towards the new sample without passing it, the variance stays non-negative, and the resend timeout is non-negative |
| ReliableUtility.AckTimingOnce | com.unity.transport/Runtime/Pipelines/ReliableUtility.cs:559-579 | a repeated ack of the same sequence changes neither the timers nor the round-trip statistics |
| ReliableUtility.CurrentResendTime | com.unity.transport/Runtime/Pipelines/ReliableUtility.cs:588-594 | the resend time is MaximumResendTime when the estimate exceeds it, otherwise the larger of the estimate and the configured minimum |
| ReliableUtility.CalculateProcessingTime | com.unity.transport/Runtime/Pipelines/ReliableUtility.cs:596-603 | is 0 when the remote timer slot no longer belongs to the sequence |
| ReliableUtility.StoreTimestamp | com.unity.transport/Runtime/Pipelines/ReliableUtility.cs:550-557 | starts the timer of the sequence in its slot and changes no other slot |
| ReliableUtility.StoreRemoteReceiveTimestamp | com.unity.transport/Runtime/Pipelines/ReliableUtility.cs:581-586 | records the arrival time of a remote sequence, so that its processing time at any later time is the elapsed time as a ushort |
| ReliableUtility.StoreReceiveTimestamp | com.unity.transport/Runtime/Pipelines/ReliableUtility.cs:559-579 | the timers and round-trip statistics become those of the ack timing update |
| ReliableUtility.ReadAckPacket | com.unity.transport/Runtime/Pipelines/ReliableUtility.cs:695-712 | applies the ack timing of the header and moves the acked id and mask only to a newer acked id |
| ReliableUtility.Read | com.unity.transport/Runtime/Pipelines/ReliableUtility.cs:629-693 | returns the stale or duplicated code or the sequence, updates the received window and statistics accordingly, and for an accepted packet only records its arrival and takes in its acks; the window size, timer tables and error code are kept |
| ReliableUtility.ReadWindow | com.unity.transport/Runtime/Pipelines/ReliableUtility.cs:629-688 | Read's window arithmetic yields its result, new context and statistics |
| ReliableUtility.AdvanceWindow | com.unity.transport/Runtime/Pipelines/ReliableUtility.cs:644-668 | the newer-packet branch shifts the window and counts the packets shifted out unreceived as dropped |
| ReliableUtility.NewestRead | com.unity.transport/Runtime/Pipelines/ReliableUtility.cs:644-668 | for a newer packet inside the window Read's update and statistics are those of advancing the window |
| ReliableUtility.CountMissing | com.unity.transport/Runtime/Pipelines/ReliableUtility.cs:648-654 | counts exactly the clear bits about to be shifted out |
| ReliableUtility.ResumeReceive | com.unity.transport/Runtime/Pipelines/ReliableUtility.cs:409-434 | delivers the stored packet of the start sequence when its slot holds it and asks to resume with the next sequence only when that has already arrived |
| ReliableUtility.Write | com.unity.transport/Runtime/Pipelines/ReliableUtility.cs:500-536 | fails with OutgoingQueueIsFull, changing nothing, when the next sequence's slot still holds a packet; otherwise fills the header with the sequence and the receive window, stores the packet for resend through the corrected SetHeaderAndPacket (buffer1 then buffer2, when it fits beside the header; otherwise only the slot's sequence is taken), starts its timer and advances the send sequence |
| ReliableUtility.WriteAckPacket | com.unity.transport/Runtime/Pipelines/ReliableUtility.cs:538-548 | builds an ack-only header carrying the receive window and marks the latest received sequence acknowledged, without using up a sequence |
| ReliableUtility.WalkSlot | com.unity.transport/Runtime/Pipelines/ReliableUtility.cs:366-394 | each step of the walk visits a slot inside the table |
| ReliableUtility.WalkReleasesOnlyAcked | com.unity.transport/Runtime/Pipelines/ReliableUtility.cs:354-407 | the walk changes a slot only by releasing a packet the remote acknowledged |
| ReliableUtility.WalkReleasesVisited | com.unity.transport/Runtime/Pipelines/ReliableUtility.cs:354-407 | every visited slot whose packet the remote acknowledged is released |
| ReliableUtility.WalkResumesTimedOut | com.unity.transport/Runtime/Pipelines/ReliableUtility.cs:354-407 | a new resume sequence is always a stored packet that timed out |
| ReliableUtility.VisitSlot | com.unity.transport/Runtime/Pipelines/ReliableUtility.cs:372-394 | one step of the walk releases an acknowledged packet or picks a timed-out one |
| ReliableUtility.ReleaseOrResumePackets | com.unity.transport/Runtime/Pipelines/ReliableUtility.cs:354-407 | the table and the resume sequence become those of the walk over windowSize slots, and a resend is pending exactly when a resume sequence is set |
| ReliableUtility.ReleaseOrResumeEffect | com.unity.transport/Runtime/Pipelines/ReliableUtility.cs:354-407 | every walked slot holding an acknowledged packet is released, no other slot changes, and a new resume sequence timed out |
| ReliableUtility.LastPending | com.unity.transport/Runtime/Pipelines/ReliableUtility.cs:478-488 | the result is NullEntry or a pending sequence in the scanned range |
| ReliableUtility.LastPendingIsLast | com.unity.transport/Runtime/Pipelines/ReliableUtility.cs:478-488 | no sequence after the one picked, in the scanned range, is pending |
| ReliableUtility.ResumeSend | com.unity.transport/Runtime/Pipelines/ReliableUtility.cs:446-490 | resends the stored packet with a fresh window in its header and a new send time, counts the resend and sets the resume sequence to the last later pending one |
| ReliableUtility.FindResume | com.unity.transport/Runtime/Pipelines/ReliableUtility.cs:478-488 | the scan finds the last pending sequence in the range |
| ReliableUtility.InitializeContext | com.unity.transport/Runtime/Pipelines/ReliableUtility.cs:165-184 | both process buffers are set up exactly when they have the needed size, and the shared context starts with nothing sent or received, the default minimum resend time and the initial round-trip estimate |
| ReliableUtility.ResetSharedContext | com.unity.transport/Runtime/Pipelines/ReliableUtility.cs:165-184 | the shared context starts with nothing sent or received, the default minimum resend time and the initial round-trip estimate |
| ReliableSequenced.InitializeConnection | com.unity.transport/Runtime/Pipelines/ReliableSequencedPipelineStage.cs:125-133 | the reliability context is set up exactly when the shared buffer and the two process buffers together are large enough, with nothing sent or received yet |
| ReliableSequenced.Receive | com.unity.transport/Runtime/Pipelines/ReliableSequencedPipelineStage.cs:12-69 | always asks for a send update; a pending resume hands out the stored packet of the resume sequence without reading the inbound buffer; an ack moves the send window and yields nothing; a data packet updates the receive window and is delivered in order, stored for later, or dropped as stale or duplicated |
| ReliableSequenced.ReceiveData | com.unity.transport/Runtime/Pipelines/ReliableSequencedPipelineStage.cs:39-61 | Read classifies the packet; the next expected packet is delivered, with a resume requested when later ones already arrived; any other accepted packet is stored and the next expected one is handed out if present |
| ReliableSequenced.Accept | com.unity.transport/Runtime/Pipelines/ReliableSequencedPipelineStage.cs:42-61 | an accepted packet is delivered when it is the next expected one and otherwise stored in its slot |
| ReliableSequenced.DummyPayload | com.unity.transport/Runtime/Pipelines/ReliableSequencedPipelineStage.cs:114-117 | an ack-only packet carries exactly one byte |
| ReliableSequenced.Send | com.unity.transport/Runtime/Pipelines/ReliableSequencedPipelineStage.cs:71-122 | always asks for an update; the table after the release walk is the walk ReleaseOrResumeEffect describes, and afterwards at most one slot differs from it; a payload is stamped and stored or refused when the window is full; with no payload it resends exactly when the walk left a resume pending, sends an ack-only packet exactly when none is pending and an ack is owed (more than a frame since the last send and the latest received sequence not yet acked), and otherwise sends nothing and changes neither window |
| ReliableSequenced.Transmit | com.unity.transport/Runtime/Pipelines/ReliableSequencedPipelineStage.cs:81-121 | the branches of Send after the release walk: Resend iff no payload and a resume is pending, AckOnly iff no payload, no resume and an ack is owed, Nothing otherwise; only the slot of the sent or resent sequence changes |
| ReliableSequenced.SendPayload | com.unity.transport/Runtime/Pipelines/ReliableSequencedPipelineStage.cs:83-94 | a payload gets the next sequence and its header is appended to the header writer, or it is refused with the window-full error |
| ReliableSequenced.SendResend | com.unity.transport/Runtime/Pipelines/ReliableSequencedPipelineStage.cs:96-106 | resends the stored payload of the resume sequence under its stored header refreshed with the receive window, which replaces the header writer's contents |
| ReliableSequenced.SendAck | com.unity.transport/Runtime/Pipelines/ReliableSequencedPipelineStage.cs:108-119 | an ack header is appended to the header writer and the latest received sequence counts as acknowledged; the send window is unchanged |
| NetworkEndPoints.WithPort | com.unity.transport/Runtime/NetworkEndPoint.cs:49-53 | setting the port keeps the length and every byte outside the two port bytes |
| NetworkEndPoints.PortRoundTrip | com.unity.transport/Runtime/NetworkEndPoint.cs:41-53 | reading the port back after setting it gives the value set |
| NetworkEndPoints.CreateIpv4 | com.unity.transport/Runtime/NetworkEndPoint.cs:67-94 | an IPv4 endpoint has the length of a sockaddr_in |
| NetworkEndPoints.CreateIpv4Fields | com.unity.transport/Runtime/NetworkEndPoint.cs:55-94 | an IPv4 endpoint is valid, of the IPv4 family, carries its port, holds the address most significant byte first and is zero past it |
| NetworkEndPoints.WellKnownAddresses | com.unity.transport/Runtime/NetworkEndPoint.cs:96-97 | AnyIpv4 is 0.0.0.0 port 0 and LoopbackIpv4 is 127.0.0.1 port 0, both valid |
| NetworkEndPoints.EqualIsEquivalence | com.unity.transport/Runtime/NetworkEndPoint.cs:132-175 | endpoint equality is reflexive, symmetric and transitive and ignores the bytes past the length |
| NetworkEndPoints.Ipv4EqualIff | com.unity.transport/Runtime/NetworkEndPoint.cs:132-175 | two IPv4 endpoints compare equal exactly when their addresses and ports are equal |
| NetworkEndPoints.DigitsFrom | com.unity.transport/Runtime/NetworkEndPoint.cs:111-115 | the digit run from a position never runs past the string |
| NetworkEndPoints.PartAccepted | com.unity.transport/Runtime/NetworkEndPoint.cs:102-127 | a part of value at most 255 is shifted into the address and reading continues after it and its dot |
| NetworkEndPoints.PartRejected | com.unity.transport/Runtime/NetworkEndPoint.cs:104-120 | a missing part or one above 255 makes the whole address 0 |
| NetworkEndPoints.PartsBound | com.unity.transport/Runtime/NetworkEndPoint.cs:98-129 | the parsed address fits 32 bits |
| NetworkEndPoints.ReadOctet | com.unity.transport/Runtime/NetworkEndPoint.cs:111-115 | the digit loop reads exactly the run of digits at the position and yields its decimal value |
| NetworkEndPoints.ReadOctetAsWritten | com.unity.transport/Runtime/NetworkEndPoint.cs:108-115 | with the uint accumulator as written, the loop yields the run's value modulo 2^32 |
| NetworkEndPoints.AsWrittenOctetWraps | com.unity.transport/Runtime/NetworkEndPoint.cs:108-120 | the part 4294967297 wraps to 1 and passes the 255 test although its value is far above 255 |
| NetworkEndPoints.Parse | com.unity.transport/Runtime/NetworkEndPoint.cs:98-130 | the endpoint is the IPv4 endpoint of the parsed address and the port, and the address fits 32 bits |
| NetworkEndPoints.ParsePart | com.unity.transport/Runtime/NetworkEndPoint.cs:102-127 | one round of the loop either rejects the part, making the address 0, or shifts it in and moves past it |
| NetworkEndPoints.DecimalString | com.unity.transport/Runtime/NetworkEndPoint.cs:111-115 | a decimal numeral is a non-empty run of digits |
| NetworkEndPoints.DecimalStringValue | com.unity.transport/Runtime/NetworkEndPoint.cs:111-115 | the numeral of n reads back as n |
| NetworkEndPoints.DigitRun | com.unity.transport/Runtime/NetworkEndPoint.cs:111-115 | the digit loop stops exactly at the first non-digit |
| NetworkEndPoints.NumeralAt | com.unity.transport/Runtime/NetworkEndPoint.cs:111-127 | a numeral followed by a dot or the end is read as one part of its value |
| NetworkEndPoints.ParseDottedQuad | com.unity.transport/Runtime/NetworkEndPoint.cs:98-130 | "a.b.c.d" with parts up to 255 parses as a * 2^24 + b * 2^16 + c * 2^8 + d |
| NetworkEndPoints.QuadNumerals | com.unity.transport/Runtime/NetworkEndPoint.cs:98-130 | four numerals separated by dots read as the four-byte address |
| NetworkEndPoints.QuadChain | com.unity.transport/Runtime/NetworkEndPoint.cs:102-127 | four parts, each followed by a dot but the last, read as a * 2^24 + b * 2^16 + c * 2^8 + d |
| NetworkEndPoints.TailFrom1 | com.unity.transport/Runtime/NetworkEndPoint.cs:102-127 | after a first part a, the last three parts complete the address |
| NetworkEndPoints.TailFrom2 | com.unity.transport/Runtime/NetworkEndPoint.cs:102-127 | after two parts, the last two complete the address |
| NetworkEndPoints.TailFrom3 | com.unity.transport/Runtime/NetworkEndPoint.cs:102-127 | after three parts, the last one completes the address |
| NetworkEndPoints.ParseMissingDigit | com.unity.transport/Runtime/NetworkEndPoint.cs:104-107 | a string that does not start with a digit parses as address 0 |
| NetworkEndPoints.ParseOctetTooLarge | com.unity.transport/Runtime/NetworkEndPoint.cs:116-120 | a first part above 255 makes the address 0 |
| NetworkLogging.BeforeNul | com.unity.transport/Runtime/NetworkLogger.cs:13-27 | the copied text is the longest prefix without a NUL, stopping at the first NUL |
| NetworkLogging.Width | com.unity.transport/Runtime/NetworkLogger.cs:63-74 | every number has at least one digit |
| NetworkLogging.WidthAbove | com.unity.transport/Runtime/NetworkLogger.cs:66-74 | a number has more than k digits exactly when it reaches 10^k |
| NetworkLogging.DigitChar | com.unity.transport/Runtime/NetworkLogger.cs:85 | a digit value maps to a digit character |
| NetworkLogging.DecimalSnoc | com.unity.transport/Runtime/NetworkLogger.cs:81-88 | appending a digit shifts the value one decimal place |
| NetworkLogging.WidthAsWritten | com.unity.transport/Runtime/NetworkLogger.cs:70-74 | the digit-count loop stops at a power of ten not below the value |
| NetworkLogging.DigitsFromTop | com.unity.transport/Runtime/NetworkLogger.cs:81-88 | the digit loop writes one character per power of ten |
| NetworkLogging.IntTextAsWritten | com.unity.transport/Runtime/NetworkLogger.cs:63-89 | the as-written AppendInt writes at least one character |
| NetworkLogging.AsWrittenTen | com.unity.transport/Runtime/NetworkLogger.cs:70 | as written, AppendInt(10) writes ":" rather than the text of 10 |
| NetworkLogging.MinValueTextAsWritten | com.unity.transport/Runtime/NetworkLogger.cs:66-85 | as written, AppendInt(int.MinValue) writes a '-' and one more character |
| NetworkLogging.AsWrittenMinValue | com.unity.transport/Runtime/NetworkLogger.cs:66-85 | as written, AppendInt(int.MinValue) writes "-0", which is not the decimal text of int.MinValue |
| NetworkLogging.AsWrittenNeverStops | com.unity.transport/Runtime/NetworkLogger.cs:66-74 | the 32-bit maxval stays even and below int.MaxValue, so AppendInt(int.MaxValue) never leaves its first loop |
| NetworkLogging.NetworkLogString.Contents | com.unity.transport/Runtime/NetworkLogger.cs:11-97 | the text has the string's length |
| NetworkLogging.NetworkLogString.Empty | com.unity.transport/Runtime/NetworkLogger.cs:11 | the default log string is empty |
| NetworkLogging.NetworkLogString.constructor | com.unity.transport/Runtime/NetworkLogger.cs:13-27 | the string holds the characters before the first NUL |
| NetworkLogging.NetworkLogString.AsString | com.unity.transport/Runtime/NetworkLogger.cs:91-97 | yields exactly the contents |
| NetworkLogging.NetworkLogString.Append | com.unity.transport/Runtime/NetworkLogger.cs:29-41 | fails, changing nothing, exactly when the two lengths reach 512; otherwise the contents become the old contents followed by the other string's |
| NetworkLogging.NetworkLogString.AppendChar | com.unity.transport/Runtime/NetworkLogger.cs:43-61 | fails, changing nothing, exactly when the string is full; otherwise the character is added at the end |
| NetworkLogging.NetworkLogString.AppendSpace | com.unity.transport/Runtime/NetworkLogger.cs:43-51 | fails, changing nothing, at capacity; otherwise adds a space |
| NetworkLogging.NetworkLogString.AppendComma | com.unity.transport/Runtime/NetworkLogger.cs:53-61 | fails, changing nothing, at capacity; otherwise adds a comma |
| NetworkLogging.NetworkLogString.AppendInt | com.unity.transport/Runtime/NetworkLogger.cs:63-89 | fails, changing nothing, exactly when the sign and the digits do not fit; otherwise keeps the old text and appends the decimal text of the value, without leading zeros, int.MinValue included (the corrected member of three Findings) |
| NetworkLogging.NetworkLogString.WriteDigits | com.unity.transport/Runtime/NetworkLogger.cs:81-88 | writes the digits of the value from the top, without a leading zero, then the terminator |
| NetworkLogging.NextDigit | com.unity.transport/Runtime/NetworkLogger.cs:81-87 | writing one more digit keeps the loop state: the written digits and the rest make up the value |
| NetworkLogging.LogLevel.Ordinal | com.unity.transport/Runtime/NetworkLogger.cs:106-113 | a level's number lies between None and Debug |
| NetworkLogging.ConsoleCallOf | com.unity.transport/Runtime/NetworkLogger.cs:135-153 | each message goes to the console call of its level, with its text |
| NetworkLogging.NetworkLogger.constructor | com.unity.transport/Runtime/NetworkLogger.cs:115-120 | a new logger has the given level and no pending or logged messages |
| NetworkLogging.NetworkLogger.Log | com.unity.transport/Runtime/NetworkLogger.cs:169-178 | a message above the configured level is dropped; any other is queued at the end |
| NetworkLogging.NetworkLogger.FlushPending | com.unity.transport/Runtime/NetworkLogger.cs:128-133 | every pending message moves to the log, in order, and the queue is empty |
| NetworkLogging.NetworkLogger.DumpToConsole | com.unity.transport/Runtime/NetworkLogger.cs:135-153 | each logged message goes to the console call for its level, in order, and the log is empty |
| NetworkLogging.NetworkLogger.Clear | com.unity.transport/Runtime/NetworkLogger.cs:155-158 | the log is empty and the pending queue is unchanged |
| NetworkPipeline.TotalPrefix | com.unity.transport/Runtime/NetworkPipeline.cs:448-460 | the capacities of the stages before stage j plus its own never exceed the pipeline's total |
| NetworkPipeline.AlignUp4 | com.unity.transport/Runtime/NetworkPipeline.cs:462-465 | the aligned capacity is a multiple of 4 within 3 of the capacity |
| NetworkPipeline.AlignUp4Least | com.unity.transport/Runtime/NetworkPipeline.cs:462-465 | the aligned capacity is the least multiple of 4 not below the capacity |
| NetworkPipeline.TiledExtend | com.unity.transport/Runtime/NetworkPipeline.cs:446-476 | adding stages to the stage list keeps the existing blocks in place |
| NetworkPipeline.TiledAppend | com.unity.transport/Runtime/NetworkPipeline.cs:462-476 | a pipeline placed where the region ends extends the region by its aligned block |
| NetworkPipeline.TiledBlockInside | com.unity.transport/Runtime/NetworkPipeline.cs:462-476 | every pipeline's block lies inside the region |
| NetworkPipeline.TiledStartBelow | com.unity.transport/Runtime/NetworkPipeline.cs:462-476 | a tiled region never ends before it starts |
| NetworkPipeline.IndexOf | com.unity.transport/Runtime/NetworkPipeline.cs:515-527 | the index is the first occurrence of the stage |
| NetworkPipeline.StageBufferInsideConnection | com.unity.transport/Runtime/NetworkPipeline.cs:503-543 | the buffer of any stage of any pipeline for connection c lies inside connection c's part of the region, so connections never share buffer bytes |
| NetworkPipeline.AddUpdate | com.unity.transport/Runtime/NetworkPipeline.cs:582-596 | the request is appended unless the same request is already queued; it is queued afterwards, and a queue without duplicates stays so |
| NetworkPipeline.PipelineProcessor.constructor | com.unity.transport/Runtime/NetworkPipeline.cs:340-362 | no stages and no pipelines, and each connection's send region starts with the spin lock's bytes |
| NetworkPipeline.PipelineProcessor.AppendStages | com.unity.transport/Runtime/NetworkPipeline.cs:445-460 | appends the stage ids, stopping at the first unknown stage (failing then), and on success sums the four capacities of the stages |
| NetworkPipeline.PipelineProcessor.AppendStage | com.unity.transport/Runtime/NetworkPipeline.cs:455 | appends one stage id to the stage list |
| NetworkPipeline.PipelineProcessor.AddPipeline | com.unity.transport/Runtime/NetworkPipeline.cs:462-479 | the new pipeline's blocks start where the existing ones end, and each per-connection size grows by the pipeline's aligned capacity, keeping the regions tiled |
| NetworkPipeline.PipelineProcessor.CreatePipeline | com.unity.transport/Runtime/NetworkPipeline.cs:435-480 | fails with more than 255 pipelines, changing nothing, or at the first unknown stage, keeping the stages before it; otherwise appends the stages and a pipeline laid out after the others, grows each region by its aligned capacity and returns the new pipeline count as the Id |
| NetworkPipeline.PipelineProcessor.GetPipelineBuffers | com.unity.transport/Runtime/NetworkPipeline.cs:503-543 | succeeds exactly for an Id naming a pipeline that has the stage, and then hands out the slices of the first occurrence of that stage for the connection |
| NetworkPipeline.PipelineProcessor.PipelineIdOfStageAsWritten | com.unity.transport/Runtime/NetworkPipeline.cs:482-501 | as written, the search for a stage's pipeline always yields the pipeline count |
| NetworkPipeline.PipelineProcessor.PipelineIdOfStage | com.unity.transport/Runtime/NetworkPipeline.cs:482-501 | the Id of the first pipeline that has the stage, or 0 exactly when none has it |
| NetworkPipeline.PipelineProcessor.GetPipelineBuffersOfStage | com.unity.transport/Runtime/NetworkPipeline.cs:482-501 | succeeds exactly when some pipeline has the stage, and then hands out that pipeline's slices of it |
| NetworkPipeline.PipelineProcessor.RequestReceiveUpdate | com.unity.transport/Runtime/NetworkPipeline.cs:655-670 | a receive update is queued once: appended unless already queued, and a queue without duplicates stays so |
| NetworkPipeline.AsWrittenSearchPicksLastPipeline | com.unity.transport/Runtime/NetworkPipeline.cs:482-501 | with two pipelines, the stage of the first is not in the last, which the as-written search picks |
| Driver.NextVersion | com.unity.transport/Runtime/NetworkDriver.cs:512-516 | a freed slot's version changes and is never 0, so old handles go stale |
| Driver.FirstMatch | com.unity.transport/Runtime/NetworkDriver.cs:773-793 | the index is the first connection that matches the address and token, or none matches |
| Driver.WithDisconnectsQueue | com.unity.transport/Runtime/NetworkDriver.cs:856-900 | after the timeout scan each dropped connection's queue has gained exactly one Disconnect event and every other queue is unchanged |
| Driver.Freed | com.unity.transport/Runtime/NetworkDriver.cs:510-518 | freeing keeps the table's length |
| Driver.FreeInOrder | com.unity.transport/Runtime/NetworkDriver.cs:510-518 | freeing one id at a time keeps the table's length |
| Driver.FreeInOrderIsFreed | com.unity.transport/Runtime/NetworkDriver.cs:510-518 | freeing distinct pending ids one at a time, in queue order, gives each exactly one fresh slot of its next version |
| Driver.TimedOut | com.unity.transport/Runtime/NetworkDriver.cs:856-900 | the timeout scan keeps the table's length |
| Driver.TimeoutKeepsHandle | com.unity.transport/Runtime/NetworkDriver.cs:856-900 | a timeout changes only the state, the attempt count and the last-attempt time, never the handle, address or tokens, and a second check at the same time changes nothing |
| Driver.RetriesBounded | com.unity.transport/Runtime/NetworkDriver.cs:866-878 | a connecting connection that timed out is retried while it has made fewer than maxConnectAttempts attempts and dropped exactly once it has made that many |
| Driver.NetworkDriver.constructor | com.unity.transport/Runtime/NetworkDriver.cs:333-374 | a new driver has no connections, queues or events, is neither bound nor listening, and its session counter starts at the random seed |
| Driver.NetworkDriver.GetConnection | com.unity.transport/Runtime/NetworkDriver.cs:765-771 | the lookup yields the stored connection or Connection.Null |
| Driver.NetworkDriver.NullIffStale | com.unity.transport/Runtime/NetworkDriver.cs:765-771 | the lookup yields Connection.Null exactly for a handle whose version is not the slot's |
| Driver.NetworkDriver.GetConnectionState | com.unity.transport/Runtime/NetworkDriver.cs:690-696 | a live handle yields its connection's state and a stale one Disconnected |
| Driver.NetworkDriver.PushEvent | com.unity.transport/Runtime/NetworkDriver.cs:755-763 | the event is appended to the connection's queue |
| Driver.NetworkDriver.Allocate | com.unity.transport/Runtime/NetworkDriver.cs:605-626 | takes the head of the free list or appends a fresh slot of version 1; the slot taken is disconnected and no longer queued for reuse |
| Driver.NetworkDriver.Bind | com.unity.transport/Runtime/NetworkDriver.cs:556-573 | returns the interface's result and marks the driver bound when it is 0 |
| Driver.NetworkDriver.Listen | com.unity.transport/Runtime/NetworkDriver.cs:575-592 | fails with -1 when not bound; otherwise the driver listens |
| Driver.NetworkDriver.Accept | com.unity.transport/Runtime/NetworkDriver.cs:594-603 | yields the oldest accepted connection, removing it from the queue, with its current version; otherwise the default handle and nothing changes |
| Driver.NetworkDriver.Connect | com.unity.transport/Runtime/NetworkDriver.cs:605-660 | a new Connecting connection with one attempt now, to the endpoint, whose receive token is the session counter, which moves on modulo 2^16; the slot taken was disconnected and no other connection changes |
| Driver.NetworkDriver.RemoveConnection | com.unity.transport/Runtime/NetworkDriver.cs:800-812 | acts exactly on a connection that is live and equal to the stored one: it is stored disconnected and queued to be freed; otherwise nothing changes |
| Driver.NetworkDriver.Disconnect | com.unity.transport/Runtime/NetworkDriver.cs:662-678 | a live handle's connection is stored disconnected and queued to be freed; a stale handle or a disconnected connection changes nothing; returns 0 |
| Driver.NetworkDriver.PopEventForConnection | com.unity.transport/Runtime/NetworkDriver.cs:741-753 | Empty for a bad id, a stale handle or an empty queue; otherwise the connection's oldest event, removed from its queue alone |
| Driver.NetworkDriver.AddressesWellFormed | com.unity.transport/Runtime/NetworkDriver.cs:186-196 | every stored address is well formed |
| Driver.NetworkDriver.SetConnection | com.unity.transport/Runtime/NetworkDriver.cs:795-798 | the connection is stored in its slot and nothing else changes |
| Driver.NetworkDriver.UpdateConnection | com.unity.transport/Runtime/NetworkDriver.cs:814-823 | the connection is stored exactly when it equals the stored one |
| Driver.NetworkDriver.FreePending | com.unity.transport/Runtime/NetworkDriver.cs:510-518 | each pending id gets a fresh slot of its next version and joins the free list in queue order; the pending queue is empty |
| Driver.NetworkDriver.FreeOne | com.unity.transport/Runtime/NetworkDriver.cs:510-518 | the head of the pending queue gets a fresh slot and moves to the end of the free list |
| Driver.NetworkDriver.TimeoutSlot | com.unity.transport/Runtime/NetworkDriver.cs:858-899 | one connection is retried or dropped, a drop queueing it to be freed and adding a Disconnect event |
| Driver.NetworkDriver.CheckTimeouts | com.unity.transport/Runtime/NetworkDriver.cs:856-900 | every connection is checked once, in id order; dropped ones are queued to be freed in id order and each gets exactly one Disconnect event |
| Driver.NetworkDriver.CheckTimeoutAt | com.unity.transport/Runtime/NetworkDriver.cs:858-899 | one more connection of the scan is handled |
| Driver.NetworkDriver.ScheduleUpdate | com.unity.transport/Runtime/NetworkDriver.cs:472-518 | reads the clock, clears the events and the receive stream, frees the pending slots and then checks timeouts, so the only events left are the Disconnect events of dropped connections |
| Driver.NetworkDriver.FindConnection | com.unity.transport/Runtime/NetworkDriver.cs:773-793 | yields the first connection from the address with the receive (or send) token |
| Driver.NetworkDriver.OpenConnection | com.unity.transport/Runtime/NetworkDriver.cs:958-985 | the next free id gets a Connected connection from the address, with the session counter as receive token and the peer's token as send token, and is queued for Accept; no other connection changes |
| Driver.NetworkDriver.OnConnectionRequest | com.unity.transport/Runtime/NetworkDriver.cs:949-1001 | ignored unless listening and without the pipeline flag; an unknown or disconnected peer gets a new Connected connection queued for Accept, and a repeated request counts an attempt on the existing one |
| Driver.NetworkDriver.OnConnectionAccept | com.unity.transport/Runtime/NetworkDriver.cs:1007-1046 | with the connect-token flag and no pipeline flag, a Connecting connection found by its token becomes Connected with the packet's send token and gets a Connect event; anything else changes nothing |
| Driver.NetworkDriver.OnDisconnect | com.unity.transport/Runtime/NetworkDriver.cs:1048-1062 | without the pipeline flag, the connection found by its token is disconnected, queued to be freed and gets a Disconnect event unless it already was disconnected |
| Driver.NetworkDriver.OnData | com.unity.transport/Runtime/NetworkDriver.cs:1064-1117 | a packet from an unknown peer changes nothing; a connecting connection needs the connect token, which becomes its send token with a Connect event; the payload goes to the stream and, unless it goes to a pipeline, a Data event follows |
| Driver.NetworkDriver.ReceiveData | com.unity.transport/Runtime/NetworkDriver.cs:1100-1116 | the payload is appended to the receive stream and, unless it goes to a pipeline, a Data event for it is queued after the connection's other events of this packet |
| Driver.NetworkDriver.AppendPacket | com.unity.transport/Runtime/NetworkDriver.cs:944-1122 | dispatches on the type byte; a reject or an undefined type changes nothing; at most two events are queued |
| DataStream.LittleEndianBytes | com.unity.transport/Runtime/DataStream.cs:514-519 | storing a value on a little-endian host takes exactly the requested number of bytes |
| DataStream.LittleEndianBound | com.unity.transport/Runtime/DataStream.cs:843-848 | n bytes read least significant first give a value below 2^(8n) |
| DataStream.LittleEndianOfBytes | com.unity.transport/Runtime/DataStream.cs:514-519 | the bytes a value is stored as read back as the value modulo 2^(8n) |
| DataStream.BytesOfLittleEndian | com.unity.transport/Runtime/DataStream.cs:843-848 | storing the value read from n bytes gives the same bytes back, so the two directions are inverse |
| DataStream.LittleEndianConcat | com.unity.transport/Runtime/DataStream.cs:369-386 | bytes placed after others weigh 2^8 more per earlier byte, so a stream of bytes is one little-endian number |
| DataStream.SwappedPair | com.unity.transport/Runtime/DataStream.cs:290-297 | swapping a little-endian pair reads it most significant byte first |
| DataStream.ByteSwap16Involution | com.unity.transport/Runtime/DataStream.cs:290-297 | swapping the bytes of a 16-bit value twice gives it back |
| DataStream.ByteSwap32Involution | com.unity.transport/Runtime/DataStream.cs:290-297 | swapping the bytes of a 32-bit value twice gives it back |
| DataStream.NetworkOrderBytes32 | com.unity.transport/Runtime/DataStream.cs:544-549 | a swapped 32-bit value stored by a little-endian host puts its most significant byte first |
| DataStream.ZigZagRoundTrip | com.unity.transport/Runtime/DataStream.cs:597-600 | de-interleaving undoes interleaving on every 32-bit signed value |
| DataStream.UnZigZagRoundTrip | com.unity.transport/Runtime/DataStream.cs:931-935 | interleaving undoes de-interleaving on every 32-bit unsigned value, so the interleaving is a bijection |
| DataStream.IntDeltaRoundTrip | com.unity.transport/Runtime/DataStream.cs:607-611 | subtracting the written signed delta from the baseline in 32-bit arithmetic recovers the value |
| DataStream.UIntDeltaRoundTrip | com.unity.transport/Runtime/DataStream.cs:602-606 | subtracting the written unsigned delta from the baseline in 32-bit arithmetic recovers the value |
| DataStream.PackedEntry | com.unity.transport/Runtime/DataStream.cs:582-595 | the encode table entry of a value's bucket holds a code of at most six bits, and the offset inside the bucket fits the bucket size |
| DataStream.PackedFits | com.unity.transport/Runtime/DataStream.cs:582-595 | a packed value takes between 1 and 38 bits, and its bits fit in that count |
| DataStream.DecodePackedFails | com.unity.transport/Runtime/DataStream.cs:880-906 | no value is decoded when the code or the offset is longer than the buffered bits, or the symbol names no bucket |
| DataStream.DecodePackedSucceeds | com.unity.transport/Runtime/DataStream.cs:880-906 | otherwise the value is the bucket offset plus the bits after the code, and code and offset together are consumed |
| DataStream.DecodeTableSelects | com.unity.transport/Runtime/DataStream.cs:880-906 | bits that start with a bucket's code select that bucket and its code length in the decode table |
| DataStream.PackedParts | com.unity.transport/Runtime/DataStream.cs:582-595 | a packed value is its bucket's code followed by its offset inside the bucket |
| DataStream.PackedRoundTrip | com.unity.transport/Runtime/DataStream.cs:880-906 | decoding the packed bits of a value followed by any other bits gives the value and consumes exactly the bits written |
| DataStream.PackedWriteAsWrittenOverruns | com.unity.transport/Runtime/DataStream.cs:590 | the capacity check as written passes for a write whose bits need two bytes of a one-byte buffer |
| DataStream.DataStreamWriter.Length | com.unity.transport/Runtime/DataStream.cs:344-353 | the length is the bytes in use, a partly filled last byte counting whole, and covers the bits written to within a byte |
| DataStream.DataStreamWriter.DataIsStream | com.unity.transport/Runtime/DataStream.cs:344-353 | the bytes in use, read little-endian, are every bit written so far in order |
| DataStream.DataStreamWriter.constructor | com.unity.transport/Runtime/DataStream.cs:267-288 | a new writer has the requested capacity and holds no data |
| DataStream.DataStreamWriter.SetCapacity | com.unity.transport/Runtime/DataStream.cs:315-342 | the capacity changes unless it would drop below the bytes in use; the data is kept either way |
| DataStream.DataStreamWriter.EmitLowByte | com.unity.transport/Runtime/DataStream.cs:560-567 | storing the lowest pending byte moves it from the pending bits to the buffer without changing the padded data |
| DataStream.DataStreamWriter.Flush | com.unity.transport/Runtime/DataStream.cs:369-386 | flushing leaves no pending bits and keeps the bytes in use and the bit stream |
| DataStream.DataStreamWriter.FlushBits | com.unity.transport/Runtime/DataStream.cs:560-567 | flushing whole bytes leaves fewer than eight pending bits and keeps the data, the stream and the bit count |
| DataStream.DataStreamWriter.WriteRawBitsInternal | com.unity.transport/Runtime/DataStream.cs:569-580 | the new bits are placed above the pending ones and the bit index grows by their number |
| DataStream.DataStreamWriter.WriteCodeAndOffset | com.unity.transport/Runtime/DataStream.cs:592-594 | a code and an offset are appended to the bit stream at the old bit count |
| DataStream.DataStreamWriter.WritePackedUInt | com.unity.transport/Runtime/DataStream.cs:582-595 | fails, changing nothing, exactly when the packed bits would not fit; otherwise appends the bucket code and then the offset inside the bucket to the bit stream |
| DataStream.DataStreamWriter.WriteBucketEntry | com.unity.transport/Runtime/DataStream.cs:582-595 | appends a value's packed bits to the stream at the old bit count |
| DataStream.DataStreamWriter.WritePackedInt | com.unity.transport/Runtime/DataStream.cs:597-600 | appends the packed bits of the interleaved value, failing exactly when they would not fit |
| DataStream.DataStreamWriter.WritePackedUIntDelta | com.unity.transport/Runtime/DataStream.cs:602-606 | appends the packed bits of the interleaved difference from the baseline, failing exactly when they would not fit |
| DataStream.DataStreamWriter.WritePackedIntDelta | com.unity.transport/Runtime/DataStream.cs:607-611 | appends the packed bits of the interleaved difference from the baseline, failing exactly when they would not fit |
| DataStream.DataStreamWriter.WriteBytes | com.unity.transport/Runtime/DataStream.cs:457-467 | fails, changing nothing, exactly when the bytes would pass the capacity; otherwise the data grows by exactly those bytes |
| DataStream.DataStreamWriter.WriteArray | com.unity.transport/Runtime/DataStream.cs:482-491 | writes the first length bytes of the array, or all of it for a negative length, failing exactly when they do not fit |
| DataStream.DataStreamWriter.WriteByte | com.unity.transport/Runtime/DataStream.cs:469-480 | appends one byte when there is room and returns where it went |
| DataStream.DataStreamWriter.WriteUShort | com.unity.transport/Runtime/DataStream.cs:500-505 | appends the two bytes of the value, least significant first, when there is room |
| DataStream.DataStreamWriter.WriteUInt | com.unity.transport/Runtime/DataStream.cs:514-519 | appends the four bytes of the value, least significant first, and they read back as the value |
| DataStream.DataStreamWriter.WriteUShortNetworkByteOrder | com.unity.transport/Runtime/DataStream.cs:529-534 | appends the two bytes of the value, most significant first, when there is room |
| DataStream.DataStreamWriter.WriteUIntNetworkByteOrder | com.unity.transport/Runtime/DataStream.cs:544-549 | appends the four bytes of the value, most significant first, when there is room |
| DataStream.DataStreamWriter.UpdateAt | com.unity.transport/Runtime/DataStream.cs:78-93 | rewrites bytes at an earlier position and keeps the write position; refused while bits are pending, and past the capacity it leaves the write position at the mark |
| DataStream.DataStreamWriter.UpdateByte | com.unity.transport/Runtime/DataStream.cs:78-93 | replaces the byte at the mark and keeps every other byte |
| DataStream.DataStreamWriter.UpdateUShort | com.unity.transport/Runtime/DataStream.cs:112-127 | replaces the two bytes at the mark with the value, least significant first |
| DataStream.DataStreamWriter.UpdateUInt | com.unity.transport/Runtime/DataStream.cs:146-161 | replaces the four bytes at the mark with the value, least significant first |
| DataStream.DataStreamWriter.UpdateUShortNetworkByteOrder | com.unity.transport/Runtime/DataStream.cs:197-212 | replaces the two bytes at the mark with the value, most significant first |
| DataStream.DataStreamWriter.UpdateUIntNetworkByteOrder | com.unity.transport/Runtime/DataStream.cs:231-246 | replaces the four bytes at the mark with the value, most significant first |
| DataStream.DataStreamWriter.Clear | com.unity.transport/Runtime/DataStream.cs:615-625 | the writer holds no data and no bits afterwards |
| DataStream.FillStep | com.unity.transport/Runtime/DataStream.cs:907-914 | moving the next byte into the bit buffer changes neither the unread bits nor their number |
| DataStream.ConsumeBits | com.unity.transport/Runtime/DataStream.cs:915-930 | taking the lowest n bits off the buffer leaves the rest of the unread bits in order |
| DataStream.FillLevelEnough | com.unity.transport/Runtime/DataStream.cs:907-914 | filling stops only above 56 bits or when the input is used up |
| DataStream.PackedReadBack | com.unity.transport/Runtime/DataStream.cs:880-914 | when the unread bits start with a packed value and enough bits remain, filling and decoding gives the value and consumes its bits |
| DataStream.ReaderContext.constructor | com.unity.transport/Runtime/DataStream.cs:669-680 | a new context has read nothing |
| DataStream.DataStreamReader.UnreadNonNegative | com.unity.transport/Runtime/DataStream.cs:669-680 | the unread bits form a natural number |
| DataStream.DataStreamReader.FreshContext | com.unity.transport/Runtime/DataStream.cs:669-680 | a fresh context sees the whole data as unread bits |
| DataStream.DataStreamReader.GetBitsRead | com.unity.transport/Runtime/DataStream.cs:810-813 | the bits read plus the bits still available are all the bits of the data |
| DataStream.DataStreamReader.GetBytesRead | com.unity.transport/Runtime/DataStream.cs:806-809 | the bytes read cover the bits read, a partly read byte counting whole |
| DataStream.DataStreamReader.ReadBytes | com.unity.transport/Runtime/DataStream.cs:762-784 | fails, changing nothing, exactly when the bytes would pass the end; otherwise gives the next bytes after the last partly read one |
| DataStream.DataStreamReader.ReadByte | com.unity.transport/Runtime/DataStream.cs:815-820 | gives the next byte when there is one |
| DataStream.DataStreamReader.ReadUShort | com.unity.transport/Runtime/DataStream.cs:829-834 | gives the next two bytes read least significant first |
| DataStream.DataStreamReader.ReadUInt | com.unity.transport/Runtime/DataStream.cs:843-848 | gives the next four bytes read least significant first |
| DataStream.DataStreamReader.ReadUShortNetworkByteOrder | com.unity.transport/Runtime/DataStream.cs:857-861 | gives the next two bytes read most significant first |
| DataStream.DataStreamReader.ReadUIntNetworkByteOrder | com.unity.transport/Runtime/DataStream.cs:869-873 | gives the next four bytes read most significant first |
| DataStream.DataStreamReader.ReadBytesIntoArray | com.unity.transport/Runtime/DataStream.cs:786-796 | copies the next length bytes into the array and leaves the rest of it alone |
| DataStream.DataStreamReader.ReadBytesAsArray | com.unity.transport/Runtime/DataStream.cs:798-804 | returns a new array holding the next length bytes |
| DataStream.DataStreamReader.FillBitBuffer | com.unity.transport/Runtime/DataStream.cs:907-914 | keeps the unread bits and their number, and stops above 56 bits or at the end of the data |
| DataStream.DataStreamReader.ReadRawBitsInternal | com.unity.transport/Runtime/DataStream.cs:915-930 | gives the lowest numbits unread bits and drops them, refusing when they are not all buffered |
| DataStream.DataStreamReader.PeekAfterFill | com.unity.transport/Runtime/DataStream.cs:886-888 | after filling, the six bits the decode table is indexed with are the next six unread bits |
| DataStream.DataStreamReader.SkipBits | com.unity.transport/Runtime/DataStream.cs:899-901 | drops the lowest n unread bits |
| DataStream.DataStreamReader.ReadPackedUInt | com.unity.transport/Runtime/DataStream.cs:880-906 | succeeds exactly when the decode succeeds, gives its value and consumes exactly its bits |
| DataStream.DataStreamReader.DecodeBuffered | com.unity.transport/Runtime/DataStream.cs:885-905 | with the buffer filled, succeeds exactly when the decode succeeds and consumes its bits |
| DataStream.DataStreamReader.ReadPackedInt | com.unity.transport/Runtime/DataStream.cs:931-935 | gives the signed value whose interleaving was decoded |
| DataStream.DataStreamReader.ReadPackedIntDelta | com.unity.transport/Runtime/DataStream.cs:936-941 | gives the baseline minus the decoded signed difference, in 32-bit arithmetic |
| DataStream.DataStreamReader.ReadPackedUIntDelta | com.unity.transport/Runtime/DataStream.cs:942-946 | gives the baseline minus the decoded difference, in unsigned 32-bit arithmetic |
| CompressionModel.OffsetsIncrease | com.unity.transport/Runtime/NetworkCompressionModel.cs:13-16 | the bucket offsets strictly increase |
| CompressionModel.BucketHolds | com.unity.transport/Runtime/NetworkCompressionModel.cs:183-191 | every 32-bit value lies inside the bucket CalculateBucket finds for it |
| CompressionModel.BucketsTile | com.unity.transport/Runtime/NetworkCompressionModel.cs:8-16 | the built-in buckets start at 0, each starts where the previous one ends, and together they cover every 32-bit value |
| CompressionModel.BucketFrom | com.unity.transport/Runtime/NetworkCompressionModel.cs:183-191 | the scan stops at the first bucket whose successor's offset exceeds the value, having passed only offsets at most the value |
| CompressionModel.CalculateBucket | com.unity.transport/Runtime/NetworkCompressionModel.cs:183-191 | the loop finds the bucket the upward scan of the offsets defines |
| CompressionModel.BucketIsLargest | com.unity.transport/Runtime/NetworkCompressionModel.cs:183-191 | with increasing offsets starting at 0, the bucket found is the last one whose offset is at most the value |
| CompressionModel.Reverse32Bit | com.unity.transport/Runtime/NetworkCompressionModel.cs:143-147 | the swap cascade moves bit i of a word to bit 31 - i |
| CompressionModel.ReverseBitsFits | com.unity.transport/Runtime/NetworkCompressionModel.cs:141-149 | only the low num_bits bits of the result can be set |
| CompressionModel.ReverseBitsReverses | com.unity.transport/Runtime/NetworkCompressionModel.cs:141-149 | bit i of the result is bit num_bits - 1 - i of the value |
| CompressionModel.RevIntInjective | com.unity.transport/Runtime/NetworkCompressionModel.cs:141-149 | bit reversal is one-to-one on values of the given width |
| CompressionModel.CountLengthGrows | com.unity.transport/Runtime/NetworkCompressionModel.cs:113-123 | counting the symbols of a length over a longer prefix never gives less, and strictly more when the prefix grows by a symbol of that length |
| CompressionModel.FirstCodeGrows | com.unity.transport/Runtime/NetworkCompressionModel.cs:125-139 | every code word of a later length comes after every code word of an earlier length extended with zero bits |
| CompressionModel.CanonicalCodeFits | com.unity.transport/Runtime/NetworkCompressionModel.cs:125-139 | when the lengths satisfy Kraft's inequality every code word fits in its length |
| CompressionModel.CanonicalPrefixFree | com.unity.transport/Runtime/NetworkCompressionModel.cs:125-139 | no code word is the start of the code word of another symbol at least as long |
| CompressionModel.ReversedCanonicalDisjoint | com.unity.transport/Runtime/NetworkCompressionModel.cs:125-139 | after bit reversal no stored code is the low part of another symbol's stored code, so decoding is unambiguous |
| CompressionModel.FirstTooLong | com.unity.transport/Runtime/NetworkCompressionModel.cs:160-166 | the first symbol whose length exceeds the maximum, every earlier one being within it |
| CompressionModel.GenerateHuffmanCodes | com.unity.transport/Runtime/NetworkCompressionModel.cs:104-139 | succeeds exactly when the alphabet has at most 256 symbols, the maximum length is at most 8 and no symbol is longer; then every symbol with a length gets its canonical code reversed in its length, and a failure leaves the codes untouched |
| CompressionModel.ListSymbolsByLength | com.unity.transport/Runtime/NetworkCompressionModel.cs:113-123 | succeeds exactly when no length exceeds the maximum, and then lists the symbols of each length in increasing order |
| CompressionModel.AssignCodes | com.unity.transport/Runtime/NetworkCompressionModel.cs:125-139 | gives every symbol with a length its canonical code reversed in its length, and leaves symbols of length 0 alone |
| CompressionModel.AssignLength | com.unity.transport/Runtime/NetworkCompressionModel.cs:128-137 | gives each symbol of one length the next code word in turn, and ends at the first code word after that length's words |
| CompressionModel.FirstCodeBound | com.unity.transport/Runtime/NetworkCompressionModel.cs:125-139 | the next code word stays within 32 bits |
| CompressionModel.CoversResidue | com.unity.transport/Runtime/NetworkCompressionModel.cs:169-175 | below the table size the do-while loop writes exactly the entries whose low bits are the code |
| CompressionModel.DecodeEntryFinds | com.unity.transport/Runtime/NetworkCompressionModel.cs:152-177 | with disjoint stored codes, every table entry whose low bits are a symbol's code names that symbol and its length |
| CompressionModel.DecodeEntryShort | com.unity.transport/Runtime/NetworkCompressionModel.cs:152-177 | every table entry holds a length of at most the maximum |
| CompressionModel.WriteDecodeEntries | com.unity.transport/Runtime/NetworkCompressionModel.cs:169-175 | writes the entry at code, code + 2^length and so on below the table size, and nowhere else |
| CompressionModel.GenerateHuffmanDecodeTable | com.unity.transport/Runtime/NetworkCompressionModel.cs:152-177 | succeeds exactly when the alphabet, the maximum length and every symbol length are within bounds; the table holds for each index the last symbol whose code covers it, filled up to the first symbol that is too long |
| CompressionModel.DefaultCanonical | com.unity.transport/Runtime/NetworkCompressionModel.cs:17-19 | the built-in lengths satisfy Kraft's inequality with equality |
| CompressionModel.DefaultCodesGenerated | com.unity.transport/Runtime/NetworkCompressionModel.cs:17-19 | the built-in codes are what the generator stores for the built-in lengths |
| CompressionModel.DefaultCodesReversed | com.unity.transport/Runtime/NetworkCompressionModel.cs:17-19 | the built-in codes are the canonical code words reversed in their lengths, and each fits its length |
| CompressionModel.DefaultClassesDisjoint | com.unity.transport/Runtime/NetworkCompressionModel.cs:17-19 | no built-in code is the low part of another, so the decode table is unambiguous |
| CompressionModel.ReadDefaultLengths | com.unity.transport/Runtime/NetworkCompressionModel.cs:40-58 | reads the sixteen built-in code lengths from the model data |
| CompressionModel.PackEncodeTable | com.unity.transport/Runtime/NetworkCompressionModel.cs:92-95 | each encode table entry is the symbol's code shifted up by eight bits over its length |
| CompressionModel.GenerateDefaultCodes | com.unity.transport/Runtime/NetworkCompressionModel.cs:90 | the generated codes for the built-in lengths are the built-in codes |
| CompressionModel.GenerateDefaultDecodeTable | com.unity.transport/Runtime/NetworkCompressionModel.cs:91 | every decode table entry is the entry of the last symbol whose code covers it |
| CompressionModel.NewModel | com.unity.transport/Runtime/NetworkCompressionModel.cs:30-102 | the constructed model is valid, holds the built-in buckets, and its encode table holds the built-in lengths and codes |
| CompressionModel.DefaultModelValid | com.unity.transport/Runtime/NetworkCompressionModel.cs:30-102 | a model holding the built-in tables maps each six-bit window starting with a code to that code's symbol, which the packed encoding relies on |
| Sqp.BE16Inverse | sampleproject/Assets/Utilities/ServerQueryProtocol/SQP.cs:100-107 | writing a ushort most significant byte first and reading it back are inverse, in both directions |
| Sqp.BE32Inverse | sampleproject/Assets/Utilities/ServerQueryProtocol/SQP.cs:46-52 | writing a uint most significant byte first and reading it back are inverse, in both directions |
| Sqp.DecodeByte | sampleproject/Assets/Utilities/ServerQueryProtocol/SQP.cs:51 | a byte is read exactly when one is left, and the rest follows it |
| Sqp.DecodeU16 | sampleproject/Assets/Utilities/ServerQueryProtocol/SQP.cs:107 | a ushort is read exactly when two bytes are left, and the rest follows them |
| Sqp.DecodeU32 | sampleproject/Assets/Utilities/ServerQueryProtocol/SQP.cs:52 | a uint is read exactly when four bytes are left, and the rest follows them |
| Sqp.HeaderBytes | sampleproject/Assets/Utilities/ServerQueryProtocol/SQP.cs:43-47 | a header takes five bytes |
| Sqp.DecodeHeader | sampleproject/Assets/Utilities/ServerQueryProtocol/SQP.cs:49-53 | a header is read exactly when five bytes are left, and the rest follows them |
| Sqp.HeaderRoundTrip | sampleproject/Assets/Utilities/ServerQueryProtocol/SQP.cs:43-53 | a header written and read back is the same header, whatever follows it |
| Sqp.HeaderBytesDecoded | sampleproject/Assets/Utilities/ServerQueryProtocol/SQP.cs:43-53 | every five bytes read as a header that writes back as the same bytes |
| Sqp.QueryRequestBytes | sampleproject/Assets/Utilities/ServerQueryProtocol/SQP.cs:95-102 | a query request takes eight bytes |
| Sqp.DecodeQueryRequest | sampleproject/Assets/Utilities/ServerQueryProtocol/SQP.cs:104-109 | a query request is read exactly when eight bytes are left |
| Sqp.QueryRequestRoundTrip | sampleproject/Assets/Utilities/ServerQueryProtocol/SQP.cs:95-109 | a query request written and read back is the same request, whatever follows it |
| Sqp.ResponseHeaderBytes | sampleproject/Assets/Utilities/ServerQueryProtocol/SQP.cs:120-128 | a query response header takes eleven bytes |
| Sqp.DecodeResponseHeader | sampleproject/Assets/Utilities/ServerQueryProtocol/SQP.cs:130-137 | a query response header is read exactly when eleven bytes are left |
| Sqp.ResponseHeaderRoundTrip | sampleproject/Assets/Utilities/ServerQueryProtocol/SQP.cs:120-137 | a query response header written and read back is the same header, whatever follows it |
| Sqp.Truncated | sampleproject/Assets/Utilities/ServerQueryProtocol/SQP.cs:167-173 | the encoder keeps at most 255 bytes of a string, and all of a string that fits |
| Sqp.Framed | sampleproject/Assets/Utilities/ServerQueryProtocol/SQP.cs:163-180 | a written string is one length byte and the kept bytes, at most 256 bytes in all |
| Sqp.DecodeString | sampleproject/Assets/Utilities/ServerQueryProtocol/SQP.cs:181-191 | a string is read exactly when its length byte and that many bytes are left, and is at most 255 bytes |
| Sqp.StringRoundTrip | sampleproject/Assets/Utilities/ServerQueryProtocol/SQP.cs:163-191 | a string written and read back is the string cut to 255 bytes, whatever follows it |
| Sqp.Received | sampleproject/Assets/Utilities/ServerQueryProtocol/SQP.cs:163-191 | data whose strings all fit their length bytes is received unchanged |
| Sqp.DataBytes | sampleproject/Assets/Utilities/ServerQueryProtocol/SQP.cs:192-203 | the server data takes between 8 and 1030 bytes |
| Sqp.DataDecoded | sampleproject/Assets/Utilities/ServerQueryProtocol/SQP.cs:205-216 | the data reads as its seven fields read one after the other |
| Sqp.DataRoundTrip | sampleproject/Assets/Utilities/ServerQueryProtocol/SQP.cs:192-216 | the data written and read back is the data with each string cut to 255 bytes, whatever follows it |
| Sqp.InfoBytes | sampleproject/Assets/Utilities/ServerQueryProtocol/SQP.cs:219-234 | a server info message is fifteen bytes of header and chunk length, then the data |
| Sqp.InfoRoundTrip | sampleproject/Assets/Utilities/ServerQueryProtocol/SQP.cs:219-242 | a server info message written and read back is the same message with each string cut to 255 bytes |
| Sqp.NextToken | sampleproject/Assets/Utilities/ServerQueryProtocol/SQP.cs:501-506 | the token holds the thirty random bits above the two random bits |
| Sqp.HeaderToStream | sampleproject/Assets/Utilities/ServerQueryProtocol/SQP.cs:43-47 | the writer's data grows by the header's five bytes exactly when they fit |
| Sqp.ChallangeToStream | sampleproject/Assets/Utilities/ServerQueryProtocol/SQP.cs:60-64 | the header, typed as a challenge, is appended exactly when it fits |
| Sqp.QueryRequestToStream | sampleproject/Assets/Utilities/ServerQueryProtocol/SQP.cs:95-102 | the request, typed as a query, is appended exactly when its eight bytes fit |
| Sqp.ResponseHeaderToStream | sampleproject/Assets/Utilities/ServerQueryProtocol/SQP.cs:120-128 | the header, typed as a query response, is appended exactly when its eleven bytes fit, and the mark points at its length field |
| Sqp.StringToStream | sampleproject/Assets/Utilities/ServerQueryProtocol/SQP.cs:163-180 | the length byte and the kept bytes are appended exactly when they fit |
| Sqp.DataToStream | sampleproject/Assets/Utilities/ServerQueryProtocol/SQP.cs:192-203 | the data's bytes are appended exactly when they fit |
| Sqp.ChunkDistance | sampleproject/Assets/Utilities/ServerQueryProtocol/SQP.cs:227-229 | the unsigned difference of the writer's lengths is the chunk's size |
| Sqp.LengthDistance | sampleproject/Assets/Utilities/ServerQueryProtocol/SQP.cs:223-230 | the 16-bit difference of the writer's lengths is the size after the header |
| Sqp.SizesComputed | sampleproject/Assets/Utilities/ServerQueryProtocol/SQP.cs:223-230 | the chunk length is the data's size and the length field is the data's size plus four |
| Sqp.Described | sampleproject/Assets/Utilities/ServerQueryProtocol/SQP.cs:219-234 | the message as sent is typed as a query response, its length field counts the bytes after the header and its chunk length the bytes of the data |
| Sqp.LengthsUpdated | sampleproject/Assets/Utilities/ServerQueryProtocol/SQP.cs:232-233 | overwriting the two size fields in place gives the message with those two fields |
| Sqp.DraftToStream | sampleproject/Assets/Utilities/ServerQueryProtocol/SQP.cs:221-228 | appends the header, a zero chunk length and the data exactly when they fit, and remembers where both size fields went |
| Sqp.ServerInfoToStream | sampleproject/Assets/Utilities/ServerQueryProtocol/SQP.cs:219-234 | appends the message exactly when it fits, with both size fields matching the bytes written |
| Sqp.ByteFromStream | sampleproject/Assets/Utilities/ServerQueryProtocol/SQP.cs:51 | reads a byte exactly when the decoder does, leaving the reader at the decoder's rest |
| Sqp.U16FromStream | sampleproject/Assets/Utilities/ServerQueryProtocol/SQP.cs:107 | reads a ushort exactly when the decoder does, leaving the reader at the decoder's rest |
| Sqp.U32FromStream | sampleproject/Assets/Utilities/ServerQueryProtocol/SQP.cs:52 | reads a uint exactly when the decoder does, leaving the reader at the decoder's rest |
| Sqp.HeaderFromStream | sampleproject/Assets/Utilities/ServerQueryProtocol/SQP.cs:49-53 | reads a header exactly when the decoder does, leaving the reader at the decoder's rest |
| Sqp.QueryRequestFromStream | sampleproject/Assets/Utilities/ServerQueryProtocol/SQP.cs:104-109 | reads a query request exactly when the decoder does |
| Sqp.ResponseHeaderFromStream | sampleproject/Assets/Utilities/ServerQueryProtocol/SQP.cs:130-137 | reads a query response header exactly when the decoder does |
| Sqp.StringFromStream | sampleproject/Assets/Utilities/ServerQueryProtocol/SQP.cs:181-191 | reads a string exactly when the decoder does |
| Sqp.DataFromStream | sampleproject/Assets/Utilities/ServerQueryProtocol/SQP.cs:205-216 | reads the data exactly when the decoder does |
| Sqp.InfoFromStream | sampleproject/Assets/Utilities/ServerQueryProtocol/SQP.cs:236-242 | reads a server info message exactly when the decoder does |
| Sqp.Served | sampleproject/Assets/Utilities/ServerQueryProtocol/SQP.cs:479-485 | the reply carries the endpoint's token as its challenge id, the stored data, and sizes matching its own bytes |
| Sqp.Handled | sampleproject/Assets/Utilities/ServerQueryProtocol/SQP.cs:426-499 | only the sender's token can change; a reply fits the buffer and either issues or spends the sender's token; the stored info changes only when a reply is sent; a query always leaves the sender without a token |
| Sqp.ChallengeIssuesToken | sampleproject/Assets/Utilities/ServerQueryProtocol/SQP.cs:444-464 | a challenge from an endpoint without a token records a fresh token and replies with it |
| Sqp.RepeatedChallengeIgnored | sampleproject/Assets/Utilities/ServerQueryProtocol/SQP.cs:446 | a challenge from an endpoint that already holds a token changes nothing and gets no reply |
| Sqp.QueryAnswered | sampleproject/Assets/Utilities/ServerQueryProtocol/SQP.cs:465-491 | a server info query from an endpoint holding a token spends it and is answered with the stored info carrying that token |
| Sqp.ServedReadsBack | sampleproject/Assets/Utilities/ServerQueryProtocol/SQP.cs:479-489 | the reply fits the buffer and reads back as the stored info with the token and sizes matching the reply |
| Sqp.ChallengeThenQuery | sampleproject/Assets/Utilities/ServerQueryProtocol/SQP.cs:444-491 | a challenge then a query is answered with the issued token, and the same query again gets nothing |
| Sqp.ChallengeReply | sampleproject/Assets/Utilities/ServerQueryProtocol/SQP.cs:451-457 | the challenge reply reads back as a challenge header carrying the token |
| Sqp.InfoReply | sampleproject/Assets/Utilities/ServerQueryProtocol/SQP.cs:481-487 | the query reply is the served info's bytes and fits the buffer |
| Sqp.SQPServer.constructor | sampleproject/Assets/Utilities/ServerQueryProtocol/SQP.cs:417-424 | a new server has no outstanding tokens and answers with the given data |
| Sqp.SQPServer.Update | sampleproject/Assets/Utilities/ServerQueryProtocol/SQP.cs:426-499 | the new tokens, stored info and reply are those the handling of one datagram defines |

## Left out

- Operating-system I/O:
  - the socket calls in network.bindings.c other than the handle bookkeeping: `network_sendmsg`, `network_recvmsg`, the `setsockopt` helpers, `network_get_socket_address`, `network_get_last_error`;
  - the results of `socket()`, `setsockopt()`, `bind()` and `closesocket()` are parameters of the methods that call them.
- The sockets of the driver and the SQP server:
  - packets the driver sends have no effect in the model;
  - a received datagram is a parameter;
  - an SQP reply is returned rather than sent.
- Clocks and random sources are parameters:
  - the driver's `now`;
  - the driver's random starting session id;
  - the SQP token's random bits;
  - the simulator's drop draw.
- Floating point: the reliability stage's smoothed round-trip time and variance are `real` values, and truncating casts are written out. Rounding of `float` is not modelled.
- Jobs and concurrency:
  - the `Concurrent` driver and pipeline structs and their spin lock;
  - `ScheduleUpdate`'s job chain, beyond its sequential effect on the connection table;
  - the pipeline stage jobs (`UpdateSend`, `UpdateReceive`, `ProcessPipelineSend`, `ProcessReceiveStagesFrom`).
- The pipeline processor's byte buffers: the model hands out the offsets and lengths of the slices, not the bytes.
- NetworkEventQueue.cs is not part of this model. The driver's event queue is a per-connection FIFO of events.
- `ReliableUtility.SetMinimumResendTime` is not modelled. It only stores a value that the model takes as a parameter of `CurrentResendTime`.
- The reliability statistics counters are unbounded integers; their 32-bit wrap-around is not modelled.
- Unity's allocators, `Dispose` methods and the atomic safety handles are left out.
- Strings in SQP are their UTF-8 bytes:
  - the UTF-8 encoder is not part of this model;
  - cutting a string to 255 bytes may split a character that the encoder would keep whole.
- `Sqp.SQPServer.constructor`: the source's server info shares its `Data` object with the `ServerInfoData` property. The model copies the data, so that aliasing is not captured.
- `Sqp.ChallangeToStream`: `ChallangeRequest.ToStream` and `ChallangeResponse.ToStream` write the same bytes, so one member models both.
- `Sqp.Handled`: a datagram shorter than what is read from it makes the source throw. The model sends no reply in that case, and a token already removed stays removed.
- `Sqp.QueryAnswered`: the source does not compare the query's challenge id with the token. The lemma states that behaviour rather than a check the source lacks.
- `MultiQueue.NativeMultiQueue.Enqueue` requires a non-negative bucket. A negative bucket would index outside the source's arrays.
- `NetworkBindings.Bindings.CreateAndBind` requires that the system hands out a handle that is not already open.
- `NetworkLogging.NetworkLogString.constructor` requires text shorter than the 512-character buffer. The source writes past the buffer otherwise.
- `NetworkLogging.NetworkLogString.Append` requires two distinct strings. Appending a string to itself overruns in the source.
- `CompressionModel.GenerateHuffmanCodes`, `CompressionModel.AssignCodes` and `CompressionModel.AssignLength` state the stored codes only for alphabets of fewer than 256 symbols. With 256 symbols the byte-wide length counters can wrap; the model runs the same code there, but it states only success or failure.
- `DataStream.DataStreamWriter.UpdateByte` and the other `Update*` methods state the new data only when the rewritten bytes lie inside the bytes in use. The bytes of the buffer are stated in every case by `UpdateAt`.
- `SnapshotAcks.UpdateThenQuery` and `SnapshotAcks.UpdateShifts` cover only ticks less than 64 ahead of the last acknowledged one. At larger distances the source's 64-bit shift counts are masked, and the window no longer moves by the distance.
- `CommandData.BeforeIsNewest` and `CommandData.OldestIsOldest` assume every stored command has a nonzero tick, as NetCode stamps them.
- `MultiQueue.NativeMultiQueue.constructor` requires an initial capacity of at least 1. With 0, the first `Enqueue` doubles a capacity of 0 forever (Utilities.cs:55-58), so the source never returns.
- The macOS and iOS layout of NetworkEndPoint's address, where the first byte is the length and the second the family, is not modelled. The model uses the layout with a 16-bit family.
- `NetworkLogger.Log<T>`: the message's own formatting callback is not modelled. Only the level filter and the queueing of a ready `NetworkLogString` are.
- `Driver.NetworkDriver.GetConnection`, `Driver.NetworkDriver.GetConnectionState` and `Driver.NetworkDriver.Disconnect` require an id inside the connection list. The source indexes the list directly, which is out of bounds for any other id.
- `GhostDeltaPrediction.EvenTicks` and `GhostDeltaPrediction.LinearMotion` are stated for ticks and values small enough that 32-bit products do not wrap.

## Findings

| source | as written | input that shows it | evidently intended | confidence | as-written member | corrected member |
|---|---|---|---|---|---|---|
| com.unity.transport/Runtime/DataStream.cs:590 | `bitIndex + encodeEntry&0xff + bits + 7` parses as `(bitIndex + encodeEntry) & (0xff + bits + 7)` | packing 0 with the built-in model into an empty writer of capacity 1 holding 7 pending bits: the masked sum is 0, so the check passes, but the 9 bits need 2 bytes | the code length `encodeEntry & 0xff` is masked before the sum | not executed | DataStream.PackedWriteAsWrittenOverruns | DataStream.DataStreamWriter.WritePackedUInt |
| com.unity.transport/Runtime/Pipelines/SimulatorUtility.cs:146 | the scan for delayed packets skips a slot when `(int)delayUntil == 0` | a packet due at 2^32 ms: its slot counts as taken for `GetEmptyDataSlot`, but the scan skips it, so it is never delivered and its slot is never freed | compare the whole `long` with 0, as `GetEmptyDataSlot` does | not executed | SimulatorUtility.AsWrittenScanLosesPacket | SimulatorUtility.GetDelayedPacket |
| com.unity.transport/Runtime/NetworkPipeline.cs:488-498 | `break` leaves only the inner stage loop, so the outer loop always runs to the end | two single-stage pipelines with stage 0 in the first: the search answers with the pipeline count, 2 | stop at the first pipeline containing the stage | not executed | NetworkPipeline.AsWrittenSearchPicksLastPipeline | NetworkPipeline.PipelineProcessor.GetPipelineBuffersOfStage |
| com.unity.transport/Runtime/NetworkEndPoint.cs:110-116 | an octet's digits accumulate in a `uint` that wraps before the `> 255` test | "4294967297.0.0.1" parses as 1.0.0.1 | reject an octet whose decimal value exceeds 255 | not executed | NetworkEndPoints.AsWrittenOctetWraps | NetworkEndPoints.ReadOctet |
| com.unity.transport/Runtime/NetworkLogger.cs:70 | `while (val > maxval)` counts one digit too few for a power of ten | `AppendInt(10)` writes ":" | `val >= maxval` | not executed | NetworkLogging.AsWrittenTen | NetworkLogging.NetworkLogString.AppendInt |
| com.unity.transport/Runtime/NetworkLogger.cs:66-74 | `maxval *= 10` in 32-bit `int` wraps and stays even | `AppendInt(int.MaxValue)`: `maxval` never exceeds it, so the loop never ends | a digit count that does not overflow | not executed | NetworkLogging.AsWrittenNeverStops | NetworkLogging.NetworkLogString.AppendInt |
| com.unity.transport/Runtime/Pipelines/ReliableUtility.cs:273 | buffer2 is copied to `&dataPtr + data.buffer1.Length`, the address of the local pointer variable, not to the slot | a send whose earlier stage wrote a header (buffer1 = [7], buffer2 = [1, 2]) into a fresh slot: the stored packet is [7, 0, 0], and a resend sends that | copy buffer2 to `(byte*)dataPtr + data.buffer1.Length` | not executed | ReliableUtility.AsWrittenResendSendsZeros | ReliableUtility.SetHeaderAndPacket |
| com.unity.transport/Runtime/Pipelines/ReliableUtility.cs:253 | the size check compares the payload alone with `DataStride`, but the payload is copied after the 12-byte header inside the slot | a payload of `DataStride` bytes passes the check and its last 12 bytes land in the next slot, or past the buffer for the last slot | reject a payload larger than `DataStride` minus the header size | not executed | ReliableUtility.AsWrittenSizeCheckOverruns | ReliableUtility.SetHeaderAndPacket |
| com.unity.transport/Runtime/NetworkLogger.cs:67-69 | `val = -val` wraps for int.MinValue, which stays negative | `AppendInt(int.MinValue)` writes "-0" | negate in a wider type, so the full magnitude is written | not executed | NetworkLogging.AsWrittenMinValue | NetworkLogging.NetworkLogString.AppendInt |
