// The reliable sequenced pipeline stage
// (com.unity.transport/Runtime/Pipelines/ReliableSequencedPipelineStage.cs).
//
// On receive the stage delivers packets in sequence order: the next expected
// packet goes straight through, a packet that arrives early is stored in its
// slot, and stored packets are handed out later through pipeline resumes. On
// send it releases acknowledged packets, stamps the payload with a reliable
// header, resends a timed-out packet when there is no payload, or sends a
// bare ack when the remote is owed one.

module ReliableSequenced {
  import opened Wrappers
  import opened Words
  import opened SequenceHelpers
  import opened DataStream
  import opened ReliableUtility

  /** What one call of Send put on the wire. */
  datatype SendKind = Payload | Resend | AckOnly | Nothing

  /**
   * InitializeConnection: sets up the reliability context only when the
   * shared buffer and the two process buffers together are large enough.
   */
  method InitializeConnection(shared: SharedContext, send: ProcessBuffer, recv: ProcessBuffer, windowSize: int)
    returns (initialized: bool)
    requires windowSize >= 1 && send != recv
    modifies shared, send, recv
    ensures initialized <==> shared.length >= SharedCapacityNeeded(windowSize)
                             && send.length + recv.length >= ProcessCapacityNeeded(windowSize) * 2
    ensures initialized ==> shared.Valid() && shared.windowSize == windowSize
                            && shared.sentPackets == SequenceBufferContext(0, NullEntry, 0)
                            && shared.receivedPackets == SequenceBufferContext(NullEntry, 0, 0)
    ensures initialized && send.length == ProcessCapacityNeeded(windowSize) ==>
      send.Valid() && send.resume == NullEntry && send.delivered == NullEntry
    ensures initialized && recv.length == ProcessCapacityNeeded(windowSize) ==>
      recv.Valid() && recv.resume == NullEntry && recv.delivered == NullEntry
    ensures !initialized ==> shared.windowSize == old(shared.windowSize) && send.capacity == old(send.capacity)
                             && recv.capacity == old(recv.capacity)
  {
    initialized := shared.length >= SharedCapacityNeeded(windowSize)
                   && send.length + recv.length >= ProcessCapacityNeeded(windowSize) * 2;
    if initialized {
      var sendResult, recvResult := InitializeContext(shared, send, recv, windowSize);
    }
  }

  /**
   * Receive, with the receive process buffer p. While a resume is pending
   * the inbound buffer is not looked at and the stored packet of the resume
   * sequence is handed out. Otherwise the header is read: an ack updates
   * the send window and yields nothing; a data packet goes to ReceiveData.
   * A packet too short for the header is dropped (the source's bounds check
   * throws).
   */
  method Receive(shared: SharedContext, p: ProcessBuffer, timestamp: int, inbound: seq<byte>)
    returns (slice: Option<seq<byte>>, needsResume: bool, needsSendUpdate: bool)
    requires shared.Valid() && p.Valid() && p.delivered >= NullEntry && p.resume >= NullEntry
    modifies shared, shared.localTimers, shared.remoteTimers, p`resume, p`delivered, p.info, p.slots
    ensures needsSendUpdate && shared.errorCode == 0
    ensures shared.Valid() && shared.Settings() == old(shared.Settings()) && p.Valid()
    ensures p.delivered >= NullEntry && p.resume >= NullEntry
    // a pending resume: the stored packet of the resume sequence
    ensures old(p.resume) != NullEntry ==>
      && shared.receivedPackets == old(shared.receivedPackets) && shared.sentPackets == old(shared.sentPackets)
      && p.info[..] == old(p.info[..]) && p.slots[..] == old(p.slots[..])
      && Resumed(p, old(p.resume), old(p.delivered), slice, needsResume)
    // no header
    ensures old(p.resume) == NullEntry && |inbound| < HeaderSize ==>
      && slice == None && !needsResume && p.resume == NullEntry && p.delivered == old(p.delivered)
      && shared.receivedPackets == old(shared.receivedPackets) && shared.sentPackets == old(shared.sentPackets)
    // an ack
    ensures old(p.resume) == NullEntry && |inbound| >= HeaderSize && DecodeHeader(inbound).packetType == AckPacket ==>
      && slice == None && !needsResume && p.resume == NullEntry && p.delivered == old(p.delivered)
      && shared.sentPackets == AckUpdate(old(shared.sentPackets), DecodeHeader(inbound))
      && shared.receivedPackets == old(shared.receivedPackets)
    // a data packet
    ensures old(p.resume) == NullEntry && |inbound| >= HeaderSize && DecodeHeader(inbound).packetType != AckPacket ==>
      var s := DecodeHeader(inbound).sequenceId;
      && shared.receivedPackets == ReceiveUpdate(old(shared.receivedPackets), shared.windowSize, s)
      && DataOutcome(p, ReadResult(old(shared.receivedPackets), shared.windowSize, s), inbound[HeaderSize..],
                     slice, needsResume, old(p.delivered), shared.receivedPackets.sequence)
  {
    needsResume := false;
    needsSendUpdate := true;
    shared.errorCode := 0;
    if p.resume != NullEntry {
      slice, needsResume := ResumeReceive(shared, p, p.resume, needsResume);
      return;
    }
    if |inbound| < HeaderSize {
      return None, needsResume, needsSendUpdate;
    }
    var header := DecodeHeader(inbound);
    if header.packetType == AckPacket {
      ReadAckPacket(shared, timestamp, header);
      return None, needsResume, needsSendUpdate;
    }
    slice, needsResume := ReceiveData(shared, p, timestamp, header, inbound[HeaderSize..]);
  }

  /**
   * A resumed receive: the packet stored for the resume sequence, if its
   * slot still holds it, which then counts as delivered; the next sequence
   * becomes the resume sequence when it may have arrived too.
   */
  ghost predicate Resumed(p: ProcessBuffer, resume0: int, delivered0: int, slice: Option<seq<byte>>, needsResume: bool)
    reads p, p.info, p.slots
    requires p.Valid() && resume0 >= 0
  {
    && slice == p.Stored(resume0)
    && (slice.Some? ==> p.delivered == resume0)
    && (slice.None? ==> p.delivered == delivered0 && p.resume == NullEntry && !needsResume)
    && (needsResume <==> p.resume != NullEntry)
    && (p.resume != NullEntry ==> p.resume == ToU16(resume0 + 1))
  }

  /**
   * What becomes of a data packet that Read answered with r: nothing when
   * r is an error; delivery when r is the next expected sequence after
   * delivered0; otherwise the packet is stored under r and the packet
   * stored for delivered0 + 1, if any, is handed out instead.
   */
  ghost predicate DataOutcome(p: ProcessBuffer, r: int, payload: seq<byte>, slice: Option<seq<byte>>, needsResume: bool,
                              delivered0: int, latest: int32)
    reads p, p.info, p.slots
    requires p.Valid() && delivered0 >= NullEntry
  {
    && (r < 0 ==> slice == None && !needsResume && p.resume == NullEntry && p.delivered == delivered0)
    && (r >= 0 && r == ToU16(delivered0 + 1) ==>
          && slice == Some(payload) && p.delivered == r
          && (needsResume <==> GreaterThan16(ToU16(latest), r))
          && p.resume == (if needsResume then ToU16(r + 1) else NullEntry))
    && (r >= 0 && r != ToU16(delivered0 + 1) ==>
          && (|payload| <= DataStride ==> p.Stored(r) == Some(payload))
          && slice == p.Stored(delivered0 + 1)
          && (slice.Some? ==> p.delivered == delivered0 + 1)
          && (slice.None? ==> p.delivered == delivered0 && p.resume == NullEntry && !needsResume))
  }

  /**
   * The data-packet half of Receive: Read classifies the header; an
   * accepted packet is delivered when it is the next expected one (asking
   * for a resume when later packets have already arrived), or stored in its
   * slot, after which the packet of the next expected sequence is handed out
   * if it is already there.
   */
  method ReceiveData(shared: SharedContext, p: ProcessBuffer, timestamp: int, header: PacketHeader, payload: seq<byte>)
    returns (slice: Option<seq<byte>>, needsResume: bool)
    requires shared.Valid() && p.Valid() && p.delivered >= NullEntry && p.resume == NullEntry
    modifies shared, shared.localTimers, shared.remoteTimers, p`resume, p`delivered, p.info, p.slots
    ensures shared.Valid() && shared.Settings() == old(shared.Settings()) && shared.errorCode == old(shared.errorCode)
    ensures p.Valid() && p.delivered >= NullEntry && p.resume >= NullEntry
    ensures shared.receivedPackets == ReceiveUpdate(old(shared.receivedPackets), shared.windowSize, header.sequenceId)
    ensures DataOutcome(p, ReadResult(old(shared.receivedPackets), shared.windowSize, header.sequenceId), payload,
                        slice, needsResume, old(p.delivered), shared.receivedPackets.sequence)
  {
    var result := Read(shared, timestamp, header);
    slice, needsResume := None, false;
    if result >= 0 {
      slice, needsResume := Accept(shared, p, result, payload);
    }
  }

  /** An accepted data packet with sequence r: delivered in order, or stored. */
  method Accept(shared: SharedContext, p: ProcessBuffer, r: int, payload: seq<byte>)
    returns (slice: Option<seq<byte>>, needsResume: bool)
    requires shared.Valid() && p.Valid() && p.delivered >= NullEntry && p.resume == NullEntry && 0 <= r < 0x1_0000
    modifies p`resume, p`delivered, p.info, p.slots
    ensures p.Valid() && p.delivered >= NullEntry && p.resume >= NullEntry
    ensures DataOutcome(p, r, payload, slice, needsResume, old(p.delivered), shared.receivedPackets.sequence)
  {
    needsResume := false;
    var nextExpectedSequenceId := ToU16(p.delivered + 1);
    if r == nextExpectedSequenceId {
      p.delivered := r;
      slice := Some(payload);
      needsResume := GreaterThan16(ToU16(shared.receivedPackets.sequence), r);
      if needsResume {
        p.resume := ToU16(r + 1);
      }
    } else {
      var stored := SetPacket(p, r, payload);
      slice, needsResume := ResumeReceive(shared, p, p.delivered + 1, needsResume);
    }
  }

  /** The dummy byte an ack-only packet carries: the first byte of the process buffer, the low byte of its capacity. */
  function DummyPayload(p: ProcessBuffer): (b: seq<byte>)
    reads p
    requires p.capacity >= 0
    ensures |b| == 1
  {
    [p.capacity % 256]
  }

  /**
   * Send, with the send process buffer p and the stage's header writer.
   * Acknowledged packets are released first: walked and walkResume are the
   * table and the resume sequence right after that walk. A payload is
   * stamped by Write and passed on unchanged; with no payload, a pending
   * resume resends the stored packet under a fresh header; failing that, an
   * ack-only packet goes out when the remote is owed one, and nothing is
   * sent otherwise.
   */
  method Send(shared: SharedContext, p: ProcessBuffer, timestamp: int, buffer1: seq<byte>, buffer2: seq<byte>,
              header: DataStreamWriter)
    returns (out1: seq<byte>, out2: seq<byte>, needsResume: bool, needsUpdate: bool,
             kind: SendKind, sentHeader: PacketHeader, sendResult: int,
             ghost walked: seq<PacketInformation>, ghost walkResume: int)
    requires shared.Valid() && p.Valid() && header.Valid() && p.resume >= NullEntry
    requires header.Length() + HeaderSize <= header.buffer.Length
    modifies shared, shared.localTimers, p`resume, p`lastSentTime, p`previousTimestamp, p.info, p.slots, header, header.buffer
    ensures needsUpdate && shared.Valid() && p.Valid() && header.Valid()
    ensures var windowSize := old(shared.windowSize);
      var start := ReleaseStart(windowSize, ToU16(old(shared.sentPackets.acked)));
      && walked == Walk(old(p.info[..]), old(shared.sentPackets), windowSize, start, windowSize)
      && walkResume == WalkResume(old(p.info[..]), old(shared.sentPackets), windowSize, start, windowSize, timestamp,
                                  CurrentResendTime(old(shared.rtt), old(shared.minimumResendTime)), old(p.resume))
    ensures kind == Resend <==> |buffer1| == 0 && walkResume != NullEntry
    ensures kind == AckOnly <==> |buffer1| == 0 && walkResume == NullEntry && old(ShouldSendAck(shared, p))
    ensures kind == Nothing <==> |buffer1| == 0 && walkResume == NullEntry && !old(ShouldSendAck(shared, p))
    ensures kind == AckOnly || kind == Nothing ==> p.info[..] == walked && p.slots[..] == old(p.slots[..])
    ensures kind == Payload ==> forall j :: 0 <= j < |walked| && j != ToU16(old(shared.sentPackets.sequence)) % p.capacity ==>
      p.info[j] == walked[j]
    ensures kind == Resend ==> forall j :: 0 <= j < |walked| && j != ToU16(walkResume) % p.capacity ==>
      p.info[j] == walked[j]
    ensures p.previousTimestamp == timestamp
    ensures p.lastSentTime == if kind == Nothing then old(p.lastSentTime) else timestamp
    ensures kind == Payload <==> |buffer1| > 0
    ensures kind == Payload ==>
      && out1 == buffer1 && out2 == buffer2
      && PayloadSent(p, old(shared.sentPackets), shared.sentPackets, shared.errorCode, old(header.Data()), header.Data(),
                     buffer1 + buffer2, needsResume, sentHeader, sendResult)
    ensures kind == Resend ==>
      && |buffer1| == 0 && out2 == []
      && ResendSent(p, shared.receivedPackets, old(shared.stats.packetsResent), shared.stats.packetsResent,
                    header.Data(), out1, sentHeader, needsResume)
    ensures kind == AckOnly ==>
      && |buffer1| == 0 && out1 == DummyPayload(p) && out2 == buffer2
      && old(shared.receivedPackets.acked) < old(shared.receivedPackets.sequence)
      && AckSent(old(shared.receivedPackets), shared.receivedPackets, old(header.Data()), header.Data(), sentHeader)
      && p.resume == NullEntry && !needsResume
    ensures kind == Nothing ==>
      && out1 == buffer1 && out2 == buffer2 && header.Data() == old(header.Data())
      && p.resume == NullEntry && !needsResume
      && shared.sentPackets == old(shared.sentPackets) && shared.receivedPackets == old(shared.receivedPackets)
  {
    var resume := ReleaseOrResumePackets(shared, p, timestamp);
    walked, walkResume := p.info[..], p.resume;
    out1, out2, needsResume, kind, sentHeader, sendResult := Transmit(shared, p, timestamp, buffer1, buffer2, header, resume);
    needsUpdate := true;
  }

  /** Send after the release walk, with what the walk answered. */
  method Transmit(shared: SharedContext, p: ProcessBuffer, timestamp: int, buffer1: seq<byte>, buffer2: seq<byte>,
                  header: DataStreamWriter, resume: bool)
    returns (out1: seq<byte>, out2: seq<byte>, needsResume: bool,
             kind: SendKind, sentHeader: PacketHeader, sendResult: int)
    requires shared.Valid() && p.Valid() && header.Valid() && p.resume >= NullEntry && (resume <==> p.resume != NullEntry)
    requires header.Length() + HeaderSize <= header.buffer.Length
    modifies shared, shared.localTimers, p`resume, p`lastSentTime, p`previousTimestamp, p.info, p.slots, header, header.buffer
    ensures shared.Valid() && p.Valid() && header.Valid()
    ensures kind == Resend <==> |buffer1| == 0 && old(p.resume) != NullEntry
    ensures kind == AckOnly <==> |buffer1| == 0 && old(p.resume) == NullEntry && old(ShouldSendAck(shared, p))
    ensures kind == Nothing <==> |buffer1| == 0 && old(p.resume) == NullEntry && !old(ShouldSendAck(shared, p))
    ensures kind == AckOnly || kind == Nothing ==> p.info[..] == old(p.info[..]) && p.slots[..] == old(p.slots[..])
    ensures kind == Payload ==> forall j :: 0 <= j < p.capacity && j != ToU16(old(shared.sentPackets.sequence)) % p.capacity ==>
      p.info[j] == old(p.info[j])
    ensures kind == Resend ==> forall j :: 0 <= j < p.capacity && j != ToU16(old(p.resume)) % p.capacity ==>
      p.info[j] == old(p.info[j])
    ensures p.previousTimestamp == timestamp
    ensures p.lastSentTime == if kind == Nothing then old(p.lastSentTime) else timestamp
    ensures kind == Payload <==> |buffer1| > 0
    ensures kind == Payload ==>
      && out1 == buffer1 && out2 == buffer2
      && PayloadSent(p, old(shared.sentPackets), shared.sentPackets, shared.errorCode, old(header.Data()), header.Data(),
                     buffer1 + buffer2, needsResume, sentHeader, sendResult)
    ensures kind == Resend ==>
      && |buffer1| == 0 && out2 == []
      && ResendSent(p, shared.receivedPackets, old(shared.stats.packetsResent), shared.stats.packetsResent,
                    header.Data(), out1, sentHeader, needsResume)
    ensures kind == AckOnly ==>
      && |buffer1| == 0 && out1 == DummyPayload(p) && out2 == buffer2
      && old(shared.receivedPackets.acked) < old(shared.receivedPackets.sequence)
      && AckSent(old(shared.receivedPackets), shared.receivedPackets, old(header.Data()), header.Data(), sentHeader)
      && p.resume == NullEntry && !needsResume
    ensures kind == Nothing ==>
      && out1 == buffer1 && out2 == buffer2 && header.Data() == old(header.Data())
      && p.resume == NullEntry && !needsResume
      && shared.sentPackets == old(shared.sentPackets) && shared.receivedPackets == old(shared.receivedPackets)
  {
    sentHeader := ZeroHeader;
    sendResult := 0;
    needsResume := resume;
    if |buffer1| > 0 {
      needsResume, sentHeader, sendResult := SendPayload(shared, p, timestamp, buffer1, buffer2, header, needsResume);
      return buffer1, buffer2, needsResume, Payload, sentHeader, sendResult;
    }
    if p.resume != NullEntry {
      out1, sentHeader, needsResume := SendResend(shared, p, timestamp, header);
      return out1, [], needsResume, Resend, sentHeader, sendResult;
    }
    if ShouldSendAck(shared, p) {
      sentHeader := SendAck(shared, p, timestamp, header);
      return DummyPayload(p), buffer2, needsResume, AckOnly, sentHeader, sendResult;
    }
    p.previousTimestamp := timestamp;
    return buffer1, buffer2, needsResume, Nothing, sentHeader, sendResult;
  }

  /**
   * A sent payload: its header follows what the writer held; Write either
   * refused it because the slot of the next sequence is still taken, or
   * gave it the next sequence and stored it for resending.
   */
  ghost predicate PayloadSent(p: ProcessBuffer, sent0: SequenceBufferContext, sent: SequenceBufferContext, errorCode: int,
                              data0: seq<byte>, data: seq<byte>, payload: seq<byte>, needsResume: bool,
                              sentHeader: PacketHeader, sendResult: int)
    reads p, p.info, p.slots
    requires p.Valid()
  {
    && data == data0 + EncodeHeader(sentHeader)
    && (needsResume <==> p.resume != NullEntry)
    && (sendResult == OutgoingQueueIsFull || sendResult == ToU16(sent0.sequence))
    && (sendResult == OutgoingQueueIsFull ==> sent == sent0 && errorCode == OutgoingQueueIsFull)
    && (sendResult >= 0 ==>
          && sentHeader.sequenceId == sendResult
          && sent.sequence == ToU16(sent0.sequence + 1)
          && (HeaderSize + |payload| <= DataStride ==> p.Stored(sendResult) == Some(payload)))
  }

  /**
   * A resent packet: the stored payload of the resume sequence under its
   * stored header, refreshed with what has been received, which replaces
   * everything the header writer held.
   */
  ghost predicate ResendSent(p: ProcessBuffer, received: SequenceBufferContext, resent0: int, resent: int,
                             data: seq<byte>, slice: seq<byte>, sentHeader: PacketHeader, needsResume: bool)
    reads p
  {
    && data == EncodeHeader(sentHeader)
    && sentHeader.ackedSequenceId == ToU16(received.sequence)
    && sentHeader.ackMask == received.ackMask
    && resent == resent0 + 1
    && (needsResume <==> p.resume != NullEntry)
  }

  /** An ack-only packet: an ack header after what the writer held, and everything received now counts as acknowledged. */
  ghost predicate AckSent(received0: SequenceBufferContext, received: SequenceBufferContext, data0: seq<byte>, data: seq<byte>,
                          sentHeader: PacketHeader)
  {
    && data == data0 + EncodeHeader(sentHeader)
    && sentHeader.packetType == AckPacket
    && sentHeader.ackedSequenceId == ToU16(received0.sequence)
    && received == received0.(acked := received0.sequence)
  }

  /** The payload branch of Send: Write stamps and stores the packet, and its header goes to the header writer. */
  method SendPayload(shared: SharedContext, p: ProcessBuffer, timestamp: int, buffer1: seq<byte>, buffer2: seq<byte>,
                     header: DataStreamWriter, resumeIn: bool)
    returns (needsResume: bool, sentHeader: PacketHeader, sendResult: int)
    requires shared.Valid() && p.Valid() && header.Valid() && |buffer1| > 0
    requires resumeIn <==> p.resume != NullEntry
    requires header.Length() + HeaderSize <= header.buffer.Length
    modifies shared, shared.localTimers, p`lastSentTime, p`previousTimestamp, p.info, p.slots, header, header.buffer
    ensures shared.Valid() && p.Valid() && header.Valid()
    ensures p.lastSentTime == timestamp && p.previousTimestamp == timestamp
    ensures forall j :: 0 <= j < p.capacity && j != ToU16(old(shared.sentPackets.sequence)) % p.capacity ==>
      p.info[j] == old(p.info[j])
    ensures PayloadSent(p, old(shared.sentPackets), shared.sentPackets, shared.errorCode, old(header.Data()), header.Data(),
                        buffer1 + buffer2, needsResume, sentHeader, sendResult)
  {
    p.lastSentTime := timestamp;
    sendResult, sentHeader := Write(shared, p, buffer1, buffer2, timestamp, ZeroHeader);
    var ok := header.WriteBytes(EncodeHeader(sentHeader));
    needsResume := resumeIn || p.resume != NullEntry;
    p.previousTimestamp := timestamp;
  }

  /** The resend branch of Send: the stored packet of the resume sequence under a fresh header that replaces the writer's contents. */
  method SendResend(shared: SharedContext, p: ProcessBuffer, timestamp: int, header: DataStreamWriter)
    returns (slice: seq<byte>, sentHeader: PacketHeader, needsResume: bool)
    requires shared.Valid() && p.Valid() && header.Valid() && p.resume >= 0
    requires HeaderSize <= header.buffer.Length
    modifies shared, p`resume, p`lastSentTime, p`previousTimestamp, p.info, header, header.buffer
    ensures shared.Valid() && p.Valid() && header.Valid()
    ensures p.lastSentTime == timestamp && p.previousTimestamp == timestamp
    ensures slice == p.slots[ToU16(old(p.resume)) % p.capacity].payload
    ensures forall j :: 0 <= j < p.capacity && j != ToU16(old(p.resume)) % p.capacity ==> p.info[j] == old(p.info[j])
    ensures ResendSent(p, shared.receivedPackets, old(shared.stats.packetsResent), shared.stats.packetsResent,
                       header.Data(), slice, sentHeader, needsResume)
  {
    p.lastSentTime := timestamp;
    slice, sentHeader, needsResume := ResumeSend(shared, p, timestamp);
    header.Clear();
    var ok := header.WriteBytes(EncodeHeader(sentHeader));
    p.previousTimestamp := timestamp;
  }

  /** The ack-only branch of Send: an ack header, which also records what has now been acknowledged. */
  method SendAck(shared: SharedContext, p: ProcessBuffer, timestamp: int, header: DataStreamWriter)
    returns (sentHeader: PacketHeader)
    requires shared.Valid() && header.Valid()
    requires header.Length() + HeaderSize <= header.buffer.Length
    modifies shared, p`lastSentTime, p`previousTimestamp, header, header.buffer
    ensures shared.Valid() && header.Valid()
    ensures p.lastSentTime == timestamp && p.previousTimestamp == timestamp
    ensures shared.sentPackets == old(shared.sentPackets)
    ensures AckSent(old(shared.receivedPackets), shared.receivedPackets, old(header.Data()), header.Data(), sentHeader)
  {
    p.lastSentTime := timestamp;
    sentHeader := WriteAckPacket(shared, timestamp, ZeroHeader);
    var ok := header.WriteBytes(EncodeHeader(sentHeader));
    p.previousTimestamp := timestamp;
  }
}
