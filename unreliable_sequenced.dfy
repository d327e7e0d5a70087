// The unreliable sequenced pipeline stage
// (com.unity.transport/Runtime/Pipelines/UnreliableSequencedPipelineStage.cs).
//
// The sender puts a 16-bit sequence number in front of every packet; the
// receiver delivers a packet only when its number is newer, in the sense of
// GreaterThan16, than the last one it delivered, and drops it otherwise.
// Each direction keeps its counter in the first int of its process buffer.

module UnreliableSequenced {
  import opened Wrappers
  import opened Words
  import opened SequenceHelpers
  import opened DataStream

  /** The stage's header: the sequence number as a ushort. */
  const HeaderSize: int := 2

  /** The int at the start of a process buffer: the next sequence to send, or the last one delivered. */
  class SequenceCounter {
    var value: int32

    /** A zero-filled process buffer. */
    constructor ()
      ensures value == 0
    {
      value := 0;
    }
  }

  /** The sequence number a packet starts with, in host (little-endian) order. */
  function HeaderSequence(packet: seq<byte>): (s: ushort)
    requires |packet| >= HeaderSize
    ensures s % 256 == packet[0] && s / 256 == packet[1]
  {
    Digits2(packet[0], packet[1]);
    packet[0] as int + 256 * packet[1] as int
  }

  /**
   * InitializeConnection: a non-empty receive buffer starts at -1, so that
   * the first sequence sent, 0, is newer than it.
   */
  method InitializeConnection(recv: SequenceCounter, recvLength: int)
    modifies recv
    ensures recv.value == if recvLength > 0 then -1 else old(recv.value)
    ensures recvLength > 0 ==> GreaterThan16(0, ToU16(recv.value))
  {
    if recvLength > 0 {
      recv.value := -1;
    }
  }

  /**
   * Receive: reads the sequence number and delivers the rest of the packet
   * when that number is newer than the last one delivered, which it then
   * records; an older or repeated number yields nothing and changes
   * nothing. A packet too short to hold the header is dropped as well (the
   * source's bounds check throws).
   */
  method Receive(recv: SequenceCounter, inbound: seq<byte>) returns (slice: Option<seq<byte>>, needsResume: bool)
    modifies recv
    ensures !needsResume
    ensures slice.Some? <==> |inbound| >= HeaderSize && GreaterThan16(HeaderSequence(inbound), ToU16(old(recv.value)))
    ensures slice.Some? ==> slice.value == inbound[HeaderSize..] && recv.value == HeaderSequence(inbound)
    ensures slice.None? ==> recv.value == old(recv.value)
  {
    needsResume := false;
    if |inbound| < HeaderSize {
      return None, needsResume;
    }
    var sequenceId := inbound[0] as int + 256 * inbound[1] as int;
    if GreaterThan16(sequenceId, ToU16(recv.value)) {
      recv.value := sequenceId;
      return Some(inbound[HeaderSize..]), needsResume;
    }
    slice := None;
  }

  /**
   * Send: writes the current sequence number into the header and moves the
   * counter on by one, modulo 2^16, whether or not the header had room.
   */
  method Send(send: SequenceCounter, header: DataStreamWriter) returns (needsResume: bool, written: bool)
    requires header.Valid()
    modifies send, header, header.buffer
    ensures !needsResume && header.Valid()
    ensures send.value == ToU16(old(send.value) + 1)
    ensures written <==> old(header.Length()) + HeaderSize <= header.buffer.Length
    ensures written ==> header.Data() == old(header.Data()) + [ToU16(old(send.value)) % 256, ToU16(old(send.value)) / 256]
    ensures !written ==> header.Data() == old(header.Data())
  {
    needsResume := false;
    var mark;
    written, mark := header.WriteUShort(ToU16(send.value));
    send.value := ToU16(send.value + 1);
  }

  // ---------------------------------------------------------------------------
  // The filter over a stream of packets

  /**
   * What a receiver whose last delivered number is last makes of a run of
   * sequence numbers: the numbers it delivers, in order.
   */
  function Delivered(last: ushort, numbers: seq<ushort>): (out: seq<ushort>)
    ensures |out| <= |numbers|
    decreases |numbers|
  {
    if |numbers| == 0 then []
    else if GreaterThan16(numbers[0], last) then [numbers[0]] + Delivered(numbers[0], numbers[1..])
    else Delivered(last, numbers[1..])
  }

  /** The numbers a sender starting at first puts on n packets: first, first + 1, ... modulo 2^16. */
  function Sent(first: ushort, n: nat): (numbers: seq<ushort>)
    ensures |numbers| == n
    ensures forall k :: 0 <= k < n ==> numbers[k] == ToU16(first + k)
    decreases n
  {
    if n == 0 then [] else [first] + Sent(ToU16(first + 1), n - 1)
  }

  /** Each number delivered is newer than the one delivered before it, and the first is newer than last. */
  lemma {:induction false} DeliveredIncreasing(last: ushort, numbers: seq<ushort>)
    ensures var out := Delivered(last, numbers);
      && (|out| > 0 ==> GreaterThan16(out[0], last))
      && forall k :: 0 < k < |out| ==> GreaterThan16(out[k], out[k - 1])
    decreases |numbers|
  {
    if |numbers| > 0 {
      DeliveredIncreasing(if GreaterThan16(numbers[0], last) then numbers[0] else last, numbers[1..]);
    }
  }

  /** A number equal to the last one delivered is never delivered again straight away. */
  lemma RepeatDropped(last: ushort, numbers: seq<ushort>)
    ensures Delivered(last, [last] + numbers) == Delivered(last, numbers)
  {
    GreaterThan16Order(last, last);
    assert ([last] + numbers)[1..] == numbers;
  }

  /** The successor of a number is newer than it. */
  lemma SuccessorNewer(s: ushort)
    ensures GreaterThan16(ToU16(s + 1), s)
  {
  }

  /**
   * Packets that arrive in the order they were sent, to a receiver in step
   * with the sender, are all delivered: a receiver that last saw first - 1
   * delivers every number of the run, across the wrap from 65535 to 0.
   */
  lemma {:induction false} InOrderAllDelivered(first: ushort, n: nat)
    ensures Delivered(ToU16(first - 1), Sent(first, n)) == Sent(first, n)
    decreases n
  {
    if n > 0 {
      var prev := ToU16(first - 1);
      assert first == ToU16(prev as int + 1);
      SuccessorNewer(prev);
      var next := ToU16(first + 1);
      assert ToU16(next as int - 1) == first;
      InOrderAllDelivered(next, n - 1);
    }
  }

  /**
   * The counters of a connection: a receiver freshly initialized to -1
   * delivers the numbers a fresh sender (starting at 0) puts on its first
   * n packets, when they arrive in order.
   */
  lemma FreshConnectionDelivers(n: nat)
    ensures Delivered(ToU16(-1), Sent(0, n)) == Sent(0, n)
  {
    InOrderAllDelivered(0, n);
  }
}
