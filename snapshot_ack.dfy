// NetCode's record of which snapshots the remote end has acknowledged
// (sampleproject/Assets/NetCode/Connection/NetworkSnapshotAckComponent.cs):
// a window of 256 acknowledgement bits below the newest tick the remote has
// acknowledged, and the remote time stamp behind the round-trip estimate.
// The four 64-bit masks are unsigned words modelled as integers; bit k of a
// mask is Words.Bit(mask, k), `|` is Bits.Or and `<<` is Bits.ShiftLeft.

module SnapshotAcks {
  import opened Words
  import opened Bits
  import opened SequenceHelpers

  /** The four masks: bit d of the window is bit d % 64 of word d / 64 and stands for tick last - d. */
  datatype AckWindow = AckWindow(m0: ulong, m1: ulong, m2: ulong, m3: ulong)
  {
    function Word(i: int): ulong
      requires 0 <= i < 4
    {
      if i == 0 then m0 else if i == 1 then m1 else if i == 2 then m2 else m3
    }
  }

  const EmptyWindow := AckWindow(0, 0, 0, 0)

  /** Tick last - d is acknowledged. */
  predicate Acked(w: AckWindow, d: int)
    requires 0 <= d < 256
  {
    Bit(w.Word(d / 64), d % 64)
  }

  /** (word & (1ul << bit)) != 0: C# masks a ulong shift count to its low six bits. */
  predicate AckBit(word: ulong, bit: int)
  {
    Bit(word, bit % 64)
  }

  lemma Pow2Words()
    ensures Pow2(32) == U32 && Pow2(64) == U64
  {
    Pow2Bytes();
    Pow2Add(32, 32);
  }

  /** a | b on two 64-bit words. */
  function Or64(a: ulong, b: ulong): (r: ulong)
  {
    Pow2Words();
    OrBound(a, b, 64);
    Or(a, b)
  }

  /** hi << s | lo >> (64 - s), both shift counts masked to six bits as C# does. */
  function Join(hi: ulong, lo: ulong, s: int): (r: ulong)
    requires 0 <= s < 64
  {
    Pow2Words();
    Or64(ShiftLeft(hi, s, 64), ShiftRight(lo, (64 - s) % 64))
  }

  /**
   * Shifting the window by s ticks: each word takes its own bits moved up by s
   * and the top s bits of the word below; the new mask is ORed into word 0.
   * Every word is computed from the old words.
   */
  function Shift(w: AckWindow, s: int, mask: uint): (r: AckWindow)
    requires 0 <= s < 64
  {
    Pow2Words();
    AckWindow(Or64(ShiftLeft(w.m0, s, 64), mask), Join(w.m1, w.m0, s), Join(w.m2, w.m1, s), Join(w.m3, w.m2, s))
  }

  /**
   * The remote's acknowledgement of `tick` with `mask` (bit d: tick - d was received).
   * The first acknowledgement only sets word 0; a newer tick shifts the window by
   * the distance, cast to int; an older or repeated tick changes nothing.
   */
  function Updated(last: uint, w: AckWindow, tick: uint, mask: uint): (r: (uint, AckWindow))
    ensures last == 0 ==> r == (tick, w.(m0 := mask))
    ensures last != 0 && !IsNewer(tick, last) ==> r == (last, w)
  {
    if last == 0 then (tick, w.(m0 := mask))
    else if IsNewer(tick, last) then (tick, Shift(w, ToI32(ToU32(tick - last)) % 64, mask))
    else (last, w)
  }

  /** What IsReceivedByRemote answers: tick t is nonzero, within 256 below last, and its bit is set. */
  predicate Known(last: uint, w: AckWindow, t: uint)
  {
    t != 0 && last != 0 && ToU32(last - t) < 256 && Acked(w, ToU32(last - t))
  }

  /** Join with its shift counts unmasked: for s in 1..63 the right shift is by 64 - s. */
  lemma JoinUnmasked(hi: ulong, lo: ulong, s: int)
    requires 1 <= s < 64
    ensures Join(hi, lo, s) == Or(ShiftLeft(hi, s, 64), ShiftRight(lo, 64 - s))
  {
    assert (64 - s) % 64 == 64 - s;
  }

  /** Bit j of lo >> (64 - s) is bit j + 64 - s of lo, which is clear from j = s on. */
  lemma TopBits(lo: ulong, s: int, j: nat)
    requires 1 <= s < 64 && j < 64
    ensures Bit(ShiftRight(lo, 64 - s), j) == (j < s && Bit(lo, j + 64 - s))
  {
    Pow2Words();
    BitOfShiftRight(lo, 64 - s, j);
    if j >= s {
      BitBeyond(lo, 64, j + 64 - s);
    }
  }

  /** One word of a shifted window: bit j comes from bit j - s, or from the top of the word below. */
  lemma JoinBit(hi: ulong, lo: ulong, s: int, j: nat)
    requires 1 <= s < 64 && j < 64
    ensures Bit(Join(hi, lo, s), j) == if j >= s then Bit(hi, j - s) else Bit(lo, j + 64 - s)
  {
    JoinUnmasked(hi, lo, s);
    OrBit(ShiftLeft(hi, s, 64), ShiftRight(lo, 64 - s), j);
    BitOfShiftLeft(hi, s, 64, j);
    TopBits(lo, s, j);
  }

  /** Word 0 of a shifted window: its own bits moved up by s, ORed with the new mask. */
  lemma ShiftedLowBit(w: AckWindow, s: int, mask: uint, j: nat)
    requires 1 <= s < 64 && j < 64
    ensures Bit(Shift(w, s, mask).m0, j) == ((j >= s && Bit(w.m0, j - s)) || Bit(mask, j))
  {
    Pow2Words();
    assert Shift(w, s, mask).m0 == Or(ShiftLeft(w.m0, s, 64), mask);
    OrBit(ShiftLeft(w.m0, s, 64), mask, j);
    BitOfShiftLeft(w.m0, s, 64, j);
  }

  /** Words 1 to 3 of a shifted window: bits from the same word, or from the top of the word below. */
  lemma ShiftedHighBit(w: AckWindow, s: int, mask: uint, i: int, j: nat)
    requires 1 <= s < 64 && 1 <= i < 4 && j < 64
    ensures Bit(Shift(w, s, mask).Word(i), j) == if j >= s then Bit(w.Word(i), j - s) else Bit(w.Word(i - 1), j + 64 - s)
  {
    assert Shift(w, s, mask).Word(i) == Join(w.Word(i), w.Word(i - 1), s);
    JoinBit(w.Word(i), w.Word(i - 1), s, j);
  }

  /** Position d of the window, in word i, is bit d - 64 * i of that word. */
  lemma AckedAt(w: AckWindow, d: int, i: int)
    requires 0 <= i < 4 && 64 * i <= d < 64 * i + 64
    ensures Acked(w, d) == Bit(w.Word(i), d - 64 * i)
  {
    DivUnique(d, 64, i, d - 64 * i);
  }

  /** Positions 0..63: the word's own bits moved up, and the new mask. */
  lemma ShiftedLowAck(w: AckWindow, s: int, mask: uint, d: int)
    requires 1 <= s < 64 && 0 <= d < 64
    ensures Acked(Shift(w, s, mask), d) == ((d >= s && Acked(w, d - s)) || (d < 64 && Bit(mask, d)))
  {
    AckedAt(Shift(w, s, mask), d, 0);
    ShiftedLowBit(w, s, mask, d);
    if d >= s {
      AckedAt(w, d - s, 0);
    }
  }

  /** A position of word i >= 1 that stays in the same word after the shift. */
  lemma ShiftedAckSameWord(w: AckWindow, s: int, mask: uint, d: int, i: int)
    requires 1 <= s < 64 && 1 <= i < 4 && 64 * i + s <= d < 64 * i + 64
    ensures Acked(Shift(w, s, mask), d) == Acked(w, d - s)
  {
    AckedAt(Shift(w, s, mask), d, i);
    ShiftedHighBit(w, s, mask, i, d - 64 * i);
    AckedAt(w, d - s, i);
  }

  /** A position of word i >= 1 that comes from the top of word i - 1. */
  lemma ShiftedAckWordBelow(w: AckWindow, s: int, mask: uint, d: int, i: int)
    requires 1 <= s < 64 && 1 <= i < 4 && 64 * i <= d < 64 * i + s
    ensures Acked(Shift(w, s, mask), d) == Acked(w, d - s)
  {
    AckedAt(Shift(w, s, mask), d, i);
    ShiftedHighBit(w, s, mask, i, d - 64 * i);
    AckedAt(w, d - s, i - 1);
  }

  /**
   * Shifting by s in 1..63 moves every acknowledgement s places up the window
   * (those pushed past 255 are lost) and adds the new mask at the bottom.
   */
  lemma ShiftedBit(w: AckWindow, s: int, mask: uint, d: int)
    requires 1 <= s < 64 && 0 <= d < 256
    ensures Acked(Shift(w, s, mask), d) == ((d >= s && Acked(w, d - s)) || (d < 64 && Bit(mask, d)))
  {
    if d < 64 {
      ShiftedLowAck(w, s, mask, d);
    } else {
      var i := if d < 128 then 1 else if d < 192 then 2 else 3;
      if d >= 64 * i + s {
        ShiftedAckSameWord(w, s, mask, d, i);
      } else {
        ShiftedAckWordBelow(w, s, mask, d, i);
      }
    }
  }

  /** The cast distance, masked to six bits, is the distance modulo 64 (also for 2^31, cast to int.MinValue). */
  lemma ShiftCount(tick: uint, last: uint)
    requires IsNewer(tick, last)
    ensures ToI32(ToU32(tick - last)) % 64 == ToU32(tick - last) % 64
  {
  }

  /**
   * Acknowledging a tick at most 63 ahead of the last one: tick t is known
   * afterwards exactly when the new mask names it, or it was known before
   * and is still within 256 of the new tick.
   */
  lemma UpdateThenQuery(last: uint, w: AckWindow, tick: uint, mask: uint, t: uint)
    requires last != 0 && IsNewer(tick, last) && ToU32(tick - last) < 64
    ensures var (last', w') := Updated(last, w, tick, mask);
      var d := ToU32(tick - t);
      Known(last', w', t) ==
        (tick != 0 && t != 0 && ((d < 64 && Bit(mask, d)) || (Known(last, w, t) && d < 256)))
  {
    var s := ToU32(tick - last);
    UpdateShifts(last, w, tick, mask);
    KnownShifted(last, w, tick, mask, t, s);
  }

  /** A newer tick less than 64 ahead shifts the window by exactly the distance. */
  lemma UpdateShifts(last: uint, w: AckWindow, tick: uint, mask: uint)
    requires last != 0 && IsNewer(tick, last) && ToU32(tick - last) < 64
    ensures 1 <= ToU32(tick - last) && Updated(last, w, tick, mask) == (tick, Shift(w, ToU32(tick - last), mask))
  {
    var s := ToU32(tick - last);
    ShiftCount(tick, last);
    assert ToI32(s) % 64 == s;
    assert Updated(last, w, tick, mask) == (tick, Shift(w, ToI32(s) % 64, mask));
  }

  /** What the window shifted by the distance s from last to tick knows about tick t. */
  lemma KnownShifted(last: uint, w: AckWindow, tick: uint, mask: uint, t: uint, s: int)
    requires last != 0 && s == ToU32(tick - last) && 1 <= s < 64
    ensures var d := ToU32(tick - t);
      Known(tick, Shift(w, s, mask), t) ==
        (tick != 0 && t != 0 && ((d < 64 && Bit(mask, d)) || (Known(last, w, t) && d < 256)))
  {
    var d, d0 := ToU32(tick - t), ToU32(last - t);
    DistanceAdds(tick, last, t);
    if d < 256 {
      ShiftedBit(w, s, mask, d);
      if d >= s {
        assert d0 == d - s;
      } else {
        assert d0 >= 256;
      }
    }
  }

  /** The acknowledgement state of one connection. */
  class NetworkSnapshotAck {
    var lastReceivedSnapshotByRemote: uint
    /** ReceivedSnapshotByRemoteMask0..3 */
    var remoteWindow: AckWindow
    var lastReceivedSnapshotByLocal: uint
    var receivedSnapshotByLocalMask: uint
    var lastReceivedRemoteTime: uint
    var lastReceivedRTT: uint
    var lastReceiveTimestamp: uint

    /** A new component is all zeros: nothing acknowledged yet. */
    constructor ()
      ensures lastReceivedSnapshotByRemote == 0 && remoteWindow == EmptyWindow
      ensures lastReceivedSnapshotByLocal == 0 && receivedSnapshotByLocalMask == 0
      ensures lastReceivedRemoteTime == 0 && lastReceivedRTT == 0 && lastReceiveTimestamp == 0
    {
      lastReceivedSnapshotByRemote, remoteWindow := 0, EmptyWindow;
      lastReceivedSnapshotByLocal, receivedSnapshotByLocalMask := 0, 0;
      lastReceivedRemoteTime, lastReceivedRTT, lastReceiveTimestamp := 0, 0, 0;
    }

    method UpdateReceivedByRemote(tick: uint, mask: uint)
      modifies this`lastReceivedSnapshotByRemote, this`remoteWindow
      ensures (lastReceivedSnapshotByRemote, remoteWindow)
        == Updated(old(lastReceivedSnapshotByRemote), old(remoteWindow), tick, mask)
    {
      if lastReceivedSnapshotByRemote == 0 {
        remoteWindow := remoteWindow.(m0 := mask);
        lastReceivedSnapshotByRemote := tick;
      } else if IsNewer(tick, lastReceivedSnapshotByRemote) {
        var shamt := ToI32(ToU32(tick - lastReceivedSnapshotByRemote));
        remoteWindow := Shift(remoteWindow, shamt % 64, mask);
        lastReceivedSnapshotByRemote := tick;
      }
    }

    /** Whether the remote has acknowledged `tick`: the bit of the right word, for a tick at most 255 old. */
    function IsReceivedByRemote(tick: uint): (r: bool)
      reads this
      ensures r == Known(lastReceivedSnapshotByRemote, remoteWindow, tick)
    {
      var last := lastReceivedSnapshotByRemote;
      if tick == 0 || last == 0 then false
      else if IsNewer(tick, last) then false
      else
        var bit := ToI32(ToU32(last - tick));
        if bit >= 256 then false
        else if bit >= 192 then AckBit(remoteWindow.m3, bit - 192)
        else if bit >= 128 then AckBit(remoteWindow.m2, bit - 128)
        else if bit >= 64 then AckBit(remoteWindow.m1, bit - 64)
        else AckBit(remoteWindow.m0, bit)
    }

    /**
     * A nonzero remote time newer than the last one is recorded with the
     * local time and the round trip localTime - localTimeMinusRTT (32-bit
     * unsigned); anything else is ignored, so the remote time never goes back.
     */
    method UpdateRemoteTime(remoteTime: uint, localTimeMinusRTT: uint, localTime: uint)
      modifies this`lastReceivedRemoteTime, this`lastReceivedRTT, this`lastReceiveTimestamp
      ensures remoteTime != 0 && IsNewer(remoteTime, old(lastReceivedRemoteTime)) ==>
        lastReceivedRemoteTime == remoteTime && lastReceivedRTT == ToU32(localTime - localTimeMinusRTT)
        && lastReceiveTimestamp == localTime
      ensures !(remoteTime != 0 && IsNewer(remoteTime, old(lastReceivedRemoteTime))) ==>
        lastReceivedRemoteTime == old(lastReceivedRemoteTime) && lastReceivedRTT == old(lastReceivedRTT)
        && lastReceiveTimestamp == old(lastReceiveTimestamp)
      ensures lastReceivedRemoteTime == old(lastReceivedRemoteTime)
        || IsNewer(lastReceivedRemoteTime, old(lastReceivedRemoteTime))
    {
      if remoteTime != 0 && IsNewer(remoteTime, lastReceivedRemoteTime) {
        lastReceivedRemoteTime := remoteTime;
        lastReceivedRTT := ToU32(localTime - localTimeMinusRTT);
        lastReceiveTimestamp := localTime;
      }
    }
  }
}
