// Wrap-around comparison of 16-bit and 32-bit sequence numbers
// (com.unity.transport/Runtime/Utilities.cs, struct SequenceHelpers).
// The comparisons follow serial number arithmetic, section 3.2 of RFC 1982.

module SequenceHelpers {
  import opened Words

  /** Distance from rhs forward to lhs on the 16-bit circle: 65535 to 0 is 1. */
  function AbsDistance(lhs: ushort, rhs: ushort): (distance: int)
    ensures 0 <= distance < U16
    ensures distance == (lhs - rhs) % U16
    ensures distance == 0 <==> lhs == rhs
  {
    if lhs < rhs then lhs + 0xFFFF + 1 - rhs else lhs - rhs
  }

  /**
   * current is newer than previous when previous - current, computed in 32 bits,
   * is at least 2^31; the same value is never newer than itself.
   */
  function IsNewer(current: uint, previous: uint): (newer: bool)
    ensures newer <==> 1 <= ToU32(current - previous) <= U31
    ensures current == previous ==> !newer
  {
    !(ToU32(previous - current) < U31)
  }

  /** Two sequence numbers exactly 2^31 apart are each newer than the other. */
  lemma IsNewerAntipodes(a: uint)
    ensures IsNewer(a, ToU32(a + U31)) && IsNewer(ToU32(a + U31), a)
  {
  }

  /**
   * lhs is ahead of rhs by 1..0x7FFF, or by exactly 0x8000 when lhs is the
   * numerically smaller of the two.
   */
  function GreaterThan16(lhs: ushort, rhs: ushort): (greater: bool)
    ensures greater <==> (1 <= ToU16(lhs - rhs) <= 0x7FFF || (ToU16(lhs - rhs) == 0x8000 && lhs < rhs))
  {
    (lhs > rhs && lhs - rhs <= 0x7FFF) || (lhs < rhs && rhs - lhs > 0x7FFF)
  }

  function LessThan16(lhs: ushort, rhs: ushort): (less: bool)
    ensures less <==> (1 <= ToU16(rhs - lhs) <= 0x7FFF || (ToU16(rhs - lhs) == 0x8000 && rhs < lhs))
  {
    GreaterThan16(rhs, lhs)
  }

  /** GreaterThan16 is a strict tournament: irreflexive, asymmetric and total on distinct values. */
  lemma GreaterThan16Order(a: ushort, b: ushort)
    ensures !GreaterThan16(a, a)
    ensures GreaterThan16(a, b) ==> !GreaterThan16(b, a)
    ensures a != b ==> GreaterThan16(a, b) || GreaterThan16(b, a)
    ensures LessThan16(a, b) <==> GreaterThan16(b, a)
  {
  }

  /**
   * A packet is stale when it is older than oldSequence - windowSize. For a
   * window below 0x8000: a sequence at most windowSize behind oldSequence
   * (or ahead of it) is never stale, and one 1..0x7FFF further back is.
   */
  function StalePacket(sequence: ushort, oldSequence: ushort, windowSize: ushort): (stale: bool)
    ensures windowSize < 0x8000 && ToU16(oldSequence - sequence) <= windowSize ==> !stale
    ensures windowSize < 0x8000 && windowSize < ToU16(oldSequence - sequence) <= windowSize + 0x7FFF ==> stale
  {
    LessThan16(sequence, ToU16(oldSequence - windowSize))
  }

  /** Distances on the 32-bit circle add up, modulo 2^32. */
  lemma DistanceAdds(tick: uint, last: uint, t: uint)
    ensures var a, b := ToU32(tick - last), ToU32(last - t);
      ToU32(tick - t) == if a + b < U32 then a + b else a + b - U32
  {
    var a, b := ToU32(tick - last), ToU32(last - t);
    ResidueSum32(a - (tick - last), b - (last - t));
    if a + b < U32 {
      U32Residue(tick - t, a + b);
    } else {
      assert (tick - t - (a + b - U32)) % U32 == 0;
      U32Residue(tick - t, a + b - U32);
    }
  }

  /** x is not newer than target exactly when it lies less than 2^31 behind target. */
  lemma NotNewerIsBehind(x: uint, target: uint)
    ensures !IsNewer(x, target) <==> ToU32(target - x) < U31
  {
    DistanceAdds(x, target, x);
  }

  /**
   * Among values less than 2^31 behind a reference, IsNewer is a total order:
   * a is newer than b exactly when a is closer to the reference.
   */
  lemma NewerByDistance(a: uint, b: uint, ref: uint)
    requires ToU32(ref - a) < U31 && ToU32(ref - b) < U31
    ensures IsNewer(a, b) <==> ToU32(ref - a) < ToU32(ref - b)
  {
    DistanceAdds(ref, a, b);
  }

  /** Renders the 32 bits of mask, most significant first, as '0'/'1' characters. */
  method BitMaskToString(mask: uint) returns (s: string)
    ensures |s| == 32
    ensures forall i :: 0 <= i < 32 ==> s[i] == (if Bit(mask, 31 - i) then '1' else '0')
  {
    s := seq(32, _ => '*');
    var m: nat := mask;
    var i := 31;
    while i >= 0
      invariant -1 <= i <= 31
      invariant |s| == 32
      invariant m == mask / Pow2(31 - i)
      invariant forall j :: i < j < 32 ==> s[j] == (if Bit(mask, 31 - j) then '1' else '0')
    {
      s := s[i := if m % 2 != 0 then '1' else '0'];
      DivPow2Step(mask, 31 - i);
      m := m / 2;
      i := i - 1;
    }
  }
}
