// NetCode's per-entity command history
// (sampleproject/Assets/NetCode/Command/ICommandData.cs, CommandDataUtility):
// a dynamic buffer of commands stamped with simulation ticks, queried for the
// newest command at or before a tick and written with at most 32 entries kept.
// The payload of a command (its Serialize/Deserialize) is a type parameter.

module CommandData {
  import opened Words
  import opened Wrappers
  import opened SequenceHelpers

  /** The number of commands kept before the oldest is overwritten. */
  const CommandBufferSize := 32

  datatype Command<T> = Command(tick: uint, data: T)

  /**
   * The (index, tick) that GetDataAtTick's scan holds after the entries in s:
   * an entry not newer than target replaces the held one when nothing is held
   * (tick 0) or when it is newer than the held tick.
   */
  function Before<T>(s: seq<Command<T>>, target: uint): (r: (int, uint))
    ensures s == [] ==> r == (0, 0)
    ensures s != [] ==> 0 <= r.0 < |s|
    ensures r.1 != 0 ==> 0 <= r.0 < |s| && s[r.0].tick == r.1 && !IsNewer(r.1, target)
    decreases |s|
  {
    if s == [] then (0, 0)
    else
      var held := Before(s[..|s| - 1], target);
      var tick := s[|s| - 1].tick;
      if !IsNewer(tick, target) && (held.1 == 0 || IsNewer(tick, held.1)) then (|s| - 1, tick) else held
  }

  /** What GetDataAtTick returns for the buffer s: the held entry, or nothing when the held tick is 0. */
  function DataAtTick<T>(s: seq<Command<T>>, target: uint): (r: Option<Command<T>>)
    ensures r.Some? ==> r.value in s && r.value.tick != 0 && !IsNewer(r.value.tick, target)
  {
    var (idx, tick) := Before(s, target);
    if tick == 0 then None else Some(s[idx])
  }

  /** How far tick t lies behind ref on the 32-bit circle. */
  function Age(ref: uint, t: uint): uint
  {
    ToU32(ref - t)
  }

  /** Every tick in s is a real tick (NetCode never stamps a command with tick 0). */
  predicate NonzeroTicks<T>(s: seq<Command<T>>)
  {
    forall i | 0 <= i < |s| :: s[i].tick != 0
  }

  /**
   * With real ticks only, the scan finds a command exactly when some command
   * is not newer than target, and the one it finds is the newest of those:
   * no eligible command lies closer behind target.
   */
  lemma {:induction false} BeforeIsNewest<T>(s: seq<Command<T>>, target: uint)
    requires NonzeroTicks(s)
    ensures Before(s, target).1 == 0 <==> forall i | 0 <= i < |s| :: IsNewer(s[i].tick, target)
    ensures Before(s, target).1 != 0 ==> forall i | 0 <= i < |s| && !IsNewer(s[i].tick, target) ::
      Age(target, Before(s, target).1) <= Age(target, s[i].tick)
    decreases |s|
  {
    if s != [] {
      var p := s[..|s| - 1];
      assert NonzeroTicks(p) by {
        forall i | 0 <= i < |p| ensures p[i].tick != 0 {
          assert p[i] == s[i];
        }
      }
      BeforeIsNewest(p, target);
      var held := Before(p, target);
      var last := s[|s| - 1].tick;
      var r := Before(s, target).1;
      BeforeStep(held.1, last, target, r);
      forall i | 0 <= i < |s| - 1
        ensures s[i] == p[i]
      {
      }
      if r != 0 {
        forall i | 0 <= i < |s| && !IsNewer(s[i].tick, target)
          ensures Age(target, r) <= Age(target, s[i].tick)
        {
          if i < |s| - 1 {
            assert held.1 != 0 && Age(target, held.1) <= Age(target, p[i].tick);
          }
        }
      }
    }
  }

  /** One step of the scan, on ticks alone: the held tick only moves closer behind target. */
  lemma BeforeStep(held: uint, last: uint, target: uint, r: uint)
    requires last != 0 && (held != 0 ==> !IsNewer(held, target))
    requires r == if !IsNewer(last, target) && (held == 0 || IsNewer(last, held)) then last else held
    ensures r == 0 <==> held == 0 && IsNewer(last, target)
    ensures held != 0 ==> Age(target, r) <= Age(target, held)
    ensures r != 0 && !IsNewer(last, target) ==> Age(target, r) <= Age(target, last)
  {
    NotNewerIsBehind(last, target);
    if held != 0 {
      NotNewerIsBehind(held, target);
      if !IsNewer(last, target) {
        NewerByDistance(last, held, target);
      }
    }
  }

  /** The first index holding tick t, or -1 when no entry holds it. */
  function FindTick<T>(s: seq<Command<T>>, t: uint): (r: int)
    ensures -1 <= r < |s|
    ensures r >= 0 ==> s[r].tick == t && forall j | 0 <= j < r :: s[j].tick != t
    ensures r < 0 ==> forall j | 0 <= j < |s| :: s[j].tick != t
    decreases |s|
  {
    if s == [] then -1
    else if s[0].tick == t then 0
    else
      var k := FindTick(s[1..], t);
      if k < 0 then -1 else k + 1
  }

  /**
   * The (index, tick) that AddCommandData's scan holds after the entries in s:
   * an entry replaces the held one when nothing is held or when the held tick
   * is newer than the entry's.
   */
  function Oldest<T>(s: seq<Command<T>>): (r: (int, uint))
    ensures s == [] ==> r == (0, 0)
    ensures s != [] ==> 0 <= r.0 < |s| && s[r.0].tick == r.1
    decreases |s|
  {
    if s == [] then (0, 0)
    else
      var held := Oldest(s[..|s| - 1]);
      var tick := s[|s| - 1].tick;
      if held.1 == 0 || IsNewer(held.1, tick) then (|s| - 1, tick) else held
  }

  /**
   * With real ticks all less than 2^31 behind a reference tick, the scan holds
   * the oldest of them: none lies further behind the reference.
   */
  lemma {:induction false} OldestIsOldest<T>(s: seq<Command<T>>, ref: uint)
    requires NonzeroTicks(s)
    requires forall i | 0 <= i < |s| :: Age(ref, s[i].tick) < U31
    ensures forall i | 0 <= i < |s| :: Age(ref, s[i].tick) <= Age(ref, Oldest(s).1)
    decreases |s|
  {
    if s != [] {
      var p := s[..|s| - 1];
      forall i | 0 <= i < |p|
        ensures p[i] == s[i]
      {
      }
      OldestIsOldest(p, ref);
      var held := Oldest(p);
      var last := s[|s| - 1].tick;
      var r := Oldest(s).1;
      var oldest := Age(ref, r);
      if p != [] {
        OldestStep(held.1, last, ref, r);
      }
      forall i | 0 <= i < |s|
        ensures Age(ref, s[i].tick) <= oldest
      {
        if i < |s| - 1 {
          assert s[i] == p[i];
        }
      }
    }
  }

  /** One step of the oldest scan, on ticks alone: the held tick only moves further behind ref. */
  lemma OldestStep(held: uint, last: uint, ref: uint, r: uint)
    requires Age(ref, held) < U31 && Age(ref, last) < U31 && held != 0
    requires r == if IsNewer(held, last) then last else held
    ensures Age(ref, held) <= Age(ref, r) && Age(ref, last) <= Age(ref, r)
  {
    NewerByDistance(held, last, ref);
  }

  /**
   * AddCommandData's result: the first command with the same tick is replaced;
   * otherwise the command is appended while fewer than 32 are kept, and
   * overwrites the oldest once 32 or more are.
   */
  function Added<T>(s: seq<Command<T>>, c: Command<T>): (r: seq<Command<T>>)
  {
    var k := FindTick(s, c.tick);
    if k >= 0 then s[k := c]
    else if |s| < CommandBufferSize then s + [c]
    else s[Oldest(s).0 := c]
  }

  /** Ticks are pairwise distinct. */
  predicate DistinctTicks<T>(s: seq<Command<T>>)
  {
    forall i, j | 0 <= i < j < |s| :: s[i].tick != s[j].tick
  }

  /**
   * Adding a command stores it, changes at most one other entry, never grows a
   * buffer of 32 or more, keeps ticks distinct and afterwards the command is
   * the only one with its tick.
   */
  lemma AddedStoresCommand<T>(s: seq<Command<T>>, c: Command<T>)
    ensures c in Added(s, c)
    ensures |Added(s, c)| == if FindTick(s, c.tick) < 0 && |s| < CommandBufferSize then |s| + 1 else |s|
    ensures |s| <= CommandBufferSize ==> |Added(s, c)| <= CommandBufferSize
    ensures forall i | 0 <= i < |s| && Added(s, c)[i] != s[i] :: Added(s, c)[i] == c
    ensures DistinctTicks(s) ==> DistinctTicks(Added(s, c))
    ensures DistinctTicks(s) ==> FindTick(Added(s, c), c.tick) >= 0
  {
    var r := Added(s, c);
    var k := FindTick(s, c.tick);
    var w := if k >= 0 then k else if |s| < CommandBufferSize then |s| else Oldest(s).0;
    assert 0 <= w < |r| && r[w] == c;
  }

  /** A command buffer: the DynamicBuffer of one entity's commands. */
  class CommandBuffer<T> {
    var entries: seq<Command<T>>

    constructor ()
      ensures entries == []
    {
      entries := [];
    }

    /**
     * GetDataAtTick: the newest command at or before targetTick (see
     * BeforeIsNewest), or None when the scan ends holding tick 0.
     */
    method GetDataAtTick(targetTick: uint) returns (r: Option<Command<T>>)
      ensures r == DataAtTick(entries, targetTick)
      ensures r.Some? ==> r.value in entries && r.value.tick != 0 && !IsNewer(r.value.tick, targetTick)
    {
      var beforeIdx := 0;
      var beforeTick: uint := 0;
      var i := 0;
      while i < |entries|
        invariant 0 <= i <= |entries|
        invariant (beforeIdx, beforeTick) == Before(entries[..i], targetTick)
      {
        var tick := entries[i].tick;
        assert entries[..i + 1][..i] == entries[..i];
        if !IsNewer(tick, targetTick) && (beforeTick == 0 || IsNewer(tick, beforeTick)) {
          beforeIdx := i;
          beforeTick := tick;
        }
        i := i + 1;
      }
      assert entries[..i] == entries;
      if beforeTick == 0 {
        return None;
      }
      return Some(entries[beforeIdx]);
    }

    /** AddCommandData: replace the command with the same tick, append, or overwrite the oldest. */
    method AddCommandData(commandData: Command<T>)
      modifies this
      ensures entries == Added(old(entries), commandData)
    {
      var targetTick := commandData.tick;
      var oldestIdx := 0;
      var oldestTick: uint := 0;
      var i := 0;
      while i < |entries|
        invariant 0 <= i <= |entries|
        invariant entries == old(entries)
        invariant FindTick(entries, targetTick) < 0 || FindTick(entries, targetTick) >= i
        invariant (oldestIdx, oldestTick) == Oldest(entries[..i])
      {
        var tick := entries[i].tick;
        if tick == targetTick {
          entries := entries[i := commandData];
          return;
        }
        assert entries[..i + 1][..i] == entries[..i];
        if oldestTick == 0 || IsNewer(oldestTick, tick) {
          oldestIdx := i;
          oldestTick := tick;
        }
        i := i + 1;
      }
      assert entries[..i] == entries;
      if |entries| < CommandBufferSize {
        entries := entries + [commandData];
      } else {
        entries := entries[oldestIdx := commandData];
      }
    }
  }
}
