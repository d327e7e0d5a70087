// Per-connection buffer layout of the pipeline processor
// (com.unity.transport/Runtime/NetworkPipeline.cs).
//
// A pipeline is a run of stage ids in the processor's stage list. Every
// connection owns three byte regions (send, receive, shared state) of the
// same per-connection size; a pipeline occupies a 4-byte aligned block of
// each region, laid out one pipeline after the other, and inside that block
// the stages' buffers follow each other in stage order. The first four bytes
// of every connection's send region hold a spin lock.
//
// The stage collection is modelled by its capacity table, indexed by stage
// id; the byte buffers themselves are not modelled, only the offsets and
// lengths of the slices handed out.

module NetworkPipeline {
  import opened Wrappers
  import opened Connections

  /** CreatePipeline refuses to add a pipeline once this many exist. */
  const MaxPipelines: int := 255
  /** Bytes reserved for the spin lock at the start of each connection's send region. */
  const SpinLockSize: int := 4

  /** The capacities a stage declares for each of its buffers. */
  datatype StageCapacity = StageCapacity(receive: nat, send: nat, header: nat, shared: nat)

  datatype Kind = Receive | Send | Shared | Header

  datatype PipelineImpl = PipelineImpl(
    firstStageIndex: int, numStages: int,
    receiveBufferOffset: int, sendBufferOffset: int, sharedBufferOffset: int, headerCapacity: int)

  /** A request to run one stage of a pipeline again for a connection. */
  datatype UpdatePipeline = UpdatePipeline(pipeline: int, stage: int, connection: NetworkConnection)

  /** Offsets and lengths of the three slices GetPipelineBuffers hands out. */
  datatype StageBuffers = StageBuffers(
    receiveOffset: int, receiveLength: int,
    sendOffset: int, sendLength: int,
    sharedOffset: int, sharedLength: int)

  // ---------------------------------------------------------------------------
  // Capacities and the layout

  /** The capacity of one buffer kind of a stage; an unknown id has none. */
  function StageCap(caps: seq<StageCapacity>, id: int, k: Kind): nat
  {
    if 0 <= id < |caps| then
      match k
      case Receive => caps[id].receive
      case Send => caps[id].send
      case Shared => caps[id].shared
      case Header => caps[id].header
    else 0
  }

  /** The summed capacity of a run of stages. */
  function Total(caps: seq<StageCapacity>, ids: seq<int>, k: Kind): nat
  {
    if |ids| == 0 then 0 else Total(caps, ids[..|ids| - 1], k) + StageCap(caps, ids[|ids| - 1], k)
  }

  lemma {:induction false} TotalPrefix(caps: seq<StageCapacity>, ids: seq<int>, j: nat, k: Kind)
    requires j < |ids|
    ensures Total(caps, ids[..j], k) + StageCap(caps, ids[j], k) <= Total(caps, ids, k)
  {
    if j + 1 < |ids| {
      TotalPrefix(caps, ids[..|ids| - 1], j, k);
      assert ids[..|ids| - 1][..j] == ids[..j];
    } else {
      assert ids[..|ids| - 1] == ids[..j];
    }
  }

  /** Rounds a capacity up to a multiple of 4, as `(x + 3) & ~3` does for x >= 0. */
  function AlignUp4(x: nat): (r: nat)
    ensures r % 4 == 0 && x <= r < x + 4
  {
    (x + 3) - (x + 3) % 4
  }

  /** AlignUp4 gives the least multiple of 4 that is at least x. */
  lemma AlignUp4Least(x: nat, m: nat)
    requires m % 4 == 0 && x <= m
    ensures AlignUp4(x) <= m
  {
  }

  /** Where the first pipeline's block of a region starts. */
  function RegionStart(k: Kind): nat
  {
    if k == Send then SpinLockSize else 0
  }

  function Offset(p: PipelineImpl, k: Kind): int
  {
    match k
    case Receive => p.receiveBufferOffset
    case Send => p.sendBufferOffset
    case Shared => p.sharedBufferOffset
    case Header => 0
  }

  predicate InList(p: PipelineImpl, n: int)
  {
    0 <= p.firstStageIndex && 0 <= p.numStages && p.firstStageIndex + p.numStages <= n
  }

  function StagesOf(list: seq<int>, p: PipelineImpl): seq<int>
    requires InList(p, |list|)
  {
    list[p.firstStageIndex..p.firstStageIndex + p.numStages]
  }

  /** The aligned size of a pipeline's block of region k. */
  function BlockSize(caps: seq<StageCapacity>, list: seq<int>, p: PipelineImpl, k: Kind): nat
    requires InList(p, |list|)
  {
    AlignUp4(Total(caps, StagesOf(list, p), k))
  }

  /**
   * The pipelines' blocks of region k tile [start, end): each block starts
   * where the previous one ends.
   */
  ghost predicate Tiled(caps: seq<StageCapacity>, list: seq<int>, ps: seq<PipelineImpl>, k: Kind, start: int, end: int)
  {
    if |ps| == 0 then start == end
    else
      var p := ps[|ps| - 1];
      InList(p, |list|)
      && Tiled(caps, list, ps[..|ps| - 1], k, start, Offset(p, k))
      && Offset(p, k) + BlockSize(caps, list, p, k) == end
  }

  lemma {:induction false} TiledExtend(caps: seq<StageCapacity>, list: seq<int>, more: seq<int>, ps: seq<PipelineImpl>, k: Kind, start: int, end: int)
    requires Tiled(caps, list, ps, k, start, end)
    ensures Tiled(caps, list + more, ps, k, start, end)
  {
    if |ps| > 0 {
      var p := ps[|ps| - 1];
      TiledExtend(caps, list, more, ps[..|ps| - 1], k, start, Offset(p, k));
      assert StagesOf(list + more, p) == StagesOf(list, p);
    }
  }

  /** A block placed where a tiled region ends extends the region by the block's size. */
  lemma TiledAppend(caps: seq<StageCapacity>, list: seq<int>, ps: seq<PipelineImpl>, p: PipelineImpl, k: Kind, start: int, end: int)
    requires Tiled(caps, list, ps, k, start, end)
    requires InList(p, |list|) && Offset(p, k) == end
    ensures Tiled(caps, list, ps + [p], k, start, end + BlockSize(caps, list, p, k))
  {
    assert (ps + [p])[..|ps|] == ps;
  }

  /** Every block of a tiled region lies between its start and end. */
  lemma {:induction false} TiledBlockInside(caps: seq<StageCapacity>, list: seq<int>, ps: seq<PipelineImpl>, k: Kind, start: int, end: int, i: nat)
    requires Tiled(caps, list, ps, k, start, end)
    requires i < |ps|
    ensures InList(ps[i], |list|)
    ensures start <= Offset(ps[i], k)
    ensures Offset(ps[i], k) + BlockSize(caps, list, ps[i], k) <= end
  {
    var p := ps[|ps| - 1];
    TiledStartBelow(caps, list, ps[..|ps| - 1], k, start, Offset(p, k));
    if i < |ps| - 1 {
      TiledBlockInside(caps, list, ps[..|ps| - 1], k, start, Offset(p, k), i);
    }
  }

  lemma {:induction false} TiledStartBelow(caps: seq<StageCapacity>, list: seq<int>, ps: seq<PipelineImpl>, k: Kind, start: int, end: int)
    requires Tiled(caps, list, ps, k, start, end)
    ensures start <= end
  {
    if |ps| > 0 {
      TiledStartBelow(caps, list, ps[..|ps| - 1], k, start, Offset(ps[|ps| - 1], k));
    }
  }

  /** Index of the first occurrence of x in s. */
  function IndexOf(s: seq<int>, x: int): (r: nat)
    requires x in s
    ensures r < |s| && s[r] == x
    ensures forall i | 0 <= i < r :: s[i] != x
  {
    if s[0] == x then 0 else 1 + IndexOf(s[1..], x)
  }

  /** The buffers of stage j (an index into the pipeline's stages) for a connection. */
  function BuffersAt(caps: seq<StageCapacity>, list: seq<int>, p: PipelineImpl, j: nat,
                     receiveSize: int, sendSize: int, sharedSize: int, connectionId: int): StageBuffers
    requires InList(p, |list|) && j < p.numStages
  {
    var stages := StagesOf(list, p);
    StageBuffers(
      p.receiveBufferOffset + receiveSize * connectionId + Total(caps, stages[..j], Receive),
      StageCap(caps, stages[j], Receive),
      p.sendBufferOffset + sendSize * connectionId + Total(caps, stages[..j], Send),
      StageCap(caps, stages[j], Send),
      p.sharedBufferOffset + sharedSize * connectionId + Total(caps, stages[..j], Shared),
      StageCap(caps, stages[j], Shared))
  }

  /**
   * In a tiled region of per-connection size `size`, the buffer of any stage
   * of any pipeline for connection c lies inside connection c's part
   * [size * c, size * (c + 1)) of the region.
   */
  lemma StageBufferInsideConnection(caps: seq<StageCapacity>, list: seq<int>, ps: seq<PipelineImpl>, k: Kind,
                                    size: int, i: nat, j: nat, c: int)
    requires k != Header
    requires Tiled(caps, list, ps, k, RegionStart(k), size)
    requires i < |ps| && InList(ps[i], |list|) && j < ps[i].numStages
    ensures size * c <= Offset(ps[i], k) + size * c + Total(caps, StagesOf(list, ps[i])[..j], k)
    ensures Offset(ps[i], k) + size * c + Total(caps, StagesOf(list, ps[i])[..j], k)
            + StageCap(caps, StagesOf(list, ps[i])[j], k) <= size * (c + 1)
  {
    TiledBlockInside(caps, list, ps, k, RegionStart(k), size, i);
    TotalPrefix(caps, StagesOf(list, ps[i]), j, k);
    assert size * (c + 1) == size * c + size;
  }

  // ---------------------------------------------------------------------------
  // Update requests

  predicate Unique(us: seq<UpdatePipeline>)
  {
    forall i, j | 0 <= i < j < |us| :: us[i] != us[j]
  }

  /**
   * AddSendUpdate, and the same scan ProcessReceiveStagesFrom does before
   * queueing a receive update: the request is appended unless an entry with
   * the same stage, pipeline and connection is already there.
   */
  method AddUpdate(updates: seq<UpdatePipeline>, u: UpdatePipeline) returns (r: seq<UpdatePipeline>)
    ensures u in updates ==> r == updates
    ensures u !in updates ==> r == updates + [u]
    ensures u in r
    ensures Unique(updates) ==> Unique(r)
  {
    var uniqueItem := true;
    var j := 0;
    while j < |updates|
      invariant 0 <= j <= |updates|
      invariant uniqueItem <==> u !in updates[..j]
    {
      if updates[j].stage == u.stage && updates[j].pipeline == u.pipeline && updates[j].connection == u.connection {
        uniqueItem := false;
      }
      assert updates[..j + 1] == updates[..j] + [updates[j]];
      j := j + 1;
    }
    assert updates[..j] == updates;
    r := updates;
    if uniqueItem {
      r := updates + [u];
    }
  }

  // ---------------------------------------------------------------------------
  // The processor

  class PipelineProcessor {
    /** The stage collection's capacity table, indexed by stage id. */
    const capacities: seq<StageCapacity>
    var stageList: seq<int>
    var pipelines: seq<PipelineImpl>
    /** Per-connection size of the send, receive and shared regions. */
    const sizePerConnection: array<int>
    var receiveStageNeedsUpdate: seq<UpdatePipeline>

    ghost predicate Valid()
      reads this, sizePerConnection
    {
      sizePerConnection.Length == 3
      && (forall i | 0 <= i < |stageList| :: 0 <= stageList[i] < |capacities|)
      && (forall k | 0 <= k < |pipelines| :: InList(pipelines[k], |stageList|))
      && Tiled(capacities, stageList, pipelines, Send, RegionStart(Send), sizePerConnection[0])
      && Tiled(capacities, stageList, pipelines, Receive, RegionStart(Receive), sizePerConnection[1])
      && Tiled(capacities, stageList, pipelines, Shared, RegionStart(Shared), sizePerConnection[2])
    }

    constructor (caps: seq<StageCapacity>)
      ensures Valid() && fresh(sizePerConnection)
      ensures capacities == caps && stageList == [] && pipelines == [] && receiveStageNeedsUpdate == []
      ensures sizePerConnection[..] == [SpinLockSize, 0, 0]
    {
      capacities := caps;
      stageList := [];
      pipelines := [];
      receiveStageNeedsUpdate := [];
      var sizes := new int[3];
      sizes[0], sizes[1], sizes[2] := SpinLockSize, 0, 0;
      sizePerConnection := sizes;
    }

    /**
     * The loop of CreatePipeline: appends the stage ids to the stage list,
     * summing their capacities, and stops at the first unknown stage (-1).
     */
    method AppendStages(stageIds: seq<int>) returns (ok: bool, receiveCap: nat, sendCap: nat, sharedCap: nat, headerCap: nat)
      requires Valid()
      requires forall i | 0 <= i < |stageIds| :: -1 <= stageIds[i] < |capacities|
      modifies this`stageList
      ensures Valid()
      ensures ok <==> -1 !in stageIds
      ensures !ok ==> stageList == old(stageList) + stageIds[..IndexOf(stageIds, -1)]
      ensures ok ==> stageList == old(stageList) + stageIds
      ensures ok ==> receiveCap == Total(capacities, stageIds, Receive) && sendCap == Total(capacities, stageIds, Send)
                     && sharedCap == Total(capacities, stageIds, Shared) && headerCap == Total(capacities, stageIds, Header)
    {
      receiveCap, sharedCap, sendCap, headerCap := 0, 0, 0, 0;
      var i := 0;
      while i < |stageIds|
        invariant 0 <= i <= |stageIds|
        invariant -1 !in stageIds[..i]
        invariant stageList == old(stageList) + stageIds[..i]
        invariant Valid()
        invariant receiveCap == Total(capacities, stageIds[..i], Receive)
        invariant sendCap == Total(capacities, stageIds[..i], Send)
        invariant sharedCap == Total(capacities, stageIds[..i], Shared)
        invariant headerCap == Total(capacities, stageIds[..i], Header)
      {
        var stageId := stageIds[i];
        if stageId < 0 {
          assert stageIds[i] == -1 && IndexOf(stageIds, -1) == i;
          return false, receiveCap, sendCap, sharedCap, headerCap;
        }
        AppendStage(stageId);
        assert stageIds[..i + 1][..i] == stageIds[..i];
        receiveCap := receiveCap + StageCap(capacities, stageId, Receive);
        sendCap := sendCap + StageCap(capacities, stageId, Send);
        headerCap := headerCap + StageCap(capacities, stageId, Header);
        sharedCap := sharedCap + StageCap(capacities, stageId, Shared);
        assert stageIds[..i] + [stageIds[i]] == stageIds[..i + 1];
        i := i + 1;
      }
      assert stageIds[..i] == stageIds;
      ok := true;
    }

    method AppendStage(stageId: int)
      requires Valid() && 0 <= stageId < |capacities|
      modifies this`stageList
      ensures Valid()
      ensures stageList == old(stageList) + [stageId]
    {
      TiledExtend(capacities, stageList, [stageId], pipelines, Send, RegionStart(Send), sizePerConnection[0]);
      TiledExtend(capacities, stageList, [stageId], pipelines, Receive, RegionStart(Receive), sizePerConnection[1]);
      TiledExtend(capacities, stageList, [stageId], pipelines, Shared, RegionStart(Shared), sizePerConnection[2]);
      stageList := stageList + [stageId];
    }

    /**
     * The tail of CreatePipeline: lays out the block of the pipeline whose
     * stages are the last n of the stage list after the existing blocks,
     * growing the per-connection sizes by its aligned capacities.
     */
    method AddPipeline(n: nat, receiveCap: nat, sendCap: nat, sharedCap: nat, headerCap: nat)
      requires Valid() && n <= |stageList|
      requires receiveCap == Total(capacities, stageList[|stageList| - n..], Receive)
      requires sendCap == Total(capacities, stageList[|stageList| - n..], Send)
      requires sharedCap == Total(capacities, stageList[|stageList| - n..], Shared)
      modifies this`pipelines, sizePerConnection
      ensures Valid()
      ensures pipelines == old(pipelines) + [PipelineImpl(
             |stageList| - n, n,
             old(sizePerConnection[1]), old(sizePerConnection[0]), old(sizePerConnection[2]), headerCap)]
      ensures sizePerConnection[0] == old(sizePerConnection[0]) + AlignUp4(sendCap)
      ensures sizePerConnection[1] == old(sizePerConnection[1]) + AlignUp4(receiveCap)
      ensures sizePerConnection[2] == old(sizePerConnection[2]) + AlignUp4(sharedCap)
    {
      var p := PipelineImpl(|stageList| - n, n, sizePerConnection[1], sizePerConnection[0], sizePerConnection[2], headerCap);
      assert StagesOf(stageList, p) == stageList[|stageList| - n..];
      var send := sizePerConnection[0] + AlignUp4(sendCap);
      var receive := sizePerConnection[1] + AlignUp4(receiveCap);
      var shared := sizePerConnection[2] + AlignUp4(sharedCap);
      assert send == sizePerConnection[0] + BlockSize(capacities, stageList, p, Send);
      assert receive == sizePerConnection[1] + BlockSize(capacities, stageList, p, Receive);
      assert shared == sizePerConnection[2] + BlockSize(capacities, stageList, p, Shared);
      TiledAppend(capacities, stageList, pipelines, p, Send, RegionStart(Send), sizePerConnection[0]);
      TiledAppend(capacities, stageList, pipelines, p, Receive, RegionStart(Receive), sizePerConnection[1]);
      TiledAppend(capacities, stageList, pipelines, p, Shared, RegionStart(Shared), sizePerConnection[2]);
      var ps := pipelines + [p];
      assert forall k | 0 <= k < |ps| :: InList(ps[k], |stageList|);
      sizePerConnection[0], sizePerConnection[1], sizePerConnection[2] := send, receive, shared;
      pipelines := ps;
    }

    /**
     * Appends the stages to the stage list and lays out a new pipeline after
     * the existing ones. Stage ids are as the stage collection resolved them
     * (-1 for a type it does not know). Fails with more than 255 pipelines,
     * or at the first unknown stage, keeping the stages appended before it.
     * Returns the new pipeline count, which is the pipeline's 1-based Id.
     */
    method CreatePipeline(stageIds: seq<int>) returns (r: Result<int>)
      requires Valid()
      requires forall i | 0 <= i < |stageIds| :: -1 <= stageIds[i] < |capacities|
      modifies this`stageList, this`pipelines, sizePerConnection
      ensures Valid()
      ensures r.Ok? <==> |old(pipelines)| <= MaxPipelines && -1 !in stageIds
      ensures |old(pipelines)| > MaxPipelines ==>
        stageList == old(stageList) && pipelines == old(pipelines) && sizePerConnection[..] == old(sizePerConnection[..])
      ensures |old(pipelines)| <= MaxPipelines && -1 in stageIds ==>
        stageList == old(stageList) + stageIds[..IndexOf(stageIds, -1)]
        && pipelines == old(pipelines) && sizePerConnection[..] == old(sizePerConnection[..])
      ensures r.Ok? ==>
        && r.value == |pipelines| == |old(pipelines)| + 1
        && stageList == old(stageList) + stageIds
        && pipelines == old(pipelines) + [PipelineImpl(
             |old(stageList)|, |stageIds|,
             old(sizePerConnection[1]), old(sizePerConnection[0]), old(sizePerConnection[2]),
             Total(capacities, stageIds, Header))]
        && sizePerConnection[0] == old(sizePerConnection[0]) + AlignUp4(Total(capacities, stageIds, Send))
        && sizePerConnection[1] == old(sizePerConnection[1]) + AlignUp4(Total(capacities, stageIds, Receive))
        && sizePerConnection[2] == old(sizePerConnection[2]) + AlignUp4(Total(capacities, stageIds, Shared))
    {
      if |pipelines| > MaxPipelines {
        return Fail("Cannot create more than 255 pipelines on a single driver");
      }
      var ok, receiveCap, sendCap, sharedCap, headerCap := AppendStages(stageIds);
      if !ok {
        return Fail("Trying to create pipeline with invalid stage");
      }
      assert stageList[|stageList| - |stageIds|..] == stageIds;
      AddPipeline(|stageIds|, receiveCap, sendCap, sharedCap, headerCap);
      r := Ok(|pipelines|);
    }

    /**
     * The slices of stage `stageId` of pipeline `pipelineId` for a
     * connection: each starts at the pipeline's block for that connection
     * plus the capacities of the stages before the first occurrence of the
     * stage. Fails for an Id that names no pipeline and for a stage the
     * pipeline does not have.
     */
    method GetPipelineBuffers(pipelineId: int, stageId: int, connection: NetworkConnection) returns (r: Result<StageBuffers>)
      requires Valid()
      ensures r.Ok? <==> 1 <= pipelineId <= |pipelines| && stageId in StagesOf(stageList, pipelines[pipelineId - 1])
      ensures r.Ok? ==>
        r.value == BuffersAt(capacities, stageList, pipelines[pipelineId - 1],
                             IndexOf(StagesOf(stageList, pipelines[pipelineId - 1]), stageId),
                             sizePerConnection[1], sizePerConnection[0], sizePerConnection[2], connection.InternalId())
    {
      if !(1 <= pipelineId <= |pipelines|) {
        return Fail("Index out of range");
      }
      var pipeline := pipelines[pipelineId - 1];
      var stages := StagesOf(stageList, pipeline);
      var c := connection.InternalId();
      var recvBufferOffset := pipeline.receiveBufferOffset + sizePerConnection[1] * c;
      var sendBufferOffset := pipeline.sendBufferOffset + sizePerConnection[0] * c;
      var sharedBufferOffset := pipeline.sharedBufferOffset + sizePerConnection[2] * c;
      var j := 0;
      while j < pipeline.numStages
        invariant 0 <= j <= pipeline.numStages
        invariant stageId !in stages[..j]
        invariant recvBufferOffset == pipeline.receiveBufferOffset + sizePerConnection[1] * c + Total(capacities, stages[..j], Receive)
        invariant sendBufferOffset == pipeline.sendBufferOffset + sizePerConnection[0] * c + Total(capacities, stages[..j], Send)
        invariant sharedBufferOffset == pipeline.sharedBufferOffset + sizePerConnection[2] * c + Total(capacities, stages[..j], Shared)
      {
        var id := stageList[pipeline.firstStageIndex + j];
        assert id == stages[j];
        if id == stageId {
          assert IndexOf(stages, stageId) == j;
          var sendLength := StageCap(capacities, id, Send);
          var recvLength := StageCap(capacities, id, Receive);
          var sharedLength := StageCap(capacities, id, Shared);
          return Ok(StageBuffers(recvBufferOffset, recvLength, sendBufferOffset, sendLength, sharedBufferOffset, sharedLength));
        }
        assert stages[..j + 1][..j] == stages[..j];
        sendBufferOffset := sendBufferOffset + StageCap(capacities, id, Send);
        recvBufferOffset := recvBufferOffset + StageCap(capacities, id, Receive);
        sharedBufferOffset := sharedBufferOffset + StageCap(capacities, id, Shared);
        j := j + 1;
      }
      assert stages[..j] == stages;
      r := Fail("Could not find stage ID");
    }

    /**
     * The pipeline Id that GetPipelineBuffers(Type) computes, as written: the
     * `break` leaves only the inner loop, so the outer loop always runs to
     * the end and the Id is the pipeline count whatever the stage.
     */
    method PipelineIdOfStageAsWritten(stageId: int) returns (id: int)
      requires Valid()
      ensures id == |pipelines|
    {
      id := 0;
      while id < |pipelines|
        invariant 0 <= id <= |pipelines|
      {
        var impl := pipelines[id];
        var s := impl.firstStageIndex;
        while s < impl.firstStageIndex + impl.numStages
          invariant impl.firstStageIndex <= s <= impl.firstStageIndex + impl.numStages
        {
          if stageList[s] == stageId {
            break;
          }
          s := s + 1;
        }
        id := id + 1;
      }
    }

    /**
     * The evidently intended pipeline search: the 1-based Id of the first
     * pipeline that has the stage, or 0 when none has it.
     */
    method PipelineIdOfStage(stageId: int) returns (id: int)
      requires Valid()
      ensures 0 <= id <= |pipelines|
      ensures id == 0 <==> forall k | 0 <= k < |pipelines| :: stageId !in StagesOf(stageList, pipelines[k])
      ensures id > 0 ==> stageId in StagesOf(stageList, pipelines[id - 1])
      ensures id > 0 ==> forall k | 0 <= k < id - 1 :: stageId !in StagesOf(stageList, pipelines[k])
    {
      var k := 0;
      while k < |pipelines|
        invariant 0 <= k <= |pipelines|
        invariant forall q | 0 <= q < k :: stageId !in StagesOf(stageList, pipelines[q])
      {
        var impl := pipelines[k];
        var stages := StagesOf(stageList, impl);
        var s := 0;
        while s < impl.numStages
          invariant 0 <= s <= impl.numStages
          invariant stageId !in stages[..s]
        {
          if stageList[impl.firstStageIndex + s] == stageId {
            assert stages[s] == stageId;
            return k + 1;
          }
          assert stages[..s + 1] == stages[..s] + [stages[s]];
          s := s + 1;
        }
        assert stages[..s] == stages;
        k := k + 1;
      }
      id := 0;
    }

    /** GetPipelineBuffers(Type) with the intended search: the buffers of the stage in the first pipeline that has it. */
    method GetPipelineBuffersOfStage(stageId: int, connection: NetworkConnection) returns (r: Result<StageBuffers>)
      requires Valid()
      ensures r.Ok? <==> exists k | 0 <= k < |pipelines| :: stageId in StagesOf(stageList, pipelines[k])
      ensures r.Ok? ==> exists k | 0 <= k < |pipelines| ::
        (stageId in StagesOf(stageList, pipelines[k])
         && r.value == BuffersAt(capacities, stageList, pipelines[k], IndexOf(StagesOf(stageList, pipelines[k]), stageId),
                                 sizePerConnection[1], sizePerConnection[0], sizePerConnection[2], connection.InternalId()))
    {
      var id := PipelineIdOfStage(stageId);
      if id == 0 {
        return Fail("Could not find stage ID");
      }
      r := GetPipelineBuffers(id, stageId, connection);
    }

    /** Queues a receive update for a stage unless the same request is already queued. */
    method RequestReceiveUpdate(connection: NetworkConnection, stage: int, pipeline: int)
      modifies this`receiveStageNeedsUpdate
      ensures UpdatePipeline(pipeline, stage, connection) in receiveStageNeedsUpdate
      ensures receiveStageNeedsUpdate ==
        if UpdatePipeline(pipeline, stage, connection) in old(receiveStageNeedsUpdate) then old(receiveStageNeedsUpdate)
        else old(receiveStageNeedsUpdate) + [UpdatePipeline(pipeline, stage, connection)]
      ensures Unique(old(receiveStageNeedsUpdate)) ==> Unique(receiveStageNeedsUpdate)
    {
      receiveStageNeedsUpdate := AddUpdate(receiveStageNeedsUpdate, UpdatePipeline(pipeline, stage, connection));
    }
  }

  // ---------------------------------------------------------------------------
  // The search as written picks the wrong pipeline

  /**
   * Two single-stage pipelines, stage 0 in the first and stage 1 in the
   * second: the stage is in pipeline 1 only, yet the search as written
   * answers with the pipeline count, 2.
   */
  lemma AsWrittenSearchPicksLastPipeline()
    ensures var list := [0, 1];
            var ps := [PipelineImpl(0, 1, 0, 4, 0, 0), PipelineImpl(1, 1, 0, 4, 0, 0)];
            0 in StagesOf(list, ps[0]) && 0 !in StagesOf(list, ps[|ps| - 1])
  {
    var list := [0, 1];
    var ps := [PipelineImpl(0, 1, 0, 4, 0, 0), PipelineImpl(1, 1, 0, 4, 0, 0)];
    assert StagesOf(list, ps[0]) == [0];
    assert StagesOf(list, ps[1]) == [1];
  }
}
