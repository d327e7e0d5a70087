// The connection table of the network driver
// (com.unity.transport/Runtime/NetworkDriver.cs).
//
// Connections live in a list indexed by id. A handle (NetworkConnection) is
// an id plus the version of the slot it was issued for; freeing a slot bumps
// its version, so handles to a freed slot go stale. Removed ids wait in a
// pending-free queue until the next update, which resets their slots and
// moves them to the free list that Connect and incoming connection requests
// take ids from. Events are queued per connection.
//
// Sockets are left out: sending a packet (connection requests, accepts,
// disconnects) has no effect in the model, the clock is the `now` argument
// of ScheduleUpdate, and the bytes a received packet carries are reduced to
// the header, the payload length and the connect token read from them.

module Driver {
  import opened Words
  import opened Wrappers
  import opened Connections
  import opened NetworkEndPoints

  /** UdpCHeader.Length: type byte, flags byte, session token. */
  const HeaderLength: int := 4

  // UdpCProtocol, the header's type byte.
  const ConnectionRequest: int := 0
  const ConnectionReject: int := 1
  const ConnectionAccept: int := 2
  const DisconnectPacket: int := 3
  const DataPacket: int := 4

  // UdpCHeader.HeaderFlags.
  const HasConnectToken: bv8 := 0x1
  const HasPipeline: bv8 := 0x2

  datatype UdpCHeader = UdpCHeader(packetType: byte, flags: bv8, sessionToken: ushort)

  /** NetworkEvent.Type. */
  datatype EventType = EmptyEvent | DataEvent | ConnectEvent | DisconnectEvent

  /** An event queued for a connection; Data events locate their payload in the driver's stream. */
  datatype NetworkEvent = NetworkEvent(kind: EventType, offset: int, size: int)

  datatype Connection = Connection(
    address: NetworkEndPoint, lastAttempt: int, id: int, version: int32, attempts: int,
    state: ConnectionState, receiveToken: ushort, sendToken: ushort, didReceiveData: bool)

  /** A slot as InternalUpdate and Connect create it: only id and version set. */
  function FreshSlot(id: int, version: int32): Connection
  {
    Connection(DefaultEndPoint, 0, id, version, 0, Disconnected, 0, 0, false)
  }

  /** Connection.Null. */
  const NullConnection := FreshSlot(0, 0)

  /** The connection's `==`: same id, same version and equal addresses; the other fields are ignored. */
  predicate Same(a: Connection, b: Connection)
    requires a.address.WellFormed() && b.address.WellFormed()
  {
    a.id == b.id && a.version == b.version && Equal(a.address, b.address)
  }

  predicate IsNull(c: Connection)
    requires c.address.WellFormed()
  {
    Same(c, NullConnection)
  }

  /** The version a freed slot gets: one more, with int wrap-around, skipping 0. */
  function NextVersion(v: int32): (r: int32)
    ensures r != 0 && r != v
  {
    var w := ToI32(v + 1);
    if w == 0 then 1 else w
  }

  predicate Distinct(s: seq<int>)
  {
    forall i, j | 0 <= i < j < |s| :: s[i] != s[j]
  }

  lemma DistinctFront(s: seq<int>)
    requires |s| > 0 && Distinct(s)
    ensures s[0] !in s[1..] && Distinct(s[1..])
  {
  }

  lemma DistinctSuffix(a: seq<int>, b: seq<int>)
    requires Distinct(a + b)
    ensures Distinct(b)
  {
    forall i, j | 0 <= i < j < |b|
      ensures b[i] != b[j]
    {
      assert b[i] == (a + b)[|a| + i] && b[j] == (a + b)[|a| + j];
    }
  }

  predicate AddressesOk(conns: seq<Connection>)
  {
    forall k | 0 <= k < |conns| :: conns[k].address.WellFormed()
  }

  /** A slot whose id is queued for reuse: it exists and is disconnected. */
  predicate Released(conns: seq<Connection>, id: int)
  {
    0 <= id < |conns| && conns[id].state == Disconnected
  }

  predicate SlotOk(c: Connection, i: int)
  {
    c.id == i && c.version != 0 && c.address.WellFormed()
  }

  /** The connection matches an incoming packet's address and session token. */
  predicate Matches(c: Connection, address: NetworkEndPoint, token: ushort, bySendToken: bool)
    requires c.address.WellFormed() && address.WellFormed()
  {
    Equal(address, c.address) && (if bySendToken then c.sendToken else c.receiveToken) == token
  }

  /** The index of the first connection from i on that matches, if any. */
  function FirstMatch(conns: seq<Connection>, address: NetworkEndPoint, token: ushort, bySendToken: bool, i: nat): (r: Option<int>)
    requires AddressesOk(conns) && address.WellFormed()
    ensures r.Some? ==> i <= r.value < |conns| && Matches(conns[r.value], address, token, bySendToken)
    ensures r.Some? ==> forall k | i <= k < r.value :: !Matches(conns[k], address, token, bySendToken)
    ensures r.None? ==> forall k | i <= k < |conns| :: !Matches(conns[k], address, token, bySendToken)
    decreases |conns| - i
  {
    if i >= |conns| then None
    else if Matches(conns[i], address, token, bySendToken) then Some(i)
    else FirstMatch(conns, address, token, bySendToken, i + 1)
  }

  /** The Disconnect event a dropped connection gets, if it is dropped. */
  function DisconnectIf(dropped: bool): seq<NetworkEvent>
  {
    if dropped then [NetworkEvent(DisconnectEvent, 0, 0)] else []
  }

  /** The queues with evs appended to id's queue. */
  function Pushed(events: map<int, seq<NetworkEvent>>, id: int, evs: seq<NetworkEvent>): map<int, seq<NetworkEvent>>
  {
    if |evs| == 0 then events else events[id := QueueIn(events, id) + evs]
  }

  /** A connection's queue in a table of queues; a missing key is an empty queue. */
  function QueueIn(events: map<int, seq<NetworkEvent>>, id: int): seq<NetworkEvent>
  {
    if id in events then events[id] else []
  }

  // ---------------------------------------------------------------------------
  // Connection timeouts

  /** NetworkConfigParameter: the connection limits in milliseconds. */
  datatype Config = Config(maxConnectAttempts: int, connectTimeoutMS: int, disconnectTimeoutMS: int)

  datatype Timeout = NoTimeout | Retry | Drop

  /** What CheckTimeouts does to one connection at time now. */
  function TimeoutOf(c: Connection, now: int, config: Config): Timeout
  {
    if (c.state == Connecting || c.state == AwaitingResponse) && now - c.lastAttempt > config.connectTimeoutMS then
      if c.attempts >= config.maxConnectAttempts then Drop else Retry
    else if c.state == Connected && now - c.lastAttempt > config.disconnectTimeoutMS then Drop
    else NoTimeout
  }

  /** The connection after CheckTimeouts: a retry counts an attempt, a drop disconnects. */
  function AfterTimeout(c: Connection, now: int, config: Config): Connection
  {
    match TimeoutOf(c, now, config)
    case NoTimeout => c
    case Retry => c.(attempts := c.attempts + 1, lastAttempt := now)
    case Drop => c.(state := Disconnected)
  }

  /** The ids among the first n connections that CheckTimeouts drops, in increasing order. */
  function DroppedBelow(conns: seq<Connection>, n: nat, now: int, config: Config): (r: seq<int>)
    requires n <= |conns|
  {
    if n == 0 then []
    else DroppedBelow(conns, n - 1, now, config) + (if TimeoutOf(conns[n - 1], now, config) == Drop then [n - 1] else [])
  }

  /** Every connection after CheckTimeouts. */
  function TimedOut(conns: seq<Connection>, now: int, config: Config): (r: seq<Connection>)
    ensures |r| == |conns|
  {
    seq(|conns|, i requires 0 <= i < |conns| => AfterTimeout(conns[i], now, config))
  }

  /** The event queues after CheckTimeouts has pushed a Disconnect event for each dropped connection below n. */
  function WithDisconnects(events: map<int, seq<NetworkEvent>>, conns: seq<Connection>, n: nat, now: int, config: Config): map<int, seq<NetworkEvent>>
    requires n <= |conns|
  {
    if n == 0 then events
    else
      var m := WithDisconnects(events, conns, n - 1, now, config);
      if TimeoutOf(conns[n - 1], now, config) == Drop then m[n - 1 := QueueIn(m, n - 1) + DisconnectIf(true)] else m
  }

  /** Each dropped connection's queue gains exactly one Disconnect event; the other queues are unchanged. */
  lemma {:induction false} WithDisconnectsQueue(events: map<int, seq<NetworkEvent>>, conns: seq<Connection>, n: nat, now: int, config: Config, id: int)
    requires n <= |conns|
    ensures QueueIn(WithDisconnects(events, conns, n, now, config), id)
      == QueueIn(events, id) + DisconnectIf(0 <= id < n && TimeoutOf(conns[id], now, config) == Drop)
  {
    if n > 0 {
      WithDisconnectsQueue(events, conns, n - 1, now, config, id);
    }
  }

  /** The table after the pending-free step: each pending id gets a fresh slot of the next version. */
  function Freed(conns: seq<Connection>, pending: seq<int>): (r: seq<Connection>)
    ensures |r| == |conns|
  {
    seq(|conns|, i requires 0 <= i < |conns| => if i in pending then FreshSlot(i, NextVersion(conns[i].version)) else conns[i])
  }

  /** The pending-free step taken one id at a time, in queue order. */
  function FreeInOrder(conns: seq<Connection>, pending: seq<int>): (r: seq<Connection>)
    requires forall k | 0 <= k < |pending| :: 0 <= pending[k] < |conns|
    ensures |r| == |conns|
    decreases |pending|
  {
    if pending == [] then conns
    else
      var id := pending[0];
      FreeInOrder(conns[id := FreshSlot(id, NextVersion(conns[id].version))], pending[1..])
  }

  /** Freeing distinct ids one at a time gives each of them exactly one fresh slot. */
  lemma {:induction false} FreeInOrderIsFreed(conns: seq<Connection>, pending: seq<int>)
    requires forall k | 0 <= k < |pending| :: 0 <= pending[k] < |conns|
    requires Distinct(pending)
    ensures FreeInOrder(conns, pending) == Freed(conns, pending)
    decreases |pending|
  {
    if pending != [] {
      var id := pending[0];
      var next := conns[id := FreshSlot(id, NextVersion(conns[id].version))];
      DistinctFront(pending);
      FreeInOrderIsFreed(next, pending[1..]);
      forall i | 0 <= i < |conns|
        ensures Freed(next, pending[1..])[i] == Freed(conns, pending)[i]
      {
        assert (i in pending) == (i == id || i in pending[1..]) by {
          assert pending == [id] + pending[1..];
        }
      }
    }
  }

  /**
   * A timeout changes only the state, the attempt count and the time of the
   * last attempt: the handle stays the same. With non-negative timeouts,
   * checking twice at the same time changes nothing more.
   */
  lemma TimeoutKeepsHandle(c: Connection, now: int, config: Config)
    requires config.connectTimeoutMS >= 0
    ensures var d := AfterTimeout(c, now, config);
      d.id == c.id && d.version == c.version && d.address == c.address
      && d.receiveToken == c.receiveToken && d.sendToken == c.sendToken
      && AfterTimeout(d, now, config) == d
  {
  }

  /** A Connecting connection is retried until it has made maxConnectAttempts attempts, then dropped. */
  lemma RetriesBounded(c: Connection, now: int, config: Config)
    requires c.state == Connecting && now - c.lastAttempt > config.connectTimeoutMS
    ensures TimeoutOf(c, now, config) == Retry
      ==> AfterTimeout(c, now, config).attempts <= config.maxConnectAttempts
    ensures TimeoutOf(c, now, config) == Drop <==> c.attempts >= config.maxConnectAttempts
  {
  }

  class NetworkDriver {
    const config: Config

    var connections: seq<Connection>
    var freeList: seq<int>
    var acceptQueue: seq<int>
    var pendingFree: seq<int>
    var sessionIdCounter: ushort
    var listening: bool
    var bound: bool
    var updateTime: int
    /** The per-connection event queues; a missing key is an empty queue. */
    var events: map<int, seq<NetworkEvent>>
    /** The length of the driver's receive stream, where Data events' payloads lie. */
    var streamLength: int

    /**
     * Every slot holds its own id, a nonzero version and a well-formed
     * address; every queued id names a slot, the free and pending ids are
     * disconnected slots, and no id is queued twice for reuse.
     */
    ghost predicate Valid()
      reads this
    {
      (forall i | 0 <= i < |connections| :: SlotOk(connections[i], i))
      && (forall k | 0 <= k < |freeList| :: Released(connections, freeList[k]))
      && (forall k | 0 <= k < |pendingFree| :: Released(connections, pendingFree[k]))
      && Distinct(freeList + pendingFree)
      && (forall k | 0 <= k < |acceptQueue| :: 0 <= acceptQueue[k] < |connections|)
    }

    /** The session counter starts at a random value, given here as seed; the clock reading is now. */
    constructor (cfg: Config, seed: ushort, now: int)
      ensures Valid() && config == cfg
      ensures connections == [] && freeList == [] && acceptQueue == [] && pendingFree == []
      ensures sessionIdCounter == seed && !listening && !bound && updateTime == now
      ensures events == map[] && streamLength == 0
    {
      config := cfg;
      connections, freeList, acceptQueue, pendingFree := [], [], [], [];
      sessionIdCounter, listening, bound, updateTime := seed, false, false, now;
      events, streamLength := map[], 0;
    }

    /** The id the next new connection gets: the head of the free list, else a new slot. */
    function NextFreeId(): int
      reads this
    {
      if |freeList| > 0 then freeList[0] else |connections|
    }

    /** GetConnection(NetworkConnection): the slot, or Connection.Null for a stale handle. */
    function GetConnection(nc: NetworkConnection): (c: Connection)
      reads this
      requires 0 <= nc.networkId < |connections|
      ensures c == connections[nc.networkId] || c == NullConnection
    {
      var con := connections[nc.networkId];
      if con.version != nc.networkVersion then NullConnection else con
    }

    /** The `== Connection.Null` test on a looked-up connection fails exactly for a stale handle. */
    lemma NullIffStale(nc: NetworkConnection)
      requires Valid() && 0 <= nc.networkId < |connections|
      ensures GetConnection(nc).address.WellFormed()
      ensures IsNull(GetConnection(nc)) <==> connections[nc.networkId].version != nc.networkVersion
    {
      assert SlotOk(connections[nc.networkId], nc.networkId);
      if connections[nc.networkId].version != nc.networkVersion {
        assert NullConnection.address.data[..0] == [];
      }
    }

    function GetConnectionState(nc: NetworkConnection): (s: ConnectionState)
      reads this
      requires Valid() && 0 <= nc.networkId < |connections|
      ensures connections[nc.networkId].version == nc.networkVersion ==> s == connections[nc.networkId].state
      ensures connections[nc.networkId].version != nc.networkVersion ==> s == Disconnected
    {
      NullIffStale(nc);
      var c := GetConnection(nc);
      if IsNull(c) then Disconnected else c.state
    }

    method PushEvent(id: int, ev: NetworkEvent)
      modifies this`events
      ensures events == old(events)[id := QueueIn(old(events), id) + [ev]]
    {
      events := events[id := QueueIn(events, id) + [ev]];
    }

    /** Takes an id from the free list, or appends a fresh slot of version 1. */
    method Allocate() returns (id: int)
      requires Valid()
      modifies this`connections, this`freeList
      ensures Valid()
      ensures id == old(NextFreeId()) && 0 <= id < |connections|
      ensures old(|freeList|) > 0 ==> freeList == old(freeList[1..]) && connections == old(connections)
      ensures old(|freeList|) == 0 ==> freeList == old(freeList) && connections == old(connections) + [FreshSlot(id, 1)]
      ensures connections[id].state == Disconnected && id !in freeList && id !in pendingFree
    {
      if |freeList| > 0 {
        id := freeList[0];
        assert freeList + pendingFree == [id] + (freeList[1..] + pendingFree);
        DistinctFront(freeList + pendingFree);
        assert (freeList + pendingFree)[1..] == freeList[1..] + pendingFree;
        freeList := freeList[1..];
      } else {
        id := |connections|;
        connections := connections + [FreshSlot(id, 1)];
      }
    }

    /** Bind: the interface's result is passed in; 0 marks the driver bound. */
    method Bind(interfaceResult: int) returns (r: int)
      modifies this`bound
      ensures r == interfaceResult
      ensures bound == (old(bound) || interfaceResult == 0)
    {
      r := interfaceResult;
      if r == 0 {
        bound := true;
      }
    }

    method Listen() returns (r: int)
      modifies this`listening
      ensures !bound ==> r == -1 && listening == old(listening)
      ensures bound ==> r == 0 && listening
    {
      if !bound {
        return -1;
      }
      listening := true;
      r := 0;
    }

    /** Accept: the oldest connection accepted from a request, with its current version, or the default handle. */
    method Accept() returns (nc: NetworkConnection)
      requires Valid()
      modifies this`acceptQueue
      ensures Valid()
      ensures !listening || old(acceptQueue) == [] ==> nc == DefaultConnection && acceptQueue == old(acceptQueue)
      ensures listening && old(acceptQueue) != [] ==>
        acceptQueue == old(acceptQueue[1..])
        && nc == NetworkConnection(old(acceptQueue[0]), connections[old(acceptQueue[0])].version)
    {
      if !listening || |acceptQueue| == 0 {
        return DefaultConnection;
      }
      var id := acceptQueue[0];
      acceptQueue := acceptQueue[1..];
      nc := NetworkConnection(id, connections[id].version);
    }

    /**
     * Connect: a new Connecting connection with one attempt at the current
     * time, whose receive token is the session counter; the counter moves on
     * modulo 2^16. The slot taken was disconnected: a live connection is never
     * overwritten.
     */
    method Connect(endpoint: NetworkEndPoint) returns (nc: NetworkConnection)
      requires Valid() && endpoint.WellFormed()
      modifies this`connections, this`freeList, this`sessionIdCounter
      ensures Valid()
      ensures nc.networkId == old(NextFreeId()) && 0 <= nc.networkId < |connections|
      ensures old(|freeList|) > 0 ==>
        freeList == old(freeList[1..]) && |connections| == old(|connections|) && nc.networkVersion == old(connections[nc.networkId].version)
      ensures old(|freeList|) == 0 ==>
        freeList == old(freeList) && |connections| == old(|connections|) + 1 && nc.networkVersion == 1
      ensures nc.networkId < old(|connections|) ==> old(connections[nc.networkId].state) == Disconnected
      ensures connections[nc.networkId] == Connection(endpoint, updateTime, nc.networkId, connections[nc.networkId].version,
        1, Connecting, old(sessionIdCounter), 0, false)
      ensures nc.networkVersion == connections[nc.networkId].version
      ensures forall i | 0 <= i < old(|connections|) && i != nc.networkId :: connections[i] == old(connections[i])
      ensures sessionIdCounter == (old(sessionIdCounter) + 1) % U16
      ensures GetConnectionState(nc) == Connecting
    {
      var id := Allocate();
      var ver := connections[id].version;
      var c := Connection(endpoint, updateTime, id, ver, 1, Connecting, sessionIdCounter, 0, false);
      sessionIdCounter := (sessionIdCounter + 1) % U16;
      connections := connections[id := c];
      nc := NetworkConnection(id, ver);
    }

    /**
     * RemoveConnection: acts only on a connection that is not disconnected and
     * equals (`==`) the stored one: it is stored disconnected and its id
     * queued to be freed. The caller passes a copy of a stored connection,
     * with the stored state.
     */
    method RemoveConnection(c: Connection) returns (removed: bool)
      requires Valid() && 0 <= c.id < |connections| && c.address.WellFormed()
      requires c.state == connections[c.id].state
      modifies this`connections, this`pendingFree
      ensures Valid()
      ensures removed == (old(connections[c.id].state) != Disconnected && Same(c, old(connections[c.id])))
      ensures removed ==> connections == old(connections)[c.id := c.(state := Disconnected)] && pendingFree == old(pendingFree) + [c.id]
      ensures !removed ==> connections == old(connections) && pendingFree == old(pendingFree)
    {
      assert SlotOk(connections[c.id], c.id);
      if c.state != Disconnected && Same(c, connections[c.id]) {
        assert c.id !in freeList + pendingFree;
        ghost var before := freeList + pendingFree;
        connections := connections[c.id := c.(state := Disconnected)];
        pendingFree := pendingFree + [c.id];
        assert freeList + pendingFree == before + [c.id];
        removed := true;
      } else {
        removed := false;
      }
    }

    /** Disconnect: removes the connection a live handle names; always returns 0. */
    method Disconnect(nc: NetworkConnection) returns (r: int)
      requires Valid() && 0 <= nc.networkId < |connections|
      modifies this`connections, this`pendingFree
      ensures Valid() && r == 0
      ensures var id := nc.networkId;
        if old(connections[id].version) == nc.networkVersion && old(connections[id].state) != Disconnected then
          connections == old(connections)[id := old(connections[id]).(state := Disconnected)] && pendingFree == old(pendingFree) + [id]
        else
          connections == old(connections) && pendingFree == old(pendingFree)
    {
      NullIffStale(nc);
      var connection := GetConnection(nc);
      if IsNull(connection) {
        return 0;
      }
      assert SlotOk(connections[nc.networkId], nc.networkId);
      assert Same(connection, connections[connection.id]) by {
        EqualIsEquivalence(connection.address, connection.address, connection.address);
      }
      var _ := RemoveConnection(connection);
      r := 0;
    }

    /** PopEventForConnection: Empty for an out-of-range id or a stale version, else the connection's oldest event. */
    method PopEventForConnection(nc: NetworkConnection) returns (ev: NetworkEvent)
      modifies this`events
      ensures var id := nc.networkId;
        if id < 0 || id >= |connections| || connections[id].version != nc.networkVersion || QueueIn(old(events), id) == [] then
          ev == NetworkEvent(EmptyEvent, 0, 0) && events == old(events)
        else
          ev == QueueIn(old(events), id)[0] && QueueIn(events, id) == QueueIn(old(events), id)[1..]
          && forall k | k != id :: QueueIn(events, k) == QueueIn(old(events), k)
    {
      var id := nc.networkId;
      if id < 0 || id >= |connections| || connections[id].version != nc.networkVersion {
        return NetworkEvent(EmptyEvent, 0, 0);
      }
      var q := QueueIn(events, id);
      if |q| == 0 {
        return NetworkEvent(EmptyEvent, 0, 0);
      }
      ev := q[0];
      events := events[id := q[1..]];
    }

    lemma AddressesWellFormed()
      requires Valid()
      ensures AddressesOk(connections)
    {
      forall k | 0 <= k < |connections|
        ensures connections[k].address.WellFormed()
      {
        assert SlotOk(connections[k], k);
      }
    }

    /** SetConnection: stores c in its slot; a slot queued for reuse stays disconnected. */
    method SetConnection(c: Connection)
      requires Valid() && 0 <= c.id < |connections| && SlotOk(c, c.id)
      requires c.state != Disconnected ==> c.id !in freeList && c.id !in pendingFree
      modifies this`connections
      ensures Valid()
      ensures connections == old(connections)[c.id := c]
    {
      connections := connections[c.id := c];
      assert forall k | 0 <= k < |freeList| :: freeList[k] != c.id || c.state == Disconnected;
      assert forall k | 0 <= k < |pendingFree| :: pendingFree[k] != c.id || c.state == Disconnected;
    }

    /** UpdateConnection: stores c only if it equals (`==`) the stored connection. It never revives a disconnected slot. */
    method UpdateConnection(c: Connection) returns (updated: bool)
      requires Valid() && 0 <= c.id < |connections| && SlotOk(c, c.id)
      requires c.state != Disconnected ==> connections[c.id].state != Disconnected
      modifies this`connections
      ensures Valid()
      ensures updated == Same(c, old(connections[c.id]))
      ensures connections == if updated then old(connections)[c.id := c] else old(connections)
    {
      assert SlotOk(connections[c.id], c.id);
      if Same(c, connections[c.id]) {
        assert c.state != Disconnected ==> !Released(connections, c.id);
        SetConnection(c);
        return true;
      }
      return false;
    }

    /**
     * The pending-free step of InternalUpdate: every queued id gets a fresh
     * slot with the next version, so handles to it go stale, and joins the
     * free list in queue order.
     */
    method FreePending()
      requires Valid()
      modifies this`connections, this`pendingFree, this`freeList
      ensures Valid()
      ensures pendingFree == [] && freeList == old(freeList) + old(pendingFree)
      ensures connections == Freed(old(connections), old(pendingFree))
    {
      ghost var conns0, queued0 := connections, freeList + pendingFree;
      ghost var pending0 := pendingFree;
      while |pendingFree| > 0
        invariant Valid()
        invariant freeList + pendingFree == queued0
        invariant FreeInOrder(connections, pendingFree) == FreeInOrder(conns0, pending0)
        decreases |pendingFree|
      {
        FreeOne();
      }
      DistinctSuffix(queued0[..|queued0| - |pending0|], pending0);
      FreeInOrderIsFreed(conns0, pending0);
    }

    /** One id of the pending-free step: the head of the pending queue gets a fresh slot and joins the free list. */
    method FreeOne()
      requires Valid() && |pendingFree| > 0
      modifies this`connections, this`pendingFree, this`freeList
      ensures Valid()
      ensures pendingFree == old(pendingFree[1..]) && freeList == old(freeList) + [old(pendingFree[0])]
      ensures old(pendingFree[0]) !in old(freeList) && 0 <= old(pendingFree[0]) < |connections|
      ensures connections == old(connections)[old(pendingFree[0]) := FreshSlot(old(pendingFree[0]), NextVersion(old(connections[pendingFree[0]].version)))]
      ensures freeList + pendingFree == old(freeList + pendingFree)
      ensures FreeInOrder(connections, pendingFree) == FreeInOrder(old(connections), old(pendingFree))
    {
      var free := pendingFree[0];
      ghost var queued := freeList + pendingFree;
      assert queued[|freeList|] == free;
      forall k | 0 <= k < |freeList|
        ensures freeList[k] != free
      {
        assert queued[k] == freeList[k];
      }
      assert Released(connections, free);
      var ver := NextVersion(connections[free].version);
      connections := connections[free := FreshSlot(free, ver)];
      pendingFree := pendingFree[1..];
      freeList := freeList + [free];
      assert freeList + pendingFree == queued;
    }

    /** One connection of CheckTimeouts: retried (the request or accept is resent) or dropped with a Disconnect event. */
    method TimeoutSlot(i: int)
      requires Valid() && 0 <= i < |connections|
      modifies this`connections, this`pendingFree, this`events
      ensures Valid()
      ensures connections == old(connections)[i := AfterTimeout(old(connections[i]), updateTime, config)]
      ensures var dropped := TimeoutOf(old(connections[i]), updateTime, config) == Drop;
        && pendingFree == old(pendingFree) + (if dropped then [i] else [])
        && events == if dropped then old(events)[i := QueueIn(old(events), i) + DisconnectIf(true)] else old(events)
    {
      var connection := connections[i];
      assert SlotOk(connection, i);
      var now := updateTime;
      var netcon := NetworkConnection(connection.id, connection.version);
      if (connection.state == Connecting || connection.state == AwaitingResponse) && now - connection.lastAttempt > config.connectTimeoutMS {
        if connection.attempts >= config.maxConnectAttempts {
          EqualIsEquivalence(connection.address, connection.address, connection.address);
          var _ := RemoveConnection(connection);
          PushEvent(connection.id, NetworkEvent(DisconnectEvent, 0, 0));
          return;
        }
        connection := connection.(attempts := connection.attempts + 1, lastAttempt := now);
        SetConnection(connection);
      }
      if connection.state == Connected && now - connection.lastAttempt > config.disconnectTimeoutMS {
        var _ := Disconnect(netcon);
        PushEvent(connection.id, NetworkEvent(DisconnectEvent, 0, 0));
      }
    }

    /** CheckTimeouts: every connection is checked once, in id order. */
    method CheckTimeouts()
      requires Valid()
      modifies this`connections, this`pendingFree, this`events
      ensures Valid()
      ensures connections == TimedOut(old(connections), updateTime, config)
      ensures pendingFree == old(pendingFree) + DroppedBelow(old(connections), |connections|, updateTime, config)
      ensures events == WithDisconnects(old(events), old(connections), |connections|, updateTime, config)
      ensures forall id ::
        QueueIn(events, id) == QueueIn(old(events), id) + DisconnectIf(0 <= id < |connections| && TimeoutOf(old(connections[id]), updateTime, config) == Drop)
    {
      ghost var conns0 := connections;
      ghost var pending0 := pendingFree;
      ghost var queue0 := events;
      var i := 0;
      while i < |connections|
        invariant 0 <= i <= |connections| == |conns0|
        invariant TimeoutsDone(conns0, pending0, queue0, i)
      {
        CheckTimeoutAt(conns0, pending0, queue0, i);
        i := i + 1;
      }
      assert connections == TimedOut(conns0, updateTime, config);
      forall id
        ensures QueueIn(events, id) == QueueIn(queue0, id) + DisconnectIf(0 <= id < |conns0| && TimeoutOf(conns0[id], updateTime, config) == Drop)
      {
        WithDisconnectsQueue(queue0, conns0, |conns0|, updateTime, config, id);
      }
    }

    /** The state after CheckTimeouts has handled the first i connections of conns0. */
    ghost predicate TimeoutsDone(conns0: seq<Connection>, pending0: seq<int>, queue0: map<int, seq<NetworkEvent>>, i: int)
      reads this
    {
      0 <= i <= |conns0| == |connections|
      && Valid()
      && (forall k | 0 <= k < |connections| ::
            connections[k] == if k < i then AfterTimeout(conns0[k], updateTime, config) else conns0[k])
      && pendingFree == pending0 + DroppedBelow(conns0, i, updateTime, config)
      && events == WithDisconnects(queue0, conns0, i, updateTime, config)
    }

    method CheckTimeoutAt(ghost conns0: seq<Connection>, ghost pending0: seq<int>, ghost queue0: map<int, seq<NetworkEvent>>, i: int)
      requires i < |conns0| && TimeoutsDone(conns0, pending0, queue0, i)
      modifies this`connections, this`pendingFree, this`events
      ensures TimeoutsDone(conns0, pending0, queue0, i + 1)
    {
      ghost var before := connections;
      ghost var queues := events;
      assert before[i] == conns0[i];
      TimeoutSlot(i);
      forall k | 0 <= k < |connections|
        ensures connections[k] == if k < i + 1 then AfterTimeout(conns0[k], updateTime, config) else conns0[k]
      {
        if k != i {
          assert connections[k] == before[k];
        }
      }
      assert DroppedBelow(conns0, i + 1, updateTime, config)
        == DroppedBelow(conns0, i, updateTime, config) + (if TimeoutOf(conns0[i], updateTime, config) == Drop then [i] else []);
    }

    /**
     * ScheduleUpdate: reads the clock, clears the event queues and the
     * receive stream, frees the pending slots and checks timeouts. (The
     * pipeline updates and the receive job are not modelled.)
     */
    method ScheduleUpdate(now: int)
      requires Valid()
      modifies this`updateTime, this`events, this`streamLength, this`connections, this`pendingFree, this`freeList
      ensures Valid()
      ensures updateTime == now && streamLength == 0
      ensures freeList == old(freeList) + old(pendingFree)
      ensures connections == TimedOut(Freed(old(connections), old(pendingFree)), now, config)
      ensures pendingFree == DroppedBelow(Freed(old(connections), old(pendingFree)), |connections|, now, config)
      ensures forall id ::
        QueueIn(events, id) == DisconnectIf(0 <= id < |connections| && TimeoutOf(Freed(old(connections), old(pendingFree))[id], now, config) == Drop)
    {
      updateTime := now;
      events := map[];
      streamLength := 0;
      FreePending();
      CheckTimeouts();
    }

    // -------------------------------------------------------------------------
    // Incoming packets

    /**
     * GetConnection(address, sessionId) (by receive token) and
     * GetNewConnection (by send token): the first connection from that
     * address with that token; None stands for Connection.Null.
     */
    method FindConnection(address: NetworkEndPoint, token: ushort, bySendToken: bool) returns (r: Option<int>)
      requires Valid() && address.WellFormed()
      ensures AddressesOk(connections) && r == FirstMatch(connections, address, token, bySendToken, 0)
    {
      AddressesWellFormed();
      var i := 0;
      while i < |connections|
        invariant 0 <= i <= |connections|
        invariant FirstMatch(connections, address, token, bySendToken, 0) == FirstMatch(connections, address, token, bySendToken, i)
      {
        if Matches(connections[i], address, token, bySendToken) {
          return Some(i);
        }
        i := i + 1;
      }
      return None;
    }

    /**
     * The new-connection branch of a connection request: the next free id
     * gets a Connected connection whose receive token is the session counter,
     * which advances, and whose send token is the one the peer sent; the id
     * is queued for Accept.
     */
    method OpenConnection(address: NetworkEndPoint, sendToken: ushort)
      requires Valid() && address.WellFormed()
      modifies this`connections, this`freeList, this`sessionIdCounter, this`acceptQueue
      ensures Valid()
      ensures var id := old(NextFreeId());
        && 0 <= id < |connections| && old(|connections|) <= |connections|
        && (id < old(|connections|) ==> old(connections[id].state) == Disconnected && connections[id].version == old(connections[id].version))
        && connections[id] == Connection(address, updateTime, id, connections[id].version, 1, Connected,
                                         old(sessionIdCounter), sendToken, false)
        && (forall k | 0 <= k < old(|connections|) && k != id :: connections[k] == old(connections[k]))
        && acceptQueue == old(acceptQueue) + [id]
        && sessionIdCounter == (old(sessionIdCounter) + 1) % U16
    {
      var sessionId := sessionIdCounter;
      sessionIdCounter := (sessionIdCounter + 1) % U16;
      var id := Allocate();
      var ver := connections[id].version;
      var c := Connection(address, updateTime, id, ver, 1, Connected, sessionId, sendToken, false);
      SetConnection(c);
      acceptQueue := acceptQueue + [id];
    }

    /**
     * A connection request: ignored unless listening and without the pipeline
     * flag. A request from an unknown peer, or one whose connection is
     * disconnected, opens a new Connected connection (receive token from the
     * session counter, send token from the header) and queues it for Accept;
     * a repeated request counts an attempt on the existing connection.
     * Returns the number of new connections.
     */
    method OnConnectionRequest(address: NetworkEndPoint, header: UdpCHeader) returns (count: int)
      requires Valid() && address.WellFormed()
      modifies this`connections, this`freeList, this`sessionIdCounter, this`acceptQueue
      ensures Valid() && AddressesOk(old(connections))
      ensures !listening || header.flags & HasPipeline != 0 ==>
        count == 0 && connections == old(connections) && freeList == old(freeList)
        && sessionIdCounter == old(sessionIdCounter) && acceptQueue == old(acceptQueue)
      ensures listening && header.flags & HasPipeline == 0 ==>
        var f := FirstMatch(old(connections), address, header.sessionToken, true, 0);
        if f.None? || old(connections[f.value].state) == Disconnected then
          var id := old(NextFreeId());
          && count == 1 && 0 <= id < |connections| && old(|connections|) <= |connections|
          && (id < old(|connections|) ==> old(connections[id].state) == Disconnected && connections[id].version == old(connections[id].version))
          && connections[id] == Connection(address, updateTime, id, connections[id].version, 1, Connected,
                                           old(sessionIdCounter), header.sessionToken, false)
          && (forall k | 0 <= k < old(|connections|) && k != id :: connections[k] == old(connections[k]))
          && acceptQueue == old(acceptQueue) + [id]
          && sessionIdCounter == (old(sessionIdCounter) + 1) % U16
        else
          && count == 0
          && connections == old(connections)[f.value := old(connections[f.value]).(attempts := old(connections[f.value].attempts) + 1, lastAttempt := updateTime)]
          && freeList == old(freeList) && sessionIdCounter == old(sessionIdCounter) && acceptQueue == old(acceptQueue)
    {
      AddressesWellFormed();
      if !listening || header.flags & HasPipeline != 0 {
        return 0;
      }
      var found := FindConnection(address, header.sessionToken, true);
      if found.None? || connections[found.value].state == Disconnected {
        OpenConnection(address, header.sessionToken);
        count := 1;
      } else {
        var c := connections[found.value];
        assert SlotOk(c, found.value);
        c := c.(attempts := c.attempts + 1, lastAttempt := updateTime);
        SetConnection(c);
        count := 0;
      }
    }

    /**
     * A connection accept: needs the connect-token flag and no pipeline flag.
     * It completes a Connecting connection found by its receive token: the
     * send token is the one the packet carries, the state Connected, and a
     * Connect event is queued. Returns the number of events queued.
     */
    method OnConnectionAccept(address: NetworkEndPoint, header: UdpCHeader, token: ushort) returns (count: int)
      requires Valid() && address.WellFormed()
      modifies this`connections, this`events
      ensures Valid() && AddressesOk(old(connections))
      ensures var f := FirstMatch(old(connections), address, header.sessionToken, false, 0);
        if header.flags & HasConnectToken != 0 && header.flags & HasPipeline == 0 && f.Some? && old(connections[f.value].state) == Connecting then
          && count == 1
          && connections == old(connections)[f.value := old(connections[f.value]).(didReceiveData := true, sendToken := token, state := Connected)]
          && events == old(events)[f.value := QueueIn(old(events), f.value) + [NetworkEvent(ConnectEvent, 0, 0)]]
        else
          count == 0 && connections == old(connections) && events == old(events)
    {
      AddressesWellFormed();
      if header.flags & HasConnectToken == 0 || header.flags & HasPipeline != 0 {
        return 0;
      }
      var found := FindConnection(address, header.sessionToken, false);
      count := 0;
      if found.Some? {
        var c := connections[found.value];
        assert SlotOk(c, found.value);
        c := c.(didReceiveData := true);
        if c.state == Connected {
          return 0;
        }
        if c.state == Connecting {
          c := c.(sendToken := token, state := Connected);
          EqualIsEquivalence(c.address, c.address, c.address);
          var _ := UpdateConnection(c);
          PushEvent(c.id, NetworkEvent(ConnectEvent, 0, 0));
          count := count + 1;
        }
      }
    }

    /**
     * A disconnect: ignored with the pipeline flag. The connection found by its
     * receive token is removed, with a Disconnect event, unless it already is
     * disconnected. Returns 1 whenever a connection was found.
     */
    method OnDisconnect(address: NetworkEndPoint, header: UdpCHeader) returns (count: int)
      requires Valid() && address.WellFormed()
      modifies this`connections, this`pendingFree, this`events
      ensures Valid() && AddressesOk(old(connections))
      ensures var f := FirstMatch(old(connections), address, header.sessionToken, false, 0);
        && count == (if header.flags & HasPipeline == 0 && f.Some? then 1 else 0)
        && if header.flags & HasPipeline == 0 && f.Some? && old(connections[f.value].state) != Disconnected then
          && connections == old(connections)[f.value := old(connections[f.value]).(state := Disconnected)]
          && pendingFree == old(pendingFree) + [f.value]
          && events == old(events)[f.value := QueueIn(old(events), f.value) + [NetworkEvent(DisconnectEvent, 0, 0)]]
        else
          connections == old(connections) && pendingFree == old(pendingFree) && events == old(events)
    {
      AddressesWellFormed();
      if header.flags & HasPipeline != 0 {
        return 0;
      }
      var found := FindConnection(address, header.sessionToken, false);
      count := 0;
      if found.Some? {
        var c := connections[found.value];
        assert SlotOk(c, found.value);
        EqualIsEquivalence(c.address, c.address, c.address);
        var removed := RemoveConnection(c);
        if removed {
          PushEvent(c.id, NetworkEvent(DisconnectEvent, 0, 0));
        }
        count := count + 1;
      }
    }

    /**
     * A data packet from a known connection (found by its receive token)
     * refreshes the connection's last-attempt time. On a Connecting
     * connection it is an implicit accept: it must carry the connect token,
     * which then is the send token, and a Connect event is queued. The
     * payload (less the token) is appended to the receive stream and, unless
     * it goes to a pipeline, queued as a Data event. Returns the number of
     * events queued, except that a pipeline packet returns 0.
     */
    method OnData(address: NetworkEndPoint, header: UdpCHeader, dataLen: int, token: ushort) returns (count: int)
      requires Valid() && address.WellFormed()
      modifies this`connections, this`events, this`streamLength
      ensures Valid() && AddressesOk(old(connections))
      ensures FirstMatch(old(connections), address, header.sessionToken, false, 0).None? ==>
        count == 0 && connections == old(connections) && events == old(events) && streamLength == old(streamLength)
      ensures var f := FirstMatch(old(connections), address, header.sessionToken, false, 0);
        f.Some? ==>
          var c := old(connections[f.value]).(didReceiveData := true, lastAttempt := updateTime);
          var withToken := header.flags & HasConnectToken != 0;
          if c.state == Connecting && !withToken then
            count == 0 && connections == old(connections)[f.value := c] && events == old(events) && streamLength == old(streamLength)
          else
            var length := dataLen - HeaderLength - (if withToken then 2 else 0);
            var connect := if c.state == Connecting then [NetworkEvent(ConnectEvent, 0, 0)] else [];
            && connections == old(connections)[f.value := if c.state == Connecting then c.(sendToken := token, state := Connected) else c]
            && streamLength == old(streamLength) + length
            && if header.flags & HasPipeline != 0 then
                 count == 0 && events == Pushed(old(events), f.value, connect)
               else
                 count == |connect| + 1 && events == Pushed(old(events), f.value, connect + [NetworkEvent(DataEvent, old(streamLength), length)])
    {
      AddressesWellFormed();
      var found := FindConnection(address, header.sessionToken, false);
      if found.None? {
        return 0;
      }
      count := 0;
      var c := connections[found.value];
      assert SlotOk(c, found.value);
      EqualIsEquivalence(c.address, c.address, c.address);
      c := c.(didReceiveData := true, lastAttempt := updateTime);
      var _ := UpdateConnection(c);
      var length := dataLen - HeaderLength;
      if c.state == Connecting {
        if header.flags & HasConnectToken == 0 {
          return 0;
        }
        c := c.(sendToken := token, state := Connected);
        var _ := UpdateConnection(c);
        PushEvent(c.id, NetworkEvent(ConnectEvent, 0, 0));
        count := count + 1;
      }
      if header.flags & HasConnectToken != 0 {
        length := length - 2;
      }
      ghost var connect := if count == 1 then [NetworkEvent(ConnectEvent, 0, 0)] else [];
      var toPipeline := header.flags & HasPipeline != 0;
      ReceiveData(c.id, length, toPipeline, old(events), connect);
      if toPipeline {
        return 0;
      }
      count := count + 1;
    }

    /**
     * The payload is appended to the receive stream; unless it goes to a
     * pipeline, a Data event for it follows the events already queued for
     * this packet (connect).
     */
    method ReceiveData(id: int, length: int, toPipeline: bool, ghost before: map<int, seq<NetworkEvent>>, ghost connect: seq<NetworkEvent>)
      requires events == Pushed(before, id, connect)
      modifies this`events, this`streamLength
      ensures streamLength == old(streamLength) + length
      ensures toPipeline ==> events == old(events)
      ensures !toPipeline ==> events == Pushed(before, id, connect + [NetworkEvent(DataEvent, old(streamLength), length)])
    {
      var sliceOffset := streamLength;
      streamLength := streamLength + length;
      if toPipeline {
        // The payload goes to the pipeline's receive path (not modelled).
        return;
      }
      var data := NetworkEvent(DataEvent, sliceOffset, length);
      PushEvent(id, data);
      assert QueueIn(old(events), id) == QueueIn(before, id) + connect;
      assert (QueueIn(before, id) + connect) + [data] == QueueIn(before, id) + (connect + [data]);
    }

    /**
     * AppendPacket: dispatches a received packet on its type byte. A reject,
     * or a type byte the protocol does not define, changes nothing.
     */
    method AppendPacket(address: NetworkEndPoint, header: UdpCHeader, dataLen: int, token: ushort) returns (count: int)
      requires Valid() && address.WellFormed()
      modifies this`connections, this`freeList, this`sessionIdCounter, this`acceptQueue, this`pendingFree, this`events, this`streamLength
      ensures Valid() && 0 <= count <= 2
      ensures header.packetType !in {ConnectionRequest, ConnectionAccept, DisconnectPacket, DataPacket} ==>
        count == 0 && connections == old(connections) && freeList == old(freeList) && sessionIdCounter == old(sessionIdCounter)
        && acceptQueue == old(acceptQueue) && pendingFree == old(pendingFree) && events == old(events) && streamLength == old(streamLength)
    {
      if header.packetType == ConnectionRequest {
        count := OnConnectionRequest(address, header);
      } else if header.packetType == ConnectionAccept {
        count := OnConnectionAccept(address, header, token);
      } else if header.packetType == DisconnectPacket {
        count := OnDisconnect(address, header);
      } else if header.packetType == DataPacket {
        count := OnData(address, header, dataLen, token);
      } else {
        count := 0;
      }
    }
  }
}
