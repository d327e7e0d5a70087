// The connection handle shared by the driver and the pipeline processor
// (com.unity.transport/Runtime/NetworkConnection.cs): an index into the
// driver's connection table and the version of the slot it was issued for.

module Connections {
  datatype ConnectionState = Disconnected | Connecting | AwaitingResponse | Connected

  /** Two handles are equal iff both the id and the version are (the datatype's equality). */
  datatype NetworkConnection = NetworkConnection(networkId: int, networkVersion: int)
  {
    /** A default handle has version 0; the driver never issues one. */
    predicate IsCreated() { networkVersion != 0 }

    function InternalId(): int { networkId }
  }

  const DefaultConnection := NetworkConnection(0, 0)
}
