// The Server Query Protocol of the sample project
// (sampleproject/Assets/Utilities/ServerQueryProtocol/SQP.cs): the wire format
// of its messages, written and read through DataStreamWriter and
// DataStreamReader, and the server's table of outstanding challenge tokens.
// Strings are modelled as their UTF-8 bytes: the encoder is not part of this
// model, so a string is cut after 255 bytes rather than at a character boundary.
// The socket is left out: a received datagram is a parameter and the reply is
// returned; the random source behind a new token is a parameter too.

module Sqp {
  import opened Words
  import opened Wrappers
  import opened DataStream

  /** SQPMessageType: ChallangeRequest and ChallangeResponse are 0, QueryRequest and QueryResponse 1. */
  const ChallangeType: byte := 0
  const QueryType: byte := 1
  /** SQPChunkType.ServerInfo */
  const ServerInfoChunk: byte := 1
  /** The server's datagram buffer. */
  const BufferSize := 1472
  const MaxStringBytes := 255

  datatype SQPHeader = SQPHeader(msgType: byte, challangeId: uint)
  datatype QueryRequest = QueryRequest(header: SQPHeader, version: ushort, requestedChunks: byte)
  datatype QueryResponseHeader =
    QueryResponseHeader(header: SQPHeader, version: ushort, currentPacket: byte, lastPacket: byte, length: ushort)
  datatype ServerInfoData = ServerInfoData(
    currentPlayers: ushort, maxPlayers: ushort,
    serverName: seq<byte>, gameType: seq<byte>, buildId: seq<byte>, mapName: seq<byte>,
    port: ushort)
  datatype ServerInfo = ServerInfo(queryHeader: QueryResponseHeader, chunkLen: uint, data: ServerInfoData)

  // ---------------------------------------------------------------- integers

  /** WriteNetworkByteOrder(ushort): most significant byte first. */
  function BE16(v: ushort): (r: seq<byte>)
    ensures |r| == 2
  {
    [v / 256, v % 256]
  }

  /** WriteNetworkByteOrder(uint): most significant byte first. */
  function BE32(v: uint): (r: seq<byte>)
    ensures |r| == 4
  {
    SplitBytes4(v);
    [v / 0x100_0000, v / 0x1_0000 % 256, v / 256 % 256, v % 256]
  }

  /** ReadUShortNetworkByteOrder of two bytes. */
  function U16Of(b: seq<byte>): ushort
    requires |b| == 2
  {
    256 * (b[0] as int) + b[1] as int
  }

  /** ReadUIntNetworkByteOrder of four bytes. */
  function U32Of(b: seq<byte>): uint
    requires |b| == 4
  {
    0x100_0000 * (b[0] as int) + 0x1_0000 * (b[1] as int) + 256 * (b[2] as int) + b[3] as int
  }

  /** Big-endian encoding and decoding of a ushort are inverse bijections. */
  lemma BE16Inverse(v: ushort, b: seq<byte>)
    requires |b| == 2
    ensures U16Of(BE16(v)) == v
    ensures BE16(U16Of(b)) == b
  {
    Digits2(b[1], b[0]);
  }

  /** Big-endian encoding and decoding of a uint are inverse bijections. */
  lemma BE32Inverse(v: uint, b: seq<byte>)
    requires |b| == 4
    ensures U32Of(BE32(v)) == v
    ensures BE32(U32Of(b)) == b
  {
    SplitBytes4(v);
    Digits4(b[3], b[2], b[1], b[0]);
  }

  // ---------------------------------------------------------------- decoding primitives
  // Every decoder takes the unread bytes and gives back the value and the bytes after it.

  /** ReadByte. */
  function DecodeByte(b: seq<byte>): (r: Option<(byte, seq<byte>)>)
    ensures r.Some? <==> |b| >= 1
    ensures r.Some? ==> r.value.1 == b[1..]
  {
    if |b| < 1 then None else Some((b[0], b[1..]))
  }

  /** ReadUShortNetworkByteOrder. */
  function DecodeU16(b: seq<byte>): (r: Option<(ushort, seq<byte>)>)
    ensures r.Some? <==> |b| >= 2
    ensures r.Some? ==> r.value.1 == b[2..]
  {
    if |b| < 2 then None else Some((U16Of(b[..2]), b[2..]))
  }

  /** ReadUIntNetworkByteOrder. */
  function DecodeU32(b: seq<byte>): (r: Option<(uint, seq<byte>)>)
    ensures r.Some? <==> |b| >= 4
    ensures r.Some? ==> r.value.1 == b[4..]
  {
    if |b| < 4 then None else Some((U32Of(b[..4]), b[4..]))
  }

  lemma Assoc(a: seq<byte>, b: seq<byte>, c: seq<byte>)
    ensures (a + b) + c == a + (b + c)
  {
  }

  /** A concatenation splits back into its parts. */
  lemma Split(a: seq<byte>, r: seq<byte>)
    ensures (a + r)[..|a|] == a && (a + r)[|a|..] == r
  {
  }

  lemma ByteThen(v: byte, rest: seq<byte>)
    ensures DecodeByte([v] + rest) == Some((v, rest))
  {
    Split([v], rest);
  }

  lemma U16Then(v: ushort, rest: seq<byte>)
    ensures DecodeU16(BE16(v) + rest) == Some((v, rest))
  {
    Split(BE16(v), rest);
    BE16Inverse(v, BE16(v));
  }

  lemma U32Then(v: uint, rest: seq<byte>)
    ensures DecodeU32(BE32(v) + rest) == Some((v, rest))
  {
    Split(BE32(v), rest);
    BE32Inverse(v, BE32(v));
  }

  // ---------------------------------------------------------------- messages

  /** SQPHeader.ToStream: the type byte, then the challenge id. */
  function HeaderBytes(h: SQPHeader): (r: seq<byte>)
    ensures |r| == 5
  {
    [h.msgType] + BE32(h.challangeId)
  }

  /** SQPHeader.FromStream: it fails exactly when fewer than five bytes are left. */
  function DecodeHeader(b: seq<byte>): (r: Option<(SQPHeader, seq<byte>)>)
    ensures r.Some? <==> |b| >= 5
    ensures r.Some? ==> r.value.1 == b[5..]
  {
    match DecodeByte(b)
    case None => None
    case Some((msgType, b1)) =>
      match DecodeU32(b1)
      case None => None
      case Some((challangeId, b2)) =>
        assert b1[4..] == b[5..];
        Some((SQPHeader(msgType, challangeId), b2))
  }

  lemma HeaderRoundTrip(h: SQPHeader, rest: seq<byte>)
    ensures DecodeHeader(HeaderBytes(h) + rest) == Some((h, rest))
  {
    Assoc([h.msgType], BE32(h.challangeId), rest);
    ByteThen(h.msgType, BE32(h.challangeId) + rest);
    U32Then(h.challangeId, rest);
  }

  /** Every five bytes decode to a header that encodes back to them. */
  lemma HeaderBytesDecoded(b: seq<byte>)
    requires |b| >= 5
    ensures HeaderBytes(DecodeHeader(b).value.0) == b[..5]
  {
    assert b[1..][..4] == b[1..5];
    BE32Inverse(0, b[1..5]);
  }

  /** QueryRequest.ToStream: the header, the version and the requested chunks. */
  function QueryRequestBytes(q: QueryRequest): (r: seq<byte>)
    ensures |r| == 8
  {
    HeaderBytes(q.header) + (BE16(q.version) + [q.requestedChunks])
  }

  /** QueryRequest.FromStream: it fails exactly when fewer than eight bytes are left. */
  function DecodeQueryRequest(b: seq<byte>): (r: Option<(QueryRequest, seq<byte>)>)
    ensures r.Some? <==> |b| >= 8
  {
    match DecodeHeader(b)
    case None => None
    case Some((header, b1)) =>
      match DecodeU16(b1)
      case None => None
      case Some((version, b2)) =>
        match DecodeByte(b2)
        case None => None
        case Some((requestedChunks, b3)) => Some((QueryRequest(header, version, requestedChunks), b3))
  }

  lemma QueryRequestRoundTrip(q: QueryRequest, rest: seq<byte>)
    ensures DecodeQueryRequest(QueryRequestBytes(q) + rest) == Some((q, rest))
  {
    var tail := BE16(q.version) + [q.requestedChunks];
    Assoc(HeaderBytes(q.header), tail, rest);
    HeaderRoundTrip(q.header, tail + rest);
    Assoc(BE16(q.version), [q.requestedChunks], rest);
    U16Then(q.version, [q.requestedChunks] + rest);
    ByteThen(q.requestedChunks, rest);
  }

  /** QueryResponseHeader.ToStream: the header, version, packet numbers and the length field last. */
  function ResponseHeaderBytes(h: QueryResponseHeader): (r: seq<byte>)
    ensures |r| == 11
  {
    HeaderBytes(h.header) + (BE16(h.version) + ([h.currentPacket] + ([h.lastPacket] + BE16(h.length))))
  }

  /** QueryResponseHeader.FromStream: it fails exactly when fewer than eleven bytes are left. */
  function DecodeResponseHeader(b: seq<byte>): (r: Option<(QueryResponseHeader, seq<byte>)>)
    ensures r.Some? <==> |b| >= 11
  {
    match DecodeHeader(b)
    case None => None
    case Some((header, b1)) =>
      match DecodeU16(b1)
      case None => None
      case Some((version, b2)) =>
        match DecodeByte(b2)
        case None => None
        case Some((currentPacket, b3)) =>
          match DecodeByte(b3)
          case None => None
          case Some((lastPacket, b4)) =>
            match DecodeU16(b4)
            case None => None
            case Some((length, b5)) =>
              Some((QueryResponseHeader(header, version, currentPacket, lastPacket, length), b5))
  }

  lemma ResponseHeaderRoundTrip(h: QueryResponseHeader, rest: seq<byte>)
    ensures DecodeResponseHeader(ResponseHeaderBytes(h) + rest) == Some((h, rest))
  {
    var t4 := [h.lastPacket] + BE16(h.length);
    var t3 := [h.currentPacket] + t4;
    var t2 := BE16(h.version) + t3;
    Assoc(HeaderBytes(h.header), t2, rest);
    HeaderRoundTrip(h.header, t2 + rest);
    Assoc(BE16(h.version), t3, rest);
    U16Then(h.version, t3 + rest);
    Assoc([h.currentPacket], t4, rest);
    ByteThen(h.currentPacket, t4 + rest);
    Assoc([h.lastPacket], BE16(h.length), rest);
    ByteThen(h.lastPacket, BE16(h.length) + rest);
    U16Then(h.length, rest);
  }

  // ---------------------------------------------------------------- strings

  /** What the encoder keeps of a string: at most 255 bytes. */
  function Truncated(s: seq<byte>): (t: seq<byte>)
    ensures |t| <= MaxStringBytes
    ensures |s| <= MaxStringBytes ==> t == s
  {
    if |s| <= MaxStringBytes then s else s[..MaxStringBytes]
  }

  /** WriteString: a length byte, then that many bytes of the string. */
  function Framed(s: seq<byte>): (r: seq<byte>)
    ensures |r| == 1 + |Truncated(s)| <= 256
  {
    [|Truncated(s)|] + Truncated(s)
  }

  /** ReadString: the length byte, then that many bytes; it fails when fewer are left. */
  function DecodeString(b: seq<byte>): (r: Option<(seq<byte>, seq<byte>)>)
    ensures r.Some? <==> |b| >= 1 && |b| >= 1 + b[0] as int
    ensures r.Some? ==> |r.value.0| <= MaxStringBytes
  {
    match DecodeByte(b)
    case None => None
    case Some((n, b1)) =>
      if |b1| < n as int then None else Some((b1[..n], b1[n..]))
  }

  /** A framed string reads back cut to 255 bytes. */
  lemma StringRoundTrip(s: seq<byte>, rest: seq<byte>)
    ensures DecodeString(Framed(s) + rest) == Some((Truncated(s), rest))
  {
    var t := Truncated(s);
    Assoc([|t|], t, rest);
    ByteThen(|t|, t + rest);
    Split(t, rest);
  }

  /** The data as the receiver sees it: every string cut to what fits its length byte. */
  function Received(d: ServerInfoData): (r: ServerInfoData)
    ensures (&& |d.serverName| <= MaxStringBytes && |d.gameType| <= MaxStringBytes
             && |d.buildId| <= MaxStringBytes && |d.mapName| <= MaxStringBytes) ==> r == d
  {
    d.(serverName := Truncated(d.serverName), gameType := Truncated(d.gameType),
       buildId := Truncated(d.buildId), mapName := Truncated(d.mapName))
  }

  /** ServerInfo.Data.ToStream: the player counts, the four framed strings and the port. */
  function DataBytes(d: ServerInfoData): (r: seq<byte>)
    ensures 8 <= |r| <= 4 + 4 * 256 + 2
  {
    BE16(d.currentPlayers) + (BE16(d.maxPlayers)
      + (Framed(d.serverName) + (Framed(d.gameType) + (Framed(d.buildId) + (Framed(d.mapName)
      + BE16(d.port))))))
  }

  /** ServerInfo.Data.FromStream: the player counts, the four strings, then the port. */
  function DecodeData(b: seq<byte>): (r: Option<(ServerInfoData, seq<byte>)>)
  {
    match DecodeU16(b)
    case None => None
    case Some((currentPlayers, b1)) =>
      match DecodeU16(b1)
      case None => None
      case Some((maxPlayers, b2)) =>
        match DecodeString(b2)
        case None => None
        case Some((serverName, b3)) =>
          match DecodeString(b3)
          case None => None
          case Some((gameType, b4)) =>
            match DecodeString(b4)
            case None => None
            case Some((buildId, b5)) =>
              match DecodeString(b5)
              case None => None
              case Some((mapName, b6)) =>
                match DecodeU16(b6)
                case None => None
                case Some((port, b7)) =>
                  Some((ServerInfoData(currentPlayers, maxPlayers, serverName, gameType, buildId, mapName, port), b7))
  }

  /** DecodeData over bytes whose seven fields are known to decode one after the other. */
  lemma DataDecoded(b0: seq<byte>, b1: seq<byte>, b2: seq<byte>, b3: seq<byte>, b4: seq<byte>, b5: seq<byte>,
                    b6: seq<byte>, b7: seq<byte>, d: ServerInfoData)
    requires DecodeU16(b0) == Some((d.currentPlayers, b1)) && DecodeU16(b1) == Some((d.maxPlayers, b2))
    requires DecodeString(b2) == Some((d.serverName, b3)) && DecodeString(b3) == Some((d.gameType, b4))
    requires DecodeString(b4) == Some((d.buildId, b5)) && DecodeString(b5) == Some((d.mapName, b6))
    requires DecodeU16(b6) == Some((d.port, b7))
    ensures DecodeData(b0) == Some((d, b7))
  {
  }

  /** The data reads back as sent, each string cut to 255 bytes. */
  lemma DataRoundTrip(d: ServerInfoData, rest: seq<byte>)
    ensures DecodeData(DataBytes(d) + rest) == Some((Received(d), rest))
  {
    var f1, f2, f3, f4 := Framed(d.serverName), Framed(d.gameType), Framed(d.buildId), Framed(d.mapName);
    var q4 := f4 + BE16(d.port);
    var q3 := f3 + q4;
    var q2 := f2 + q3;
    var q1 := f1 + q2;
    var q0 := BE16(d.maxPlayers) + q1;
    var b0 := DataBytes(d) + rest;
    Assoc(BE16(d.currentPlayers), q0, rest);
    U16Then(d.currentPlayers, q0 + rest);
    Assoc(BE16(d.maxPlayers), q1, rest);
    U16Then(d.maxPlayers, q1 + rest);
    Assoc(f1, q2, rest);
    StringRoundTrip(d.serverName, q2 + rest);
    Assoc(f2, q3, rest);
    StringRoundTrip(d.gameType, q3 + rest);
    Assoc(f3, q4, rest);
    StringRoundTrip(d.buildId, q4 + rest);
    Assoc(f4, BE16(d.port), rest);
    StringRoundTrip(d.mapName, BE16(d.port) + rest);
    U16Then(d.port, rest);
    DataDecoded(b0, q0 + rest, q1 + rest, q2 + rest, q3 + rest, q4 + rest, BE16(d.port) + rest, rest, Received(d));
  }

  /** ServerInfo.ToStream: the response header, the chunk length, then the data. */
  function InfoBytes(i: ServerInfo): (r: seq<byte>)
    ensures |r| == 15 + |DataBytes(i.data)|
  {
    ResponseHeaderBytes(i.queryHeader) + (BE32(i.chunkLen) + DataBytes(i.data))
  }

  /** ServerInfo.FromStream: the response header, the chunk length, then the data. */
  function DecodeInfo(b: seq<byte>): (r: Option<(ServerInfo, seq<byte>)>)
  {
    match DecodeResponseHeader(b)
    case None => None
    case Some((queryHeader, b1)) =>
      match DecodeU32(b1)
      case None => None
      case Some((chunkLen, b2)) =>
        match DecodeData(b2)
        case None => None
        case Some((data, b3)) => Some((ServerInfo(queryHeader, chunkLen, data), b3))
  }

  /** The message reads back as sent, each string of the data cut to 255 bytes. */
  lemma InfoRoundTrip(i: ServerInfo, rest: seq<byte>)
    ensures DecodeInfo(InfoBytes(i) + rest) == Some((i.(data := Received(i.data)), rest))
  {
    var tail := BE32(i.chunkLen) + DataBytes(i.data);
    Assoc(ResponseHeaderBytes(i.queryHeader), tail, rest);
    ResponseHeaderRoundTrip(i.queryHeader, tail + rest);
    Assoc(BE32(i.chunkLen), DataBytes(i.data), rest);
    U32Then(i.chunkLen, DataBytes(i.data) + rest);
    DataRoundTrip(i.data, rest);
  }

  /** GetNextToken: 30 random bits shifted up by two, ORed with 2 more random bits. */
  function NextToken(thirtyBits: int, twoBits: int): (token: uint)
    requires 0 <= thirtyBits < 0x4000_0000 && 0 <= twoBits < 4
    ensures token / 4 == thirtyBits && token % 4 == twoBits
  {
    thirtyBits * 4 + twoBits
  }

  // ---------------------------------------------------------------- writing

  /** SQPHeader.ToStream: writes the header; a write past the capacity fails and stops. */
  method HeaderToStream(writer: DataStreamWriter, h: SQPHeader) returns (ok: bool)
    requires writer.Valid()
    modifies writer, writer.buffer
    ensures writer.Valid() && writer.buffer == old(writer.buffer)
    ensures ok <==> old(writer.Length()) + 5 <= writer.Capacity()
    ensures ok ==> writer.Data() == old(writer.Data()) + HeaderBytes(h) && writer.bitIndex == 0
  {
    var mark;
    ok, mark := writer.WriteByte(h.msgType);
    if !ok {
      return;
    }
    ok, mark := writer.WriteUIntNetworkByteOrder(h.challangeId);
  }

  /** ChallangeRequest.ToStream and ChallangeResponse.ToStream: the header, typed as a challenge. */
  method ChallangeToStream(writer: DataStreamWriter, h: SQPHeader) returns (ok: bool, sent: SQPHeader)
    requires writer.Valid()
    modifies writer, writer.buffer
    ensures writer.Valid() && writer.buffer == old(writer.buffer)
    ensures sent == h.(msgType := ChallangeType)
    ensures ok <==> old(writer.Length()) + 5 <= writer.Capacity()
    ensures ok ==> writer.Data() == old(writer.Data()) + HeaderBytes(sent) && writer.bitIndex == 0
  {
    sent := h.(msgType := ChallangeType);
    ok := HeaderToStream(writer, sent);
  }

  /** QueryRequest.ToStream: typed as a query, then the version and the requested chunks. */
  method QueryRequestToStream(writer: DataStreamWriter, q: QueryRequest) returns (ok: bool, sent: QueryRequest)
    requires writer.Valid()
    modifies writer, writer.buffer
    ensures writer.Valid() && writer.buffer == old(writer.buffer)
    ensures sent == q.(header := q.header.(msgType := QueryType))
    ensures ok <==> old(writer.Length()) + 8 <= writer.Capacity()
    ensures ok ==> writer.Data() == old(writer.Data()) + QueryRequestBytes(sent) && writer.bitIndex == 0
  {
    sent := q.(header := q.header.(msgType := QueryType));
    Assoc(writer.Data(), HeaderBytes(sent.header), BE16(sent.version) + [sent.requestedChunks]);
    Assoc(writer.Data() + HeaderBytes(sent.header), BE16(sent.version), [sent.requestedChunks]);
    ok := HeaderToStream(writer, sent.header);
    if !ok {
      return;
    }
    var mark;
    ok, mark := writer.WriteUShortNetworkByteOrder(sent.version);
    if !ok {
      return;
    }
    ok, mark := writer.WriteByte(sent.requestedChunks);
  }

  /** The response header written after some bytes, in the order the writer appends its parts. */
  lemma AppendedResponseHeader(before: seq<byte>, h: QueryResponseHeader)
    ensures before + ResponseHeaderBytes(h)
      == before + HeaderBytes(h.header) + BE16(h.version) + [h.currentPacket] + [h.lastPacket] + BE16(h.length)
  {
    var t4 := [h.lastPacket] + BE16(h.length);
    var t3 := [h.currentPacket] + t4;
    var t2 := BE16(h.version) + t3;
    Assoc(before, HeaderBytes(h.header), t2);
    Assoc(before + HeaderBytes(h.header), BE16(h.version), t3);
    Assoc(before + HeaderBytes(h.header) + BE16(h.version), [h.currentPacket], t4);
    Assoc(before + HeaderBytes(h.header) + BE16(h.version) + [h.currentPacket], [h.lastPacket], BE16(h.length));
  }

  /**
   * QueryResponseHeader.ToStream: typed as a query response; lengthMark is
   * where the length field went, for the deferred update once the body is known.
   */
  method ResponseHeaderToStream(writer: DataStreamWriter, h: QueryResponseHeader)
    returns (ok: bool, sent: QueryResponseHeader, lengthMark: int)
    requires writer.Valid()
    modifies writer, writer.buffer
    ensures writer.Valid() && writer.buffer == old(writer.buffer)
    ensures sent == h.(header := h.header.(msgType := QueryType))
    ensures ok <==> old(writer.Length()) + 11 <= writer.Capacity()
    ensures ok ==> writer.Data() == old(writer.Data()) + ResponseHeaderBytes(sent) && writer.bitIndex == 0
    ensures ok ==> lengthMark == old(writer.Length()) + 9
  {
    sent := h.(header := h.header.(msgType := QueryType));
    AppendedResponseHeader(writer.Data(), sent);
    lengthMark := 0;
    ok := HeaderToStream(writer, sent.header);
    if !ok {
      return;
    }
    var mark;
    ok, mark := writer.WriteUShortNetworkByteOrder(sent.version);
    if !ok {
      return;
    }
    ok, mark := writer.WriteByte(sent.currentPacket);
    if !ok {
      return;
    }
    ok, mark := writer.WriteByte(sent.lastPacket);
    if !ok {
      return;
    }
    ok, lengthMark := writer.WriteUShortNetworkByteOrder(sent.length);
  }

  /** WriteString: the length byte of the kept bytes, then the kept bytes. */
  method StringToStream(writer: DataStreamWriter, value: seq<byte>) returns (ok: bool)
    requires writer.Valid()
    modifies writer, writer.buffer
    ensures writer.Valid() && writer.buffer == old(writer.buffer)
    ensures ok <==> old(writer.Length()) + |Framed(value)| <= writer.Capacity()
    ensures ok ==> writer.Data() == old(writer.Data()) + Framed(value) && writer.bitIndex == 0
  {
    var bytes := Truncated(value);
    var mark;
    ok, mark := writer.WriteByte(|bytes|);
    if !ok {
      return;
    }
    ok := writer.WriteBytes(bytes);
  }

  /** The data written after some bytes, in the order the writer appends its parts. */
  lemma AppendedData(before: seq<byte>, d: ServerInfoData)
    ensures before + DataBytes(d)
      == before + BE16(d.currentPlayers) + BE16(d.maxPlayers) + Framed(d.serverName) + Framed(d.gameType)
         + Framed(d.buildId) + Framed(d.mapName) + BE16(d.port)
  {
    var f1, f2, f3, f4 := Framed(d.serverName), Framed(d.gameType), Framed(d.buildId), Framed(d.mapName);
    var q4 := f4 + BE16(d.port);
    var q3 := f3 + q4;
    var q2 := f2 + q3;
    var q1 := f1 + q2;
    var q0 := BE16(d.maxPlayers) + q1;
    Assoc(before, BE16(d.currentPlayers), q0);
    Assoc(before + BE16(d.currentPlayers), BE16(d.maxPlayers), q1);
    Assoc(before + BE16(d.currentPlayers) + BE16(d.maxPlayers), f1, q2);
    Assoc(before + BE16(d.currentPlayers) + BE16(d.maxPlayers) + f1, f2, q3);
    Assoc(before + BE16(d.currentPlayers) + BE16(d.maxPlayers) + f1 + f2, f3, q4);
    Assoc(before + BE16(d.currentPlayers) + BE16(d.maxPlayers) + f1 + f2 + f3, f4, BE16(d.port));
  }

  /** ServerInfo.Data.ToStream. */
  method DataToStream(writer: DataStreamWriter, d: ServerInfoData) returns (ok: bool)
    requires writer.Valid()
    modifies writer, writer.buffer
    ensures writer.Valid() && writer.buffer == old(writer.buffer)
    ensures ok <==> old(writer.Length()) + |DataBytes(d)| <= writer.Capacity()
    ensures ok ==> writer.Data() == old(writer.Data()) + DataBytes(d) && writer.bitIndex == 0
  {
    ghost var before := writer.Data();
    AppendedData(before, d);
    var mark;
    ok, mark := writer.WriteUShortNetworkByteOrder(d.currentPlayers);
    if !ok {
      return;
    }
    ok, mark := writer.WriteUShortNetworkByteOrder(d.maxPlayers);
    if !ok {
      return;
    }
    ok := StringToStream(writer, d.serverName);
    if !ok {
      return;
    }
    ok := StringToStream(writer, d.gameType);
    if !ok {
      return;
    }
    ok := StringToStream(writer, d.buildId);
    if !ok {
      return;
    }
    ok := StringToStream(writer, d.mapName);
    if !ok {
      return;
    }
    ok, mark := writer.WriteUShortNetworkByteOrder(d.port);
  }

  /** Subtracting the wrapped start from the wrapped or unwrapped end gives back the distance. */
  lemma WrappedDistance(a: int, d: int, u: int)
    requires u > 0 && 0 <= d < u
    ensures ((a + d) % u - a % u) % u == d
    ensures ((a + d) - a % u) % u == d
  {
    var q1, q2 := (a + d) / u, a / u;
    assert a + d == u * q1 + (a + d) % u;
    assert a == u * q2 + a % u;
    DivUnique((a + d) % u - a % u, u, q2 - q1, d);
    DivUnique((a + d) - a % u, u, q2, d);
  }

  /** `(uint)end - (uint)start` is the distance from start to end, in unsigned 32-bit arithmetic. */
  lemma ChunkDistance(start: int, end: int)
    requires 0 <= end - start < U32
    ensures ToU32(ToU32(end) - ToU32(start)) == end - start
  {
    WrappedDistance(start, end - start, U32);
  }

  /** `(ushort)(end - (ushort)start)` is the distance from start to end when it fits 16 bits. */
  lemma LengthDistance(start: int, end: int)
    requires 0 <= end - start < U16
    ensures ToU16(end - ToU16(start)) == end - start
  {
    WrappedDistance(start, end - start, U16);
  }

  /** The two sizes ServerInfo.ToStream computes from the writer's length, for data of n bytes written at m. */
  lemma SizesComputed(m: int, n: int, start: ushort, chunkStart: uint, end: int)
    requires 0 <= n < U16 - 4 && start == ToU16(m + 11) && chunkStart == ToU32(m + 15) && end == m + 15 + n
    ensures ToU32(ToU32(end) - chunkStart) == n && ToU16(end - start) == 4 + n
  {
    ChunkDistance(m + 15, end);
    LengthDistance(m + 11, end);
  }

  /**
   * The message as ServerInfo.ToStream sends it: typed as a query response,
   * with the length field counting the bytes after the header and the chunk
   * length counting the bytes of the data.
   */
  function Described(i: ServerInfo): (r: ServerInfo)
    ensures r.data == i.data && r.queryHeader.header == i.queryHeader.header.(msgType := QueryType)
    ensures r.queryHeader.version == i.queryHeader.version
    ensures r.queryHeader.currentPacket == i.queryHeader.currentPacket
    ensures r.queryHeader.lastPacket == i.queryHeader.lastPacket
    ensures r.queryHeader.length as int + 11 == |InfoBytes(r)|
    ensures r.chunkLen as int + 15 == |InfoBytes(r)|
  {
    var n := |DataBytes(i.data)|;
    i.(queryHeader := i.queryHeader.(header := i.queryHeader.header.(msgType := QueryType), length := 4 + n),
       chunkLen := n)
  }

  /** The response header is its first nine bytes followed by the length field. */
  lemma LengthFieldLast(h: QueryResponseHeader)
    ensures ResponseHeaderBytes(h)
      == HeaderBytes(h.header) + (BE16(h.version) + ([h.currentPacket] + [h.lastPacket])) + BE16(h.length)
  {
    var t4 := [h.lastPacket] + BE16(h.length);
    Assoc(HeaderBytes(h.header), BE16(h.version) + ([h.currentPacket] + [h.lastPacket]), BE16(h.length));
    Assoc(BE16(h.version), [h.currentPacket] + [h.lastPacket], BE16(h.length));
    Assoc([h.currentPacket], [h.lastPacket], BE16(h.length));
  }

  /**
   * Overwriting the length field, then the chunk length, of a server info
   * written after some bytes gives the server info with those two fields.
   */
  lemma LengthsUpdated(before: seq<byte>, i: ServerInfo, length: ushort, chunkLen: uint)
    ensures
      var m := |before|;
      var x := before + InfoBytes(i);
      var y := x[..m + 9] + BE16(length) + x[m + 11..];
      y[..m + 11] + BE32(chunkLen) + y[m + 15..]
        == before + InfoBytes(i.(queryHeader := i.queryHeader.(length := length), chunkLen := chunkLen))
  {
    var h := i.queryHeader;
    var h' := h.(length := length);
    var p := HeaderBytes(h.header) + (BE16(h.version) + ([h.currentPacket] + [h.lastPacket]));
    var t := DataBytes(i.data);
    LengthFieldLast(h);
    LengthFieldLast(h');
    var m := |before|;
    var x := before + InfoBytes(i);
    var a := before + p;
    assert x == a + (BE16(h.length) + (BE32(i.chunkLen) + t)) by {
      Assoc(before, p + BE16(h.length), BE32(i.chunkLen) + t);
      Assoc(p, BE16(h.length), BE32(i.chunkLen) + t);
      Assoc(before, p, BE16(h.length) + (BE32(i.chunkLen) + t));
    }
    Split(a, BE16(h.length) + (BE32(i.chunkLen) + t));
    Split(BE16(h.length), BE32(i.chunkLen) + t);
    var y := x[..m + 9] + BE16(length) + x[m + 11..];
    assert y == (a + BE16(length)) + (BE32(i.chunkLen) + t);
    Split(a + BE16(length), BE32(i.chunkLen) + t);
    Split(BE32(i.chunkLen), t);
    var z := y[..m + 11] + BE32(chunkLen) + y[m + 15..];
    assert z == (a + BE16(length)) + BE32(chunkLen) + t;
    calc {
      z;
      (before + p + BE16(length)) + BE32(chunkLen) + t;
      { Assoc(before, p, BE16(length)); }
      (before + ResponseHeaderBytes(h')) + BE32(chunkLen) + t;
      { Assoc(before + ResponseHeaderBytes(h'), BE32(chunkLen), t);
        Assoc(before, ResponseHeaderBytes(h'), BE32(chunkLen) + t); }
      before + (ResponseHeaderBytes(h') + (BE32(chunkLen) + t));
    }
  }

  /**
   * The first part of ServerInfo.ToStream: the response header, a zero chunk
   * length and the data, with the marks of both size fields and the
   * writer's length (cast as the source casts it) before the chunk length
   * and before the data.
   */
  method DraftToStream(writer: DataStreamWriter, info: ServerInfo)
    returns (ok: bool, draft: ServerInfo, lengthMark: int, chunkMark: int, start: ushort, chunkStart: uint)
    requires writer.Valid()
    modifies writer, writer.buffer
    ensures writer.Valid() && writer.buffer == old(writer.buffer)
    ensures draft == info.(queryHeader := info.queryHeader.(header := info.queryHeader.header.(msgType := QueryType)), chunkLen := 0)
    ensures ok <==> old(writer.Length()) + |InfoBytes(info)| <= writer.Capacity()
    ensures ok ==> writer.Data() == old(writer.Data()) + InfoBytes(draft) && writer.bitIndex == 0
    ensures ok ==> lengthMark == old(writer.Length()) + 9 && chunkMark == old(writer.Length()) + 11
    ensures ok ==> start == ToU16(old(writer.Length()) + 11) && chunkStart == ToU32(old(writer.Length()) + 15)
  {
    ghost var before := writer.Data();
    ghost var m := |before|;
    var queryHeader;
    draft := info.(queryHeader := info.queryHeader.(header := info.queryHeader.header.(msgType := QueryType)), chunkLen := 0);
    chunkMark, start, chunkStart := 0, 0, 0;
    ok, queryHeader, lengthMark := ResponseHeaderToStream(writer, info.queryHeader);
    if !ok {
      return;
    }
    assert writer.Length() == m + 11;
    start := ToU16(writer.Length());
    ok, chunkMark := writer.WriteUIntNetworkByteOrder(0);
    if !ok {
      return;
    }
    assert writer.Length() == m + 15;
    chunkStart := ToU32(writer.Length());
    ok := DataToStream(writer, info.data);
    if !ok {
      return;
    }
    Assoc(before, ResponseHeaderBytes(queryHeader), BE32(0));
    Assoc(before + ResponseHeaderBytes(queryHeader), BE32(0), DataBytes(info.data));
    Assoc(before, ResponseHeaderBytes(queryHeader), BE32(0) + DataBytes(info.data));
  }

  /**
   * ServerInfo.ToStream: the draft, then both size fields overwritten with
   * the sizes the writer's length shows; sent is the message as updated.
   */
  method ServerInfoToStream(writer: DataStreamWriter, info: ServerInfo) returns (ok: bool, sent: ServerInfo)
    requires writer.Valid()
    modifies writer, writer.buffer
    ensures writer.Valid() && writer.buffer == old(writer.buffer)
    ensures ok <==> old(writer.Length()) + |InfoBytes(info)| <= writer.Capacity()
    ensures ok ==> sent == Described(info)
    ensures ok ==> writer.Data() == old(writer.Data()) + InfoBytes(sent) && writer.bitIndex == 0
  {
    ghost var before := writer.Data();
    ghost var m := |before|;
    var draft, lengthMark, chunkMark, start, chunkStart;
    sent := info;
    ok, draft, lengthMark, chunkMark, start, chunkStart := DraftToStream(writer, info);
    if !ok {
      return;
    }
    ghost var x := writer.Data();
    ghost var n := |DataBytes(info.data)|;
    var end := writer.Length();
    assert end == m + 15 + n;
    SizesComputed(m, n, start, chunkStart, end);
    var chunkLen := ToU32(ToU32(end) - chunkStart);
    var length := ToU16(end - start);
    var updated;
    updated := writer.UpdateUShortNetworkByteOrder(lengthMark, length);
    ghost var y := writer.Data();
    assert y == x[..m + 9] + BE16(length) + x[m + 11..];
    updated := writer.UpdateUIntNetworkByteOrder(chunkMark, chunkLen);
    assert writer.Data() == y[..m + 11] + BE32(chunkLen) + y[m + 15..];
    LengthsUpdated(before, draft, length, chunkLen);
    sent := ServerInfo(draft.queryHeader.(length := length), chunkLen, info.data);
    ghost var described := Described(info);
    assert sent.queryHeader == described.queryHeader;
  }

  // ---------------------------------------------------------------- reading

  /** The decoders over the bytes from position i of a reader's data. */
  lemma ByteAt(data: seq<byte>, i: int)
    requires 0 <= i < |data|
    ensures DecodeByte(data[i..]) == Some((data[i], data[i + 1..]))
  {
    assert data[i..][1..] == data[i + 1..];
  }

  lemma U16At(data: seq<byte>, i: int)
    requires 0 <= i && i + 2 <= |data|
    ensures DecodeU16(data[i..]) == Some((256 * data[i] as int + data[i + 1] as int, data[i + 2..]))
  {
    assert data[i..][2..] == data[i + 2..];
  }

  lemma U32At(data: seq<byte>, i: int)
    requires 0 <= i && i + 4 <= |data|
    ensures DecodeU32(data[i..]) == Some((0x100_0000 * data[i] as int + 0x1_0000 * data[i + 1] as int
      + 256 * data[i + 2] as int + data[i + 3] as int, data[i + 4..]))
  {
    assert data[i..][4..] == data[i + 4..];
  }

  /** ReadByte, stated with DecodeByte. */
  method ByteFromStream(reader: DataStreamReader, ctx: ReaderContext) returns (ok: bool, v: byte)
    requires reader.ValidContext(ctx)
    modifies ctx
    ensures reader.ValidContext(ctx)
    ensures ok <==> DecodeByte(reader.data[old(reader.GetBytesRead(ctx))..]).Some?
    ensures ok ==> DecodeByte(reader.data[old(reader.GetBytesRead(ctx))..]) == Some((v, reader.data[reader.GetBytesRead(ctx)..]))
  {
    ghost var start := reader.GetBytesRead(ctx);
    ok, v := reader.ReadByte(ctx);
    if ok {
      ByteAt(reader.data, start);
    }
  }

  /** ReadUShortNetworkByteOrder, stated with DecodeU16. */
  method U16FromStream(reader: DataStreamReader, ctx: ReaderContext) returns (ok: bool, v: ushort)
    requires reader.ValidContext(ctx)
    modifies ctx
    ensures reader.ValidContext(ctx)
    ensures ok <==> DecodeU16(reader.data[old(reader.GetBytesRead(ctx))..]).Some?
    ensures ok ==> DecodeU16(reader.data[old(reader.GetBytesRead(ctx))..]) == Some((v, reader.data[reader.GetBytesRead(ctx)..]))
  {
    ghost var start := reader.GetBytesRead(ctx);
    ok, v := reader.ReadUShortNetworkByteOrder(ctx);
    if ok {
      U16At(reader.data, start);
    }
  }

  /** ReadUIntNetworkByteOrder, stated with DecodeU32. */
  method U32FromStream(reader: DataStreamReader, ctx: ReaderContext) returns (ok: bool, v: uint)
    requires reader.ValidContext(ctx)
    modifies ctx
    ensures reader.ValidContext(ctx)
    ensures ok <==> DecodeU32(reader.data[old(reader.GetBytesRead(ctx))..]).Some?
    ensures ok ==> DecodeU32(reader.data[old(reader.GetBytesRead(ctx))..]) == Some((v, reader.data[reader.GetBytesRead(ctx)..]))
  {
    ghost var start := reader.GetBytesRead(ctx);
    ok, v := reader.ReadUIntNetworkByteOrder(ctx);
    if ok {
      U32At(reader.data, start);
    }
  }

  /** SQPHeader.FromStream: a read past the end fails (the source throws) and stops. */
  method HeaderFromStream(reader: DataStreamReader, ctx: ReaderContext) returns (ok: bool, h: SQPHeader)
    requires reader.ValidContext(ctx)
    modifies ctx
    ensures reader.ValidContext(ctx)
    ensures ok <==> DecodeHeader(reader.data[old(reader.GetBytesRead(ctx))..]).Some?
    ensures ok ==> DecodeHeader(reader.data[old(reader.GetBytesRead(ctx))..]) == Some((h, reader.data[reader.GetBytesRead(ctx)..]))
  {
    ghost var start := reader.GetBytesRead(ctx);
    h := SQPHeader(0, 0);
    var msgType, challangeId;
    ok, msgType := ByteFromStream(reader, ctx);
    if !ok {
      return;
    }
    ok, challangeId := U32FromStream(reader, ctx);
    if !ok {
      return;
    }
    h := SQPHeader(msgType, challangeId);
  }

  /** QueryRequest.FromStream. */
  method QueryRequestFromStream(reader: DataStreamReader, ctx: ReaderContext) returns (ok: bool, q: QueryRequest)
    requires reader.ValidContext(ctx)
    modifies ctx
    ensures reader.ValidContext(ctx)
    ensures ok <==> DecodeQueryRequest(reader.data[old(reader.GetBytesRead(ctx))..]).Some?
    ensures ok ==> DecodeQueryRequest(reader.data[old(reader.GetBytesRead(ctx))..]) == Some((q, reader.data[reader.GetBytesRead(ctx)..]))
  {
    ghost var start := reader.GetBytesRead(ctx);
    q := QueryRequest(SQPHeader(0, 0), 0, 0);
    var header, version, requestedChunks;
    ok, header := HeaderFromStream(reader, ctx);
    if !ok {
      return;
    }
    ok, version := U16FromStream(reader, ctx);
    if !ok {
      return;
    }
    ok, requestedChunks := ByteFromStream(reader, ctx);
    if !ok {
      return;
    }
    q := QueryRequest(header, version, requestedChunks);
  }

  /** QueryResponseHeader.FromStream. */
  method ResponseHeaderFromStream(reader: DataStreamReader, ctx: ReaderContext) returns (ok: bool, h: QueryResponseHeader)
    requires reader.ValidContext(ctx)
    modifies ctx
    ensures reader.ValidContext(ctx)
    ensures ok <==> DecodeResponseHeader(reader.data[old(reader.GetBytesRead(ctx))..]).Some?
    ensures ok ==> DecodeResponseHeader(reader.data[old(reader.GetBytesRead(ctx))..]) == Some((h, reader.data[reader.GetBytesRead(ctx)..]))
  {
    ghost var start := reader.GetBytesRead(ctx);
    h := QueryResponseHeader(SQPHeader(0, 0), 0, 0, 0, 0);
    var header, version, currentPacket, lastPacket, length;
    ok, header := HeaderFromStream(reader, ctx);
    if !ok {
      return;
    }
    ok, version := U16FromStream(reader, ctx);
    if !ok {
      return;
    }
    ok, currentPacket := ByteFromStream(reader, ctx);
    if !ok {
      return;
    }
    ok, lastPacket := ByteFromStream(reader, ctx);
    if !ok {
      return;
    }
    ok, length := U16FromStream(reader, ctx);
    if !ok {
      return;
    }
    h := QueryResponseHeader(header, version, currentPacket, lastPacket, length);
  }

  /** ReadString: the length byte, then that many bytes. */
  method StringFromStream(reader: DataStreamReader, ctx: ReaderContext) returns (ok: bool, value: seq<byte>)
    requires reader.ValidContext(ctx)
    modifies ctx
    ensures reader.ValidContext(ctx)
    ensures ok <==> DecodeString(reader.data[old(reader.GetBytesRead(ctx))..]).Some?
    ensures ok ==> DecodeString(reader.data[old(reader.GetBytesRead(ctx))..]) == Some((value, reader.data[reader.GetBytesRead(ctx)..]))
  {
    ghost var start := reader.GetBytesRead(ctx);
    value := [];
    var length;
    ok, length := ByteFromStream(reader, ctx);
    if !ok {
      return;
    }
    ok, value := reader.ReadBytes(ctx, length as int);
    if !ok {
      return;
    }
    ghost var b1 := reader.data[start + 1..];
    assert b1[..length] == value && b1[length..] == reader.data[start + 1 + length as int..];
  }

  /** ServerInfo.Data.FromStream. */
  method DataFromStream(reader: DataStreamReader, ctx: ReaderContext) returns (ok: bool, d: ServerInfoData)
    requires reader.ValidContext(ctx)
    modifies ctx
    ensures reader.ValidContext(ctx)
    ensures ok <==> DecodeData(reader.data[old(reader.GetBytesRead(ctx))..]).Some?
    ensures ok ==> DecodeData(reader.data[old(reader.GetBytesRead(ctx))..]) == Some((d, reader.data[reader.GetBytesRead(ctx)..]))
  {
    var data := reader.data;
    ghost var p0 := reader.GetBytesRead(ctx);
    d := ServerInfoData(0, 0, [], [], [], [], 0);
    var currentPlayers, maxPlayers, serverName, gameType, buildId, mapName, port;
    ok, currentPlayers := U16FromStream(reader, ctx);
    if !ok {
      return;
    }
    ghost var p1 := reader.GetBytesRead(ctx);
    assert DecodeU16(data[p0..]) == Some((currentPlayers, data[p1..]));
    ok, maxPlayers := U16FromStream(reader, ctx);
    if !ok {
      return;
    }
    ghost var p2 := reader.GetBytesRead(ctx);
    assert DecodeU16(data[p1..]) == Some((maxPlayers, data[p2..]));
    ok, serverName := StringFromStream(reader, ctx);
    if !ok {
      return;
    }
    ghost var p3 := reader.GetBytesRead(ctx);
    assert DecodeString(data[p2..]) == Some((serverName, data[p3..]));
    ok, gameType := StringFromStream(reader, ctx);
    if !ok {
      return;
    }
    ghost var p4 := reader.GetBytesRead(ctx);
    assert DecodeString(data[p3..]) == Some((gameType, data[p4..]));
    ok, buildId := StringFromStream(reader, ctx);
    if !ok {
      return;
    }
    ghost var p5 := reader.GetBytesRead(ctx);
    assert DecodeString(data[p4..]) == Some((buildId, data[p5..]));
    ok, mapName := StringFromStream(reader, ctx);
    if !ok {
      return;
    }
    ghost var p6 := reader.GetBytesRead(ctx);
    assert DecodeString(data[p5..]) == Some((mapName, data[p6..]));
    ok, port := U16FromStream(reader, ctx);
    if !ok {
      return;
    }
    ghost var p7 := reader.GetBytesRead(ctx);
    assert DecodeU16(data[p6..]) == Some((port, data[p7..]));
    d := ServerInfoData(currentPlayers, maxPlayers, serverName, gameType, buildId, mapName, port);
    DataDecoded(data[p0..], data[p1..], data[p2..], data[p3..], data[p4..], data[p5..], data[p6..], data[p7..], d);
  }

  /** ServerInfo.FromStream. */
  method InfoFromStream(reader: DataStreamReader, ctx: ReaderContext) returns (ok: bool, info: ServerInfo)
    requires reader.ValidContext(ctx)
    modifies ctx
    ensures reader.ValidContext(ctx)
    ensures ok <==> DecodeInfo(reader.data[old(reader.GetBytesRead(ctx))..]).Some?
    ensures ok ==> DecodeInfo(reader.data[old(reader.GetBytesRead(ctx))..]) == Some((info, reader.data[reader.GetBytesRead(ctx)..]))
  {
    ghost var start := reader.GetBytesRead(ctx);
    info := ServerInfo(QueryResponseHeader(SQPHeader(0, 0), 0, 0, 0, 0), 0, ServerInfoData(0, 0, [], [], [], [], 0));
    var queryHeader, chunkLen, d;
    var data := reader.data;
    ok, queryHeader := ResponseHeaderFromStream(reader, ctx);
    if !ok {
      return;
    }
    ghost var p1 := reader.GetBytesRead(ctx);
    assert DecodeResponseHeader(data[start..]) == Some((queryHeader, data[p1..]));
    ok, chunkLen := U32FromStream(reader, ctx);
    if !ok {
      return;
    }
    ghost var p2 := reader.GetBytesRead(ctx);
    assert DecodeU32(data[p1..]) == Some((chunkLen, data[p2..]));
    ok, d := DataFromStream(reader, ctx);
    if !ok {
      return;
    }
    ghost var p3 := reader.GetBytesRead(ctx);
    assert DecodeData(data[p2..]) == Some((d, data[p3..]));
    info := ServerInfo(queryHeader, chunkLen, d);
  }

  // ---------------------------------------------------------------- the server

  /**
   * The server info a query is answered with: the stored one with the
   * endpoint's token as its challenge id, sent as ServerInfo.ToStream sends it.
   */
  function Served(info: ServerInfo, token: uint): (r: ServerInfo)
    ensures r.queryHeader.header == SQPHeader(QueryType, token) && r.data == info.data
    ensures r.queryHeader.length as int + 11 == |InfoBytes(r)| == r.chunkLen as int + 15
  {
    Described(info.(queryHeader := info.queryHeader.(header := info.queryHeader.header.(challangeId := token))))
  }

  /** What one received datagram does: the new token table, the new stored server info and the reply, if any. */
  datatype Outcome<E> = Outcome(tokens: map<E, uint>, info: ServerInfo, reply: Option<seq<byte>>)

  /**
   * SQPServer.Update for one datagram from endpoint; token is what
   * GetNextToken would give. A datagram too short for what is read from it
   * makes the source throw: nothing more happens, but a token already
   * removed stays removed.
   */
  function Handled<E(==)>(tokens: map<E, uint>, info: ServerInfo, endpoint: E, packet: seq<byte>, token: uint): (r: Outcome<E>)
    ensures r.tokens - {endpoint} == tokens - {endpoint}
    ensures r.reply.Some? ==> |r.reply.value| <= BufferSize
    ensures r.reply.Some? ==> (endpoint in r.tokens <==> endpoint !in tokens)
    ensures r.info == info || r.reply.Some?
    ensures DecodeHeader(packet).Some? && DecodeHeader(packet).value.0.msgType == QueryType ==>
      && endpoint !in r.tokens
      && (endpoint !in tokens ==> r == Outcome(tokens, info, None))
  {
    match DecodeHeader(packet)
    case None => Outcome(tokens, info, None)
    case Some((header, _)) =>
      if header.msgType == ChallangeType then
        if endpoint in tokens then Outcome(tokens, info, None)
        else Outcome(tokens[endpoint := token], info, Some(HeaderBytes(SQPHeader(ChallangeType, token))))
      else if header.msgType == QueryType then
        if endpoint !in tokens then Outcome(tokens, info, None)
        else
          var remaining := tokens - {endpoint};
          match DecodeQueryRequest(packet)
          case None => Outcome(remaining, info, None)
          case Some((request, _)) =>
            if request.requestedChunks != ServerInfoChunk then Outcome(remaining, info, None)
            else
              var served := Served(info, tokens[endpoint]);
              Outcome(remaining, served, Some(InfoBytes(served)))
      else Outcome(tokens, info, None)
  }

  /** A challenge from an endpoint without a token gets a fresh token, which the reply carries. */
  lemma ChallengeIssuesToken<E>(tokens: map<E, uint>, info: ServerInfo, endpoint: E, id: uint, rest: seq<byte>, token: uint)
    requires endpoint !in tokens
    ensures
      var r := Handled(tokens, info, endpoint, HeaderBytes(SQPHeader(ChallangeType, id)) + rest, token);
      && r.tokens == tokens[endpoint := token] && r.info == info
      && r.reply.Some? && DecodeHeader(r.reply.value) == Some((SQPHeader(ChallangeType, token), []))
  {
    HeaderRoundTrip(SQPHeader(ChallangeType, id), rest);
    HeaderRoundTrip(SQPHeader(ChallangeType, token), []);
    assert HeaderBytes(SQPHeader(ChallangeType, token)) + [] == HeaderBytes(SQPHeader(ChallangeType, token));
  }

  /** A second challenge while a token is outstanding is ignored: the first token stays. */
  lemma RepeatedChallengeIgnored<E>(tokens: map<E, uint>, info: ServerInfo, endpoint: E, id: uint, rest: seq<byte>, token: uint)
    requires endpoint in tokens
    ensures Handled(tokens, info, endpoint, HeaderBytes(SQPHeader(ChallangeType, id)) + rest, token) == Outcome(tokens, info, None)
  {
    HeaderRoundTrip(SQPHeader(ChallangeType, id), rest);
  }

  /**
   * A query for the server info from an endpoint holding a token spends the
   * token and is answered with the stored info carrying that token, whatever
   * challenge id the query itself carries; the stored info keeps the sizes
   * and token just sent.
   */
  lemma QueryAnswered<E>(tokens: map<E, uint>, info: ServerInfo, endpoint: E, q: QueryRequest, rest: seq<byte>, token: uint)
    requires endpoint in tokens && q.header.msgType == QueryType && q.requestedChunks == ServerInfoChunk
    ensures
      var r := Handled(tokens, info, endpoint, QueryRequestBytes(q) + rest, token);
      && r.tokens == tokens - {endpoint}
      && r.info == Served(info, tokens[endpoint])
      && r.reply == Some(InfoBytes(r.info))
  {
    var tail := BE16(q.version) + [q.requestedChunks];
    Assoc(HeaderBytes(q.header), tail, rest);
    HeaderRoundTrip(q.header, tail + rest);
    QueryRequestRoundTrip(q, rest);
  }

  /**
   * The reply to a query fits the server's buffer and reads back as the
   * stored info with the token as its challenge id and sizes matching the
   * reply's own length.
   */
  lemma ServedReadsBack(info: ServerInfo, token: uint)
    ensures
      var reply := InfoBytes(Served(info, token));
      && |reply| <= BufferSize
      && DecodeInfo(reply).Some? && DecodeInfo(reply).value.1 == []
      && var read := DecodeInfo(reply).value.0;
      && read.queryHeader.header == SQPHeader(QueryType, token)
      && read.queryHeader.length as int == |reply| - 11
      && read.chunkLen as int == |reply| - 15
      && read.data == Received(info.data)
  {
    var served := Served(info, token);
    InfoRoundTrip(served, []);
    assert InfoBytes(served) + [] == InfoBytes(served);
  }

  /**
   * The exchange the protocol is built for: a challenge, then a query for
   * the server info, is answered with the token the challenge issued; the
   * same query sent again gets nothing.
   */
  lemma ChallengeThenQuery<E>(
    tokens: map<E, uint>, info: ServerInfo, endpoint: E, id: uint, q: QueryRequest, token: uint, laterToken: uint)
    requires endpoint !in tokens && q.header.msgType == QueryType && q.requestedChunks == ServerInfoChunk
    ensures
      var first := Handled(tokens, info, endpoint, HeaderBytes(SQPHeader(ChallangeType, id)), token);
      var second := Handled(first.tokens, first.info, endpoint, QueryRequestBytes(q), laterToken);
      var third := Handled(second.tokens, second.info, endpoint, QueryRequestBytes(q), laterToken);
      && second.reply == Some(InfoBytes(Served(info, token)))
      && second.tokens == tokens
      && third.reply == None && third.tokens == tokens
  {
    assert HeaderBytes(SQPHeader(ChallangeType, id)) + [] == HeaderBytes(SQPHeader(ChallangeType, id));
    assert QueryRequestBytes(q) + [] == QueryRequestBytes(q);
    ChallengeIssuesToken(tokens, info, endpoint, id, [], token);
    var first := Handled(tokens, info, endpoint, HeaderBytes(SQPHeader(ChallangeType, id)), token);
    QueryAnswered(first.tokens, first.info, endpoint, q, [], laterToken);
    assert first.tokens - {endpoint} == tokens;
    var second := Handled(first.tokens, first.info, endpoint, QueryRequestBytes(q), laterToken);
    HeaderRoundTrip(q.header, BE16(q.version) + [q.requestedChunks]);
  }

  /** The bytes a writer holds once no bits are pending. */
  lemma FlushedData(writer: DataStreamWriter)
    requires writer.Valid() && writer.bitIndex == 0
    ensures writer.Data() == writer.buffer[..writer.length]
  {
    assert writer.Data() == writer.buffer[..writer.length] + [];
  }

  /** The copy Update makes of a datagram before reading it: a reader over exactly its bytes. */
  method ReaderOver(packet: seq<byte>) returns (reader: DataStreamReader)
    requires |packet| <= BufferSize
    ensures reader.data == packet
  {
    var buffer := new DataStreamWriter(BufferSize);
    var copied := buffer.WriteBytes(packet);
    FlushedData(buffer);
    reader := DataStreamReader(buffer.buffer[..buffer.length]);
  }

  /** The challenge response Update sends: the token as the challenge id. */
  method ChallengeReply(token: uint) returns (reply: seq<byte>)
    ensures DecodeHeader(reply) == Some((SQPHeader(ChallangeType, token), []))
    ensures reply == HeaderBytes(SQPHeader(ChallangeType, token))
  {
    var writer := new DataStreamWriter(BufferSize);
    var ok, sent := ChallangeToStream(writer, SQPHeader(ChallangeType, token));
    FlushedData(writer);
    reply := writer.buffer[..writer.length];
    HeaderRoundTrip(SQPHeader(ChallangeType, token), []);
    assert reply + [] == reply;
  }

  /** The query response Update sends, and the server info as ToStream leaves it. */
  method InfoReply(info: ServerInfo, token: uint) returns (reply: seq<byte>, sent: ServerInfo)
    ensures sent == Served(info, token)
    ensures reply == InfoBytes(sent) && |reply| <= BufferSize
  {
    var writer := new DataStreamWriter(BufferSize);
    var rsp := info.(queryHeader := info.queryHeader.(header := info.queryHeader.header.(challangeId := token)));
    var ok;
    ok, sent := ServerInfoToStream(writer, rsp);
    FlushedData(writer);
    reply := writer.buffer[..writer.length];
  }

  /**
   * SQPServer: the outstanding token of each endpoint that asked for a
   * challenge, and the server info it answers queries with, which each
   * answer updates in place.
   */
  class SQPServer<E(==)> {
    var outstandingTokens: map<E, uint>
    var serverInfo: ServerInfo

    /** A server with no outstanding tokens answering with the given data. */
    constructor (data: ServerInfoData)
      ensures outstandingTokens == map[]
      ensures serverInfo == ServerInfo(QueryResponseHeader(SQPHeader(0, 0), 0, 0, 0, 0), 0, data)
    {
      outstandingTokens := map[];
      serverInfo := ServerInfo(QueryResponseHeader(SQPHeader(0, 0), 0, 0, 0, 0), 0, data);
    }

    /**
     * Update, for one datagram read from endpoint (the socket delivers at most
     * BufferSize bytes); thirtyBits and twoBits are the random draws
     * GetNextToken would make. The reply is what would be sent back.
     */
    method Update(endpoint: E, packet: seq<byte>, thirtyBits: int, twoBits: int) returns (reply: Option<seq<byte>>)
      requires |packet| <= BufferSize
      requires 0 <= thirtyBits < 0x4000_0000 && 0 <= twoBits < 4
      modifies this
      ensures Outcome(outstandingTokens, serverInfo, reply)
        == Handled(old(outstandingTokens), old(serverInfo), endpoint, packet, NextToken(thirtyBits, twoBits))
    {
      reply := None;
      if |packet| == 0 {
        return;
      }
      var reader := ReaderOver(packet);
      var readerCtx := new ReaderContext();
      reader.FreshContext(readerCtx);
      assert reader.data[reader.GetBytesRead(readerCtx)..] == packet;
      var ok, header := HeaderFromStream(reader, readerCtx);
      if !ok {
        return;
      }
      if header.msgType == ChallangeType {
        if endpoint !in outstandingTokens {
          var token := NextToken(thirtyBits, twoBits);
          var response := ChallengeReply(token);
          reply := Some(response);
          outstandingTokens := outstandingTokens[endpoint := token];
        }
      } else if header.msgType == QueryType {
        if endpoint !in outstandingTokens {
          return;
        }
        var token := outstandingTokens[endpoint];
        outstandingTokens := outstandingTokens - {endpoint};
        readerCtx := new ReaderContext();
        reader.FreshContext(readerCtx);
        assert reader.data[reader.GetBytesRead(readerCtx)..] == packet;
        var request;
        ok, request := QueryRequestFromStream(reader, readerCtx);
        if !ok {
          return;
        }
        if request.requestedChunks == ServerInfoChunk {
          var response, sent := InfoReply(serverInfo, token);
          serverInfo := sent;
          reply := Some(response);
        }
      }
    }
  }
}
