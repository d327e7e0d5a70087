// Network endpoints (com.unity.transport/Runtime/NetworkEndPoint.cs).
//
// An endpoint is 28 bytes of socket address plus the number of them in
// use. The first two bytes hold the address family as a host-order ushort
// (the layout outside macOS and iOS), the next two the port in network byte
// order, then for IPv4 the address in network byte order; an IPv4 endpoint
// uses the 16 bytes of a sockaddr_in. The host is little-endian, so the
// getters and setters swap bytes; the swap is the one DataStream uses.

module NetworkEndPoints {
  import opened Words
  import opened DataStream

  /** The size of the address storage. */
  const AddressStorage: int := 28
  /** sizeof(sockaddr_in). */
  const SockaddrInSize: int := 16
  /** NetworkFamily.UdpIpv4 (AddressFamily.InterNetwork); IPC is 0. */
  const UdpIpv4: int := 2

  datatype NetworkEndPoint = NetworkEndPoint(data: seq<byte>, length: int)
  {
    predicate WellFormed() { |data| == AddressStorage && 0 <= length <= AddressStorage }
  }

  function Zeros(n: nat): (s: seq<byte>)
    ensures |s| == n && forall i | 0 <= i < n :: s[i] == 0
  {
    if n == 0 then [] else [0] + Zeros(n - 1)
  }

  /** The default endpoint: all bytes zero, length zero. */
  const DefaultEndPoint := NetworkEndPoint(Zeros(AddressStorage), 0)

  // ---------------------------------------------------------------------------
  // Fields

  function Family(e: NetworkEndPoint): int
    requires e.WellFormed()
  {
    LittleEndian(e.data[0..2])
  }

  /** The port, read from its network-order bytes. */
  function Port(e: NetworkEndPoint): ushort
    requires e.WellFormed()
  {
    LittleEndianBound(e.data[2..4]);
    Pow2Bytes();
    ByteSwap16(LittleEndian(e.data[2..4]))
  }

  /** The Port setter: stores the byte-swapped value; nothing else changes. */
  function WithPort(e: NetworkEndPoint, port: ushort): (r: NetworkEndPoint)
    requires e.WellFormed()
    ensures r.WellFormed() && r.length == e.length
    ensures r.data[..2] == e.data[..2] && r.data[4..] == e.data[4..]
  {
    NetworkEndPoint(e.data[..2] + LittleEndianBytes(ByteSwap16(port), 2) + e.data[4..], e.length)
  }

  /** Two bytes read little-endian. */
  lemma LittleEndianPair(b: seq<byte>)
    requires |b| == 2
    ensures LittleEndian(b) == b[0] as int + 256 * (b[1] as int)
  {
    assert b[1..][1..] == [];
    assert LittleEndian(b[1..]) == b[1] as int + 256 * LittleEndian(b[1..][1..]);
    assert LittleEndian(b[1..]) == b[1] as int;
  }

  /** A 16-bit value stored as two bytes, low byte first. */
  lemma BytesOfShort(v: ushort)
    ensures LittleEndianBytes(v, 2) == [v % 256, v / 256]
  {
    assert LittleEndianBytes(v / 256 / 256, 0) == [];
  }

  /** Reading the port back gives the value set. */
  lemma PortRoundTrip(e: NetworkEndPoint, port: ushort)
    requires e.WellFormed()
    ensures Port(WithPort(e, port)) == port
  {
    var r := WithPort(e, port);
    var swapped := ByteSwap16(port);
    assert r.data[2..4] == LittleEndianBytes(swapped, 2);
    BytesOfShort(swapped);
    LittleEndianPair(r.data[2..4]);
    assert LittleEndian(r.data[2..4]) == swapped;
    ByteSwap16Involution(port);
  }

  predicate IsValid(e: NetworkEndPoint)
    requires e.WellFormed()
  {
    Family(e) != 0
  }

  // ---------------------------------------------------------------------------
  // IPv4 endpoints

  /** CreateIpv4: a sockaddr_in with the port and address swapped to network order. */
  function CreateIpv4(ip: uint, port: ushort): (e: NetworkEndPoint)
    ensures e.WellFormed() && e.length == SockaddrInSize
  {
    NetworkEndPoint(
      LittleEndianBytes(UdpIpv4, 2) + LittleEndianBytes(ByteSwap16(port), 2) + LittleEndianBytes(ByteSwap32(ip), 4)
        + Zeros(AddressStorage - 8),
      SockaddrInSize)
  }

  /**
   * An IPv4 endpoint is valid, of family UdpIpv4, has the port it was made
   * with, and holds the address most significant byte first.
   */
  lemma CreateIpv4Fields(ip: uint, port: ushort)
    ensures var e := CreateIpv4(ip, port);
      && Family(e) == UdpIpv4 && IsValid(e) && Port(e) == port
      && e.data[4..8] == [ip / 0x100_0000, ip / 0x1_0000 % 256, ip / 256 % 256, ip % 256]
      && forall i | 8 <= i < AddressStorage :: e.data[i] == 0
  {
    var e := CreateIpv4(ip, port);
    assert e.data[0..2] == LittleEndianBytes(UdpIpv4, 2);
    BytesOfShort(UdpIpv4);
    LittleEndianPair(e.data[0..2]);
    var swapped := ByteSwap16(port);
    assert e.data[2..4] == LittleEndianBytes(swapped, 2);
    BytesOfShort(swapped);
    LittleEndianPair(e.data[2..4]);
    ByteSwap16Involution(port);
    assert e.data[4..8] == LittleEndianBytes(ByteSwap32(ip), 4);
    NetworkOrderBytes32(ip);
  }

  const AnyIpv4 := CreateIpv4(0, 0)
  const LoopbackIpv4 := CreateIpv4(127 * 0x100_0000 + 1, 0)

  /** AnyIpv4 is 0.0.0.0:0 and LoopbackIpv4 is 127.0.0.1:0. */
  lemma WellKnownAddresses()
    ensures AnyIpv4.data[4..8] == [0, 0, 0, 0] && Port(AnyIpv4) == 0 && IsValid(AnyIpv4)
    ensures LoopbackIpv4.data[4..8] == [127, 0, 0, 1] && Port(LoopbackIpv4) == 0 && IsValid(LoopbackIpv4)
  {
    CreateIpv4Fields(0, 0);
    var loopback: uint := 127 * 0x100_0000 + 1;
    DivUnique(loopback, 0x100_0000, 127, 1);
    DivUnique(loopback, 0x1_0000, 127 * 256, 1);
    DivUnique(loopback, 256, 127 * 0x1_0000, 1);
    DivUnique(127 * 256, 256, 127, 0);
    DivUnique(127 * 0x1_0000, 256, 127 * 256, 0);
    CreateIpv4Fields(loopback, 0);
  }

  // ---------------------------------------------------------------------------
  // Equality

  /** Compare: equal lengths and equal bytes up to that length (MemCmp over `length` bytes). */
  predicate Equal(a: NetworkEndPoint, b: NetworkEndPoint)
    requires a.WellFormed() && b.WellFormed()
  {
    a.length == b.length && a.data[..a.length] == b.data[..b.length]
  }

  /** Endpoint equality is an equivalence that ignores the bytes past the length. */
  lemma EqualIsEquivalence(a: NetworkEndPoint, b: NetworkEndPoint, c: NetworkEndPoint)
    requires a.WellFormed() && b.WellFormed() && c.WellFormed()
    ensures Equal(a, a)
    ensures Equal(a, b) ==> Equal(b, a)
    ensures Equal(a, b) && Equal(b, c) ==> Equal(a, c)
    ensures a.length == b.length && (forall i | 0 <= i < a.length :: a.data[i] == b.data[i]) ==> Equal(a, b)
  {
    if a.length == b.length && (forall i | 0 <= i < a.length :: a.data[i] == b.data[i]) {
      assert a.data[..a.length] == b.data[..b.length];
    }
  }

  /** Two IPv4 endpoints are equal iff they have the same address and port. */
  lemma Ipv4EqualIff(ip1: uint, port1: ushort, ip2: uint, port2: ushort)
    ensures Equal(CreateIpv4(ip1, port1), CreateIpv4(ip2, port2)) <==> ip1 == ip2 && port1 == port2
  {
    var a, b := CreateIpv4(ip1, port1), CreateIpv4(ip2, port2);
    if Equal(a, b) {
      assert a.data[2..4] == b.data[2..4] by { assert a.data[..16][2..4] == a.data[2..4]; assert b.data[..16][2..4] == b.data[2..4]; }
      assert a.data[4..8] == b.data[4..8] by { assert a.data[..16][4..8] == a.data[4..8]; assert b.data[..16][4..8] == b.data[4..8]; }
      CreateIpv4Fields(ip1, port1);
      CreateIpv4Fields(ip2, port2);
      assert Port(a) == Port(b);
      SplitBytes4(ip1);
      SplitBytes4(ip2);
    }
  }

  // ---------------------------------------------------------------------------
  // Parsing a dotted quad

  predicate IsDigit(c: char) { '0' <= c <= '9' }

  /** The number of consecutive digits of s from pos on. */
  function DigitsFrom(s: string, pos: nat): (n: nat)
    ensures n == 0 || pos + n <= |s|
    decreases |s| - pos
  {
    if pos < |s| && IsDigit(s[pos]) then 1 + DigitsFrom(s, pos + 1) else 0
  }

  /** The value of a run of decimal digits, unbounded. */
  function DecimalValue(ds: string): nat
  {
    if |ds| == 0 then 0
    else
      var c := ds[|ds| - 1];
      DecimalValue(ds[..|ds| - 1]) * 10 + (if IsDigit(c) then c as int - '0' as int else 0)
  }

  /** Where the next part starts after a run of digits ending at `end`: past an optional dot. */
  function AfterPart(ip: string, end: nat): nat
  {
    if end < |ip| && ip[end] == '.' then end + 1 else end
  }

  datatype PartResult = NoPart | Part(value: nat, next: nat)

  /** One part at pos: a run of digits of value at most 255, and where the next part starts. */
  function ReadPart(ip: string, pos: nat): PartResult
  {
    var n := DigitsFrom(ip, pos);
    if n == 0 then NoPart
    else
      var v := DecimalValue(ip[pos..pos + n]);
      if v > 255 then NoPart else Part(v, AfterPart(ip, pos + n))
  }

  /**
   * The address Parse reads, as a specification: from `pos`, parts `part`
   * to 3 are read in turn; `acc` holds the parts already read, most
   * significant first. Anything after the fourth part is ignored; a missing
   * or too large part makes the whole address 0.
   */
  function PartsFrom(ip: string, pos: nat, part: nat, acc: nat): nat
    requires part <= 4
    decreases 4 - part
  {
    if part == 4 then acc
    else
      match ReadPart(ip, pos)
      case NoPart => 0
      case Part(v, next) => PartsFrom(ip, next, part + 1, acc * 256 + v)
  }

  function ParsedAddress(ip: string): nat
  {
    PartsFrom(ip, 0, 0, 0)
  }

  /** 256 to the power k. */
  function Pow256(k: nat): nat
  {
    if k == 0 then 1 else 256 * Pow256(k - 1)
  }

  /** Shifting a value of k bytes left by a byte and or-ing in a byte gives a value of k + 1 bytes. */
  lemma {:induction false} ShiftBound(acc: nat, v: nat, k: nat)
    requires acc < Pow256(k) && v < 256
    ensures acc * 256 + v < Pow256(k + 1)
  {
    MulMonotone(acc + 1, Pow256(k), 256);
  }

  lemma {:induction false} PartAccepted(ip: string, pos: nat, end: nat, part: nat, acc: nat)
    requires part < 4 && end == pos + DigitsFrom(ip, pos) && pos < end <= |ip|
    requires DecimalValue(ip[pos..end]) <= 255
    ensures PartsFrom(ip, pos, part, acc) == PartsFrom(ip, AfterPart(ip, end), part + 1, acc * 256 + DecimalValue(ip[pos..end]))
  {
    assert ReadPart(ip, pos) == Part(DecimalValue(ip[pos..end]), AfterPart(ip, end));
  }

  /** PartAccepted with the next position and the new accumulator named. */
  lemma {:induction false} PartStep(ip: string, pos: nat, end: nat, next: nat, part: nat, acc: nat, v: nat, acc2: nat)
    requires part < 4 && end == pos + DigitsFrom(ip, pos) && pos < end <= |ip|
    requires DecimalValue(ip[pos..end]) == v <= 255
    requires next == AfterPart(ip, end) && acc2 == acc * 256 + v
    ensures PartsFrom(ip, pos, part, acc) == PartsFrom(ip, next, part + 1, acc2)
  {
    PartAccepted(ip, pos, end, part, acc);
  }

  lemma {:induction false} PartRejected(ip: string, pos: nat, end: nat, part: nat, acc: nat)
    requires part < 4 && end == pos + DigitsFrom(ip, pos) && end <= |ip|
    requires pos == end || DecimalValue(ip[pos..end]) > 255
    ensures PartsFrom(ip, pos, part, acc) == 0
  {
    assert ReadPart(ip, pos) == NoPart;
  }

  lemma {:induction false} PartsBound(ip: string, pos: nat, part: nat, acc: nat)
    requires part <= 4 && acc < Pow256(part)
    ensures PartsFrom(ip, pos, part, acc) < U32
    decreases 4 - part
  {
    if part == 4 {
      assert Pow256(4) == U32;
    } else {
      match ReadPart(ip, pos)
      case NoPart =>
      case Part(v, next) =>
        ShiftBound(acc, v, part);
        PartsBound(ip, next, part + 1, acc * 256 + v);
    }
  }

  /**
   * The digit loop of Parse, with the evidently intended unbounded
   * accumulator: reads the run of digits at pos and returns its value.
   */
  method ReadOctet(ip: string, pos: nat) returns (byteVal: nat, end: nat)
    requires pos <= |ip|
    ensures end == pos + DigitsFrom(ip, pos) && end <= |ip|
    ensures byteVal == DecimalValue(ip[pos..end])
  {
    byteVal := 0;
    end := pos;
    while end < |ip| && '0' <= ip[end] <= '9'
      invariant pos <= end <= |ip|
      invariant DigitsFrom(ip, pos) == (end - pos) + DigitsFrom(ip, end)
      invariant byteVal == DecimalValue(ip[pos..end])
    {
      assert ip[pos..end + 1][..end - pos] == ip[pos..end];
      byteVal := byteVal * 10 + (ip[end] as int - '0' as int);
      end := end + 1;
    }
  }

  /**
   * The digit loop of Parse as written: the accumulator is a uint, so the
   * value of a long run of digits wraps modulo 2^32 before the `> 255` test.
   */
  method ReadOctetAsWritten(ip: string, pos: nat) returns (byteVal: uint, end: nat)
    requires pos <= |ip|
    ensures end == pos + DigitsFrom(ip, pos) && end <= |ip|
    ensures byteVal == DecimalValue(ip[pos..end]) % U32
  {
    byteVal := 0;
    end := pos;
    while end < |ip| && '0' <= ip[end] <= '9'
      invariant pos <= end <= |ip|
      invariant DigitsFrom(ip, pos) == (end - pos) + DigitsFrom(ip, end)
      invariant byteVal == DecimalValue(ip[pos..end]) % U32
    {
      assert ip[pos..end + 1][..end - pos] == ip[pos..end];
      ghost var whole := DecimalValue(ip[pos..end]);
      WrapStep(whole, ip[end] as int - '0' as int);
      byteVal := ToU32(byteVal * 10 + (ip[end] as int - '0' as int));
      end := end + 1;
    }
  }

  /** Reducing after each decimal step gives the reduced final value. */
  lemma WrapStep(x: nat, d: nat)
    ensures ((x % U32) * 10 + d) % U32 == (x * 10 + d) % U32
  {
    var q := x / U32;
    assert x * 10 + d == (x % U32) * 10 + d + (q * 10) * U32;
    ShiftResidue((x % U32) * 10 + d, q * 10);
  }

  lemma ShiftResidue(y: int, k: int)
    ensures (y + k * U32) % U32 == y % U32
  {
    DivUnique(y + k * U32, U32, y / U32 + k, y % U32);
  }

  /**
   * The ten digits 4294967297 pass the as-written `> 255` test with the
   * value 1, though their value is far above 255: "4294967297.0.0.1" parses
   * as 1.0.0.1 instead of failing.
   */
  lemma AsWrittenOctetWraps()
    ensures DecimalValue("4294967297") % U32 == 1
    ensures DecimalValue("4294967297") > 255
  {
    assert DecimalValue("4") == 4;
    assert DecimalValue("42") == 42 by { assert "42"[..1] == "4"; }
    assert DecimalValue("429") == 429 by { assert "429"[..2] == "42"; }
    assert DecimalValue("4294") == 4294 by { assert "4294"[..3] == "429"; }
    assert DecimalValue("42949") == 42949 by { assert "42949"[..4] == "4294"; }
    assert DecimalValue("429496") == 429496 by { assert "429496"[..5] == "42949"; }
    assert DecimalValue("4294967") == 4294967 by { assert "4294967"[..6] == "429496"; }
    assert DecimalValue("42949672") == 42949672 by { assert "42949672"[..7] == "4294967"; }
    assert DecimalValue("429496729") == 429496729 by { assert "429496729"[..8] == "42949672"; }
    assert DecimalValue("4294967297") == 4294967297 by { assert "4294967297"[..9] == "429496729"; }
  }

  /**
   * Parse: reads four parts into a 32-bit address, most significant first,
   * and makes an IPv4 endpoint of it; the address is 0 when a part has no
   * digits or a value above 255.
   */
  method Parse(ip: string, port: ushort) returns (e: NetworkEndPoint)
    ensures ParsedAddress(ip) < U32
    ensures e == CreateIpv4(ParsedAddress(ip), port)
  {
    PartsBound(ip, 0, 0, 0);
    ghost var target := ParsedAddress(ip);
    var ipaddr: nat := 0;
    var pos: nat := 0;
    var part := 0;
    while part < 4
      invariant 0 <= part <= 4 && pos <= |ip|
      invariant ipaddr < Pow256(part)
      invariant PartsFrom(ip, pos, part, ipaddr) == target
    {
      var ok, next, acc := ParsePart(ip, pos, part, ipaddr);
      if !ok {
        ipaddr := 0;
        break;
      }
      ipaddr, pos, part := acc, next, part + 1;
    }
    assert Pow256(4) == U32;
    e := CreateIpv4(ipaddr, port);
  }

  /**
   * One iteration of Parse's loop: reads part `part` at pos, or reports
   * that it is missing or above 255.
   */
  method ParsePart(ip: string, pos: nat, part: nat, ipaddr: nat) returns (ok: bool, next: nat, acc: nat)
    requires part < 4 && pos <= |ip| && ipaddr < Pow256(part)
    ensures !ok ==> PartsFrom(ip, pos, part, ipaddr) == 0
    ensures ok ==> next <= |ip| && acc < Pow256(part + 1)
    ensures ok ==> PartsFrom(ip, pos, part, ipaddr) == PartsFrom(ip, next, part + 1, acc)
  {
    if pos >= |ip| || ip[pos] < '0' || ip[pos] > '9' {
      PartRejected(ip, pos, pos, part, ipaddr);
      return false, pos, 0;
    }
    var byteVal, end := ReadOctet(ip, pos);
    if byteVal > 255 {
      PartRejected(ip, pos, end, part, ipaddr);
      return false, pos, 0;
    }
    PartAccepted(ip, pos, end, part, ipaddr);
    ShiftBound(ipaddr, byteVal, part);
    // (ipaddr << 8) | byteVal: the shifted bits and byteVal do not overlap,
    // and ipaddr < 2^24 here, so nothing is shifted out.
    ok, acc := true, ipaddr * 256 + byteVal;
    next := end;
    if next < |ip| && ip[next] == '.' {
      next := next + 1;
    }
    assert next == AfterPart(ip, end);
  }

  /** The decimal digits of n, without leading zeros. */
  function DecimalString(n: nat): (s: string)
    ensures |s| >= 1 && forall i | 0 <= i < |s| :: IsDigit(s[i])
  {
    var d := ['0' + (n % 10) as char];
    if n < 10 then d else DecimalString(n / 10) + d
  }

  lemma {:induction false} DecimalStringValue(n: nat)
    ensures DecimalValue(DecimalString(n)) == n
  {
    var s := DecimalString(n);
    assert s[..|s| - 1] == (if n < 10 then [] else DecimalString(n / 10));
    if n >= 10 {
      DecimalStringValue(n / 10);
    }
  }

  /** A run of k digits at pos, followed by the end or a non-digit, is the digit run there. */
  lemma {:induction false} DigitRun(s: string, pos: nat, k: nat)
    requires pos + k <= |s|
    requires forall i | pos <= i < pos + k :: IsDigit(s[i])
    requires pos + k == |s| || !IsDigit(s[pos + k])
    ensures DigitsFrom(s, pos) == k
    decreases k
  {
    if k > 0 {
      DigitRun(s, pos + 1, k - 1);
    }
  }

  /** ds spells the octet v in decimal. */
  predicate Numeral(ds: string, v: nat)
  {
    |ds| >= 1 && (forall i | 0 <= i < |ds| :: IsDigit(ds[i])) && DecimalValue(ds) == v && v <= 255
  }

  /** The numeral ds written from pos to end, then a dot or the end, is the run of digits there. */
  lemma {:induction false} NumeralAt(s: string, pos: nat, end: nat, ds: string, v: nat)
    requires Numeral(ds, v)
    requires end == pos + |ds| <= |s| && s[pos..end] == ds
    requires end == |s| || s[end] == '.'
    ensures DigitsFrom(s, pos) == end - pos && DecimalValue(s[pos..end]) == v
  {
    var k := |ds|;
    forall i | pos <= i < pos + k
      ensures IsDigit(s[i])
    {
      assert s[i] == ds[i - pos];
    }
    DigitRun(s, pos, k);
  }

  function Dotted(a: nat, b: nat, c: nat, d: nat): string
  {
    DecimalString(a) + "." + DecimalString(b) + "." + DecimalString(c) + "." + DecimalString(d)
  }

  /** Parse("a.b.c.d") yields a<<24 | b<<16 | c<<8 | d. */
  lemma {:induction false} ParseDottedQuad(a: nat, b: nat, c: nat, d: nat)
    requires a <= 255 && b <= 255 && c <= 255 && d <= 255
    ensures ParsedAddress(Dotted(a, b, c, d)) == a * 0x100_0000 + b * 0x1_0000 + c * 0x100 + d
  {
    var da, db, dc, dd := DecimalString(a), DecimalString(b), DecimalString(c), DecimalString(d);
    var s := Dotted(a, b, c, d);
    var p1 := |da| + 1;
    var p2 := p1 + |db| + 1;
    var p3 := p2 + |dc| + 1;
    assert s == da + "." + db + "." + dc + "." + dd;
    assert s[0..p1 - 1] == da && s[p1 - 1] == '.';
    assert s[p1..p2 - 1] == db && s[p2 - 1] == '.';
    assert s[p2..p3 - 1] == dc && s[p3 - 1] == '.';
    assert |s| == p3 + |dd| && s[p3..|s|] == dd;
    DecimalStringValue(a);
    DecimalStringValue(b);
    DecimalStringValue(c);
    DecimalStringValue(d);
    QuadNumerals(s, p1, p2, p3, da, db, dc, dd, a, b, c, d);
  }

  /** Four numerals separated by dots, at the given positions of s, read as one address. */
  lemma {:induction false} QuadNumerals(s: string, p1: nat, p2: nat, p3: nat, da: string, db: string, dc: string, dd: string,
                                        a: nat, b: nat, c: nat, d: nat)
    requires Numeral(da, a) && Numeral(db, b) && Numeral(dc, c) && Numeral(dd, d)
    requires p1 == |da| + 1 && p2 == p1 + |db| + 1 && p3 == p2 + |dc| + 1 && |s| == p3 + |dd|
    requires s[0..p1 - 1] == da && s[p1 - 1] == '.'
    requires s[p1..p2 - 1] == db && s[p2 - 1] == '.'
    requires s[p2..p3 - 1] == dc && s[p3 - 1] == '.'
    requires s[p3..|s|] == dd
    ensures PartsFrom(s, 0, 0, 0) == a * 0x100_0000 + b * 0x1_0000 + c * 0x100 + d
  {
    NumeralAt(s, 0, p1 - 1, da, a);
    NumeralAt(s, p1, p2 - 1, db, b);
    NumeralAt(s, p2, p3 - 1, dc, c);
    NumeralAt(s, p3, |s|, dd, d);
    QuadChain(s, p1, p2, p3, a, b, c, d);
  }

  /**
   * Four parts of values a, b, c and d, the first three each followed by a
   * dot, and the fourth ending the string, read as a<<24 | b<<16 | c<<8 | d.
   */
  lemma {:induction false} QuadChain(s: string, p1: nat, p2: nat, p3: nat, a: nat, b: nat, c: nat, d: nat)
    requires 1 < p1 && p1 + 1 < p2 && p2 + 1 < p3 < |s| && a <= 255 && b <= 255 && c <= 255 && d <= 255
    requires DigitsFrom(s, 0) == p1 - 1 - 0 && DecimalValue(s[0..p1 - 1]) == a && s[p1 - 1] == '.'
    requires DigitsFrom(s, p1) == p2 - 1 - p1 && DecimalValue(s[p1..p2 - 1]) == b && s[p2 - 1] == '.'
    requires DigitsFrom(s, p2) == p3 - 1 - p2 && DecimalValue(s[p2..p3 - 1]) == c && s[p3 - 1] == '.'
    requires DigitsFrom(s, p3) == |s| - p3 && DecimalValue(s[p3..|s|]) == d
    ensures PartsFrom(s, 0, 0, 0) == a * 0x100_0000 + b * 0x1_0000 + c * 0x100 + d
  {
    TailFrom1(s, p1, p2, p3, a, b, c, d);
    PartStep(s, 0, p1 - 1, p1, 0, 0, a, a);
  }

  /** The last three parts, read after a first part of value a. */
  lemma {:induction false} TailFrom1(s: string, p1: nat, p2: nat, p3: nat, a: nat, b: nat, c: nat, d: nat)
    requires 1 < p1 && p1 + 1 < p2 && p2 + 1 < p3 < |s| && b <= 255 && c <= 255 && d <= 255
    requires DigitsFrom(s, p1) == p2 - 1 - p1 && DecimalValue(s[p1..p2 - 1]) == b && s[p2 - 1] == '.'
    requires DigitsFrom(s, p2) == p3 - 1 - p2 && DecimalValue(s[p2..p3 - 1]) == c && s[p3 - 1] == '.'
    requires DigitsFrom(s, p3) == |s| - p3 && DecimalValue(s[p3..|s|]) == d
    ensures PartsFrom(s, p1, 1, a) == a * 0x100_0000 + b * 0x1_0000 + c * 0x100 + d
  {
    TailFrom2(s, p2, p3, a * 256 + b, c, d);
    PartStep(s, p1, p2 - 1, p2, 1, a, b, a * 256 + b);
  }

  /** The last two parts, read after the first two gave ab. */
  lemma {:induction false} TailFrom2(s: string, p2: nat, p3: nat, ab: nat, c: nat, d: nat)
    requires p2 + 1 < p3 < |s| && c <= 255 && d <= 255
    requires DigitsFrom(s, p2) == p3 - 1 - p2 && DecimalValue(s[p2..p3 - 1]) == c && s[p3 - 1] == '.'
    requires DigitsFrom(s, p3) == |s| - p3 && DecimalValue(s[p3..|s|]) == d
    ensures PartsFrom(s, p2, 2, ab) == (ab * 256 + c) * 256 + d
  {
    TailFrom3(s, p3, ab * 256 + c, d);
    PartStep(s, p2, p3 - 1, p3, 2, ab, c, ab * 256 + c);
  }

  /** The last part, read after the first three gave abc. */
  lemma {:induction false} TailFrom3(s: string, p3: nat, abc: nat, d: nat)
    requires p3 < |s| && d <= 255
    requires DigitsFrom(s, p3) == |s| - p3 && DecimalValue(s[p3..|s|]) == d
    ensures PartsFrom(s, p3, 3, abc) == abc * 256 + d
  {
    PartStep(s, p3, |s|, |s|, 3, abc, d, abc * 256 + d);
  }

  /** A string that does not start with a digit parses as address 0. */
  lemma {:induction false} ParseMissingDigit(ip: string)
    requires |ip| == 0 || !IsDigit(ip[0])
    ensures ParsedAddress(ip) == 0
  {
  }

  /** A first part above 255 makes the address 0. */
  lemma {:induction false} ParseOctetTooLarge(v: nat, rest: string)
    requires v > 255
    requires |rest| == 0 || !IsDigit(rest[0])
    ensures ParsedAddress(DecimalString(v) + rest) == 0
  {
    var s := DecimalString(v) + rest;
    var k := |DecimalString(v)|;
    assert s[0..k] == DecimalString(v);
    DigitRun(s, 0, k);
    DecimalStringValue(v);
  }
}
