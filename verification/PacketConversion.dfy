/** From socket buffers to the driver's packets and back: the kernel driver's compose and decompose. */
module PacketConversion {
  import opened Layout
  import opened Options
  import opened Arithmetic
  import opened Stream
  import opened SlotFormat
  import R = HeaderRemover

  const ETH_HLEN := 14
  const IP_HLEN := 20
  const UDP_HLEN := 8
  const MAX_UDP_PAYLOAD := 1472
  const PROTOCOL_UDP := 17
  const BROADCAST := 0xffff_ffff
  /** 224.0.0.251; the source compares the address as the processor loads it, lowest byte first. */
  const MULTICAST_DNS := 0xe000_00fb

  // ---------------------------------------------------------------------------------------------
  // Network byte order
  // ---------------------------------------------------------------------------------------------

  /** htons of a 16-bit assignment, as bytes in memory. */
  function Bytes16(x: nat): (s: seq<Byte>)
    ensures |s| == 2
  {
    [x / 0x100 % 0x100, x % 0x100]
  }

  function Bytes32(x: nat): (s: seq<Byte>)
    ensures |s| == 4
  {
    Bytes16(x / 0x1_0000) + Bytes16(x)
  }

  function Load16(s: seq<Byte>, at: nat): (x: nat)
    requires at + 2 <= |s|
    ensures x < 0x1_0000
  {
    0x100 * s[at] as int + s[at + 1] as int
  }

  function Load32(s: seq<Byte>, at: nat): (x: nat)
    requires at + 4 <= |s|
    ensures x < 0x1_0000_0000
  {
    0x1_0000 * Load16(s, at) + Load16(s, at + 2)
  }

  lemma TwoDigits(x: nat)
    ensures 0x100 * (x / 0x100 % 0x100) + x % 0x100 == x % 0x1_0000
  {
    var a, b, c := x / 0x100 / 0x100, x / 0x100 % 0x100, x % 0x100;
    assert x == 0x1_0000 * a + (0x100 * b + c);
  }

  lemma LoadBytes16(s: seq<Byte>, at: nat, x: nat)
    requires at + 2 <= |s| && s[at] == Bytes16(x)[0] && s[at + 1] == Bytes16(x)[1]
    ensures Load16(s, at) == x % 0x1_0000
  {
    TwoDigits(x);
  }

  lemma LoadBytes32(s: seq<Byte>, at: nat, x: nat)
    requires at + 4 <= |s| && s[at..at + 4] == Bytes32(x) && x < 0x1_0000_0000
    ensures Load32(s, at) == x
  {
    var b := s[at..at + 4];
    assert b[0] == s[at] && b[1] == s[at + 1] && b[2] == s[at + 2] && b[3] == s[at + 3];
    LoadBytes16(s, at, x / 0x1_0000);
    LoadBytes16(s, at + 2, x);
  }

  // ---------------------------------------------------------------------------------------------
  // The IPv4 header checksum
  // ---------------------------------------------------------------------------------------------

  /** The sum of the ten 16-bit words of a header without options. */
  function Sum(h: seq<Byte>): (x: nat)
    requires |h| == IP_HLEN
  {
    Load16(h, 0) + Load16(h, 2) + Load16(h, 4) + Load16(h, 6) + Load16(h, 8)
      + Load16(h, 10) + Load16(h, 12) + Load16(h, 14) + Load16(h, 16) + Load16(h, 18)
  }

  /** Carries are added back in until there are none: one's complement addition. */
  function Fold(x: nat): (r: nat)
    ensures r < 0x1_0000
  {
    if x < 0x1_0000 then x else Fold(x % 0x1_0000 + x / 0x1_0000)
  }

  function Checksum(h: seq<Byte>): (c: nat)
    requires |h| == IP_HLEN
    ensures c < 0x1_0000
  {
    0xffff - Fold(Sum(h))
  }

  /** Section 3.1 of RFC 791: the one's complement sum of the header, checksum included, is all ones. */
  predicate Verifies(h: seq<Byte>)
    requires |h| == IP_HLEN
  {
    Fold(Sum(h)) == 0xffff
  }

  lemma {:induction false} FoldIsRemainder(x: nat)
    ensures Fold(x) % 0xffff == x % 0xffff && (0 < x ==> 0 < Fold(x))
  {
    if x >= 0x1_0000 {
      var y := x % 0x1_0000 + x / 0x1_0000;
      FoldIsRemainder(y);
      assert x == y + 0xffff * (x / 0x1_0000);
      AddMultiple(y, 0xffff, x / 0x1_0000);
    }
  }

  /** The header with its checksum stored. */
  function WithChecksum(h: seq<Byte>, c: nat): (h': seq<Byte>)
    requires |h| >= IP_HLEN
    ensures |h'| == |h|
  {
    h[..10] + Bytes16(c) + h[12..]
  }

  lemma SumWithChecksum(h: seq<Byte>, c: nat)
    requires |h| == IP_HLEN && c < 0x1_0000
    ensures Sum(WithChecksum(h, c)) == Sum(h) - Load16(h, 10) + c
  {
    LoadBytes16(WithChecksum(h, c), 10, c);
  }

  lemma Congruence(x: int, f: int, c0: int, y: int)
    requires f % 0xffff == x % 0xffff && y == x - c0 + 0xffff - f
    ensures y % 0xffff == 0 <==> c0 % 0xffff == 0
  {
  }

  lemma AllOnesIff(x: nat)
    ensures Fold(x) == 0xffff <==> 0 < x && x % 0xffff == 0
  {
    FoldIsRemainder(x);
  }

  /** Sums before and after the checksum, which was `c0`, has been replaced by the computed one. */
  lemma RemainderIsZeroIff(c0: nat)
    requires c0 < 0x1_0000
    ensures c0 % 0xffff == 0 <==> c0 in {0, 0xffff}
  {
  }

  lemma SumsVerifyIff(x: nat, c0: nat, y: nat)
    requires c0 < x && c0 < 0x1_0000 && y == x - c0 + (0xffff - Fold(x))
    ensures Fold(y) == 0xffff <==> c0 in {0, 0xffff}
  {
    FoldIsRemainder(x);
    Congruence(x, Fold(x), c0, y);
    RemainderIsZeroIff(c0);
    AllOnesIff(y);
  }

  /** The stored checksum verifies exactly when the field was zero, in one's complement, when it was computed. */
  lemma ChecksumVerifiesIff(h: seq<Byte>)
    requires |h| == IP_HLEN && Load16(h, 10) < Sum(h)
    ensures Verifies(WithChecksum(h, Checksum(h))) <==> Load16(h, 10) in {0, 0xffff}
  {
    var y := Sum(WithChecksum(h, Checksum(h)));
    SumWithChecksum(h, Checksum(h));
    SumsVerifyIff(Sum(h), Load16(h, 10), y);
  }

  // ---------------------------------------------------------------------------------------------
  // Decompose: a packet from the device becomes a frame
  // ---------------------------------------------------------------------------------------------

  /** The fields of the static packet that stay as they were initialised. */
  datatype Template = Template(destMac: seq<Byte>, srcMac: seq<Byte>, checksum: nat)

  ghost predicate ValidTemplate(t: Template) { |t.destMac| == |t.srcMac| == 6 && t.checksum < 0x1_0000 }

  /** The IPv4 header as copied; the checksum field comes from the template. */
  function IpHeader(t: Template, p: Packet): (h: seq<Byte>)
    ensures |h| == IP_HLEN
  {
    [0x45, 0] + Bytes16(IP_HLEN + UDP_HLEN + |p.payload|) + [1, 0, 0, 0, 64, PROTOCOL_UDP] + Bytes16(t.checksum)
      + Bytes32(p.sourceIp) + Bytes32(p.destIp)
  }

  function UdpHeader(p: Packet): (h: seq<Byte>)
    ensures |h| == UDP_HLEN
  {
    Bytes16(p.sourcePort) + Bytes16(p.destPort) + Bytes16(|p.payload| + UDP_HLEN) + [0, 0]
  }

  /** A socket buffer: its protocol, its data from the network header on, and the offset of the transport header. */
  datatype Skb = Skb(isIpv4: bool, data: seq<Byte>, transport: nat)

  /** The socket buffer handed to the network stack. */
  function Decomposed(t: Template, p: Packet): (skb: Skb) {
    var h := IpHeader(t, p);
    Skb(true, WithChecksum(h, Checksum(h)) + (UdpHeader(p) + p.payload), IP_HLEN)
  }

  lemma TemplateWord(t: Template, p: Packet)
    requires ValidTemplate(t)
    ensures Load16(IpHeader(t, p), 10) == t.checksum && Load16(IpHeader(t, p), 0) == 0x4500
  {
    LoadBytes16(IpHeader(t, p), 10, t.checksum);
  }

  /** On every call the IPv4 header of the buffer verifies, exactly because the template's checksum is zero. */
  lemma HeaderVerifiesIff(t: Template, p: Packet)
    requires ValidTemplate(t)
    ensures Verifies(Decomposed(t, p).data[..IP_HLEN]) <==> t.checksum in {0, 0xffff}
  {
    var h := IpHeader(t, p);
    TemplateWord(t, p);
    assert Decomposed(t, p).data[..IP_HLEN] == WithChecksum(h, Checksum(h));
    ChecksumVerifiesIff(h);
  }

  lemma ChecksumInFront(h: seq<Byte>, rest: seq<Byte>, c: nat)
    requires |h| == IP_HLEN
    ensures (h + rest)[..IP_HLEN] == h && WithChecksum(h + rest, c) == WithChecksum(h, c) + rest
  {
  }

  /** The driver keeps one static packet, which every call overwrites in part. */
  class Driver {
    var destMac: seq<Byte>
    var srcMac: seq<Byte>
    var totalLen: seq<Byte>
    var checksum: nat
    var sourceIp: seq<Byte>
    var destIp: seq<Byte>
    var sourcePort: seq<Byte>
    var destPort: seq<Byte>
    var payloadLen: seq<Byte>

    ghost function Static(): Template
      reads this
    {
      Template(destMac, srcMac, checksum)
    }

    constructor (destMac: seq<Byte>, srcMac: seq<Byte>)
      requires |destMac| == |srcMac| == 6
      ensures Static() == Template(destMac, srcMac, 0)
    {
      this.destMac, this.srcMac, checksum := destMac, srcMac, 0;
      totalLen, sourceIp, destIp, sourcePort, destPort, payloadLen := [0, 0], [0, 0, 0, 0], [0, 0, 0, 0], [0, 0],
        [0, 0], [0, 0];
    }

    method DecomposeNoStrip(p: Packet) returns (skb: Skb)
      requires ValidTemplate(Static())
      modifies this
      ensures Static() == old(Static())
      ensures skb == Decomposed(Static(), p)
    {
      totalLen := Bytes16(IP_HLEN + UDP_HLEN + |p.payload|);
      sourceIp := Bytes32(p.sourceIp);
      destIp := Bytes32(p.destIp);
      sourcePort := Bytes16(p.sourcePort);
      destPort := Bytes16(p.destPort);
      payloadLen := Bytes16(|p.payload| + UDP_HLEN);
      var ip := [0x45, 0] + totalLen + [1, 0, 0, 0, 64, PROTOCOL_UDP] + Bytes16(checksum) + sourceIp + destIp;
      var udp := sourcePort + destPort + payloadLen + [0, 0];
      var ethernet := destMac + srcMac + [8, 0];
      var frame := ethernet + (ip + (udp + p.payload));
      var data := frame[ETH_HLEN..];
      assert data == ip + (udp + p.payload);
      ChecksumInFront(ip, udp + p.payload, Checksum(ip));
      skb := Skb(true, WithChecksum(data, Checksum(data[..IP_HLEN])), IP_HLEN);
      assert ip == IpHeader(Static(), p) && udp == UdpHeader(p);
    }
  }

  // ---------------------------------------------------------------------------------------------
  // Compose: a socket buffer becomes a packet for the device
  // ---------------------------------------------------------------------------------------------

  predicate Refused(destIp: nat) { destIp == BROADCAST || destIp == MULTICAST_DNS }

  /** sizeof is unsigned, so a length below eight wraps to a huge one. */
  function PayloadSize(udpLength: nat): (n: nat) {
    (udpLength - UDP_HLEN) % 0x1_0000_0000_0000_0000
  }

  /**
   The payload; when the length field says more than the buffer has, what the source would read behind it is left out.
   */
  function Front(behind: seq<Byte>, size: nat): (payload: seq<Byte>)
    ensures |payload| <= size
  {
    behind[..Min(size, |behind|)]
  }

  /** The tests on a UDP packet's fields, and the packet made of them. */
  function Accept(destIp: nat, udpLength: nat, sourceIp: nat, sourcePort: nat, destPort: nat,
                  behind: seq<Byte>): (p: Option<Packet>) {
    if Refused(destIp) || PayloadSize(udpLength) > MAX_UDP_PAYLOAD then None
    else Some(Packet(sourceIp, sourcePort, destIp, destPort, Front(behind, PayloadSize(udpLength))))
  }

  function Compose(skb: Skb): (p: Option<Packet>)
    requires IP_HLEN <= |skb.data| && skb.transport + UDP_HLEN <= |skb.data|
  {
    var d, u := skb.data, skb.transport;
    if !skb.isIpv4 || d[9] != PROTOCOL_UDP then None
    else Accept(Load32(d, 16), Load16(d, u + 4), Load32(d, 12), Load16(d, u), Load16(d, u + 2), d[u + UDP_HLEN..])
  }

  /** Whatever is accepted fits a slot, also when the UDP length field is below eight. */
  lemma ComposedFitsSlot(skb: Skb)
    requires IP_HLEN <= |skb.data| && skb.transport + UDP_HLEN <= |skb.data|
    ensures Compose(skb).Some? ==>
              && InRange(Compose(skb).value) && |Image(Compose(skb).value)| <= SLOT
              && UDP_HLEN <= Load16(skb.data, skb.transport + 4) <= UDP_HLEN + MAX_UDP_PAYLOAD
  {
  }

  lemma LoadPart(s: seq<Byte>, before: seq<Byte>, part: seq<Byte>, after: seq<Byte>, k: nat)
    requires s == before + part + after && k + 2 <= |part|
    ensures Load16(s, |before| + k) == Load16(part, k)
  {
  }

  lemma UdpFields(p: Packet)
    requires InRange(p)
    ensures Load16(UdpHeader(p), 0) == p.sourcePort && Load16(UdpHeader(p), 2) == p.destPort
    ensures Load16(UdpHeader(p), 4) == (|p.payload| + UDP_HLEN) % 0x1_0000
  {
    LoadBytes16(UdpHeader(p), 0, p.sourcePort);
    LoadBytes16(UdpHeader(p), 2, p.destPort);
    LoadBytes16(UdpHeader(p), 4, |p.payload| + UDP_HLEN);
  }

  lemma DecomposedIp(t: Template, p: Packet)
    requires InRange(p)
    ensures var d := Decomposed(t, p).data;
            d[9] == PROTOCOL_UDP && Load32(d, 12) == p.sourceIp && Load32(d, 16) == p.destIp
  {
    var d := Decomposed(t, p).data;
    assert d[12..16] == Bytes32(p.sourceIp);
    assert d[16..20] == Bytes32(p.destIp);
    LoadBytes32(d, 12, p.sourceIp);
    LoadBytes32(d, 16, p.destIp);
  }

  lemma DecomposedUdp(t: Template, p: Packet)
    requires InRange(p)
    ensures var d := Decomposed(t, p).data;
            && |d| == 28 + |p.payload|
            && Load16(d, 20) == p.sourcePort && Load16(d, 22) == p.destPort
            && Load16(d, 24) == (|p.payload| + UDP_HLEN) % 0x1_0000
            && d[28..] == p.payload
  {
    var d := Decomposed(t, p).data;
    var ip := WithChecksum(IpHeader(t, p), Checksum(IpHeader(t, p)));
    assert d == ip + UdpHeader(p) + p.payload;
    UdpFields(p);
    LoadPart(d, ip, UdpHeader(p), p.payload, 0);
    LoadPart(d, ip, UdpHeader(p), p.payload, 2);
    LoadPart(d, ip, UdpHeader(p), p.payload, 4);
  }

  /** The length check after the 16-bit length field has wrapped, if it has. */
  lemma AcceptIff(p: Packet)
    requires |p.payload| < 0x1_0000
    ensures Accept(p.destIp, (|p.payload| + UDP_HLEN) % 0x1_0000, p.sourceIp, p.sourcePort, p.destPort, p.payload) ==
            if |p.payload| <= MAX_UDP_PAYLOAD && !Refused(p.destIp) then Some(p) else None
  {
    assert |p.payload| <= MAX_UDP_PAYLOAD <==> PayloadSize((|p.payload| + UDP_HLEN) % 0x1_0000) <= MAX_UDP_PAYLOAD;
    assert p.payload[..|p.payload|] == p.payload;
  }

  /**
   Composing what was decomposed gives the packet back exactly when it is not too long and its destination is served.
   */
  lemma ComposeUndoesDecomposeIff(t: Template, p: Packet)
    requires InRange(p)
    ensures Compose(Decomposed(t, p)) == if |p.payload| <= MAX_UDP_PAYLOAD && !Refused(p.destIp) then Some(p) else None
  {
    DecomposedIp(t, p);
    DecomposedUdp(t, p);
    AcceptIff(p);
  }

  /**
   An accepted packet, put into a slot, comes out of the transmit path whole exactly when its payload fills a word.
   */
  lemma ComposedIsDeliveredIff(skb: Skb, slot: seq<Byte>)
    requires IP_HLEN <= |skb.data| && skb.transport + UDP_HLEN <= |skb.data| && Compose(skb).Some?
    requires |slot| == SLOT && Image(Compose(skb).value) <= slot
    ensures R.Words(SlotBeats(slot))
    ensures 8 <= |Compose(skb).value.payload| <==>
            Split(R.Payload(SlotBeats(slot))).complete == [Compose(skb).value.payload]
  {
    var p := Compose(skb).value;
    ComposedFitsSlot(skb);
    ImageIsHeld(slot, p);
    RemoverReadsSlotIff(slot, p);
    assert p.payload[..|p.payload|] == p.payload;
  }

  /** A datagram with one byte of payload, from 10.0.0.1 to 10.0.0.2. */
  function ShortDatagram(): (skb: Skb)
    ensures |skb.data| == 29 && skb.transport == IP_HLEN
  {
    Skb(true,
        [0x45, 0, 0, 29, 0, 0, 0, 0, 64, PROTOCOL_UDP, 0, 0, 10, 0, 0, 1, 10, 0, 0, 2]
          + [0x1d, 0, 0x1d, 1, 0, 9, 0, 0] + [7],
        IP_HLEN)
  }

  /** The driver accepts it, but from its slot eight bytes come out, and no end of frame. */
  lemma ShortDatagramIsNotDelivered(slot: seq<Byte>)
    requires |slot| == SLOT
    requires Compose(ShortDatagram()).Some? ==> Image(Compose(ShortDatagram()).value) <= slot
    ensures Compose(ShortDatagram()) == Some(Packet(0xa00_0001, 7424, 0xa00_0002, 7425, [7]))
    ensures R.Words(SlotBeats(slot)) && Split(R.Payload(SlotBeats(slot))) == Frames([], slot[HEADER_BYTES..48])
  {
    var d := ShortDatagram().data;
    assert Load32(d, 16) == 0xa00_0002 && Load32(d, 12) == 0xa00_0001;
    assert Load16(d, 20) == 7424 && Load16(d, 22) == 7425 && Load16(d, 24) == 9;
    assert d[28..] == [7];
    var p := Packet(0xa00_0001, 7424, 0xa00_0002, 7425, [7]);
    assert Front(d[28..], 1) == [7];
    assert Compose(ShortDatagram()) == Some(p);
    ImageIsHeld(slot, p);
    ShortPayloadStaysOpen(slot, p);
  }
}
