/** The headers of p4src/common/header.h as records, the bytes each one takes
    on the wire, and the header stack with its fixed emit order. */
module WireFormat {
  import opened Words
  import opened Wrappers

  // ---------- the headers ----------

  datatype Ethernet = Ethernet(dstAddr: bv48, srcAddr: bv48, etherType: bv16)

  datatype Fabric = Fabric(reserved: byte, color: bv3, qos: bv5, reserved2: byte, dstPortOrGroup: bv16)

  datatype Cpu = Cpu(egressQueue: bv5, txBypass: bv1, captureTs: bv1, reserved: bv1, ingressPort: bv16,
                     ingressIfindex: bv16, ingressBd: bv16, reasonCode: bv16, etherType: bv16)

  datatype Ipv4 = Ipv4(version: bv4, ihl: bv4, dscp: bv6, ecn: bv2, totalLen: bv16, identification: bv16,
                       flags: bv3, fragOffset: bv13, ttl: byte, protocol: byte, hdrChecksum: bv16,
                       srcAddr: bv32, dstAddr: bv32)

  datatype Ipv6 = Ipv6(version: bv4, trafficClass: byte, flowLabel: bv20, payloadLen: bv16, nextHdr: byte,
                       hopLimit: byte, srcAddr: bv128, dstAddr: bv128)

  datatype Tcp = Tcp(srcPort: bv16, dstPort: bv16, seqNo: bv32, ackNo: bv32, dataOffset: bv4, res: bv4,
                     flags: byte, window: bv16, checksum: bv16, urgentPtr: bv16)

  datatype Udp = Udp(srcPort: bv16, dstPort: bv16, length: bv16, checksum: bv16)

  datatype Icmp = Icmp(typeNum: byte, code: byte, hdrChecksum: bv16)

  datatype Vxlan = Vxlan(flags: byte, version: bv4, reserved: bv20, vni: bv24, tof: bv4, reserved2: bv4)

  /** The metadata a packet carries in front of it from one pipe to the next. */
  datatype Bridge = Bridge(proto: byte, tunnelSrcId: byte, l3EcmpEntryIdx: bv16, sharedBandwidthId: bv16,
                           tunnelNexthop: bv16, innerMacId: bv16, pad0: bv7, igrPort: bv9,
                           outerEthernetType: bv16, eipOrBwid: bv32, lkpVni: bv24, dlPkt: bv1, pad01: bv3,
                           igrTunnelType: bv3, outerEthernetInvalid: bv1, needDrop: bv1, pad02: bv3,
                           tunnelDstId: bv12, tunnelDirectSend: bv3, nlbEip: bv1, meterPacketColor: bv2,
                           egrTunnelType: bv2, lkpL4Sport: bv16, lkpL4Dport: bv16)

  // ---------- bytes on the wire, most significant bit first ----------

  function EncodeEthernet(h: Ethernet): (b: seq<byte>)
    ensures |b| == 14
  {
    Bytes6(h.dstAddr) + Bytes6(h.srcAddr) + Bytes2(h.etherType)
  }

  function DecodeEthernet(b: seq<byte>): Ethernet
    requires |b| == 14
  {
    Ethernet(Word6(b[..6]), Word6(b[6..12]), Word2(b[12], b[13]))
  }

  function EncodeFabric(h: Fabric): (b: seq<byte>)
    ensures |b| == 5
  {
    [h.reserved, ((h.color as byte) << 5) | (h.qos as byte), h.reserved2] + Bytes2(h.dstPortOrGroup)
  }

  function DecodeFabric(b: seq<byte>): Fabric
    requires |b| == 5
  {
    Fabric(b[0], (b[1] >> 5) as bv3, (b[1] & 0x1F) as bv5, b[2], Word2(b[3], b[4]))
  }

  function CpuFlags(h: Cpu): byte {
    ((h.egressQueue as byte) << 3) | ((h.txBypass as byte) << 2) | ((h.captureTs as byte) << 1) | (h.reserved as byte)
  }

  function EncodeCpu(h: Cpu): (b: seq<byte>)
    ensures |b| == 11
  {
    [CpuFlags(h)] + Bytes2(h.ingressPort) + Bytes2(h.ingressIfindex) + Bytes2(h.ingressBd) + Bytes2(h.reasonCode) +
      Bytes2(h.etherType)
  }

  function DecodeCpu(b: seq<byte>): Cpu
    requires |b| == 11
  {
    Cpu((b[0] >> 3) as bv5, ((b[0] >> 2) & 1) as bv1, ((b[0] >> 1) & 1) as bv1, (b[0] & 1) as bv1,
        Word2(b[1], b[2]), Word2(b[3], b[4]), Word2(b[5], b[6]), Word2(b[7], b[8]), Word2(b[9], b[10]))
  }

  /** The ten bytes in front of the checksum. */
  function Ipv4Front(version: bv4, ihl: bv4, dscp: bv6, ecn: bv2, totalLen: bv16, identification: bv16,
                     flags: bv3, fragOffset: bv13, ttl: byte, protocol: byte): (b: seq<byte>)
    ensures |b| == 10
  {
    [((version as byte) << 4) | (ihl as byte), ((dscp as byte) << 2) | (ecn as byte)] + Bytes2(totalLen) +
    Bytes2(identification) + Bytes2(((flags as bv16) << 13) | (fragOffset as bv16)) + [ttl, protocol]
  }

  function EncodeIpv4Front(h: Ipv4): (b: seq<byte>)
    ensures |b| == 10
  {
    Ipv4Front(h.version, h.ihl, h.dscp, h.ecn, h.totalLen, h.identification, h.flags, h.fragOffset, h.ttl, h.protocol)
  }

  function EncodeIpv4(h: Ipv4): (b: seq<byte>)
    ensures |b| == 20
  {
    EncodeIpv4Front(h) + (Bytes2(h.hdrChecksum) + (Bytes4(h.srcAddr) + Bytes4(h.dstAddr)))
  }

  function DecodeIpv4(b: seq<byte>): Ipv4
    requires |b| == 20
  {
    Ipv4((b[0] >> 4) as bv4, (b[0] & 0xF) as bv4, (b[1] >> 2) as bv6, (b[1] & 3) as bv2,
         Word2(b[2], b[3]), Word2(b[4], b[5]), (b[6] >> 5) as bv3, (Word2(b[6], b[7]) & 0x1FFF) as bv13,
         b[8], b[9], Word2(b[10], b[11]), Word4(b[12], b[13], b[14], b[15]), Word4(b[16], b[17], b[18], b[19]))
  }

  function EncodeIpv6Fixed(h: Ipv6): (b: seq<byte>)
    ensures |b| == 8
  {
    [((h.version as byte) << 4) | (h.trafficClass >> 4),
     ((h.trafficClass & 0xF) << 4) | ((h.flowLabel >> 16) as byte)] +
    Bytes2((h.flowLabel & 0xFFFF) as bv16) + Bytes2(h.payloadLen) + [h.nextHdr, h.hopLimit]
  }

  function EncodeIpv6(h: Ipv6): (b: seq<byte>)
    ensures |b| == 40
  {
    EncodeIpv6Fixed(h) + (Bytes16(h.srcAddr) + Bytes16(h.dstAddr))
  }

  function DecodeIpv6(b: seq<byte>): Ipv6
    requires |b| == 40
  {
    Ipv6((b[0] >> 4) as bv4, (b[0] << 4) | (b[1] >> 4), ((b[1] & 0xF) as bv20 << 16) | (Word2(b[2], b[3]) as bv20),
         Word2(b[4], b[5]), b[6], b[7], Word16(b[8..24]), Word16(b[24..]))
  }

  function EncodeTcpPorts(h: Tcp): (b: seq<byte>)
    ensures |b| == 12
  {
    Bytes2(h.srcPort) + Bytes2(h.dstPort) + Bytes4(h.seqNo) + Bytes4(h.ackNo)
  }

  function EncodeTcpControl(h: Tcp): (b: seq<byte>)
    ensures |b| == 8
  {
    [((h.dataOffset as byte) << 4) | (h.res as byte), h.flags] +
    Bytes2(h.window) + Bytes2(h.checksum) + Bytes2(h.urgentPtr)
  }

  function EncodeTcp(h: Tcp): (b: seq<byte>)
    ensures |b| == 20
  {
    EncodeTcpPorts(h) + EncodeTcpControl(h)
  }

  function DecodeTcp(b: seq<byte>): Tcp
    requires |b| == 20
  {
    Tcp(Word2(b[0], b[1]), Word2(b[2], b[3]), Word4(b[4], b[5], b[6], b[7]), Word4(b[8], b[9], b[10], b[11]),
        (b[12] >> 4) as bv4, (b[12] & 0xF) as bv4, b[13], Word2(b[14], b[15]), Word2(b[16], b[17]), Word2(b[18], b[19]))
  }

  function EncodeUdp(h: Udp): (b: seq<byte>)
    ensures |b| == 8
  {
    Bytes2(h.srcPort) + Bytes2(h.dstPort) + Bytes2(h.length) + Bytes2(h.checksum)
  }

  function DecodeUdp(b: seq<byte>): Udp
    requires |b| == 8
  {
    Udp(Word2(b[0], b[1]), Word2(b[2], b[3]), Word2(b[4], b[5]), Word2(b[6], b[7]))
  }

  function EncodeIcmp(h: Icmp): (b: seq<byte>)
    ensures |b| == 4
  {
    [h.typeNum, h.code] + Bytes2(h.hdrChecksum)
  }

  function DecodeIcmp(b: seq<byte>): Icmp
    requires |b| == 4
  {
    Icmp(b[0], b[1], Word2(b[2], b[3]))
  }

  function VxlanWord(version: bv4, reserved: bv20): bv24 {
    ((version as bv24) << 20) | (reserved as bv24)
  }

  function Nibbles(hi: bv4, lo: bv4): byte {
    ((hi as byte) << 4) | (lo as byte)
  }

  function High4(x: byte): bv4 { (x >> 4) as bv4 }
  function Low4(x: byte): bv4 { (x & 0xF) as bv4 }
  function Low20(x: bv24): bv20 { (x & 0xF_FFFF) as bv20 }

  function EncodeVxlan(h: Vxlan): (b: seq<byte>)
    ensures |b| == 8
  {
    [h.flags] + Bytes3(VxlanWord(h.version, h.reserved)) + Bytes3(h.vni) + [Nibbles(h.tof, h.reserved2)]
  }

  function DecodeVxlan(b: seq<byte>): Vxlan
    requires |b| == 8
  {
    Vxlan(b[0], High4(b[1]), Low20(Word3(b[1], b[2], b[3])), Word3(b[4], b[5], b[6]), High4(b[7]), Low4(b[7]))
  }

  // The bridge header is 29 bytes; its four parts end at bytes 8, 14, 22 and 29.

  function EncodeBridge1(h: Bridge): (b: seq<byte>)
    ensures |b| == 8
  {
    [h.proto, h.tunnelSrcId] + Bytes2(h.l3EcmpEntryIdx) + Bytes2(h.sharedBandwidthId) + Bytes2(h.tunnelNexthop)
  }

  function EncodeBridge2(h: Bridge): (b: seq<byte>)
    ensures |b| == 6
  {
    Bytes2(h.innerMacId) + Bytes2(((h.pad0 as bv16) << 9) | (h.igrPort as bv16)) + Bytes2(h.outerEthernetType)
  }

  function EncodeBridge3(h: Bridge): (b: seq<byte>)
    ensures |b| == 8
  {
    Bytes4(h.eipOrBwid) + Bytes3(h.lkpVni) +
    [((h.dlPkt as byte) << 7) | ((h.pad01 as byte) << 4) | ((h.igrTunnelType as byte) << 1) |
     (h.outerEthernetInvalid as byte)]
  }

  function EncodeBridge4(h: Bridge): (b: seq<byte>)
    ensures |b| == 7
  {
    Bytes2(((h.needDrop as bv16) << 15) | ((h.pad02 as bv16) << 12) | (h.tunnelDstId as bv16)) +
    [((h.tunnelDirectSend as byte) << 5) | ((h.nlbEip as byte) << 4) | ((h.meterPacketColor as byte) << 2) |
     (h.egrTunnelType as byte)] +
    Bytes2(h.lkpL4Sport) + Bytes2(h.lkpL4Dport)
  }

  function EncodeBridge(h: Bridge): (b: seq<byte>)
    ensures |b| == 29
  {
    (EncodeBridge1(h) + EncodeBridge2(h)) + (EncodeBridge3(h) + EncodeBridge4(h))
  }

  function DecodeBridgeParts(p: seq<byte>, q: seq<byte>, r: seq<byte>, t: seq<byte>): Bridge
    requires |p| == 8 && |q| == 6 && |r| == 8 && |t| == 7
  {
    Bridge(p[0], p[1], Word2(p[2], p[3]), Word2(p[4], p[5]), Word2(p[6], p[7]),
           Word2(q[0], q[1]), (q[2] >> 1) as bv7, (Word2(q[2], q[3]) & 0x1FF) as bv9, Word2(q[4], q[5]),
           Word4(r[0], r[1], r[2], r[3]), Word3(r[4], r[5], r[6]),
           (r[7] >> 7) as bv1, ((r[7] >> 4) & 7) as bv3, ((r[7] >> 1) & 7) as bv3, (r[7] & 1) as bv1,
           (t[0] >> 7) as bv1, ((t[0] >> 4) & 7) as bv3, (Word2(t[0], t[1]) & 0xFFF) as bv12,
           (t[2] >> 5) as bv3, ((t[2] >> 4) & 1) as bv1, ((t[2] >> 2) & 3) as bv2, (t[2] & 3) as bv2,
           Word2(t[3], t[4]), Word2(t[5], t[6]))
  }

  function DecodeBridge(b: seq<byte>): Bridge
    requires |b| == 29
  {
    DecodeBridgeParts(b[..8], b[8..14], b[14..22], b[22..])
  }

  /** The IPv4 header a packet starts with, if it is long enough for one. */
  function Ipv4At(b: seq<byte>): Option<Ipv4> {
    if |b| >= 20 then Some(DecodeIpv4(b[..20])) else None
  }

  /** The IPv6 header a packet starts with, if it is long enough for one. */
  function Ipv6At(b: seq<byte>): Option<Ipv6> {
    if |b| >= 40 then Some(DecodeIpv6(b[..40])) else None
  }

  // ---------- decoding undoes encoding, and encoding undoes decoding ----------

  lemma EthernetRoundTrip(h: Ethernet)
    ensures DecodeEthernet(EncodeEthernet(h)) == h
  {
    var b := EncodeEthernet(h);
    assert b[..6] == Bytes6(h.dstAddr) && b[6..12] == Bytes6(h.srcAddr);
    Word6RoundTrip(h.dstAddr, b[..6]);
    Word6RoundTrip(h.srcAddr, b[6..12]);
  }

  lemma EthernetBytes(b: seq<byte>)
    requires |b| == 14
    ensures EncodeEthernet(DecodeEthernet(b)) == b
  {
    Word6RoundTrip(0, b[..6]);
    Word6RoundTrip(0, b[6..12]);
    assert b == b[..6] + b[6..12] + [b[12], b[13]];
  }

  lemma FabricRoundTrip(h: Fabric)
    ensures DecodeFabric(EncodeFabric(h)) == h
  {
  }

  lemma FabricBytes(b: seq<byte>)
    requires |b| == 5
    ensures EncodeFabric(DecodeFabric(b)) == b
  {
  }

  lemma CpuRoundTrip(h: Cpu)
    ensures DecodeCpu(EncodeCpu(h)) == h
  {
  }

  lemma CpuBytes(b: seq<byte>)
    requires |b| == 11
    ensures EncodeCpu(DecodeCpu(b)) == b
  {
  }

  lemma Ipv4BitsRoundTrip(h: Ipv4)
    ensures var b := EncodeIpv4(h);
      && (b[0] >> 4) as bv4 == h.version && (b[0] & 0xF) as bv4 == h.ihl && (b[1] >> 2) as bv6 == h.dscp
      && (b[1] & 3) as bv2 == h.ecn && b[8] == h.ttl && b[9] == h.protocol
  {
    hide Bytes2, Bytes4;
  }

  lemma Ipv4FragmentRoundTrip(h: Ipv4)
    ensures var b := EncodeIpv4(h);
      (b[6] >> 5) as bv3 == h.flags && (Word2(b[6], b[7]) & 0x1FFF) as bv13 == h.fragOffset
  {
  }

  lemma Ipv4WordsRoundTrip(h: Ipv4)
    ensures var b := EncodeIpv4(h);
      && Word2(b[2], b[3]) == h.totalLen && Word2(b[4], b[5]) == h.identification
      && Word2(b[10], b[11]) == h.hdrChecksum
      && Word4(b[12], b[13], b[14], b[15]) == h.srcAddr && Word4(b[16], b[17], b[18], b[19]) == h.dstAddr
  {
    hide Bytes2, Bytes4, Word2, Word4;
    Word2RoundTrip(h.totalLen);
    Word2RoundTrip(h.identification);
    Word2RoundTrip(h.hdrChecksum);
    Word4RoundTrip(h.srcAddr);
    Word4RoundTrip(h.dstAddr);
  }

  lemma Word2RoundTrip(x: bv16)
    ensures Word2(Bytes2(x)[0], Bytes2(x)[1]) == x
  {
  }

  lemma Word4RoundTrip(x: bv32)
    ensures Word4(Bytes4(x)[0], Bytes4(x)[1], Bytes4(x)[2], Bytes4(x)[3]) == x
  {
  }

  lemma Ipv4RoundTrip(h: Ipv4)
    ensures DecodeIpv4(EncodeIpv4(h)) == h
  {
    hide EncodeIpv4, Word2, Word4;
    Ipv4BitsRoundTrip(h);
    Ipv4FragmentRoundTrip(h);
    Ipv4WordsRoundTrip(h);
  }

  lemma Ipv4FrontBytes(b: seq<byte>)
    requires |b| == 20
    ensures EncodeIpv4Front(DecodeIpv4(b)) == b[..10]
  {
  }

  lemma Ipv4Bytes(b: seq<byte>)
    requires |b| == 20
    ensures EncodeIpv4(DecodeIpv4(b)) == b
  {
    Ipv4FrontBytes(b);
    Bytes4Splits(b[12], b[13], b[14], b[15]);
    Bytes4Splits(b[16], b[17], b[18], b[19]);
    assert b == b[..10] + (b[10..12] + ([b[12], b[13], b[14], b[15]] + [b[16], b[17], b[18], b[19]]));
  }

  lemma Ipv6FixedRoundTrip(h: Ipv6, b: seq<byte>)
    requires |b| == 40 && b[..8] == EncodeIpv6Fixed(h)
    ensures DecodeIpv6(b) == h.(srcAddr := Word16(b[8..24]), dstAddr := Word16(b[24..]))
  {
    hide Word16;
    var f := EncodeIpv6Fixed(h);
    assert b[0] == f[0] && b[1] == f[1] && b[2] == f[2] && b[3] == f[3] && b[4] == f[4] && b[5] == f[5] &&
      b[6] == f[6] && b[7] == f[7];
  }

  lemma Ipv6RoundTrip(h: Ipv6)
    ensures DecodeIpv6(EncodeIpv6(h)) == h
  {
    hide Bytes16, Word16, EncodeIpv6Fixed, DecodeIpv6;
    var b := EncodeIpv6(h);
    assert b[8..24] == Bytes16(h.srcAddr) && b[24..] == Bytes16(h.dstAddr) && b[..8] == EncodeIpv6Fixed(h);
    Ipv6FixedRoundTrip(h, b);
    Word16OfBytes(h.srcAddr);
    Word16OfBytes(h.dstAddr);
  }

  lemma Ipv6FixedBytes(b: seq<byte>)
    requires |b| == 40
    ensures EncodeIpv6Fixed(DecodeIpv6(b)) == b[..8]
  {
  }

  lemma Ipv6Bytes(b: seq<byte>)
    requires |b| == 40
    ensures EncodeIpv6(DecodeIpv6(b)) == b
  {
    Ipv6FixedBytes(b);
    BytesOfWord16(b[8..24]);
    BytesOfWord16(b[24..]);
    assert b == b[..8] + (b[8..24] + b[24..]);
  }

  lemma TcpRoundTrip(h: Tcp)
    ensures DecodeTcp(EncodeTcp(h)) == h
  {
  }

  lemma TcpPortsBytes(b: seq<byte>)
    requires |b| == 20
    ensures EncodeTcpPorts(DecodeTcp(b)) == b[..12]
  {
  }

  lemma TcpControlBytes(b: seq<byte>)
    requires |b| == 20
    ensures EncodeTcpControl(DecodeTcp(b)) == b[12..]
  {
  }

  lemma TcpBytes(b: seq<byte>)
    requires |b| == 20
    ensures EncodeTcp(DecodeTcp(b)) == b
  {
    TcpPortsBytes(b);
    TcpControlBytes(b);
    assert b == b[..12] + b[12..];
  }

  lemma UdpRoundTrip(h: Udp)
    ensures DecodeUdp(EncodeUdp(h)) == h
  {
  }

  lemma UdpBytes(b: seq<byte>)
    requires |b| == 8
    ensures EncodeUdp(DecodeUdp(b)) == b
  {
  }

  lemma IcmpBytes(b: seq<byte>)
    requires |b| == 4
    ensures EncodeIcmp(DecodeIcmp(b)) == b
  {
  }

  lemma Bytes3Joins(x: bv24)
    ensures Word3(Bytes3(x)[0], Bytes3(x)[1], Bytes3(x)[2]) == x
  {
  }

  lemma VxlanWordSplits(version: bv4, reserved: bv20)
    ensures High4(Bytes3(VxlanWord(version, reserved))[0]) == version && Low20(VxlanWord(version, reserved)) == reserved
  {
  }

  lemma NibblesSplit(hi: bv4, lo: bv4)
    ensures High4(Nibbles(hi, lo)) == hi && Low4(Nibbles(hi, lo)) == lo
  {
  }

  lemma VxlanRoundTrip(h: Vxlan)
    ensures DecodeVxlan(EncodeVxlan(h)) == h
  {
    hide VxlanWord, Nibbles, High4, Low4, Low20, Bytes3, Word3;
    VxlanWordSplits(h.version, h.reserved);
    Bytes3Joins(VxlanWord(h.version, h.reserved));
    Bytes3Joins(h.vni);
    NibblesSplit(h.tof, h.reserved2);
    var b, w, v := EncodeVxlan(h), Bytes3(VxlanWord(h.version, h.reserved)), Bytes3(h.vni);
    assert b[1] == w[0] && b[2] == w[1] && b[3] == w[2] && b[4] == v[0] && b[5] == v[1] && b[6] == v[2];
  }

  lemma VxlanBytes(b: seq<byte>)
    requires |b| == 8
    ensures EncodeVxlan(DecodeVxlan(b)) == b
  {
  }

  lemma Bridge1Fields(h: Bridge, q: seq<byte>, r: seq<byte>, t: seq<byte>)
    requires |q| == 6 && |r| == 8 && |t| == 7
    ensures var d := DecodeBridgeParts(EncodeBridge1(h), q, r, t);
      && d.proto == h.proto && d.tunnelSrcId == h.tunnelSrcId && d.l3EcmpEntryIdx == h.l3EcmpEntryIdx
      && d.sharedBandwidthId == h.sharedBandwidthId && d.tunnelNexthop == h.tunnelNexthop
  {
  }

  lemma Bridge2Fields(h: Bridge, p: seq<byte>, r: seq<byte>, t: seq<byte>)
    requires |p| == 8 && |r| == 8 && |t| == 7
    ensures var d := DecodeBridgeParts(p, EncodeBridge2(h), r, t);
      && d.innerMacId == h.innerMacId && d.pad0 == h.pad0 && d.igrPort == h.igrPort
      && d.outerEthernetType == h.outerEthernetType
  {
  }

  lemma Bridge3Fields(h: Bridge, p: seq<byte>, q: seq<byte>, t: seq<byte>)
    requires |p| == 8 && |q| == 6 && |t| == 7
    ensures var d := DecodeBridgeParts(p, q, EncodeBridge3(h), t);
      && d.eipOrBwid == h.eipOrBwid && d.lkpVni == h.lkpVni && d.dlPkt == h.dlPkt && d.pad01 == h.pad01
      && d.igrTunnelType == h.igrTunnelType && d.outerEthernetInvalid == h.outerEthernetInvalid
  {
  }

  lemma Bridge4Fields(h: Bridge, p: seq<byte>, q: seq<byte>, r: seq<byte>)
    requires |p| == 8 && |q| == 6 && |r| == 8
    ensures var d := DecodeBridgeParts(p, q, r, EncodeBridge4(h));
      && d.needDrop == h.needDrop && d.pad02 == h.pad02 && d.tunnelDstId == h.tunnelDstId
      && d.tunnelDirectSend == h.tunnelDirectSend && d.nlbEip == h.nlbEip
      && d.meterPacketColor == h.meterPacketColor && d.egrTunnelType == h.egrTunnelType
      && d.lkpL4Sport == h.lkpL4Sport && d.lkpL4Dport == h.lkpL4Dport
  {
  }

  lemma BridgePartsRoundTrip(h: Bridge)
    ensures DecodeBridgeParts(EncodeBridge1(h), EncodeBridge2(h), EncodeBridge3(h), EncodeBridge4(h)) == h
  {
    hide EncodeBridge1, EncodeBridge2, EncodeBridge3, EncodeBridge4, DecodeBridgeParts;
    Bridge1Fields(h, EncodeBridge2(h), EncodeBridge3(h), EncodeBridge4(h));
    Bridge2Fields(h, EncodeBridge1(h), EncodeBridge3(h), EncodeBridge4(h));
    Bridge3Fields(h, EncodeBridge1(h), EncodeBridge2(h), EncodeBridge4(h));
    Bridge4Fields(h, EncodeBridge1(h), EncodeBridge2(h), EncodeBridge3(h));
  }

  lemma BridgeRoundTrip(h: Bridge)
    ensures DecodeBridge(EncodeBridge(h)) == h
  {
    var b := EncodeBridge(h);
    assert b[..8] == EncodeBridge1(h) && b[8..14] == EncodeBridge2(h);
    assert b[14..22] == EncodeBridge3(h) && b[22..] == EncodeBridge4(h);
    BridgePartsRoundTrip(h);
  }

  lemma Bridge1Bytes(p: seq<byte>, q: seq<byte>, r: seq<byte>, t: seq<byte>)
    requires |p| == 8 && |q| == 6 && |r| == 8 && |t| == 7
    ensures EncodeBridge1(DecodeBridgeParts(p, q, r, t)) == p
  {
  }

  lemma Bridge2Bytes(p: seq<byte>, q: seq<byte>, r: seq<byte>, t: seq<byte>)
    requires |p| == 8 && |q| == 6 && |r| == 8 && |t| == 7
    ensures EncodeBridge2(DecodeBridgeParts(p, q, r, t)) == q
  {
  }

  lemma Bridge3Bytes(p: seq<byte>, q: seq<byte>, r: seq<byte>, t: seq<byte>)
    requires |p| == 8 && |q| == 6 && |r| == 8 && |t| == 7
    ensures EncodeBridge3(DecodeBridgeParts(p, q, r, t)) == r
  {
  }

  lemma Bridge4Bytes(p: seq<byte>, q: seq<byte>, r: seq<byte>, t: seq<byte>)
    requires |p| == 8 && |q| == 6 && |r| == 8 && |t| == 7
    ensures EncodeBridge4(DecodeBridgeParts(p, q, r, t)) == t
  {
  }

  lemma BridgeBytes(b: seq<byte>)
    requires |b| == 29
    ensures EncodeBridge(DecodeBridge(b)) == b
  {
    hide EncodeBridge1, EncodeBridge2, EncodeBridge3, EncodeBridge4, DecodeBridgeParts;
    var p, q, r, t := b[..8], b[8..14], b[14..22], b[22..];
    Bridge1Bytes(p, q, r, t);
    Bridge2Bytes(p, q, r, t);
    Bridge3Bytes(p, q, r, t);
    Bridge4Bytes(p, q, r, t);
    assert b == (p + q) + (r + t);
  }
}
