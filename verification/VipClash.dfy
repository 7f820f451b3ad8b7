/** A gateway whose two VIPs are equal: the packets its classifier is ambiguous on
    are packets its parser accepts. */
module VipClash {
  import opened Words
  import opened Wrappers
  import opened WireFormat
  import opened HeaderStack
  import opened PacketParsers
  import opened FrameParsing
  import opened IpTypeTable
  import opened Classification
  import opened Frames
  import opened RedirectedFrames
  import opened InnerAcceptance
  import opened TunnelAcceptance

  /** An IPv4 packet in a standard VXLAN frame, tunnelled to an address. */
  predicate HostFrame(f: Frame, vip: bv32) {
    && ValidFrame(f) && f.ip.dstAddr == vip && f.vx.flags == 0x08 && f.vx.tof == 0
    && f.ie.etherType == ETHERTYPE_IPV4 && Parsable(Inner(f.ie.etherType, f.l3))
  }

  lemma StandardFrame(f: Frame, vip: bv32)
    requires HostFrame(f, vip)
    ensures FrameType(P02Ingress, f.vx) == VXLAN_TYPE_STD
  {
    hide Parsable, ValidFrame;
  }

  /** P02 ingress accepts every frame of a host to the VIP, and with equal VIPs its
      table then holds two entries of one priority for it. */
  lemma HostFramesClash(c: GatewayConfig, f: Frame, junk: Fields)
    requires !DistinctVips(c) && HostFrame(f, c.vip)
    ensures var o := Parse(P02Ingress, FrameBytes(f));
      o.Accepted? && Ambiguous(Table(c), KeyOf(o.hdr, o.vxlanType, junk))
  {
    hide Parse, Parsable, FrameBytes, ValidFrame, FrameType, EmitInner, Table, Ipv4At, Ipv6At;
    StandardFrame(f, c.vip);
    FrameAccepted(f);
    IngressParsesFrame(f);
    var o := Parse(P02Ingress, FrameBytes(f));
    EqualVipsClash(c, KeyOf(o.hdr, o.vxlanType, junk));
  }

  /** Such a frame: a bare IPv4 header in a tunnel from 10.0.0.1. */
  function SomeHostFrame(vip: bv32): Frame {
    var ip := Ipv4(4, 5, 0, 0, 70, 0, 2, 0, 64, IP_PROTOCOLS_UDP, 0, 0x0A00_0001, vip);
    var inner := Ipv4(4, 5, 0, 0, 20, 0, 2, 0, 64, 0, 0, 0x0A00_0002, 0x0808_0808);
    Frame(Ethernet(2, 1, ETHERTYPE_IPV4), None, ip, Udp(1000, UDP_PORT_VXLAN, 50, 0), Vxlan(0x08, 0, 0, 7, 0, 0),
          Ethernet(4, 3, ETHERTYPE_IPV4), EncodeIpv4(inner))
  }

  lemma SomeHostFrameIs(vip: bv32)
    ensures HostFrame(SomeHostFrame(vip), vip)
  {
    hide Parsable, EncodeIpv4, Ipv4At, OptionsRoom;
    var f := SomeHostFrame(vip);
    var inner := Ipv4(4, 5, 0, 0, 20, 0, 2, 0, 64, 0, 0, 0x0A00_0002, 0x0808_0808);
    Ipv4Leads(inner, []);
    assert EncodeIpv4(inner) + [] == f.l3;
    Ipv4Width(inner);
    NoOptions(inner);
    ParsableIff(Inner(f.ie.etherType, f.l3));
  }

  lemma Ipv4Width(ip: Ipv4)
    ensures |EncodeIpv4(ip)| == 20
  {
  }

  /** The parser accepts the packet and the table is ambiguous on it. */
  ghost predicate PacketClashes(c: GatewayConfig, packet: seq<byte>, junk: Fields) {
    var o := Parse(P02Ingress, packet);
    o.Accepted? && Ambiguous(Table(c), KeyOf(o.hdr, o.vxlanType, junk))
  }

  /** So the table is ambiguous on some packet the parser accepts exactly when the
      VIPs are equal. */
  lemma ClashIffVipsEqual(c: GatewayConfig, junk: Fields)
    ensures (exists packet :: PacketClashes(c, packet, junk)) <==> !DistinctVips(c)
  {
    hide Parse, Table, FrameBytes, Ambiguous, Best, Lookup, Decision, SomeHostFrame, HostFrame;
    if DistinctVips(c) {
      forall packet
        ensures !PacketClashes(c, packet, junk)
      {
        if Parse(P02Ingress, packet).Accepted? {
          EveryPacketDecided(c, packet, junk);
        }
      }
    } else {
      SomeHostFrameIs(c.vip);
      HostFramesClash(c, SomeHostFrame(c.vip), junk);
      assert PacketClashes(c, FrameBytes(SomeHostFrame(c.vip)), junk);
    }
  }
}
