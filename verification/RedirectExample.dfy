/** Three gateways and a packet: two redirects when it is delivered where it is
    addressed, and a third when it is then delivered elsewhere. */
module RedirectExample {
  import opened Words
  import opened Wrappers
  import opened WireFormat
  import opened HeaderStack
  import opened PacketParsers
  import opened IpTypeTable
  import opened Ecmp
  import opened Redirect
  import opened Gateway
  import opened Frames
  import opened RedirectHop
  import opened RedirectedFrames
  import opened InnerAcceptance
  import opened TunnelAcceptance
  import opened HopTheorem
  import opened RedirectProtocol
  import opened RedirectLimits

  const CLOUD_EIP: bv32 := 0x0A00_0009
  const FIRST_VIP: bv32 := 0x0A00_0101
  const SECOND_VIP: bv32 := 0x0A00_0102
  const THIRD_VIP: bv32 := 0x0A00_0103
  const SECOND_DL: bv32 := 0x0A00_0201
  const THIRD_DL: bv32 := 0x0A00_0301

  predicate Same(a: bv32, b: bv32) {
    a == b
  }

  /** An EIP table with one entry. */
  ghost function OneEip(eip: bv32, within: bv1, between: bv1): map<bv32, Bandwidth> {
    map x: bv32 | x == eip && Same(x, eip) :: Bandwidth(1, 0, within, between, 0)
  }

  lemma OneEipHas(eip: bv32, within: bv1, between: bv1)
    ensures eip in OneEip(eip, within, between)
    ensures OneEip(eip, within, between)[eip] == Bandwidth(1, 0, within, between, 0)
  {
    assert Same(eip, eip);
  }

  /** A gateway that limits some EIPs and whose DL block is a single address. */
  ghost function ExampleGateway(vip: bv32, sharedBwVip: bv32, dlIp: bv32, eips: map<bv32, Bandwidth>, t: Tables)
    : Gateway
  {
    var c := GatewayConfig(vip, 0, sharedBwVip, dlIp, 0xFFFF_FFFF);
    Gateway(c, RedirectTables(eips, map[], JdTable(c, In), [SECOND_DL], _ => 0),
            RedirectTables(map[], map[], JdTable(c, Out), [SECOND_DL], _ => 0), map[], {}, {}, t, _ => 0)
  }

  /** The first gateway limits the EIP between clusters. */
  ghost function FirstGateway(t: Tables): Gateway {
    ExampleGateway(FIRST_VIP, SECOND_VIP, FIRST_VIP, OneEip(CLOUD_EIP, 0, 1), t)
  }

  /** The second one owns the first one's shared-bandwidth VIP and limits the EIP
      within its cluster, at the gateway with the DL address. */
  ghost function SecondGateway(t: Tables): Gateway {
    ExampleGateway(SECOND_VIP, SECOND_VIP, SECOND_DL, OneEip(CLOUD_EIP, 1, 0), t)
  }

  /** The third one is not that gateway, but that address is an EIP it limits. */
  ghost function ThirdGateway(t: Tables): Gateway {
    ExampleGateway(THIRD_VIP, THIRD_VIP, THIRD_DL, OneEip(SECOND_DL, 1, 0), t)
  }

  lemma ExampleTables(vip: bv32, sharedBwVip: bv32, dlIp: bv32, eips: map<bv32, Bandwidth>, t: Tables)
    requires Serves(t) && forall pipe :: 0 <= pipe < 4 ==> HasActive(t, pipe)
    ensures var g := ExampleGateway(vip, sharedBwVip, dlIp, eips, t); TablesFilled(g) && Routed(g)
  {
    hide JdTable, Serves, HasActive;
  }

  const BARE_HEADER := Ipv4(4, 5, 0, 0, 20, 0, 2, 0, 64, 0, 0, 0x0A00_0002, 0x0808_0808)

  /** A packet for the EIP: VXLAN over IPv4 around a bare header. */
  function ExampleFrame(): Frame {
    var ip := Ipv4(4, 5, 0, 0, 70, 0, 2, 0, 64, IP_PROTOCOLS_UDP, 0, 0x0A00_0001, CLOUD_EIP);
    Frame(Ethernet(2, 1, ETHERTYPE_IPV4), None, ip, Udp(1000, UDP_PORT_VXLAN, 50, 0),
          Vxlan(0x0C, 1, 0, 7, TofOf(In, Az), 0), Ethernet(4, 3, ETHERTYPE_IPV4), EncodeIpv4(BARE_HEADER))
  }

  lemma ExampleFrameIs()
    ensures var f := ExampleFrame();
      && ValidFrame(f) && Speaks(f, In, Az) && IsIp(f.ie.etherType) && Parsable(Carried(f)) && f.shim.None?
      && f.ip.dstAddr == CLOUD_EIP
  {
    hide Parsable, EncodeIpv4;
    BareHeaderParsable(BARE_HEADER);
  }

  lemma BareHeaderParsable(ip: Ipv4)
    requires ip.ihl == 5 && ip.protocol == 0
    ensures Parsable(Inner(ETHERTYPE_IPV4, EncodeIpv4(ip)))
  {
    hide Parsable, EncodeIpv4, Ipv4At, OptionsRoom;
    Ipv4Leads(ip, []);
    assert EncodeIpv4(ip) + [] == EncodeIpv4(ip);
    NoOptions(ip);
    ParsableIff(Inner(ETHERTYPE_IPV4, EncodeIpv4(ip)));
  }

  lemma FirstIsStranger(t: Tables)
    ensures !Addressed(FirstGateway(t).cfg, Az, CLOUD_EIP) && OuterLimited(FirstGateway(t), CLOUD_EIP)
    ensures Peer(FirstGateway(t), SecondGateway(t), In, Az)
  {
    hide OneEip, JdTable;
    OneEipHas(CLOUD_EIP, 0, 1);
  }

  /** The first gateway takes the packet for raw traffic of the EIP and asks for the
      other cluster. */
  lemma FirstReads(v: Visit, t: Tables)
    requires v.g == FirstGateway(t) && TablesFilled(v.g) && Routed(v.g) && Untouched(v.ch)
    ensures HopOf(v.g, v.ch, FrameBytes(ExampleFrame())).Sent?
    ensures ReadAt(v.g, v.ch, FrameBytes(ExampleFrame())).Some?
    ensures var x := ReadAt(v.g, v.ch, FrameBytes(ExampleFrame())).value;
      && DirOf(x.rule) == In && x.scope == Some(Az)
      && InnerHeaders(x.inner).innerIpv4 == Some(ExampleFrame().ip)
  {
    hide HopOf, ReadAt, TablesFilled, Routed, Parsable, FrameBytes, ValidFrame, Speaks, IsIp, OneEip, ExampleFrame;
    hide Addressed, InnerHeaders, JdTable;
    ExampleFrameIs();
    FirstIsStranger(t);
    OneEipHas(CLOUD_EIP, 0, 1);
    StrangerSendsOnIff(v, ExampleFrame(), In, Az);
    StrangerReads(v, ExampleFrame(), In, Az);
  }

  /** Two redirects of the packet, both delivered. */
  lemma SecondSends(v0: Visit, v1: Visit, t: Tables)
    requires v0.g == FirstGateway(t) && TablesFilled(v0.g) && Routed(v0.g) && Untouched(v0.ch)
    requires v1.g == SecondGateway(t) && TablesFilled(v1.g) && Routed(v1.g) && Untouched(v1.ch)
    ensures var p := FrameBytes(ExampleFrame());
      && HopOf(v0.g, v0.ch, p).Sent?
      && var next := HopOf(v0.g, v0.ch, p).bytes;
      && HopOf(v1.g, v1.ch, next).Sent? && Travels([v0, v1], [p, next, HopOf(v1.g, v1.ch, next).bytes])
  {
    hide HopOf, ReadAt, TablesFilled, Routed, FrameBytes, OneEip, InnerHeaders, JdTable, Travels;
    FirstReads(v0, t);
    FirstIsStranger(t);
    OneEipHas(CLOUD_EIP, 1, 0);
    ExampleFrameIs();
    PeerSendsOnIff(v0, v1, FrameBytes(ExampleFrame()), HopOf(v0.g, v0.ch, FrameBytes(ExampleFrame())).bytes);
  }

  /** The second redirect goes to the DL address. */
  lemma SecondSendsTo(v0: Visit, v1: Visit, p: seq<byte>, next: seq<byte>, last: seq<byte>) returns (f: Frame)
    requires Travels([v0, v1], [p, next, last]) && v1.g.inbound.dlMembers == [SECOND_DL]
    requires ReadAt(v0.g, v0.ch, p).Some? && DirOf(ReadAt(v0.g, v0.ch, p).value.rule) == In
    ensures last == FrameBytes(f) && ValidFrame(f) && Speaks(f, In, Eip) && f.shim.None? && IsIp(f.ie.etherType)
    ensures Parsable(Carried(f)) && f.ip.dstAddr == SECOND_DL
  {
    hide HopOf, ReadAt, TablesFilled, Routed, Parsable, FrameBytes, ValidFrame, KeptInner, InnerSent, IsIp, InnerAfter;
    hide ReachedOwner, EmitInner, Addressed, Stamped, PickedDl, EntryFor, JdFlag;
    var vs, ps := [v0, v1], [p, next, last];
    assert HopOf(vs[1].g, vs[1].ch, ps[1]) == Sent(ps[2]) && ReachedOwner(vs[1].g, OutcomeAt(ps[1]));
    JourneySoFar(vs, ps, 1);
    var x0 := ReadAt(v0.g, v0.ch, p).value;
    var f1, s1 :| next == FrameBytes(f1) && OnItsWay(x0.rule, InnerAfter(vs, x0, 1), x0.vni, 1, s1, f1);
    FrameReceived(f1, In, s1);
    OwnerScope(v1.g, f1, In, s1, OutcomeAt(next));
    ReadByOwner(v1.g, v1.ch, f1, In, s1);
    HopSends(v1.g, v1.ch, next);
    var x := ReadAt(v1.g, v1.ch, next).value;
    var now := SentFrom(v1, x);
    f :| last == FrameBytes(f) && SentOn(v1.g, x.rule, now, x.vni, x.scope.value, f);
    InnerSentIsKept(v1.g, v1.ch, x.rule, x.vni, x.inner);
    KeptIsParsable(DirOf(x.rule), x.inner, now);
    HighestRank(x0.rule);
  }

  lemma HighestRank(r: Rule)
    ensures RankOfRule(r) <= 2
  {
  }

  lemma ThirdIsStranger(t: Tables)
    ensures !Addressed(ThirdGateway(t).cfg, Eip, SECOND_DL) && OuterLimited(ThirdGateway(t), SECOND_DL)
  {
    hide OneEip, JdTable;
    OneEipHas(SECOND_DL, 1, 0);
  }

  /** Delivered, the packet is redirected twice; handed to the third gateway instead
      of the one it is then addressed to, it is redirected once more. */
  lemma RedirectedThreeTimes(t: Tables, c0: Chances, c1: Chances, c2: Chances)
    requires Serves(t) && forall pipe :: 0 <= pipe < 4 ==> HasActive(t, pipe)
    requires Untouched(c0) && Untouched(c1) && Untouched(c2)
    ensures exists p, next, last ::
      && Travels([Visit(FirstGateway(t), c0), Visit(SecondGateway(t), c1)], [p, next, last])
      && HopOf(ThirdGateway(t), c2, last).Sent?
  {
    hide HopOf, ReadAt, TablesFilled, Routed, FrameBytes, ValidFrame, Speaks, IsIp, Parsable, OneEip, JdTable, Travels;
    hide Serves, HasActive, Addressed, OuterLimited;
    ExampleTables(FIRST_VIP, SECOND_VIP, FIRST_VIP, OneEip(CLOUD_EIP, 0, 1), t);
    ExampleTables(SECOND_VIP, SECOND_VIP, SECOND_DL, OneEip(CLOUD_EIP, 1, 0), t);
    ExampleTables(THIRD_VIP, THIRD_VIP, THIRD_DL, OneEip(SECOND_DL, 1, 0), t);
    var v0, v1, v2 := Visit(FirstGateway(t), c0), Visit(SecondGateway(t), c1), Visit(ThirdGateway(t), c2);
    var p := FrameBytes(ExampleFrame());
    SecondSends(v0, v1, t);
    FirstReads(v0, t);
    var next := HopOf(v0.g, v0.ch, p).bytes;
    var last := HopOf(v1.g, v1.ch, next).bytes;
    var f := SecondSendsTo(v0, v1, p, next, last);
    ThirdIsStranger(t);
    StrangerSendsOnIff(v2, f, In, Eip);
  }
}
