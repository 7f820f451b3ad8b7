/** How sharp the bound on redirects is: the second redirect does happen, a packet
    that is not delivered where it is addressed can be redirected again, and the
    tables the theorems start from are those the gateway's own agents produce. */
module RedirectLimits {
  import opened Words
  import opened Wrappers
  import opened WireFormat
  import opened HeaderStack
  import opened PacketParsers
  import opened FrameParsing
  import opened IpTypeTable
  import opened Ecmp
  import opened Redirect
  import opened Tunnel
  import opened Gateway
  import opened Frames
  import opened RedirectHop
  import opened RedirectedFrames
  import opened InnerAcceptance
  import opened TunnelAcceptance
  import opened HopTheorem
  import opened RedirectProtocol
  import HashTables
  import RouteAgent

  /** The EIP has an entry that limits it within its cluster. */
  predicate LimitedWithin(b: Option<Bandwidth>) {
    b.Some? && b.value.within == 1
  }

  /** The EIP has an entry that limits it within its cluster or between clusters. */
  predicate Limited(b: Option<Bandwidth>) {
    b.Some? && (b.value.within == 1 || b.value.between == 1)
  }

  /** The packet is neither taken for the CPU nor dropped by an ACL. */
  predicate Untouched(ch: Chances) {
    !ch.local && !ch.aclDrop && !ch.egressDrop
  }

  lemma FreshScope(b: Option<Bandwidth>)
    ensures EipScope(In, 0, b).Some? <==> Limited(b)
  {
  }

  lemma AzScope(b: Option<Bandwidth>)
    ensures EipScope(In, TofOf(In, Az), b).Some? <==> LimitedWithin(b)
  {
  }

  /** What P02 ingress finds at both ends of a frame. */
  lemma FrameEnds(f: Frame)
    requires ValidFrame(f)
    ensures var o := Parse(P02Ingress, FrameBytes(f));
      o.Accepted? ==>
        && o.hdr.ethernet == Some(f.eth) && (o.hdr.fabric.Some? <==> f.shim.Some?) && o.hdr.ipv4 == Some(f.ip)
        && o.hdr.innerIpv4 == InnerHeaders(Carried(f)).innerIpv4 &&
          o.hdr.innerIpv6 == InnerHeaders(Carried(f)).innerIpv6
  {
    hide Parse, FrameBytes, ValidFrame, EmitInner, Ipv4At, Ipv6At;
    IngressParsesFrame(f);
  }

  /** The first redirect of an inbound packet to another cluster is followed by a
      second, at the gateway it is delivered to, exactly when that gateway's entry
      limits the EIP within the cluster: the bound of two is reached. */
  lemma PeerSendsOnIff(v0: Visit, v1: Visit, packet: seq<byte>, next: seq<byte>)
    requires TablesFilled(v0.g) && Routed(v0.g) && HopOf(v0.g, v0.ch, packet) == Sent(next)
    requires var x := ReadAt(v0.g, v0.ch, packet); x.Some? && DirOf(x.value.rule) == In && x.value.scope == Some(Az)
    requires TablesFilled(v1.g) && Routed(v1.g) && Untouched(v1.ch) && Peer(v0.g, v1.g, In, Az)
    ensures var inner := ReadAt(v0.g, v0.ch, packet).value.inner;
      HopOf(v1.g, v1.ch, next).Sent? <==> LimitedWithin(BandwidthOf(InnerHeaders(inner), In, v1.g.inbound))
    ensures HopOf(v1.g, v1.ch, next).Sent? ==> Travels([v0, v1], [packet, next, HopOf(v1.g, v1.ch, next).bytes])
  {
    hide HopOf, ReadAt, TablesFilled, Routed, Parsable, FrameBytes, ValidFrame, KeptInner, InnerSent, InnerHeaders;
    hide BandwidthOf;
    hide EipScope, LimitedWithin, RankOf, IsIp, Addressed;
    HopSends(v0.g, v0.ch, packet);
    var x := ReadAt(v0.g, v0.ch, packet).value;
    var now := SentFrom(v0, x);
    var f :| next == FrameBytes(f) && SentOn(v0.g, x.rule, now, x.vni, Az, f);
    InnerSentIsKept(v0.g, v0.ch, x.rule, x.vni, x.inner);
    KeptIsParsable(In, x.inner, now);
    EipKept(v0.g, v0.ch, x.rule, x.vni, x.inner, v1.g.inbound);
    PeerIsAddressed(v0.g, v1.g, f.ip.dstAddr);
    AzFrameScope(v1, f);
    HopSends(v1.g, v1.ch, next);
    ReadByOwner(v1.g, v1.ch, f, In, Az);
    if HopOf(v1.g, v1.ch, next).Sent? {
      TravelsTwice(v0, v1, packet, next, HopOf(v1.g, v1.ch, next).bytes);
    }
  }

  lemma PeerIsAddressed(g: Gateway, to: Gateway, dst: bv32)
    requires Peer(g, to, In, Az) && dst == g.cfg.sharedBwVip
    ensures Addressed(to.cfg, Az, dst)
  {
  }

  /** What the receiver of a frame for its cluster looks up. */
  lemma AzFrameScope(v: Visit, f: Frame)
    requires TablesFilled(v.g) && ValidFrame(f) && Speaks(f, In, Az) && f.shim.None? && IsIp(f.ie.etherType)
    requires Parsable(Carried(f))
    requires Addressed(v.g.cfg, Az, f.ip.dstAddr)
    ensures ReadAt(v.g, v.ch, FrameBytes(f)).Some?
    ensures ReadAt(v.g, v.ch, FrameBytes(f)).value.scope.Some? <==>
      LimitedWithin(BandwidthOf(InnerHeaders(Carried(f)), In, v.g.inbound))
    ensures ReachedOwner(v.g, OutcomeAt(FrameBytes(f)))
  {
    hide Parse, RuleAt, TablesFilled, Parsable, FrameBytes, ValidFrame, EmitInner, InnerHeaders, BandwidthOf;
    hide EipScope, LimitedWithin, IsIp, Addressed, Lookup, Table;
    FrameReceived(f, In, Az);
    FrameEnds(f);
    UnderstoodIffAddressed(v.g, v.ch, f, In, Az);
    var o := Parse(P02Ingress, FrameBytes(f));
    BandwidthOfSame(o.hdr, InnerHeaders(Carried(f)), In, v.g.inbound);
    AzScope(BandwidthOf(InnerHeaders(Carried(f)), In, v.g.inbound));
    AzRank();
  }

  lemma AzRank()
    ensures Rank(TofOf(In, Az)) == 1
  {
  }

  lemma TravelsTwice(v0: Visit, v1: Visit, packet: seq<byte>, next: seq<byte>, last: seq<byte>)
    requires TablesFilled(v0.g) && Routed(v0.g) && HopOf(v0.g, v0.ch, packet) == Sent(next)
    requires TablesFilled(v1.g) && Routed(v1.g) && HopOf(v1.g, v1.ch, next) == Sent(last)
    requires ReachedOwner(v1.g, OutcomeAt(next))
    ensures Travels([v0, v1], [packet, next, last])
  {
    hide HopOf, TablesFilled, Routed, ReachedOwner, OutcomeAt;
  }

  // ---------- without delivery ----------

  /** A gateway a frame is not addressed to takes it for a raw packet to the outer
      destination, and puts it into a tunnel again exactly when that address is an
      EIP it limits (and no shim hides the packet). */
  lemma StrangerSendsOnIff(v: Visit, f: Frame, dir: Direction, scope: Scope)
    requires TablesFilled(v.g) && Routed(v.g) && Untouched(v.ch)
    requires ValidFrame(f) && Speaks(f, dir, scope) && IsIp(f.ie.etherType) && Parsable(Carried(f))
    requires !Addressed(v.g.cfg, scope, f.ip.dstAddr)
    ensures HopOf(v.g, v.ch, FrameBytes(f)).Sent? <==> f.shim.None? && OuterLimited(v.g, f.ip.dstAddr)
  {
    hide HopOf, RuleAt, Parse, TablesFilled, Routed, Parsable, FrameBytes, ValidFrame, RawScope, Lookup, Table;
    hide Addressed, IsIp;
    HopSends(v.g, v.ch, FrameBytes(f));
    UnderstoodIffAddressed(v.g, v.ch, f, dir, scope);
    FrameEnds(f);
    RawView(f);
    RawViewScope(v.g, f);
  }

  /** The gateway limits the EIP of that address. */
  predicate OuterLimited(g: Gateway, dst: bv32) {
    Limited(if dst in g.inbound.eip4 then Some(g.inbound.eip4[dst]) else None)
  }

  /** A frame as a raw packet: what stands behind its Ethernet header. */
  function RawOf(f: Frame): Inner {
    Inner(f.eth.etherType, if |FrameBytes(f)| >= 14 then FrameBytes(f)[14..] else [])
  }

  lemma RawView(f: Frame)
    ensures RawOf(f) == Inner(f.eth.etherType, ShimBytes(f.shim) + VxlanStack(f.ip, f.udp, f.vx, f.ie, f.l3))
  {
    hide EncodeEthernet, ShimBytes, VxlanStack;
    EthernetWidth(f.eth);
  }

  lemma EthernetWidth(e: Ethernet)
    ensures |EncodeEthernet(e)| == 14
  {
  }

  lemma RawViewScope(g: Gateway, f: Frame)
    requires ValidFrame(f)
    ensures RawScope(g, RawOf(f)).Some? && Parsable(RawOf(f)) <==> f.shim.None? && OuterLimited(g, f.ip.dstAddr)
  {
    hide RawOf, Parsable, Ipv4At, VxlanStack, EncodeFabric, EncodeCpu, EipScope, Limited;
    RawView(f);
    match f.shim
    case None =>
      var l3 := VxlanStack(f.ip, f.udp, f.vx, f.ie, f.l3);
      NoShimBytes(l3);
      StackLeads(f);
      FreshScope(BandwidthOf(InnerHeaders(RawOf(f)), In, g.inbound));
    case Some(_) =>
      ShimHasNoScope(g, RawOf(f).l3);
  }

  /** A VXLAN stack is a complete UDP packet. */
  lemma StackLeads(f: Frame)
    requires CarriesVxlan(f.ip, f.udp)
    ensures var l3 := VxlanStack(f.ip, f.udp, f.vx, f.ie, f.l3);
      Ipv4At(l3) == Some(f.ip) && Parsable(Inner(ETHERTYPE_IPV4, l3))
  {
    hide Parsable, EncodeIpv4, EncodeUdp, EncodeVxlan, EncodeEthernet, Ipv4At, OptionsRoom;
    var l3 := VxlanStack(f.ip, f.udp, f.vx, f.ie, f.l3);
    Ipv4Leads(f.ip, EncodeUdp(f.udp) + (EncodeVxlan(f.vx) + (EncodeEthernet(f.ie) + f.l3)));
    StackAppends(f.ip, f.udp, f.vx, f.ie, [], f.l3);
    assert [] + f.l3 == f.l3;
    NoOptions(f.ip);
    ParsableIff(Inner(ETHERTYPE_IPV4, l3));
  }

  /** What a gateway a frame is not addressed to reads off it. */
  lemma StrangerReads(v: Visit, f: Frame, dir: Direction, scope: Scope)
    requires TablesFilled(v.g) && ValidFrame(f) && Speaks(f, dir, scope) && IsIp(f.ie.etherType) && Parsable(Carried(f))
    requires !Addressed(v.g.cfg, scope, f.ip.dstAddr) && f.shim.None?
    ensures ReadAt(v.g, v.ch, FrameBytes(f)).Some?
    ensures var x := ReadAt(v.g, v.ch, FrameBytes(f)).value;
      && x.rule.RawV4? && x.scope == RawScope(v.g, x.inner)
      && InnerHeaders(x.inner).innerIpv4 == Some(f.ip) && InnerHeaders(x.inner).innerIpv6.None?
  {
    hide RuleAt, Parse, TablesFilled, Parsable, FrameBytes, RawScope, Lookup, Table, Addressed, IsIp, VxlanStack;
    hide CarriesVxlan, Ipv4At;
    UnderstoodIffAddressed(v.g, v.ch, f, dir, scope);
    FrameEnds(f);
    RawView(f);
    NoShimBytes(VxlanStack(f.ip, f.udp, f.vx, f.ie, f.l3));
    StackLeads(f);
  }

  /** The delivery in the theorem is needed: a gateway that a travelling packet is
      not addressed to redirects it once more, however often it has been redirected,
      exactly when it limits the EIP of the outer destination. */
  lemma BoundNeedsDelivery(vs: seq<Visit>, ps: seq<seq<byte>>, v: Visit)
    requires Travels(vs, ps) && |vs| > 0
    requires TablesFilled(v.g) && Routed(v.g) && Untouched(v.ch) && !ReachedOwner(v.g, OutcomeAt(ps[|vs|]))
    ensures var o := OutcomeAt(ps[|vs|]);
      && o.Accepted? && o.hdr.ipv4.Some?
      && (HopOf(v.g, v.ch, ps[|vs|]).Sent? <==> o.hdr.fabric.None? && OuterLimited(v.g, o.hdr.ipv4.value.dstAddr))
  {
    hide HopOf, ReadAt, TablesFilled, Routed, Parsable, Parse, FrameBytes, ValidFrame, InnerAfter, IsIp, OuterLimited;
    hide Addressed, EmitInner;
    JourneySoFar(vs, ps, |vs|);
    var x := FirstReading(vs, ps).value;
    var f, scope :| ps[|vs|] == FrameBytes(f) && OnItsWay(x.rule, InnerAfter(vs, x, |vs|), x.vni, |vs|, scope, f);
    var dir := DirOf(x.rule);
    FrameReceived(f, dir, scope);
    FrameEnds(f);
    OwnerIsAddressed(v.g, f, dir, scope);
    StrangerSendsOnIff(v, f, dir, scope);
  }

  lemma OwnerIsAddressed(g: Gateway, f: Frame, dir: Direction, scope: Scope)
    requires Speaks(f, dir, scope) && Received(OutcomeAt(FrameBytes(f)), f)
    ensures ReachedOwner(g, OutcomeAt(FrameBytes(f))) <==> Addressed(g.cfg, scope, f.ip.dstAddr)
  {
    hide Parse, FrameBytes, EmitInner, Addressed;
  }

  // ---------- usable ECMP groups ----------

  /** A gateway whose ECMP tables are the initialised ones after a run of route
      messages has an active member for every packet exactly when the run has put
      gateways into pipe 0 and into pipe 2. */
  lemma RoutedIff(g: Gateway, t: Tables, gws: seq<HashTables.Entry<RouteAgent.Gateway>>, es: seq<RouteAgent.Turn>)
    requires Serves(t) && RouteAgent.GoodGateways(gws) && g.ecmp == RouteAgent.After(t, gws, es)
    requires SetUp(t, 1, true) && SetUp(t, 3, true) && SetUp(t, 0, false) && SetUp(t, 2, false)
    ensures Routed(g) <==> RouteAgent.LastWritten(gws, es, 0).Some? && RouteAgent.LastWritten(gws, es, 2).Some?
  {
    hide Serves, SetUp, HasActive, RouteAgent.After, RouteAgent.LastWritten;
    RouteAgent.AllActiveIff(t, gws, es);
  }
}
