/** The main theorem about one gateway: when it sends a packet on as redirected
    traffic, and what it sends, of the same direction and of a strictly lower rank,
    around exactly the inner packet its tables make of the one that came. */
module HopTheorem {
  import opened Words
  import opened Wrappers
  import opened WireFormat
  import opened HeaderStack
  import opened PacketParsers
  import opened FrameParsing
  import opened IngressShape
  import opened PacketState
  import opened IpTypeTable
  import opened Classification
  import opened Ecmp
  import opened Redirect
  import opened Tunnel
  import opened Gateway
  import opened Frames
  import opened RedirectHop
  import opened RedirectedFrames
  import opened InnerAcceptance
  import opened TunnelAcceptance

  /** The tenant's packet inside the packet that arrived: behind the tunnel
      headers of a frame, behind the Ethernet header of raw traffic. */
  function InnerOf(r: Rule, h: Headers, payload: seq<byte>, packet: seq<byte>): Inner {
    if r.Tunnel? then
      Inner(if h.innerEthernet.Some? then h.innerEthernet.value.etherType else 0, EmitInner(h) + payload)
    else
      Inner(if h.ethernet.Some? then h.ethernet.value.etherType else 0, if |packet| >= 14 then packet[14..] else [])
  }

  /** The network the packet came in from. */
  function VniOf(h: Headers): bv24 {
    if h.vxlan.Some? then h.vxlan.value.vni else 0
  }

  /** If the packet is sent on, its inner packet `inner` could be parsed and it goes
      out around exactly `now`, in the given scope. */
  ghost predicate SendsOn(g: Gateway, r: Rule, inner: Inner, now: Inner, vni: bv24, scope: Option<Scope>, hop: Hop) {
    hop.Sent? ==>
      Parsable(inner) && scope.Some? && exists f :: hop.bytes == FrameBytes(f) && SentOn(g, r, now, vni, scope.value, f)
  }

  /** The tenant's packet in a frame. */
  function Carried(f: Frame): Inner {
    Inner(f.ie.etherType, f.l3)
  }

  // ---------- what a rule says about the headers ----------

  lemma TunnelRuleShape(c: GatewayConfig, h: Headers, t: bv2, junk: Fields)
    requires Shaped(h, t) && RuleFor(c, KeyOf(h, t, junk)).Some? && RuleFor(c, KeyOf(h, t, junk)).value.Tunnel?
    ensures var r := RuleFor(c, KeyOf(h, t, junk)).value;
      && h.vxlan.Some? && IsIp(h.innerEthernet.value.etherType)
      && (h.innerIpv4.Some? <==> h.innerIpv6.None?)
      && RankOfRule(r) == Rank(h.vxlan.value.tof)
      && ScopeOf(t, h.vxlan.value.tof) == Some((r.dir, r.scope))
      && IpTypeTable.Installed(r)
      && (r.inner6 <==> h.innerIpv6.Some?)
      && Addressed(c, r.scope, h.ipv4.value.dstAddr)
  {
    hide Addressed, EipIsOdd, ScopeOf, Low2, RankOf, Rank;
    var f := KeyOf(h, t, junk);
    TunnelRuleIsTunnel(f);
    var r := RuleFor(c, f).value;
    assert TunnelRuleOf(f) == Some(r);
    ScopeHasRank(t, h.vxlan.value.tof);
  }

  lemma ScopeHasRank(t: bv2, tof: bv4)
    ensures ScopeOf(t, tof).Some? ==> RankOf(ScopeOf(t, tof).value.1) == Rank(tof)
  {
  }

  lemma RawRuleShape(c: GatewayConfig, h: Headers, t: bv2, junk: Fields)
    requires RuleFor(c, KeyOf(h, t, junk)).Some?
    ensures var r := RuleFor(c, KeyOf(h, t, junk)).value;
      (r.RawV4? ==> h.ipv4.Some? && h.ipv6.None?) && (r.RawV6? ==> h.ipv6.Some? && h.ipv4.None?)
  {
    hide Addressed, TunnelRuleOf, Low2;
    TunnelRuleIsTunnel(KeyOf(h, t, junk));
  }

  lemma NextIsLower(dir: Direction, tof: bv4, within: bv1, between: bv1)
    ensures NextScope(dir, tof, within, between).Some? ==>
      NextScope(dir, tof, within, between).value != Host &&
        RankOf(NextScope(dir, tof, within, between).value) < Rank(tof)
  {
  }

  // ---------- outbound ----------

  /** The inner IP headers P02 ingress found are the announced ones. */
  lemma FrameInnerHeaders(h: Headers, t: bv2, payload: seq<byte>, packet: seq<byte>)
    requires Parse(P02Ingress, packet) == Accepted(h, t, payload) && Shaped(h, t) && h.vxlan.Some?
    requires Emit(h) + payload == packet
    ensures IsVxlan(h) && h.ethernet.Some? && h.innerEthernet.Some?
    ensures var f := FrameOf(h, payload);
      h.innerIpv4 == InnerHeaders(Carried(f)).innerIpv4 && h.innerIpv6 == InnerHeaders(Carried(f)).innerIpv6
    ensures t == VXLAN_TYPE_JD ==> JdFlag(h.vxlan.value)
  {
    hide Parse, FrameBytes, ValidFrame, Emit, EmitInner, JdFlag, Ipv4At, Ipv6At;
    PacketIsFrame(h, t, payload);
    IngressParsesFrame(FrameOf(h, payload));
    ShapedType(h, t);
  }

  lemma ShapedType(h: Headers, t: bv2)
    requires Shaped(h, t) && h.vxlan.Some?
    ensures t == VXLAN_TYPE_JD ==> JdFlag(h.vxlan.value)
  {
    hide JdFlag;
  }

  lemma SnatBytes(snat: map<(bv24, bv32), bv32>, vni: bv24, ip: Ipv4, rest: seq<byte>)
    ensures SnatInner(snat, vni, Inner(ETHERTYPE_IPV4, EncodeIpv4(ip) + rest)) ==
      Inner(ETHERTYPE_IPV4,
            EncodeIpv4(if (vni, ip.srcAddr) in snat then ip.(srcAddr := snat[(vni, ip.srcAddr)]) else ip) + rest)
  {
    hide EncodeIpv4, Ipv4At, PutSource;
    Ipv4Leads(ip, rest);
    if (vni, ip.srcAddr) in snat {
      SourceBytes(ip, snat[(vni, ip.srcAddr)], rest);
    }
  }

  /** On the wire SNAT replaces the source address of the inner packet by the entry
      of its network and source, and nothing else. */
  lemma SnatOnWire(s: PacketState.State, snat: map<(bv24, bv32), bv32>, r: Residue, payload: seq<byte>, etherType: bv16)
    requires s.hdr.vxlan.Some?
    requires s.hdr.innerIpv4.Some? ==> etherType == ETHERTYPE_IPV4
    requires s.hdr.innerIpv4.None? ==> etherType != ETHERTYPE_IPV4
    ensures var n := Snatted(s, snat, r);
      && n.hdr == s.hdr.(innerIpv4 := n.hdr.innerIpv4) && n.meta == s.meta && n.drop == s.drop
      && (n.hdr.innerIpv4.Some? <==> s.hdr.innerIpv4.Some?)
      && Inner(etherType, EmitInner(n.hdr) + payload) ==
         SnatInner(snat, s.hdr.vxlan.value.vni, Inner(etherType, EmitInner(s.hdr) + payload))
  {
    hide EmitInner, EncodeIpv4, EmitRange, Ipv4At, PutSource;
    var n := Snatted(s, snat, r);
    if s.hdr.innerIpv4.Some? {
      var ip := s.hdr.innerIpv4.value;
      InnerIpv4First(s.hdr);
      InnerIpv4First(n.hdr);
      SameTail(s.hdr, n.hdr);
      var rest := EmitRange(s.hdr, 12, SLOTS) + payload;
      SnatBytes(snat, s.hdr.vxlan.value.vni, ip, rest);
      assert EmitInner(s.hdr) + payload == EncodeIpv4(ip) + rest;
      assert EmitInner(n.hdr) + payload == EncodeIpv4(n.hdr.innerIpv4.value) + rest;
    }
  }

  /** Outbound traffic goes to the pipes of the network ports. */
  lemma OutboundNotInternal(g: Gateway, egr: bv3, shared: bv1, fallback: nat, hash: nat)
    requires Routed(g) && (egr == EGR_PIPELINE_0 || egr == EGR_PIPELINE_2)
    ensures !IsInternal(ChosenPort(g.ecmp, egr, shared, fallback, hash))
  {
    hide ChosenPort, Serves, HasActive, PipeOfPort, ActivePort;
    assert IntendedPipe(egr, shared).Some?;
    var pipe := IntendedPipe(egr, shared).value;
    assert pipe == 0 || pipe == 2;
    assert HasActive(g.ecmp, pipe);
    ChosenPortInPipe(g.ecmp, egr, shared, fallback, hash);
  }

  lemma OutboundPipe(s: PacketState.State, r: Rule)
    requires r.Tunnel? && r.dir == Out && s.meta.egrPipeline == PipeOf(r)
    ensures var p := PipelineFixed(s).meta.egrPipeline; p == EGR_PIPELINE_0 || p == EGR_PIPELINE_2
    ensures PipelineFixed(s) == s.(meta := s.meta.(egrPipeline := PipelineFixed(s).meta.egrPipeline))
  {
  }

  /** The Ethernet header comes off and the bridge header is completed, before
      and after a rewrite alike. */
  function Cut(h: Headers, igrPort: bv9, etherType: bv16): Headers {
    h.(ethernet := None,
       bridge := match h.bridge case None => None case Some(bg) => Some(BridgeSent(bg, igrPort, etherType)))
  }

  lemma CutSentTo(c: GatewayConfig, t: RedirectTables, dir: Direction, scope: Scope, h: Headers, n: Headers,
                  igrPort: bv9, etherType: bv16)
    requires SentTo(c, t, dir, scope, h, n) && h.bridge.value.tunnelDirectSend == MATCH_PACKET
    ensures SentTo(c, t, dir, scope, Cut(h, igrPort, etherType), Cut(n, igrPort, etherType))
  {
    hide Stamped, Headed, OtherAddressKept, BandwidthOf;
    BandwidthOfSame(h, Cut(h, igrPort, etherType), dir, t);
  }

  lemma CutBridges(h: Headers, igrPort: bv9, etherType: bv16, shim: Option<Shim>)
    requires h.bridge.Some? && Tunnels(h.bridge.value) && Announces(etherType, shim)
    ensures var bg := Cut(h, igrPort, etherType).bridge;
      bg.Some? && BridgesFrame(bg.value, shim) && bg.value.tunnelDirectSend == h.bridge.value.tunnelDirectSend
  {
    hide Announces;
  }

  lemma CutInner(h: Headers, igrPort: bv9, etherType: bv16)
    ensures EmitInner(Cut(h, igrPort, etherType)) == EmitInner(h)
  {
    hide EmitInner, BridgeSent;
    SameInnerBytes(h, Cut(h, igrPort, etherType));
  }

  /** The outbound stages end in a completed bridge header and a network port. */
  lemma OutboundResult(g: Gateway, ch: Chances, h: Headers, t: bv2)
    requires TablesFilled(g) && Routed(g) && Shaped(h, t) && !P02IngressResult(h, t, g, ch).drop
    ensures var s0 := ClassifiedStart(h, t, g, ch);
      var r := RuleFor(g.cfg, KeyOf(h, t, ch.junk));
      var s3 := OutboundStages(s0, g, ch);
      && r.Some? && r.value != Multicast && Started(s0, h, t, r.value)
      && (DirOf(r.value) == Out && s3.hdr.bridge.Some? && Tunnels(s3.hdr.bridge.value) && s3.hdr.ethernet.Some?
          && (s3.meta.egrPipeline == EGR_PIPELINE_0 || s3.meta.egrPipeline == EGR_PIPELINE_2) ==>
        && P02IngressResult(h, t, g, ch).hdr == Cut(s3.hdr, ch.igrPort, s3.hdr.ethernet.value.etherType)
        && !IsInternal(P02IngressResult(h, t, g, ch).port))
  {
    hide ClassifiedStart, RuleFor, KeyOf, PipeOf, DirOf, DlOf, ChosenPort, Routed, PortNumber, IsInternal;
    hide OutboundStages, PipelineFixed, BridgeSent;
    StartResult(g, ch, h, t);
    DropIsKept(g, ch, h, t);
    var s0 := ClassifiedStart(h, t, g, ch);
    var s3 := OutboundStages(s0, g, ch);
    if s3.hdr.bridge.Some? && (s3.meta.egrPipeline == EGR_PIPELINE_0 || s3.meta.egrPipeline == EGR_PIPELINE_2) {
      OutboundNotInternal(g, s3.meta.egrPipeline, s3.meta.haveSharedBd, PortNumber(s3.hdr.bridge.value.igrPort),
                          ch.hash);
    }
  }

  /** Where an outbound packet goes next: by the entry of its EIP, the inner
      source after SNAT. */
  function OutboundScope(g: Gateway, ch: Chances, h: Headers): Option<Scope> {
    EipScope(Out, if h.vxlan.Some? then h.vxlan.value.tof else ch.start.vxlan.tof,
             BandwidthOf(SnatHeaders(h, g.snat, ch.start), Out, g.outbound))
  }

  lemma SnatIgnoresBridge(h: Headers, n: Headers, snat: map<(bv24, bv32), bv32>, r: Residue, t: RedirectTables)
    requires n == h.(bridge := n.bridge)
    ensures BandwidthOf(SnatHeaders(n, snat, r), Out, t) == BandwidthOf(SnatHeaders(h, snat, r), Out, t)
  {
    hide BandwidthOf;
    BandwidthOfSame(SnatHeaders(n, snat, r), SnatHeaders(h, snat, r), Out, t);
  }

  /** A rewritten outbound packet, from the redirect stages to the wire. */
  lemma OutboundSends(g: Gateway, ch: Chances, r: Rule, now: Inner, vni: bv24, scope: Scope, h: Headers, n: Headers,
                      etherType: bv16, payload: seq<byte>, shim: Option<Shim>)
    requires SentTo(g.cfg, g.outbound, Out, scope, h, n) && DirOf(r) == Out
    requires IsVxlan(h) && CarriesVxlan(h.ipv4.value, h.udp.value) && h.bridge.value.tunnelDirectSend == MATCH_PACKET
    requires h.fabric == (if shim.Some? then Some(shim.value.fabric) else None)
    requires h.cpu == (if shim.Some? then Some(shim.value.cpu) else None)
    requires Announces(etherType, shim)
    requires scope != Host && RankOf(scope) < RankOfRule(r) && IsIp(h.innerEthernet.value.etherType)
    requires now == Inner(h.innerEthernet.value.etherType, EmitInner(h) + payload) && LongEnough(now.etherType, now.l3)
    requires h.vxlan.value.vni == vni && BandwidthOf(h, Out, g.outbound) == EntryFor(g, Out, now)
    ensures n.bridge.Some? && Tunnels(n.bridge.value) && n.ethernet == h.ethernet
    ensures var hop := Leave(g, ch, Emit(Cut(n, ch.igrPort, etherType)) + payload);
      && (hop.Sent? ==> exists f :: hop.bytes == FrameBytes(f) && SentOn(g, r, now, vni, scope, f))
      && (hop.Sent? <==> !ch.egressDrop)
  {
    hide LongEnough, EmitInner, Emit, Leave, FrameBytes, SentTo, Cut, CarriesVxlan, RankOf, RankOfRule, IsIp, Announces;
    hide BandwidthOf, EntryFor;
    SentIs(g.cfg, g.outbound, Out, scope, h, n);
    CutBridges(n, ch.igrPort, etherType, shim);
    CutSentTo(g.cfg, g.outbound, Out, scope, h, n, ch.igrPort, etherType);
    CutFields(h, ch.igrPort, etherType);
    BandwidthOfSame(h, Cut(h, ch.igrPort, etherType), Out, g.outbound);
    CutInner(h, ch.igrPort, etherType);
    SentLeaves(g, ch, r, now, vni, scope, Cut(h, ch.igrPort, etherType), Cut(n, ch.igrPort, etherType), payload, shim);
  }

  /** SNAT in the header stack is SNAT in the bytes. */
  lemma SnatHeader(snat: map<(bv24, bv32), bv32>, a: Inner, h: Headers, r: Residue)
    requires h.innerIpv4 == InnerHeaders(a).innerIpv4 && h.innerIpv6 == InnerHeaders(a).innerIpv6 && h.vxlan.Some?
    ensures var b := SnatInner(snat, h.vxlan.value.vni, a);
      var n := SnatHeaders(h, snat, r);
      n.innerIpv4 == InnerHeaders(b).innerIpv4 && n.innerIpv6 == InnerHeaders(b).innerIpv6
  {
    hide Ipv4At, Ipv6At, PutSource;
    if a.etherType == ETHERTYPE_IPV4 && Ipv4At(a.l3).Some? {
      var key := (h.vxlan.value.vni, Ipv4At(a.l3).value.srcAddr);
      if key in snat {
        SourceIsRead(a.l3, snat[key]);
      }
    }
  }

  /** The entry of an outbound packet's EIP, its inner source after SNAT. */
  lemma OutboundEntry(g: Gateway, a: Inner, h: Headers, r: Residue)
    requires h.innerIpv4 == InnerHeaders(a).innerIpv4 && h.innerIpv6 == InnerHeaders(a).innerIpv6 && h.vxlan.Some?
    ensures BandwidthOf(SnatHeaders(h, g.snat, r), Out, g.outbound) ==
      EntryFor(g, Out, SnatInner(g.snat, h.vxlan.value.vni, a))
  {
    hide SnatHeaders, SnatInner, InnerHeaders, BandwidthOf;
    SnatHeader(g.snat, a, h, r);
    var b := SnatInner(g.snat, h.vxlan.value.vni, a);
    BandwidthOfSame(SnatHeaders(h, g.snat, r), InnerHeaders(b), Out, g.outbound);
  }

  lemma OutboundHop(g: Gateway, ch: Chances, packet: seq<byte>, h: Headers, t: bv2, payload: seq<byte>, r: Rule)
    requires TablesFilled(g) && Routed(g) && Shaped(h, t) && !P02IngressResult(h, t, g, ch).drop
    requires RuleFor(g.cfg, KeyOf(h, t, ch.junk)) == Some(r) && r.Tunnel? && r.dir == Out
    requires Parsable(InnerOf(r, h, payload, packet))
    requires Parse(P02Ingress, packet) == Accepted(h, t, payload) && Emit(h) + payload == packet
    ensures !IsInternal(P02IngressResult(h, t, g, ch).port)
    ensures var hop := Leave(g, ch, Emit(P02IngressResult(h, t, g, ch).hdr) + payload);
      var inner := InnerOf(r, h, payload, packet);
      && SendsOn(g, r, inner, InnerSent(g, ch, r, VniOf(h), inner), VniOf(h), OutboundScope(g, ch, h), hop)
      && (hop.Sent? <==> OutboundScope(g, ch, h).Some? && !ch.egressDrop)
  {
    hide EipScope, BandwidthOf, SnatHeaders, LongEnough, RuleFor, KeyOf, PipeOf, ClassifiedStart, PipelineFixed;
    hide AfterRedirect, EmitInner, Emit, Leave, FrameBytes, KeptInner, SnatInner, ShimOf, Stamped, Headed;
    hide Parsable, P02IngressResult, SentTo, IsInternal, Cut, CarriesVxlan, Rank, RankOf, NextScope, Routed, LookedUp;
    hide Shaped, EntryFor, InnerHeaders, Parse, JdFlag, OtherAddressKept;
    TunnelRuleShape(g.cfg, h, t, ch.junk);
    PacketIsFrame(h, t, payload);
    FrameInnerHeaders(h, t, payload, packet);
    OutboundEntry(g, Carried(FrameOf(h, payload)), h, ch.start);
    OutboundResult(g, ch, h, t);
    ShapedInner(h, t);
    var s0 := ClassifiedStart(h, t, g, ch);
    var ie := h.innerEthernet.value.etherType;
    SnatOnWire(s0, g.snat, ch.start, payload, ie);
    var s1 := Snatted(s0, g.snat, ch.start);
    SameInnerBytes(h, s0.hdr);
    OutboundPipe(s1, r);
    var s2 := PipelineFixed(s1);
    ScopeFromEip(s2, Out, g.outbound);
    SnatIgnoresBridge(h, s0.hdr, g.snat, ch.start, g.outbound);
    var inner, vni := InnerOf(r, h, payload, packet), VniOf(h);
    var now := InnerSent(g, ch, r, vni, inner);
    SentIsLong(g, ch, r, vni, inner);
    RedirectDecides(g.cfg, s2, Out, g.outbound, ch.start);
    RedirectKeepsDrop(s2, Out, g.outbound, ch.start);
    var s3 := AfterRedirect(s2, Out, g.outbound, ch.start);
    var eth := h.ethernet.value.etherType;
    match RedirectScope(s2, Out, g.outbound) {
      case None =>
        NotSentIs(s2.hdr, s3.hdr);
        CutBridges(s3.hdr, ch.igrPort, eth, ShimOf(h));
        CutFields(s3.hdr, ch.igrPort, eth);
        NotSentStays(g, ch, Cut(s3.hdr, ch.igrPort, eth), payload, ShimOf(h));
      case Some(scope) =>
        SameInnerBytes(s1.hdr, s2.hdr);
        BandwidthOfSame(s1.hdr, s2.hdr, Out, g.outbound);
        var m := LookedUpMeta(s2, Out, g.outbound);
        NextIsLower(Out, h.vxlan.value.tof, m.withinCluster, m.betweenCluster);
        OutboundSends(g, ch, r, now, vni, scope, s2.hdr, s3.hdr, eth, payload, ShimOf(h));
    }
  }

  /** What is sent on is as long as what came. */
  lemma SentIsLong(g: Gateway, ch: Chances, r: Rule, vni: bv24, inner: Inner)
    requires Parsable(inner)
    ensures var now := InnerSent(g, ch, r, vni, inner); Parsable(now) && LongEnough(now.etherType, now.l3)
  {
    hide Parsable, KeptInner, InnerSent, LongEnough;
    InnerSentIsKept(g, ch, r, vni, inner);
    KeptIsParsable(DirOf(r), inner, InnerSent(g, ch, r, vni, inner));
    ParsableIsLong(InnerSent(g, ch, r, vni, inner));
  }

  lemma ShapedInner(h: Headers, t: bv2)
    requires Shaped(h, t) && h.vxlan.Some?
    ensures h.innerEthernet.Some? && (h.innerIpv4.Some? <==> h.innerEthernet.value.etherType == ETHERTYPE_IPV4)
  {
  }

  lemma SentIs(c: GatewayConfig, t: RedirectTables, dir: Direction, scope: Scope, h: Headers, n: Headers)
    requires SentTo(c, t, dir, scope, h, n)
    ensures n == h.(bridge := n.bridge, ipv4 := n.ipv4, udp := n.udp, vxlan := n.vxlan)
    ensures n.bridge.Some? && n.bridge.value.tunnelDirectSend == DL_PACKET && h.bridge.Some?
    ensures BridgeKept(h.bridge.value, n.bridge.value)
  {
  }

  lemma CutFields(h: Headers, igrPort: bv9, etherType: bv16)
    ensures var n := Cut(h, igrPort, etherType);
      n == h.(bridge := n.bridge, ethernet := None) && (n.bridge.Some? <==> h.bridge.Some?)
  {
    hide BridgeSent;
  }

  // ---------- inbound, already in the tunnel ----------

  /** The state P13 egress starts its redirect stages from. */
  function P13Start(h: Headers, t: bv2, r: Residue): PacketState.State {
    PacketState.State(EncapsulatedIfRaw(EipNoted(h, r), r), FreshMeta(t), 0, false)
  }

  /** A tunnelled packet P02 ingress accepted has a parsable inner packet. */
  lemma TunnelledIsParsable(r: Rule, h: Headers, t: bv2, payload: seq<byte>, packet: seq<byte>)
    requires Parse(P02Ingress, packet) == Accepted(h, t, payload) && Shaped(h, t) && Emit(h) + payload == packet
    requires r.Tunnel? && h.vxlan.Some?
    ensures Parsable(InnerOf(r, h, payload, packet))
  {
    hide Parse, Parsable, FrameBytes, ValidFrame, Emit, EmitInner, Shaped;
    PacketIsFrame(h, t, payload);
    FrameAccepted(FrameOf(h, payload));
  }

  /** What P13 ingress accepts has a parsable inner packet. */
  lemma LoopedIsParsable(n: Headers, payload: seq<byte>, inner: Inner)
    requires IsVxlan(n) && CarriesVxlan(n.ipv4.value, n.udp.value) && n.ethernet.None? && n.fabric.None? && n.cpu.None?
    requires n.bridge.Some? && BridgesFrame(n.bridge.value, None)
    requires KeptInner(In, inner, Inner(n.innerEthernet.value.etherType, EmitInner(n) + payload))
    ensures Parse(P13Ingress, Emit(n) + payload).Accepted? <==> Parsable(inner)
  {
    hide Parse, Parsable, KeptInner, CarriesVxlan, Emit, EmitInner, EncodeBridge, VxlanStack, ShimBytes, BridgesFrame;
    var ip, udp, vx, ie := n.ipv4.value, n.udp.value, n.vxlan.value, n.innerEthernet.value;
    var f := Frame(Ethernet(0, 0, 0), None, ip, udp, vx, ie, EmitInner(n) + payload);
    EmitBridgedFrame(n, None);
    NoShimBytes(VxlanStack(ip, udp, vx, ie, EmitInner(n)));
    Reassociate(EncodeBridge(n.bridge.value), ShimBytes(None), VxlanStack(ip, udp, vx, ie, EmitInner(n)), payload);
    StackAppends(ip, udp, vx, ie, EmitInner(n), payload);
    NoShimBytes(VxlanStack(ip, udp, vx, ie, f.l3));
    LoopAccepted(n.bridge.value, f);
    KeptIsParsable(In, inner, Inner(ie.etherType, f.l3));
  }

  lemma NoShimBytes(b: seq<byte>)
    ensures ShimBytes(None) + b == b
  {
  }

  /** Redirected or not, from the header stack P13 egress starts with. */
  lemma P13Sends(g: Gateway, ch: Chances, r: Rule, inner: Inner, now: Inner, vni: bv24, h: Headers, t: bv2,
                 payload: seq<byte>)
    requires TablesFilled(g) && DirOf(r) == In && KeptInner(In, inner, now)
    requires var m := P13Start(h, t, ch.encap).hdr;
      && IsVxlan(m) && CarriesVxlan(m.ipv4.value, m.udp.value) && m.ethernet.None? && m.fabric.None? && m.cpu.None?
      && m.bridge.Some? && BridgesFrame(m.bridge.value, None) && m.bridge.value.tunnelDirectSend == MATCH_PACKET
      && IsIp(m.innerEthernet.value.etherType) && Rank(m.vxlan.value.tof) == RankOfRule(r)
      && now == Inner(m.innerEthernet.value.etherType, EmitInner(m) + payload)
      && BandwidthOf(m, In, g.inbound) == EntryFor(g, In, now)
    ensures var n := P13EgressResult(h, t, g, ch).hdr;
      var m := P13Start(h, t, ch.encap).hdr;
      && (SentDirectly(n) <==> EipScope(In, m.vxlan.value.tof, BandwidthOf(m, In, g.inbound)).Some?)
      && (SentDirectly(n) ==> (Parse(P13Ingress, Emit(n) + payload).Accepted? <==> Parsable(inner)))
      && (SentDirectly(n) && Parsable(inner) ==>
            && SendsOn(g, r, inner, now, vni, EipScope(In, m.vxlan.value.tof, BandwidthOf(m, In, g.inbound)),
                       Leave(g, ch, Emit(n) + payload))
            && (Leave(g, ch, Emit(n) + payload).Sent? <==> !ch.egressDrop))
  {
    P13StartMeta(h, t, ch.encap);
    hide EipScope, BandwidthOf, LongEnough, Parse, Parsable, BridgesFrame, P13Start, CarriesVxlan, EmitInner, Emit;
    hide Leave, KeptInner, FrameBytes, AfterRedirect, SentTo, RankOf, Rank, NextScope, LookedUp, IsIp, RankOfRule;
    hide EntryFor;
    var s := P13Start(h, t, ch.encap);
    P13StartThenRedirect(h, t, g, ch);
    ScopeFromEip(s, In, g.inbound);
    RedirectDecides(g.cfg, s, In, g.inbound, ch.encap);
    var n := P13EgressResult(h, t, g, ch).hdr;
    match RedirectScope(s, In, g.inbound) {
      case None =>
        NotSentIs(s.hdr, n);
      case Some(scope) =>
        SentIs(g.cfg, g.inbound, In, scope, s.hdr, n);
        var m := LookedUpMeta(s, In, g.inbound);
        NextIsLower(In, s.hdr.vxlan.value.tof, m.withinCluster, m.betweenCluster);
        SentKeepsVxlan(g.cfg, g.inbound, In, scope, s.hdr, n);
        SentIsBridged(g.cfg, g.inbound, scope, s.hdr, n);
        SentLeaves(g, ch, r, now, vni, scope, s.hdr, n, payload, None);
        LoopedIsParsable(n, payload, inner);
        if Parsable(inner) {
          KeptIsParsable(In, inner, now);
          ParsableIsLong(now);
        }
    }
  }

  lemma SentIsBridged(c: GatewayConfig, t: RedirectTables, scope: Scope, h: Headers, n: Headers)
    requires SentTo(c, t, In, scope, h, n) && BridgesFrame(h.bridge.value, None)
    ensures n.bridge.Some? && BridgesFrame(n.bridge.value, None)
  {
    hide Stamped, Headed, OtherAddressKept, BandwidthOf;
  }

  lemma P13StartMeta(h: Headers, t: bv2, r: Residue)
    ensures P13Start(h, t, r).meta == FreshMeta(t)
  {
    hide EncapsulatedIfRaw, EipNoted;
  }

  lemma P13StartThenRedirect(h: Headers, t: bv2, g: Gateway, ch: Chances)
    ensures P13EgressResult(h, t, g, ch) == AfterRedirect(P13Start(h, t, ch.encap), In, g.inbound, ch.encap)
  {
    hide AfterRedirect, EncapsulatedIfRaw, EipNoted;
  }

  /** A frame of redirected traffic is not put into the tunnel again. */
  lemma P13StartsFrame(h: Headers, t: bv2, r: Residue)
    requires h.bridge.Some? && IsVxlan(h)
    ensures var n := P13Start(h, t, r).hdr;
      && n.bridge.Some? && n == h.(bridge := n.bridge) && EmitInner(n) == EmitInner(h)
      && BridgeKept(h.bridge.value, n.bridge.value) &&
        n.bridge.value.tunnelDirectSend == h.bridge.value.tunnelDirectSend
  {
    hide EmitInner, Encapsulated;
    var n := P13Start(h, t, r).hdr;
    assert n == h.(bridge := n.bridge);
    SameInnerBytes(h, n);
  }

  /** What P13 egress parses of a bridged frame. */
  ghost predicate P13Parsed(o: Outcome, bg: Bridge, f: Frame) {
    o.Accepted? ==>
      && o.hdr.bridge == Some(bg) && o.hdr.ethernet.None? && o.hdr.fabric.None? && o.hdr.cpu.None? && IsVxlan(o.hdr)
      && o.hdr.ipv4 == Some(f.ip) && o.hdr.udp == Some(f.udp) && o.hdr.vxlan == Some(f.vx) &&
        o.hdr.innerEthernet == Some(f.ie)
      && EmitInner(o.hdr) + o.payload == f.l3
      && o.hdr.innerIpv4 == InnerHeaders(Carried(f)).innerIpv4 && o.hdr.innerIpv6 == InnerHeaders(Carried(f)).innerIpv6
  }

  /** P13 egress stops behind the inner IP header. */
  lemma P13AcceptsFrame(bg: Bridge, f: Frame)
    requires BridgesFrame(bg, None) && bg.dlPkt == 1 && CarriesVxlan(f.ip, f.udp) && LongEnough(f.ie.etherType, f.l3)
    ensures Parse(P13Egress, EncodeBridge(bg) + VxlanStack(f.ip, f.udp, f.vx, f.ie, f.l3)).Accepted?
  {
    hide Parse, Run, EncodeBridge, VxlanStack, CarriesVxlan, FrameType;
    BridgedFrameReachesInner(P13Egress, bg, f.ip, f.udp, f.vx, f.ie, f.l3);
    P13Stops(InnerIpState(P13Egress, f.vx, f.ie), WithVxlan(NO_HEADERS.(bridge := Some(bg)), f.ip, f.udp, f.vx, f.ie),
             FrameType(P13Egress, f.vx), f.l3);
  }

  lemma P13Stops(s: PacketParsers.State, h: Headers, t: bv2, l3: seq<byte>)
    requires s == InnerIpv4 || s == InnerIpv6 || s == Accept
    requires (s == InnerIpv4 ==> |l3| >= 20) && (s == InnerIpv6 ==> |l3| >= 40)
    ensures Run(P13Egress, Config(s, h, t, l3)).Accepted?
  {
    hide DecodeIpv4, DecodeIpv6;
  }

  lemma P13ParsesFrame(bg: Bridge, f: Frame)
    requires BridgesFrame(bg, None) && bg.dlPkt == 1 && CarriesVxlan(f.ip, f.udp) && JdFlag(f.vx)
    ensures P13Parsed(Parse(P13Egress, EncodeBridge(bg) + VxlanStack(f.ip, f.udp, f.vx, f.ie, f.l3)), bg, f)
  {
    hide Parse, EncodeBridge, VxlanStack, CarriesVxlan, EmitInner, JdFlag, Ipv4At, Ipv6At;
    ParsesBridgedFrame(P13Egress, bg, f.ip, f.udp, f.vx, f.ie, f.l3);
  }

  lemma InboundFrameHop(g: Gateway, ch: Chances, r: Rule, inner: Inner, vni: bv24, bg: Bridge, f: Frame)
    requires TablesFilled(g) && DirOf(r) == In && BridgesFrame(bg, None) && bg.dlPkt == 1
    requires bg.tunnelDirectSend == MATCH_PACKET
    requires CarriesVxlan(f.ip, f.udp) && IsIp(f.ie.etherType) && Rank(f.vx.tof) == RankOfRule(r)
    requires inner == Inner(f.ie.etherType, f.l3) && Parsable(inner) && JdFlag(f.vx)
    ensures var hop := LoopBack(g, ch, EncodeBridge(bg) + VxlanStack(f.ip, f.udp, f.vx, f.ie, f.l3));
      var scope := EipScope(In, f.vx.tof, BandwidthOf(InnerHeaders(Carried(f)), In, g.inbound));
      && SendsOn(g, r, inner, inner, vni, scope, hop)
      && (hop.Sent? <==> scope.Some? && !ch.egressDrop)
  {
    ParsableIsLong(inner);
    P13AcceptsFrame(bg, f);
    hide LongEnough, EipScope, BandwidthOf, InnerHeaders, JdFlag;
    hide Parsable, Parse, EncodeBridge, VxlanStack, CarriesVxlan, EmitInner, P13Start, P13EgressResult, Leave, LoopBack;
    hide Emit, FrameBytes, Rank, RankOfRule, IsIp, KeptInner;
    var bytes := EncodeBridge(bg) + VxlanStack(f.ip, f.udp, f.vx, f.ie, f.l3);
    P13ParsesFrame(bg, f);
    LoopsBack(g, ch, bytes);
    var o := Parse(P13Egress, bytes);
    if o.Accepted? {
      P13StartsFrame(o.hdr, o.vxlanType, ch.encap);
      KeptInnerSame(In, inner);
      BandwidthOfSame(P13Start(o.hdr, o.vxlanType, ch.encap).hdr, InnerHeaders(Carried(f)), In, g.inbound);
      P13Sends(g, ch, r, inner, inner, vni, o.hdr, o.vxlanType, o.payload);
    }
  }

  // ---------- inbound, raw ----------

  lemma NotedShape(bg: Bridge, l3: seq<byte>, h: Headers, payload: seq<byte>, r: Residue)
    requires CarriesRawIp(bg) && RawShape(bg, l3, h, payload)
    ensures var n := EipNoted(h, r);
      && n.bridge.Some? && BridgeKept(bg, n.bridge.value) && n.bridge.value.tunnelDirectSend == bg.tunnelDirectSend
      && CarriesRawIp(n.bridge.value) && RawShape(n.bridge.value, l3, n, payload)
  {
    hide EmitRange, DecodeIpv4, DecodeIpv6;
    var n := EipNoted(h, r);
    assert n == h.(bridge := n.bridge);
    SameBehindBridge(h, n);
  }

  lemma SameBehindBridge(h: Headers, n: Headers)
    requires n == h.(bridge := n.bridge)
    ensures EmitRange(n, 4, SLOTS) == EmitRange(h, 4, SLOTS)
  {
    hide EmitRange, EncodeEthernet, EncodeFabric, EncodeCpu, EncodeIpv4, EncodeIpv6, EncodeUdp, EncodeTcp, EncodeIcmp;
    hide EncodeVxlan;
    EmitRangeAgrees(h, n, 4, SLOTS);
  }

  /** Raw traffic starts the redirect stages inside a fresh tunnel, which has
      the highest rank. */
  lemma P13StartsRaw(bg: Bridge, l3: seq<byte>, h: Headers, t: bv2, payload: seq<byte>, r: Residue)
    requires CarriesRawIp(bg) && RawShape(bg, l3, h, payload) && bg.tunnelDirectSend == MATCH_PACKET
    ensures var m := P13Start(h, t, r).hdr;
      && IsVxlan(m) && CarriesVxlan(m.ipv4.value, m.udp.value) && m.ethernet.None? && m.fabric.None? && m.cpu.None?
      && m.bridge.Some? && BridgesFrame(m.bridge.value, None) && m.bridge.value.tunnelDirectSend == MATCH_PACKET
      && IsIp(m.innerEthernet.value.etherType) && Rank(m.vxlan.value.tof) == 2
      && Inner(m.innerEthernet.value.etherType, EmitInner(m) + payload) ==
        Inner(bg.outerEthernetType, CarriedL3(bg, l3, r))
      && m.vxlan.value.tof == 0
  {
    hide EmitRange, EmitInner, DecodeIpv4, DecodeIpv6, PutChecksum, MovedInside, OuterIp, PayloadLen, EipNoted;
    NotedShape(bg, l3, h, payload, r);
    var n := EipNoted(h, r);
    var bg' := n.bridge.value;
    EncapsulatedInner(bg', l3, r, n, payload);
    MovedKeepsFront(n, r);
    OuterCarriesVxlan(PayloadLen(n, r), r);
  }

  lemma MovedKeepsFront(h: Headers, r: Residue)
    requires Encapsulable(h)
    ensures var m := MovedInside(h, r);
      m.bridge == h.bridge && m.ethernet == h.ethernet && m.fabric == h.fabric && m.cpu == h.cpu && m.icmp == h.icmp &&
      m.vxlan == h.vxlan && m.tcp.None? && m.ipv6.None?
  {
  }

  /** An inbound gateway leaves the destination, and so the EIP, of the inner packet. */
  lemma EipKept(g: Gateway, ch: Chances, r: Rule, vni: bv24, a: Inner, t: RedirectTables)
    requires DirOf(r) == In
    ensures BandwidthOf(InnerHeaders(InnerSent(g, ch, r, vni, a)), In, t) == BandwidthOf(InnerHeaders(a), In, t)
  {
    hide Ipv4At, Ipv6At, PutChecksum;
    if a.etherType == ETHERTYPE_IPV4 && !r.Tunnel? {
      var bg := ch.encap.bridge.(outerEthernetType := ETHERTYPE_IPV4);
      CarriedHeader(bg, a.l3, ch.encap);
      ShortStaysShort(a.l3, ch.encap.innerIpv4.hdrChecksum);
    }
  }

  lemma ShortStaysShort(l3: seq<byte>, x: bv16)
    ensures Ipv4At(l3).None? ==> PutChecksum(l3, x) == l3
  {
  }

  /** Raw inbound traffic goes where the entry of its EIP, the destination, sends
      fresh traffic. */
  function RawScope(g: Gateway, inner: Inner): Option<Scope> {
    EipScope(In, 0, BandwidthOf(InnerHeaders(inner), In, g.inbound))
  }

  lemma RawEip(bg: Bridge, l3: seq<byte>, h: Headers, t: bv2, payload: seq<byte>, r: Residue, tables: RedirectTables)
    requires CarriesRawIp(bg) && RawShape(bg, l3, h, payload)
    ensures BandwidthOf(P13Start(h, t, r).hdr, In, tables) ==
      BandwidthOf(InnerHeaders(Inner(bg.outerEthernetType, l3)), In, tables)
  {
    hide EmitRange, Ipv4At, Ipv6At, OuterIp, PayloadLen, EipNoted;
    NotedShape(bg, l3, h, payload, r);
  }

  /** What P13 ingress can parse, P13 egress could. */
  lemma ParsableIsAccepted(bg: Bridge, l3: seq<byte>)
    requires CarriesRawIp(bg) && Parsable(Inner(bg.outerEthernetType, l3))
    ensures ParseRaw(bg, l3).Accepted?
  {
    hide Parsable, ParseRaw, OptionsRoom, Ipv4L4Room, L4Room, Ipv4At, Ipv6At;
    ParsableIff(Inner(bg.outerEthernetType, l3));
    RawAcceptedIff(bg, l3);
  }

  lemma RawSent(g: Gateway, ch: Chances, r: Rule, vni: bv24, bg: Bridge, l3: seq<byte>)
    requires CarriesRawIp(bg) && DirOf(r) == In && !r.Tunnel?
    ensures InnerSent(g, ch, r, vni, Inner(bg.outerEthernetType, l3)) ==
      Inner(bg.outerEthernetType, CarriedL3(bg, l3, ch.encap))
  {
    hide PutChecksum;
  }

  lemma InboundRawHop(g: Gateway, ch: Chances, r: Rule, vni: bv24, bg: Bridge, l3: seq<byte>)
    requires TablesFilled(g) && DirOf(r) == In && !r.Tunnel? && CarriesRawIp(bg) && bg.tunnelDirectSend == MATCH_PACKET
    ensures var inner := Inner(bg.outerEthernetType, l3);
      var hop := LoopBack(g, ch, EncodeBridge(bg) + l3);
      && SendsOn(g, r, inner, InnerSent(g, ch, r, vni, inner), vni, RawScope(g, inner), hop)
      && (hop.Sent? <==> RawScope(g, inner).Some? && Parsable(inner) && !ch.egressDrop)
  {
    hide Parsable, Parse, EncodeBridge, RawShape, P13Start, P13EgressResult, Leave, LoopBack, Emit, FrameBytes, Rank;
    hide IsIp;
    hide KeptInner, CarriesVxlan, EmitInner, InnerSent, CarriedL3, BandwidthOf, EipScope, InnerHeaders;
    RawIsShaped(bg, l3);
    LoopsBack(g, ch, EncodeBridge(bg) + l3);
    var inner := Inner(bg.outerEthernetType, l3);
    RawSent(g, ch, r, vni, bg, l3);
    InnerSentIsKept(g, ch, r, vni, inner);
    if Parsable(inner) {
      ParsableIsAccepted(bg, l3);
    }
    var o := ParseRaw(bg, l3);
    if o.Accepted? {
      P13StartsRaw(bg, l3, o.hdr, o.vxlanType, o.payload, ch.encap);
      RawEip(bg, l3, o.hdr, o.vxlanType, o.payload, ch.encap, g.inbound);
      EipKept(g, ch, r, vni, inner, g.inbound);
      P13Sends(g, ch, r, inner, InnerSent(g, ch, r, vni, inner), vni, o.hdr, o.vxlanType, o.payload);
    }
  }

  // ---------- inbound behind a CPU header ----------

  /** P13 egress does not look behind a fabric header: such traffic is never
      redirected inbound. */
  lemma ShimIsKept(g: Gateway, ch: Chances, bg: Bridge, rest: seq<byte>)
    requires TablesFilled(g) && bg.proto == PKT_BRIDGE && bg.outerEthernetInvalid == 1
    requires bg.outerEthernetType == ETHERTYPE_BFN
    requires bg.tunnelDirectSend == MATCH_PACKET
    ensures LoopBack(g, ch, EncodeBridge(bg) + rest) == Kept
  {
    hide Parsable, Parse, EncodeBridge, P13EgressResult, Leave, LoopBack, Emit;
    ParsesBridge(P13Egress, bg, rest);
    ShimEnds(bg, rest);
    var h := BridgeOnly(bg);
    LoopsBack(g, ch, EncodeBridge(bg) + rest);
    P13StartThenRedirect(h, 0, g, ch);
    BareStart(bg, ch.encap);
    NoInnerNotSent(g.cfg, P13Start(h, 0, ch.encap), In, g.inbound, ch.encap);
  }

  lemma ShimEnds(bg: Bridge, rest: seq<byte>)
    requires bg.outerEthernetInvalid == 1 && bg.outerEthernetType == ETHERTYPE_BFN
    ensures Run(P13Egress, Config(Next(P13Egress, BridgeHeader, BridgeOnly(bg), 0), BridgeOnly(bg), 0, rest)) ==
      Accepted(BridgeOnly(bg), 0, rest)
  {
  }

  lemma BareStart(bg: Bridge, r: Residue)
    requires bg.tunnelDirectSend == MATCH_PACKET
    ensures var s := P13Start(BridgeOnly(bg), 0, r);
      && s.hdr.innerIpv4.None? && s.hdr.innerIpv6.None? && s.meta.withinCluster == 0 && s.meta.betweenCluster == 0
      && !SentDirectly(s.hdr)
  {
  }

  // ---------- the theorem ----------

  /** The Ethernet header replaced by a bridge header, on the wire. */
  lemma BridgeForEthernet(h: Headers, n: Headers, bg: Bridge, payload: seq<byte>)
    requires h.bridge.None? && h.ethernet.Some? && n == h.(bridge := Some(bg), ethernet := None)
    ensures var rest := EmitRange(h, 2, SLOTS) + payload;
      && Emit(h) + payload == EncodeEthernet(h.ethernet.value) + rest
      && Emit(n) + payload == EncodeBridge(bg) + rest
  {
    hide EncodeEthernet, EncodeBridge, EmitRange, Piece;
    SameBehindEthernet(h, n);
    EmitStep(h, 0);
    EmitStep(h, 1);
    EmitStep(n, 0);
    EmitStep(n, 1);
    FrontPieces(h);
    FrontPieces(n);
  }

  lemma FrontPieces(h: Headers)
    ensures Piece(h, 0) == if h.bridge.Some? then EncodeBridge(h.bridge.value) else []
    ensures Piece(h, 1) == if h.ethernet.Some? then EncodeEthernet(h.ethernet.value) else []
  {
    hide EncodeBridge, EncodeEthernet;
  }

  lemma SameBehindEthernet(h: Headers, n: Headers)
    requires n == h.(bridge := n.bridge, ethernet := n.ethernet)
    ensures EmitRange(n, 2, SLOTS) == EmitRange(h, 2, SLOTS)
  {
    hide EmitRange, EncodeFabric, EncodeCpu, EncodeIpv4, EncodeIpv6, EncodeUdp, EncodeTcp, EncodeIcmp, EncodeVxlan;
    hide EncodeEthernet;
    EmitRangeAgrees(h, n, 2, SLOTS);
  }

  /** Where an inbound packet goes next: by the entry of its EIP, the inner
      destination.  P13 egress does not look behind a fabric header. */
  function InboundScope(g: Gateway, h: Headers): Option<Scope> {
    if h.vxlan.None? || h.fabric.Some? then None
    else EipScope(In, h.vxlan.value.tof, BandwidthOf(h, In, g.inbound))
  }

  /** Inbound tunnelled traffic is redirected traffic. */
  lemma JdRule(t: bv2, tof: bv4, r: Rule)
    requires r.Tunnel? && r.dir == In && ScopeOf(t, tof) == Some((r.dir, r.scope))
    ensures t == VXLAN_TYPE_JD && DlOf(r) == 1
  {
  }

  lemma InboundTunnelHop(g: Gateway, ch: Chances, packet: seq<byte>, h: Headers, t: bv2, payload: seq<byte>, r: Rule,
                         n: Headers)
    requires TablesFilled(g) && Shaped(h, t)
    requires RuleFor(g.cfg, KeyOf(h, t, ch.junk)) == Some(r) && r.Tunnel? && r.dir == In
    requires n.bridge.Some? && n == h.(bridge := n.bridge, ethernet := None)
    requires h.ethernet.Some? && InboundBridge(n.bridge.value, r, h.ethernet.value.etherType)
    requires Parse(P02Ingress, packet) == Accepted(h, t, payload) && Emit(h) + payload == packet
    ensures var hop := LoopBack(g, ch, Emit(n) + payload);
      var inner := InnerOf(r, h, payload, packet);
      && SendsOn(g, r, inner, InnerSent(g, ch, r, VniOf(h), inner), VniOf(h), InboundScope(g, h), hop)
      && (hop.Sent? <==> InboundScope(g, h).Some? && !ch.egressDrop)
  {
    hide ScopeOf, TofOf, Addressed, RankOf, Parse, BandwidthOf, InnerHeaders, EipScope, JdFlag;
    hide Parsable, RuleFor, KeyOf, LoopBack, Emit, EmitInner, EncodeBridge, ShimBytes, VxlanStack, CarriesVxlan, Rank;
    hide Shaped, FrameBytes, IsIp;
    TunnelRuleShape(g.cfg, h, t, ch.junk);
    TunnelledIsParsable(r, h, t, payload, packet);
    FrameInnerHeaders(h, t, payload, packet);
    JdRule(t, h.vxlan.value.tof, r);
    PacketIsFrame(h, t, payload);
    var bg, f := n.bridge.value, FrameOf(h, payload);
    var inner := InnerOf(r, h, payload, packet);
    assert InnerSent(g, ch, r, VniOf(h), inner) == inner;
    BandwidthOfSame(h, InnerHeaders(Carried(f)), In, g.inbound);
    SameInnerBytes(h, n);
    EmitBridgedFrame(n, f.shim);
    Reassociate(EncodeBridge(bg), ShimBytes(f.shim), VxlanStack(f.ip, f.udp, f.vx, f.ie, EmitInner(n)), payload);
    StackAppends(f.ip, f.udp, f.vx, f.ie, EmitInner(n), payload);
    match f.shim
    case None =>
      NoShimBytes(VxlanStack(f.ip, f.udp, f.vx, f.ie, f.l3));
      InboundFrameHop(g, ch, r, inner, VniOf(h), bg, f);
    case Some(_) =>
      ShimIsKept(g, ch, bg, ShimBytes(f.shim) + VxlanStack(f.ip, f.udp, f.vx, f.ie, f.l3));
  }

  lemma InboundPlainHop(g: Gateway, ch: Chances, packet: seq<byte>, h: Headers, t: bv2, payload: seq<byte>, r: Rule,
                        n: Headers)
    requires TablesFilled(g) && Shaped(h, t) && Emit(h) + payload == packet
    requires RuleFor(g.cfg, KeyOf(h, t, ch.junk)) == Some(r) && (r.RawV4? || r.RawV6?)
    requires n.bridge.Some? && n == h.(bridge := n.bridge, ethernet := None)
    requires h.ethernet.Some? && InboundBridge(n.bridge.value, r, h.ethernet.value.etherType)
    ensures var hop := LoopBack(g, ch, Emit(n) + payload);
      var inner := InnerOf(r, h, payload, packet);
      && SendsOn(g, r, inner, InnerSent(g, ch, r, VniOf(h), inner), VniOf(h), RawScope(g, inner), hop)
      && (hop.Sent? <==> RawScope(g, inner).Some? && Parsable(inner) && !ch.egressDrop)
  {
    hide Parsable, RuleFor, KeyOf, LoopBack, Emit, EmitRange, EncodeBridge, EncodeEthernet, FrameBytes, IpFits;
    hide FrameFits, InnerFits;
    hide InnerSent, RawScope;
    RawRuleShape(g.cfg, h, t, ch.junk);
    var bg, e := n.bridge.value, h.ethernet.value;
    var rest := EmitRange(h, 2, SLOTS) + payload;
    BridgeForEthernet(h, n, bg, payload);
    assert packet[14..] == rest;
    RawType(h, t);
    if e.etherType == ETHERTYPE_BFN {
      ShimIsKept(g, ch, bg, rest);
      ShimHasNoScope(g, rest);
    } else {
      InboundRawHop(g, ch, r, VniOf(h), bg, rest);
    }
  }

  lemma ShimHasNoScope(g: Gateway, l3: seq<byte>)
    ensures RawScope(g, Inner(ETHERTYPE_BFN, l3)).None?
  {
  }

  lemma RawType(h: Headers, t: bv2)
    requires Shaped(h, t) && (h.ipv4.Some? || h.ipv6.Some?)
    ensures h.bridge.None? && h.ethernet.Some?
    ensures IsIp(h.ethernet.value.etherType) || h.ethernet.value.etherType == ETHERTYPE_BFN
  {
  }

  lemma NotDropped(g: Gateway, ch: Chances, h: Headers, t: bv2)
    requires TablesFilled(g) && Shaped(h, t)
    requires RuleFor(g.cfg, KeyOf(h, t, ch.junk)).Some? && RuleFor(g.cfg, KeyOf(h, t, ch.junk)).value != Multicast
    ensures P02IngressResult(h, t, g, ch).drop == ch.aclDrop
  {
    hide FiringRule, Lookup, Table, RuleFor, DirOf, DlOf, PipeOf, Decision, ActionOfRule, P02IngressResult;
    DropIsKept(g, ch, h, t);
    ShapedSeparates(h, t);
    var f := KeyOf(h, t, ch.junk);
    SameKey(h, BridgeStart(h, ch.start), t, ch.junk);
    LookupDecides(g.cfg, f);
    DecisionOfRule(g.cfg, f);
    hide KeyOf;
  }

  // ---------- all packets ----------

  /** What a gateway reads off a packet it accepted: the rule it is handled by, the
      tenant's packet in it and the scope the entry of its EIP asks for. */
  datatype Reading = Reading(rule: Rule, inner: Inner, vni: bv24, scope: Option<Scope>)

  function ReadingOf(g: Gateway, ch: Chances, r: Rule, h: Headers, payload: seq<byte>, packet: seq<byte>): Reading {
    var inner := InnerOf(r, h, payload, packet);
    Reading(r, inner, VniOf(h),
            if !r.Tunnel? then RawScope(g, inner)
            else if r.dir == Out then OutboundScope(g, ch, h)
            else InboundScope(g, h))
  }

  function ReadAt(g: Gateway, ch: Chances, packet: seq<byte>): Option<Reading> {
    var o := Parse(P02Ingress, packet);
    match RuleAt(g, ch, o)
    case None => None
    case Some(r) => if r == Multicast then None else Some(ReadingOf(g, ch, r, o.hdr, o.payload, packet))
  }

  ghost predicate HopFits(g: Gateway, ch: Chances, x: Reading, hop: Hop) {
    && SendsOn(g, x.rule, x.inner, InnerSent(g, ch, x.rule, x.vni, x.inner), x.vni, x.scope, hop)
    && (hop.Sent? <==> x.scope.Some? && Parsable(x.inner) && !ch.egressDrop)
  }

  lemma TakenOn(g: Gateway, ch: Chances, packet: seq<byte>, h: Headers, t: bv2, payload: seq<byte>, r: Rule)
    requires TablesFilled(g) && Routed(g) && Shaped(h, t) && !P02IngressResult(h, t, g, ch).drop
    requires RuleFor(g.cfg, KeyOf(h, t, ch.junk)) == Some(r) && r != Multicast
    requires Parse(P02Ingress, packet) == Accepted(h, t, payload) && Emit(h) + payload == packet
    ensures var s := P02IngressResult(h, t, g, ch);
      HopFits(g, ch, ReadingOf(g, ch, r, h, payload, packet),
              if IsInternal(s.port) then LoopBack(g, ch, Emit(s.hdr) + payload)
              else Leave(g, ch, Emit(s.hdr) + payload))
  {
    hide InnerSent, VniOf, RawScope, InboundScope, OutboundScope, Parse, Parsable, RuleFor, KeyOf, P02IngressResult;
    hide LoopBack, Leave, Emit, SendsOn, Shaped, Routed, IsInternal, InboundBridge, InnerOf;
    InboundLeaves(g, ch, h, t);
    if r.Tunnel? {
      TunnelRuleShape(g.cfg, h, t, ch.junk);
      TunnelledIsParsable(r, h, t, payload, packet);
    }
    var n := P02IngressResult(h, t, g, ch).hdr;
    if r.Tunnel? && r.dir == Out {
      OutboundHop(g, ch, packet, h, t, payload, r);
    } else if r.Tunnel? {
      InboundTunnelHop(g, ch, packet, h, t, payload, r, n);
    } else {
      InboundPlainHop(g, ch, packet, h, t, payload, r, n);
    }
  }

  /** What a gateway does with any packet.  It sends it on as redirected traffic
      exactly when the parser accepts it, it is not taken for the CPU, no ACL drops
      it, the entry of its EIP asks for a scope and the tenant's packet in it is
      complete.  It then sends a frame of the same direction and of a strictly lower
      rank, headed for a gateway of that scope, around exactly the inner packet that
      came: outbound with the source its SNAT table gives, inbound unchanged, and
      without its checksum when it was raw IPv4. */
  lemma HopSends(g: Gateway, ch: Chances, packet: seq<byte>)
    requires TablesFilled(g) && Routed(g)
    ensures var hop := HopOf(g, ch, packet);
      match ReadAt(g, ch, packet)
      case None => hop == Kept
      case Some(x) =>
        && (hop.Sent? <==> !ch.local && !ch.aclDrop && !ch.egressDrop && x.scope.Some? && Parsable(x.inner))
        && SendsOn(g, x.rule, x.inner, InnerSent(g, ch, x.rule, x.vni, x.inner), x.vni, x.scope, hop)
  {
    hide InnerSent, ReadingOf, Parse, Parsable, RuleFor, KeyOf, P02IngressResult, LoopBack, Leave, Emit;
    hide SendsOn, Shaped, Routed, IsInternal, InboundBridge;
    IngressIsShaped(packet);
    match Parse(P02Ingress, packet)
    case Rejected =>
    case Accepted(h, t, payload) =>
      InboundLeaves(g, ch, h, t);
      if RuleAt(g, ch, Parse(P02Ingress, packet)).Some? {
        var r := RuleFor(g.cfg, KeyOf(h, t, ch.junk)).value;
        if r != Multicast {
          NotDropped(g, ch, h, t);
          if !ch.aclDrop {
            TakenOn(g, ch, packet, h, t, payload, r);
          }
          var x := ReadingOf(g, ch, r, h, payload, packet);
          KeptSends(g, x, InnerSent(g, ch, x.rule, x.vni, x.inner));
        }
      }
  }

  lemma KeptSends(g: Gateway, x: Reading, now: Inner)
    ensures SendsOn(g, x.rule, x.inner, now, x.vni, x.scope, Kept)
  {
  }
}
