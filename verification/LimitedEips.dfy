/** Which packets a gateway redirects, said of the packets and the tables alone: the
    EIP is the inner source after SNAT outbound and the inner destination inbound, and
    its entry, its flags and the stage the packet has come to decide. */
module LimitedEips {
  import opened Words
  import opened Wrappers
  import opened WireFormat
  import opened HeaderStack
  import opened PacketParsers
  import opened FrameParsing
  import opened IngressShape
  import opened IpTypeTable
  import opened Classification
  import opened Redirect
  import opened Gateway
  import opened Frames
  import opened RedirectHop
  import opened RedirectedFrames
  import opened InnerAcceptance
  import opened HopTheorem
  import opened RedirectProtocol
  import opened RedirectLimits

  // ---------- what an entry asks for ----------

  /** An entry asks for a redirect of a packet that has come so far: fresh traffic is
      redirected when either flag is set, traffic between clusters when the EIP is
      limited within the cluster too, traffic within the cluster never. */
  predicate Asks(came: Scope, b: Bandwidth) {
    (came == Host && (b.within == 1 || b.between == 1)) || (came == Az && b.within == 1)
  }

  /** Where to: between clusters first. */
  function NextOf(came: Scope, b: Bandwidth): Scope {
    if came == Host && b.between == 1 then Az else Eip
  }

  lemma ScopeAsked(dir: Direction, came: Scope, tof: bv4, b: Option<Bandwidth>)
    requires tof == if came == Host then 0 else TofOf(dir, came)
    ensures EipScope(dir, tof, b) == if b.Some? && Asks(came, b.value) then Some(NextOf(came, b.value)) else None
  {
  }

  // ---------- delivered frames ----------

  /** A frame of that direction that has come so far, at a gateway it is addressed to. */
  ghost predicate Delivered(g: Gateway, f: Frame, dir: Direction, came: Scope) {
    && ValidFrame(f) && IsIp(f.ie.etherType) && Parsable(Carried(f)) && Addressed(g.cfg, came, f.ip.dstAddr)
    && (if came == Host then dir == Out && f.vx.flags & 4 == 0 && f.vx.tof == 0 else Speaks(f, dir, came))
  }

  lemma DeliveredType(g: Gateway, f: Frame, dir: Direction, came: Scope)
    requires Delivered(g, f, dir, came)
    ensures ScopeOf(FrameType(P02Ingress, f.vx), f.vx.tof) == Some((dir, came))
    ensures f.vx.tof == if came == Host then 0 else TofOf(dir, came)
  {
    hide Parsable, ValidFrame, Addressed, IsIp;
  }

  /** What P02 ingress finds in a frame. */
  lemma FrameFields(f: Frame)
    requires ValidFrame(f) && Parsable(Carried(f))
    ensures var o := Parse(P02Ingress, FrameBytes(f));
      && o.Accepted? && o.vxlanType == FrameType(P02Ingress, f.vx) && o.hdr.ipv4 == Some(f.ip) && o.hdr.ipv6.None?
      && o.hdr.vxlan == Some(f.vx) && o.hdr.innerEthernet == Some(f.ie) && (o.hdr.fabric.Some? <==> f.shim.Some?)
      && o.hdr.innerIpv4 == InnerHeaders(Carried(f)).innerIpv4 && o.hdr.innerIpv6 == InnerHeaders(Carried(f)).innerIpv6
      && (o.hdr.innerIpv4.Some? <==> f.ie.etherType == ETHERTYPE_IPV4)
      && (o.hdr.innerIpv6.Some? <==> f.ie.etherType == ETHERTYPE_IPV6)
      && EmitInner(o.hdr) + o.payload == f.l3
  {
    hide Parsable, Parse, FrameBytes, EmitInner, CarriesVxlan, Ipv4At, Ipv6At, FrameType;
    FrameAccepted(f);
    IngressParsesFrame(f);
  }

  /** A gateway reads off a delivered frame its direction, how far it has come, the
      inner packet, and the scope its EIP's entry asks for; behind a CPU header P13
      egress sees no EIP. */
  lemma DeliveredRead(v: Visit, f: Frame, dir: Direction, came: Scope)
    requires TablesFilled(v.g) && Delivered(v.g, f, dir, came)
    ensures ReadAt(v.g, v.ch, FrameBytes(f)).Some?
    ensures var x := ReadAt(v.g, v.ch, FrameBytes(f)).value;
      && x.rule.Tunnel? && x.rule.dir == dir && x.rule.scope == came && x.inner == Carried(f) && x.vni == f.vx.vni
      && x.scope == if dir == In && f.shim.Some? then None
                    else EipScope(dir, f.vx.tof, EntryFor(v.g, dir, Onward(v.g, dir, f.vx.vni, Carried(f))))
  {
    hide Parsable, Parse, FrameBytes, ValidFrame, EmitInner, Addressed, EipIsOdd, ScopeOf, FrameType, Low2, RuleFor;
    hide InnerHeaders, BandwidthOf, SnatInner, SnatHeaders, EipScope, TofOf;
    DeliveredType(v.g, f, dir, came);
    FrameFields(f);
    var o := Parse(P02Ingress, FrameBytes(f));
    var k := KeyOf(o.hdr, o.vxlanType, v.ch.junk);
    var r := Tunnel(dir, came, k.inner6Valid == 1, EipIsOdd(dir, k));
    assert TunnelRuleOf(k) == Some(r);
    RuleOfKey(v.g.cfg, k, r);
    BandwidthOfSame(o.hdr, InnerHeaders(Carried(f)), In, v.g.inbound);
    OutboundEntry(v.g, Carried(f), o.hdr, v.ch.start);
  }

  /** The gateway redirects a delivered frame exactly when the entry of its EIP asks
      for it, and to where the entry says. */
  lemma DeliveredSentIff(v: Visit, f: Frame, dir: Direction, came: Scope)
    requires TablesFilled(v.g) && Routed(v.g) && Untouched(v.ch) && Delivered(v.g, f, dir, came)
    requires dir == In ==> f.shim.None?
    ensures var b := EntryFor(v.g, dir, Onward(v.g, dir, f.vx.vni, Carried(f)));
      SentForIff(v, f, dir, came, b)
  {
    hide HopOf, ReadAt, TablesFilled, Routed, Parsable, FrameBytes, EntryFor, EipScope, SnatInner, Addressed, IsIp;
    hide ValidFrame, Asks, NextOf, PickedDl, RankOf, RankOfRule, TofOf;
    DeliveredRead(v, f, dir, came);
    DeliveredType(v.g, f, dir, came);
    HopSends(v.g, v.ch, FrameBytes(f));
    var x := ReadAt(v.g, v.ch, FrameBytes(f)).value;
    var onward := Onward(v.g, dir, f.vx.vni, Carried(f));
    ScopeAsked(dir, came, f.vx.tof, EntryFor(v.g, dir, onward));
    assert InnerSent(v.g, v.ch, x.rule, x.vni, x.inner) == onward;
    if HopOf(v.g, v.ch, FrameBytes(f)).Sent? {
      var n :| HopOf(v.g, v.ch, FrameBytes(f)).bytes == FrameBytes(n)
            && SentOn(v.g, x.rule, onward, x.vni, x.scope.value, n);
      assert GoesTo(v.g, dir, NextOf(came, EntryFor(v.g, dir, onward).value), EntryFor(v.g, dir, onward).value, n);
    }
  }

  /** The frame a gateway sends for an EIP with that entry. */
  ghost predicate GoesTo(g: Gateway, dir: Direction, next: Scope, b: Bandwidth, n: Frame) {
    && ValidFrame(n) && Speaks(n, dir, next) && Headed(g.cfg, TablesOf(g, dir), Some(b), next, n.ip)
  }

  /** Sent exactly if there is an entry and it asks, and then to where it says. */
  ghost predicate SentForIff(v: Visit, f: Frame, dir: Direction, came: Scope, b: Option<Bandwidth>) {
    var hop := HopOf(v.g, v.ch, FrameBytes(f));
    && (hop.Sent? <==> b.Some? && Asks(came, b.value))
    && (hop.Sent? ==> exists n :: hop.bytes == FrameBytes(n) && GoesTo(v.g, dir, NextOf(came, b.value), b.value, n))
  }

  // ---------- by address ----------

  function Entry4(m: map<bv32, Bandwidth>, a: bv32): Option<Bandwidth> {
    if a in m then Some(m[a]) else None
  }

  function Entry6(m: map<bv128, Bandwidth>, a: bv128): Option<Bandwidth> {
    if a in m then Some(m[a]) else None
  }

  /** Outbound IPv4: the EIP is the inner source after SNAT. */
  lemma OutboundIpv4SentIff(v: Visit, f: Frame, came: Scope, src: bv32, a: bv32)
    requires TablesFilled(v.g) && Routed(v.g) && Untouched(v.ch) && Delivered(v.g, f, Out, came)
    requires f.ie.etherType == 0x0800 && Ipv4At(f.l3).Some? && src == Ipv4At(f.l3).value.srcAddr
    requires a == if (f.vx.vni, src) in v.g.snat then v.g.snat[(f.vx.vni, src)] else src
    ensures SentForIff(v, f, Out, came, Entry4(v.g.outbound.eip4, a))
  {
    hide TablesFilled, Routed, Delivered, SentForIff, Ipv4At, PutSource;
    DeliveredSentIff(v, f, Out, came);
    if (f.vx.vni, src) in v.g.snat {
      SourceIsRead(f.l3, a);
    }
  }

  /** Outbound IPv6: the inner source. */
  lemma OutboundIpv6SentIff(v: Visit, f: Frame, came: Scope)
    requires TablesFilled(v.g) && Routed(v.g) && Untouched(v.ch) && Delivered(v.g, f, Out, came)
    requires f.ie.etherType == 0x86DD && Ipv6At(f.l3).Some?
    ensures SentForIff(v, f, Out, came, Entry6(v.g.outbound.eip6, Ipv6At(f.l3).value.srcAddr))
  {
    hide TablesFilled, Routed, Delivered, SentForIff, Ipv6At;
    DeliveredSentIff(v, f, Out, came);
  }

  /** Inbound, already in a tunnel: the inner destination. */
  lemma InboundIpv4SentIff(v: Visit, f: Frame, came: Scope)
    requires TablesFilled(v.g) && Routed(v.g) && Untouched(v.ch) && Delivered(v.g, f, In, came) && f.shim.None?
    requires f.ie.etherType == 0x0800 && Ipv4At(f.l3).Some?
    ensures SentForIff(v, f, In, came, Entry4(v.g.inbound.eip4, Ipv4At(f.l3).value.dstAddr))
  {
    hide TablesFilled, Routed, Delivered, SentForIff, Ipv4At;
    DeliveredSentIff(v, f, In, came);
  }

  lemma InboundIpv6SentIff(v: Visit, f: Frame, came: Scope)
    requires TablesFilled(v.g) && Routed(v.g) && Untouched(v.ch) && Delivered(v.g, f, In, came) && f.shim.None?
    requires f.ie.etherType == 0x86DD && Ipv6At(f.l3).Some?
    ensures SentForIff(v, f, In, came, Entry6(v.g.inbound.eip6, Ipv6At(f.l3).value.dstAddr))
  {
    hide TablesFilled, Routed, Delivered, SentForIff, Ipv6At;
    DeliveredSentIff(v, f, In, came);
  }

  // ---------- raw packets ----------

  /** A packet without a VXLAN header behind an outer IP header, not IPv6 multicast. */
  predicate IsRaw(o: Outcome) {
    && o.Accepted? && o.hdr.vxlan.None?
    && (o.hdr.ipv4.Some? || (o.hdr.ipv6.Some? && o.hdr.ipv6.value.dstAddr & MULTICAST != MULTICAST))
  }

  lemma RawRead(v: Visit, packet: seq<byte>)
    requires TablesFilled(v.g) && IsRaw(Parse(P02Ingress, packet))
    ensures ReadAt(v.g, v.ch, packet).Some?
    ensures var x := ReadAt(v.g, v.ch, packet).value;
      && !x.rule.Tunnel? && |packet| >= 14 && x.inner == Inner(Word2(packet[12], packet[13]), packet[14..])
      && x.scope == RawScope(v.g, x.inner)
  {
    hide Parse, Addressed, EipIsOdd, Low2, RawScope, Emit, Shaped, TablesFilled;
    IngressIsShaped(packet);
    var o := Parse(P02Ingress, packet);
    RawTypeOnWire(o.hdr, o.vxlanType, o.payload);
    RawKeyRule(v.g.cfg, o.hdr, o.vxlanType, v.ch.junk);
  }

  lemma RawKeyRule(c: GatewayConfig, h: Headers, t: bv2, junk: Fields)
    requires Shaped(h, t) && h.vxlan.None?
    requires h.ipv4.Some? || (h.ipv6.Some? && h.ipv6.value.dstAddr & MULTICAST != MULTICAST)
    ensures RuleFor(c, KeyOf(h, t, junk)).Some?
    ensures var r := RuleFor(c, KeyOf(h, t, junk)).value; r.RawV4? || r.RawV6?
  {
    hide Addressed, Low2, EipIsOdd, ScopeOf, Shaped;
    ShapedSeparates(h, t);
  }

  lemma RawTypeOnWire(h: Headers, t: bv2, payload: seq<byte>)
    requires Shaped(h, t)
    ensures h.ethernet.Some?
    ensures var packet := Emit(h) + payload;
      |packet| >= 14 && Word2(packet[12], packet[13]) == h.ethernet.value.etherType
  {
    hide EncodeEthernet, EmitRange, Piece, Word2, IpFits, FrameFits, InnerFits, NoTunnel;
    EmitStep(h, 0);
    EmitStep(h, 1);
    FrontPieces(h);
    var e := h.ethernet.value;
    TypeOnWire(e);
    assert Emit(h) + payload == EncodeEthernet(e) + (EmitRange(h, 2, SLOTS) + payload);
  }

  lemma TypeOnWire(e: Ethernet)
    ensures Word2(EncodeEthernet(e)[12], EncodeEthernet(e)[13]) == e.etherType
  {
    hide Word2, Word6;
    EthernetRoundTrip(e);
  }

  /** A raw inbound packet is put into the tunnel and sent on exactly when its headers
      are complete and the entry of its destination asks for it. */
  lemma RawSentIff(v: Visit, packet: seq<byte>, b: Option<Bandwidth>)
    requires TablesFilled(v.g) && Routed(v.g) && Untouched(v.ch) && IsRaw(Parse(P02Ingress, packet)) && |packet| >= 14
    requires var type0, l3 := Word2(packet[12], packet[13]), packet[14..];
      b == if type0 == 0x0800 && Ipv4At(l3).Some? then Entry4(v.g.inbound.eip4, Ipv4At(l3).value.dstAddr)
           else if type0 == 0x86DD && Ipv6At(l3).Some? then Entry6(v.g.inbound.eip6, Ipv6At(l3).value.dstAddr)
           else None
    ensures HopOf(v.g, v.ch, packet).Sent? <==>
      b.Some? && Asks(Host, b.value) && Parsable(Inner(Word2(packet[12], packet[13]), packet[14..]))
    ensures HopOf(v.g, v.ch, packet).Sent? ==>
      exists n :: HopOf(v.g, v.ch, packet).bytes == FrameBytes(n) && GoesTo(v.g, In, NextOf(Host, b.value), b.value, n)
  {
    hide HopOf, ReadAt, TablesFilled, Routed, Parsable, Parse, FrameBytes, EipScope, IsIp, Ipv4At, Ipv6At, Word2;
    hide ValidFrame, Asks, NextOf, PickedDl, RankOf, RankOfRule, TofOf, BandwidthOf, InnerSent;
    RawRead(v, packet);
    HopSends(v.g, v.ch, packet);
    var x := ReadAt(v.g, v.ch, packet).value;
    RawEntry(v.g, x.inner);
    ScopeAsked(In, Host, 0, b);
    EipKept(v.g, v.ch, x.rule, x.vni, x.inner, v.g.inbound);
    if HopOf(v.g, v.ch, packet).Sent? {
      var now := InnerSent(v.g, v.ch, x.rule, x.vni, x.inner);
      var n :| HopOf(v.g, v.ch, packet).bytes == FrameBytes(n) && SentOn(v.g, x.rule, now, x.vni, x.scope.value, n);
      assert GoesTo(v.g, In, NextOf(Host, b.value), b.value, n);
    }
  }

  lemma RawEntry(g: Gateway, a: Inner)
    ensures BandwidthOf(InnerHeaders(a), In, g.inbound) ==
      if a.etherType == 0x0800 && Ipv4At(a.l3).Some? then Entry4(g.inbound.eip4, Ipv4At(a.l3).value.dstAddr)
      else if a.etherType == 0x86DD && Ipv6At(a.l3).Some? then Entry6(g.inbound.eip6, Ipv6At(a.l3).value.dstAddr)
      else None
  {
    hide Ipv4At, Ipv6At;
  }
}
