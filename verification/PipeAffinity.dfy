/** Pipe affinity: which internal pipe a packet is sent to depends only on its
    EIP, so raw and redirected traffic of one EIP meet in the same meter. */
module PipeAffinity {
  import opened Wrappers
  import opened WireFormat
  import opened HeaderStack
  import opened IngressShape
  import opened PacketState
  import opened IpTypeTable
  import opened Classification
  import opened Ecmp
  import opened Redirect
  import opened Gateway
  import opened RedirectHop
  import opened HopTheorem

  predicate Odd32(a: bv32) { a & 1 == 1 }
  predicate Odd128(a: bv128) { a & 1 == 1 }

  /** The pipe of inbound traffic of an EIP: 1 for odd ones, 3 for even ones and
      for those with shared bandwidth; outbound 0 and 2 likewise. */
  function PipeOfEip(dir: Direction, odd: bool, shared: bool): nat {
    if dir == In then (if odd && !shared then 1 else 3) else (if odd && !shared then 0 else 2)
  }

  lemma Low2Parity(x: bv128)
    ensures (Low2(x) & 1 == 1) <==> Odd128(x)
  {
  }

  /** The parity of a rule is the parity of the EIP it was chosen for. */
  lemma RuleParity(c: GatewayConfig, h: Headers, t: bv2, junk: Fields)
    requires Shaped(h, t) && RuleFor(c, KeyOf(h, t, junk)).Some?
    ensures match RuleFor(c, KeyOf(h, t, junk)).value
      case RawV4(odd) => h.ipv4.Some? && odd == Odd32(h.ipv4.value.dstAddr)
      case RawV6(odd) => h.ipv6.Some? && odd == Odd128(h.ipv6.value.dstAddr)
      case Tunnel(In, _, true, odd) => h.innerIpv6.Some? && h.innerIpv4.None? &&
        odd == Odd128(h.innerIpv6.value.dstAddr)
      case Tunnel(In, _, false, odd) => h.innerIpv4.Some? && odd == Odd32(h.innerIpv4.value.dstAddr)
      case Tunnel(Out, _, true, odd) => h.innerIpv6.Some? && h.innerIpv4.None? &&
        odd == Odd128(h.innerIpv6.value.srcAddr)
      case Tunnel(Out, _, false, _) => h.innerIpv4.Some?
      case Multicast => true
  {
    hide Addressed, ScopeOf, Low2, Shaped;
    var f := KeyOf(h, t, junk);
    ShapedSeparates(h, t);
    TunnelRuleIsTunnel(f);
    if h.innerIpv6.Some? {
      Low2Parity(h.innerIpv6.value.dstAddr);
      Low2Parity(h.innerIpv6.value.srcAddr);
    }
  }

  /** The EIP an inbound packet has a shared-bandwidth flag for. */
  predicate InboundShared(g: Gateway, h: Headers, r: Rule) {
    if DlOf(r) == 0 then h.ipv4.Some? && h.ipv4.value.dstAddr in g.sharedOuter
    else h.innerIpv4.Some? && h.innerIpv4.value.dstAddr in g.sharedInner
  }

  lemma ChosenPipe(g: Gateway, egr: bv3, shared: bv1, fallback: nat, hash: nat)
    requires Routed(g) && IntendedPipe(egr, shared).Some?
    ensures PipeOfPort(ChosenPort(g.ecmp, egr, shared, fallback, hash)) == IntendedPipe(egr, shared).value
  {
    hide ChosenPort, Serves, HasActive, PipeOfPort, ActivePort;
    IntendedIsPipe(egr, shared);
    assert HasActive(g.ecmp, IntendedPipe(egr, shared).value);
    ChosenPortInPipe(g.ecmp, egr, shared, fallback, hash);
  }

  /** For every inbound packet the internal pipe depends only on the parity of
      its EIP and on whether the EIP has shared bandwidth. */
  lemma InboundPipe(g: Gateway, ch: Chances, h: Headers, t: bv2)
    requires TablesFilled(g) && Routed(g) && Shaped(h, t) && !P02IngressResult(h, t, g, ch).drop
    requires RuleFor(g.cfg, KeyOf(h, t, ch.junk)).Some? && DirOf(RuleFor(g.cfg, KeyOf(h, t, ch.junk)).value) == In
    ensures var r := RuleFor(g.cfg, KeyOf(h, t, ch.junk)).value;
      r != Multicast && PipeOfPort(P02IngressResult(h, t, g, ch).port) == PipeOfEip(In, r.odd, InboundShared(g, h, r))
  {
    hide ClassifiedStart, RuleFor, KeyOf, PipeOf, DirOf, DlOf, ChosenPort, Routed, PortNumber, IsInternal;
    hide OutboundStages, PipelineFixed, BridgeSent, PipeOfPort;
    StartResult(g, ch, h, t);
    DropIsKept(g, ch, h, t);
    var r := RuleFor(g.cfg, KeyOf(h, t, ch.junk)).value;
    var s := ClassifiedStart(h, t, g, ch);
    var d := SharedFlagged(s, g, ch.start);
    assert Directed(s, g, ch) == d;
    InboundIntended(r, d.meta.haveSharedBd);
    ChosenPipe(g, PipeOf(r), d.meta.haveSharedBd, PortNumber(s.hdr.bridge.value.igrPort), ch.hash);
  }

  lemma InboundIntended(r: Rule, shared: bv1)
    requires DirOf(r) == In && r != Multicast
    ensures IntendedPipe(PipeOf(r), shared) == Some(PipeOfEip(In, r.odd, shared == 1))
  {
  }

  /** The EIP is in both shared-bandwidth tables or in neither. */
  predicate SharedAlike(g: Gateway, eip: bv32) {
    eip in g.sharedOuter <==> eip in g.sharedInner
  }

  /** Raw and redirected traffic of one IPv4 EIP meet in the same pipe exactly when
      the EIP is even or the two shared-bandwidth tables agree on it. */
  lemma RawAndRedirectedMeetIff(g: Gateway, ch1: Chances, h1: Headers, t1: bv2, ch2: Chances, h2: Headers, t2: bv2)
    requires TablesFilled(g) && Routed(g)
    requires Shaped(h1, t1) && !P02IngressResult(h1, t1, g, ch1).drop
    requires Shaped(h2, t2) && !P02IngressResult(h2, t2, g, ch2).drop
    requires RuleFor(g.cfg, KeyOf(h1, t1, ch1.junk)).Some? && RuleFor(g.cfg, KeyOf(h1, t1, ch1.junk)).value.RawV4?
    requires RuleFor(g.cfg, KeyOf(h2, t2, ch2.junk)).Some?
    requires var r := RuleFor(g.cfg, KeyOf(h2, t2, ch2.junk)).value;
      r.Tunnel? && r.dir == In && !r.inner6 && IpTypeTable.Installed(r)
    requires h1.ipv4.Some? && h2.innerIpv4.Some? && h1.ipv4.value.dstAddr == h2.innerIpv4.value.dstAddr
    ensures var eip := h1.ipv4.value.dstAddr;
      PipeOfPort(P02IngressResult(h1, t1, g, ch1).port) == PipeOfPort(P02IngressResult(h2, t2, g, ch2).port) <==>
        !Odd32(eip) || SharedAlike(g, eip)
  {
    hide P02IngressResult, RuleFor, KeyOf, PipeOfPort, Routed, Shaped, Odd32;
    InboundPipe(g, ch1, h1, t1);
    InboundPipe(g, ch2, h2, t2);
    RuleParity(g.cfg, h1, t1, ch1.junk);
    RuleParity(g.cfg, h2, t2, ch2.junk);
  }

  /** For IPv6, which has no shared bandwidth inbound, they always meet. */
  lemma RawAndRedirectedMeet6(g: Gateway, ch1: Chances, h1: Headers, t1: bv2, ch2: Chances, h2: Headers, t2: bv2)
    requires TablesFilled(g) && Routed(g)
    requires Shaped(h1, t1) && !P02IngressResult(h1, t1, g, ch1).drop
    requires Shaped(h2, t2) && !P02IngressResult(h2, t2, g, ch2).drop
    requires RuleFor(g.cfg, KeyOf(h1, t1, ch1.junk)).Some? && RuleFor(g.cfg, KeyOf(h1, t1, ch1.junk)).value.RawV6?
    requires RuleFor(g.cfg, KeyOf(h2, t2, ch2.junk)).Some?
    requires var r := RuleFor(g.cfg, KeyOf(h2, t2, ch2.junk)).value;
      r.Tunnel? && r.dir == In && r.inner6 && IpTypeTable.Installed(r)
    requires h1.ipv6.Some? && h2.innerIpv6.Some? && h1.ipv6.value.dstAddr == h2.innerIpv6.value.dstAddr
    ensures PipeOfPort(P02IngressResult(h1, t1, g, ch1).port) == PipeOfPort(P02IngressResult(h2, t2, g, ch2).port)
  {
    hide P02IngressResult, RuleFor, KeyOf, PipeOfPort, Routed, Shaped, PipeOfEip, Odd128;
    InboundPipe(g, ch1, h1, t1);
    InboundPipe(g, ch2, h2, t2);
    RuleParity(g.cfg, h1, t1, ch1.junk);
    RuleParity(g.cfg, h2, t2, ch2.junk);
    ShapedSeparates(h1, t1);
  }

  // ---------- outbound ----------

  /** The EIP of an outbound packet after SNAT is odd. */
  predicate OutboundOdd(h: Headers) {
    if h.innerIpv4.Some? then Odd32(h.innerIpv4.value.srcAddr)
    else h.innerIpv6.Some? && Odd128(h.innerIpv6.value.srcAddr)
  }

  predicate OutboundShared(g: Gateway, h: Headers) {
    match BandwidthOf(h, Out, g.outbound) case None => false case Some(b) => b.flag == 1
  }

  lemma RedirectFlag(s: PacketState.State, t: RedirectTables, r: Residue)
    requires s.meta.haveSharedBd == 0
    ensures AfterRedirect(s, Out, t, r).meta.haveSharedBd ==
      match BandwidthOf(s.hdr, Out, t) case None => 0 case Some(b) => b.flag
    ensures AfterRedirect(s, Out, t, r).hdr.bridge.Some? <==> s.hdr.bridge.Some?
    ensures s.hdr.bridge.Some? && s.hdr.bridge.value.tunnelDirectSend == MATCH_PACKET ==>
      Tunnels(AfterRedirect(s, Out, t, r).hdr.bridge.value)
  {
    hide JdLookup, HashIndex, DlAddress, JdFieldsOf, LookedUp, Rewritten, WithDst, BandwidthOf, SetDirectSend;
    LookedUpFlag(s, t);
    var l := LookedUp(s, Out, t);
    SetDirectTunnels(l.hdr.bridge);
    match JdLookup(t.jd, JdFieldsOf(l, r.vxlan.tof))
    case None =>
    case Some(a) => RewriteBridge(l.hdr, a, DlAddress(t, HashIndex(l, Out, r)));
  }

  lemma LookedUpFlag(s: PacketState.State, t: RedirectTables)
    requires s.meta.haveSharedBd == 0
    ensures var l := LookedUp(s, Out, t);
      && l.meta.haveSharedBd == (match BandwidthOf(s.hdr, Out, t) case None => 0 case Some(b) => b.flag)
      && (l.hdr.bridge.Some? <==> s.hdr.bridge.Some?)
      && (s.hdr.bridge.Some? ==> l.hdr.bridge.value.tunnelDirectSend == s.hdr.bridge.value.tunnelDirectSend)
  {
  }

  lemma RewriteBridge(h: Headers, a: JdAction, d: Option<bv32>)
    ensures Rewritten(h, Out, a).bridge == SetDirectSend(h.bridge, DL_PACKET)
    ensures WithDst(Rewritten(h, Out, a), d).bridge == SetDirectSend(h.bridge, DL_PACKET)
  {
    hide SetDirectSend, JdVxlan, JdPort, JdIp;
  }

  lemma SetDirectTunnels(bg: Option<Bridge>)
    ensures SetDirectSend(bg, DL_PACKET).Some? <==> bg.Some?
    ensures bg.Some? ==> Tunnels(SetDirectSend(bg, DL_PACKET).value)
  {
  }

  lemma OutboundIntended(s: PacketState.State, r: Rule, shared: bv1)
    requires r.Tunnel? && r.dir == Out && s.meta.egrPipeline == PipeOf(r)
    requires if s.hdr.innerIpv4.Some? then true
      else s.hdr.innerIpv6.Some? && r.inner6 && r.odd == Odd128(s.hdr.innerIpv6.value.srcAddr)
    ensures IntendedPipe(PipelineFixed(s).meta.egrPipeline, shared) ==
      Some(PipeOfEip(Out, OutboundOdd(s.hdr), shared == 1))
  {
  }

  /** For every outbound packet the pipe depends only on its EIP, the inner source
      after SNAT: on its parity and on the shared-bandwidth flag of its entry.  A
      host's packet and its redirected form agree on both. */
  lemma OutboundPipe(g: Gateway, ch: Chances, h: Headers, t: bv2)
    requires TablesFilled(g) && Routed(g) && Shaped(h, t) && !P02IngressResult(h, t, g, ch).drop
    requires RuleFor(g.cfg, KeyOf(h, t, ch.junk)).Some?
    requires RuleFor(g.cfg, KeyOf(h, t, ch.junk)).value.Tunnel? && RuleFor(g.cfg, KeyOf(h, t, ch.junk)).value.dir == Out
    ensures var n := SnatHeaders(h, g.snat, ch.start);
      PipeOfPort(P02IngressResult(h, t, g, ch).port) == PipeOfEip(Out, OutboundOdd(n), OutboundShared(g, n))
  {
    hide ClassifiedStart, RuleFor, KeyOf, PipeOf, DlOf, ChosenPort, Routed, PortNumber, AfterRedirect, PipelineFixed;
    hide BridgeSent, PipeOfPort, BandwidthOf, Shaped, SnatHeaders, PipeOfEip, IntendedPipe, OutboundOdd;
    StartResult(g, ch, h, t);
    DropIsKept(g, ch, h, t);
    RuleParity(g.cfg, h, t, ch.junk);
    var r := RuleFor(g.cfg, KeyOf(h, t, ch.junk)).value;
    var s0 := ClassifiedStart(h, t, g, ch);
    var s1 := Snatted(s0, g.snat, ch.start);
    SnatFields(h, s0.hdr, g.snat, ch.start);
    HopTheorem.OutboundPipe(s1, r);
    var s2 := PipelineFixed(s1);
    var s3 := AfterRedirect(s2, Out, g.outbound, ch.start);
    RedirectFlag(s2, g.outbound, ch.start);
    RedirectKeepsDrop(s2, Out, g.outbound, ch.start);
    SnatIgnoresBridge(h, s0.hdr, g.snat, ch.start, g.outbound);
    OutboundIntended(s1, r, s3.meta.haveSharedBd);
    ChosenPipe(g, s3.meta.egrPipeline, s3.meta.haveSharedBd, PortNumber(s3.hdr.bridge.value.igrPort), ch.hash);
  }

  lemma SnatFields(h: Headers, n: Headers, snat: map<(bv24, bv32), bv32>, r: Residue)
    requires n == h.(bridge := n.bridge)
    ensures var a, b := SnatHeaders(h, snat, r), SnatHeaders(n, snat, r);
      && b.bridge == n.bridge && OutboundOdd(a) == OutboundOdd(b)
      && (b.innerIpv4.Some? <==> h.innerIpv4.Some?) && b.innerIpv6 == h.innerIpv6
  {
    hide Odd32, Odd128;
  }
}
