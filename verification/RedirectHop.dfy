/** What a packet that a gateway sends on as redirected traffic looks like,
    byte for byte, in terms of the packet that came in. */
module RedirectHop {
  import opened Wrappers
  import opened WireFormat
  import opened HeaderStack
  import opened PacketParsers
  import opened IngressShape
  import opened PacketState
  import opened IpTypeTable
  import opened Classification
  import opened Ecmp
  import opened Redirect
  import opened Gateway

  // ---------- the rule a packet is handled by ----------

  function RuleFor(c: GatewayConfig, f: Fields): Option<Rule> {
    if FiringRule(c, f, HIGHEST_PRI).Some? then FiringRule(c, f, HIGHEST_PRI) else FiringRule(c, f, LOWEST_PRI)
  }

  function RuleAt(g: Gateway, ch: Chances, o: Outcome): Option<Rule> {
    if o.Accepted? then RuleFor(g.cfg, KeyOf(o.hdr, o.vxlanType, ch.junk)) else None
  }

  function DirOf(r: Rule): Direction {
    if r.Tunnel? then r.dir else In
  }

  /** Redirected traffic is what the receiver marks `dl_pkt`. */
  function DlOf(r: Rule): bv1 {
    if r.Tunnel? && r.scope != Host then 1 else 0
  }

  function RankOfRule(r: Rule): nat {
    if r.Tunnel? then RankOf(r.scope) else 2
  }

  lemma DecisionOfRule(c: GatewayConfig, f: Fields)
    ensures Decision(c, f) == match RuleFor(c, f) case None => NeedDrop case Some(r) => ActionOfRule(r)
    ensures RuleFor(c, f).Some? ==> RuleFor(c, f).value != Multicast ==>
      ActionOfRule(RuleFor(c, f).value) == Hit(DirOf(RuleFor(c, f).value), DlOf(RuleFor(c, f).value),
                                               PipeOf(RuleFor(c, f).value))
  {
    hide FiringRule, PipeOf;
  }

  /** Every group the rules can choose has an active member: pipes 1 and 3 from
      the start, pipes 0 and 2 once a default route is known. */
  ghost predicate Routed(g: Gateway) {
    Serves(g.ecmp) && forall pipe :: 0 <= pipe < 4 ==> HasActive(g.ecmp, pipe)
  }

  // ---------- P02 ingress ----------

  /** What classification leaves of a packet it does not drop. */
  predicate Started(s: PacketState.State, h: Headers, t: bv2, r: Rule) {
    && s.hdr.bridge.Some? && s.hdr == h.(bridge := s.hdr.bridge)
    && s.hdr.bridge.value.tunnelDirectSend == MATCH_PACKET
    && s.hdr.bridge.value.igrTunnelType == (if DirOf(r) == In then 1 else 2)
    && s.hdr.bridge.value.dlPkt == DlOf(r)
    && s.meta == FreshMeta(t).(egrPipeline := PipeOf(r))
    && !s.drop
  }

  lemma StartResult(g: Gateway, ch: Chances, h: Headers, t: bv2)
    requires TablesFilled(g) && Shaped(h, t)
    ensures var s := ClassifiedStart(h, t, g, ch);
      var r := RuleFor(g.cfg, KeyOf(h, t, ch.junk));
      !s.drop ==> r.Some? && r.value != Multicast && Started(s, h, t, r.value)
  {
    hide FiringRule, Lookup, Table, RuleFor, DirOf, DlOf, PipeOf, Decision, ActionOfRule, KeyOf, BridgeStart, Shaped;
    hide OneInner;
    ShapedSeparates(h, t);
    var f := KeyOf(h, t, ch.junk);
    SameKey(h, BridgeStart(h, ch.start), t, ch.junk);
    StartsAsMatch(h, t, ch.start, ch.junk);
    LookupDecides(g.cfg, f);
    DecisionOfRule(g.cfg, f);
    MulticastDrops();
  }

  lemma StartsAsMatch(h: Headers, t: bv2, r: Residue, junk: Fields)
    requires !(h.ipv4.Some? && h.ipv6.Some?) && !(h.innerIpv4.Some? && h.innerIpv6.Some?)
    requires h.innerIpv4.Some? || h.innerIpv6.Some? ==> h.ipv4.Some? && h.vxlan.Some?
    ensures OneInner(KeyOf(h, t, junk))
    ensures BridgeStart(h, r).Some? && BridgeStart(h, r).value.tunnelDirectSend == MATCH_PACKET
  {
  }

  lemma MulticastDrops()
    ensures ActionOfRule(Multicast) == NeedDrop
  {
  }

  lemma SameKey(h: Headers, bg: Option<Bridge>, t: bv2, junk: Fields)
    ensures KeyOf(h.(bridge := bg), t, junk) == KeyOf(h, t, junk)
  {
  }

  lemma ShapedSeparates(h: Headers, t: bv2)
    requires Shaped(h, t)
    ensures !(h.ipv4.Some? && h.ipv6.Some?) && !(h.innerIpv4.Some? && h.innerIpv6.Some?)
    ensures h.innerIpv4.Some? || h.innerIpv6.Some? ==> h.ipv4.Some? && h.vxlan.Some?
  {
    SaysIpv4Kept(h, h);
  }

  /** The bridge header an inbound packet leaves P02 ingress with. */
  predicate InboundBridge(bg: Bridge, r: Rule, etherType: bv16) {
    && bg.proto == PKT_BRIDGE && bg.outerEthernetInvalid == 1 && bg.outerEthernetType == etherType
    && bg.tunnelDirectSend == MATCH_PACKET && bg.dlPkt == DlOf(r)
  }

  lemma InboundIsInternal(g: Gateway, r: Rule, shared: bv1, fallback: nat, hash: nat)
    requires Routed(g) && DirOf(r) == In && r != Multicast
    ensures IsInternal(ChosenPort(g.ecmp, PipeOf(r), shared, fallback, hash))
  {
    hide ChosenPort, Serves, HasActive, PipeOfPort, ActivePort;
    assert IntendedPipe(PipeOf(r), shared).Some?;
    var pipe := IntendedPipe(PipeOf(r), shared).value;
    assert pipe == 1 || pipe == 3;
    assert HasActive(g.ecmp, pipe);
    ChosenPortInPipe(g.ecmp, PipeOf(r), shared, fallback, hash);
  }

  lemma InboundLeaves(g: Gateway, ch: Chances, h: Headers, t: bv2)
    requires TablesFilled(g) && Routed(g) && Shaped(h, t)
    ensures var s := P02IngressResult(h, t, g, ch);
      var r := RuleFor(g.cfg, KeyOf(h, t, ch.junk));
      !s.drop ==> r.Some? && r.value != Multicast && (DirOf(r.value) == In ==>
        && s.hdr.bridge.Some? && s.hdr == h.(bridge := s.hdr.bridge, ethernet := None)
        && h.ethernet.Some? && InboundBridge(s.hdr.bridge.value, r.value, h.ethernet.value.etherType)
        && IsInternal(s.port))
  {
    hide ClassifiedStart, RuleFor, KeyOf, PipeOf, DirOf, DlOf, ChosenPort, Routed, PortNumber, IsInternal;
    hide OutboundStages, PipelineFixed;
    StartResult(g, ch, h, t);
    DropIsKept(g, ch, h, t);
    var s := ClassifiedStart(h, t, g, ch);
    if !s.drop {
      var r := RuleFor(g.cfg, KeyOf(h, t, ch.junk)).value;
      if DirOf(r) == In {
        var d := SharedFlagged(s, g, ch.start);
        assert Directed(s, g, ch) == d;
        InboundIsInternal(g, r, d.meta.haveSharedBd, PortNumber(s.hdr.bridge.value.igrPort), ch.hash);
      }
    }
  }

  /** Later stages of P02 ingress neither drop a packet nor rescue one. */
  lemma DropIsKept(g: Gateway, ch: Chances, h: Headers, t: bv2)
    ensures P02IngressResult(h, t, g, ch).drop == ClassifiedStart(h, t, g, ch).drop
  {
    hide ClassifiedStart, ChosenPort, PortNumber, BandwidthOf, JdLookup, Rewritten, HashIndex, DlAddress, JdFieldsOf;
    hide SetShared, SetNlb, SetEipOrBwid, WithDst, BridgeSent;
    RedirectKeepsDrop(PipelineFixed(Snatted(ClassifiedStart(h, t, g, ch), g.snat, ch.start)), Out, g.outbound,
                      ch.start);
    hide AfterRedirect;
  }

  lemma RedirectKeepsDrop(s: PacketState.State, dir: Direction, t: RedirectTables, r: Residue)
    ensures AfterRedirect(s, dir, t, r).drop == s.drop
    ensures AfterRedirect(s, dir, t, r).meta.egrPipeline == s.meta.egrPipeline
  {
    hide BandwidthOf, JdLookup, Rewritten, HashIndex, DlAddress, JdFieldsOf, SetShared, SetNlb, SetEipOrBwid, WithDst;
  }

  // ---------- the redirect decision on a frame ----------

  /** The metadata the JD table sees. */
  function LookedUpMeta(s: PacketState.State, dir: Direction, t: RedirectTables): Meta {
    LookedUp(s, dir, t).meta
  }

  function RedirectScope(s: PacketState.State, dir: Direction, t: RedirectTables): Option<Scope> {
    var m := LookedUpMeta(s, dir, t);
    match s.hdr.vxlan
    case None => None
    case Some(v) => NextScope(dir, v.tof, m.withinCluster, m.betweenCluster)
  }

  /** Where a packet goes next by its EIP's entry: nowhere without one. */
  function EipScope(dir: Direction, tof: bv4, b: Option<Bandwidth>): Option<Scope> {
    match b
    case None => None
    case Some(x) => NextScope(dir, tof, x.within, x.between)
  }

  /** Metadata starts at zero, so the EIP's entry alone decides. */
  lemma ScopeFromEip(s: PacketState.State, dir: Direction, t: RedirectTables)
    requires s.hdr.vxlan.Some? && s.meta.withinCluster == 0 && s.meta.betweenCluster == 0
    ensures RedirectScope(s, dir, t) == EipScope(dir, s.hdr.vxlan.value.tof, BandwidthOf(s.hdr, dir, t))
  {
    hide SetShared, SetNlb, SetEipOrBwid;
  }

  lemma BandwidthOfSame(g: Headers, h: Headers, dir: Direction, t: RedirectTables)
    requires g.innerIpv4 == h.innerIpv4 && g.innerIpv6 == h.innerIpv6
    ensures BandwidthOf(g, dir, t) == BandwidthOf(h, dir, t)
  {
  }

  /** The fields of the bridge header the redirect stages leave alone. */
  predicate BridgeKept(a: Bridge, b: Bridge) {
    && a.proto == b.proto && a.outerEthernetInvalid == b.outerEthernetInvalid
    && a.outerEthernetType == b.outerEthernetType && a.dlPkt == b.dlPkt && a.igrTunnelType == b.igrTunnelType
  }

  /** Only the addresses of an IP header changed. */
  predicate Readdressed(a: Ipv4, b: Ipv4) {
    b == a.(srcAddr := b.srcAddr, dstAddr := b.dstAddr)
  }

  /** The DL address for an EIP with that entry: picked by its shared bandwidth id
      when there is one, else by its own. */
  function PickedDl(t: RedirectTables, b: Bandwidth): bv32
    requires t.dlMembers != []
  {
    t.dlMembers[t.pick(if b.sharedId != 0 then Widened(b.sharedId) else b.id) % |t.dlMembers|]
  }

  /** The outer addresses of a packet sent to a gateway of that scope, for an EIP
      with that entry. */
  predicate Headed(c: GatewayConfig, t: RedirectTables, b: Option<Bandwidth>, scope: Scope, ip: Ipv4) {
    && (scope == Az ==> ip.dstAddr == c.sharedBwVip)
    && (scope == Eip ==> ip.srcAddr == c.vip)
    && (scope == Eip && t.dlMembers != [] ==>
          ip.dstAddr in t.dlMembers && (b.Some? ==> ip.dstAddr == PickedDl(t, b.value)))
  }

  /** The address the rewrite does not set stays. */
  predicate OtherAddressKept(t: RedirectTables, scope: Scope, a: Ipv4, b: Ipv4) {
    (scope == Az ==> b.srcAddr == a.srcAddr) && (scope == Eip && t.dlMembers == [] ==> b.dstAddr == a.dstAddr)
  }

  /** The VXLAN header of redirected traffic: the JD variant, inbound in a network
      of its own for each scope. */
  predicate Stamped(v: Vxlan, w: Vxlan, dir: Direction, scope: Scope) {
    && w == v.(flags := 0x0C, version := 1, tof := w.tof, vni := w.vni) && w.tof == TofOf(dir, scope)
    && (scope == Eip ==> w.tof == if dir == In then 1 else 2) && (scope == Az ==> w.tof == if dir == In then 3 else 4)
    && w.vni == if dir == Out then v.vni else if scope == Az then 99 else 125
  }

  /** `n` is `h` rewritten into redirected traffic of that scope. */
  predicate SentTo(c: GatewayConfig, t: RedirectTables, dir: Direction, scope: Scope, h: Headers, n: Headers) {
    && n == h.(bridge := n.bridge, ipv4 := n.ipv4, udp := n.udp, vxlan := n.vxlan)
    && h.bridge.Some? && n.bridge.Some? && BridgeKept(h.bridge.value, n.bridge.value) && SentDirectly(n)
    && h.ipv4.Some? && n.ipv4.Some? && Readdressed(h.ipv4.value, n.ipv4.value)
    && Headed(c, t, BandwidthOf(h, dir, t), scope, n.ipv4.value)
    && OtherAddressKept(t, scope, h.ipv4.value, n.ipv4.value)
    && h.udp.Some? && n.udp == Some(h.udp.value.(srcPort := if scope == Az then 50 else 250))
    && h.vxlan.Some? && n.vxlan.Some? && Stamped(h.vxlan.value, n.vxlan.value, dir, scope)
  }

  /** Not redirected: only bookkeeping in the bridge header changed. */
  predicate NotSent(h: Headers, n: Headers) {
    && n == h.(bridge := n.bridge) && h.bridge.Some? && n.bridge.Some? && BridgeKept(h.bridge.value, n.bridge.value)
    && n.bridge.value.tunnelDirectSend == h.bridge.value.tunnelDirectSend
  }

  lemma LookUpKeeps(s: PacketState.State, dir: Direction, t: RedirectTables)
    requires s.hdr.bridge.Some?
    ensures NotSent(s.hdr, LookedUp(s, dir, t).hdr)
  {
    hide BandwidthOf, NotSent;
    var h := s.hdr;
    SetsKeep(h);
    if h.innerIpv4.Some? || h.innerIpv6.Some? {
      match BandwidthOf(h, dir, t)
      case None =>
        BookkeepingIsNotSent(h, SetShared(h.bridge, 0));
      case Some(b) =>
        EntryKeeps(h, b);
        if dir == In {
          BookkeepingIsNotSent(h, SetNlb(SetShared(h.bridge, b.sharedId), b.flag));
        } else {
          BookkeepingIsNotSent(h, SetEipOrBwid(SetShared(h.bridge, b.sharedId), b.id));
        }
    } else {
      BookkeepingIsNotSent(h, h.bridge);
    }
  }

  /** What the EIP lookup may do to a bridge header. */
  predicate BooksIn(h: Headers, bg: Option<Bridge>) {
    && h.bridge.Some? && bg.Some? && BridgeKept(h.bridge.value, bg.value)
    && bg.value.tunnelDirectSend == h.bridge.value.tunnelDirectSend
  }

  lemma SetsKeep(h: Headers)
    requires h.bridge.Some?
    ensures BooksIn(h, h.bridge) && BooksIn(h, SetShared(h.bridge, 0))
  {
  }

  lemma EntryKeeps(h: Headers, b: Bandwidth)
    requires h.bridge.Some?
    ensures BooksIn(h, SetNlb(SetShared(h.bridge, b.sharedId), b.flag))
    ensures BooksIn(h, SetEipOrBwid(SetShared(h.bridge, b.sharedId), b.id))
  {
  }

  lemma BookkeepingIsNotSent(h: Headers, bg: Option<Bridge>)
    requires BooksIn(h, bg)
    ensures NotSent(h, h.(bridge := bg))
  {
  }

  lemma RewriteSends(c: GatewayConfig, t: RedirectTables, dir: Direction, a: JdAction, h: Headers, dst: Option<bv32>)
    requires h.bridge.Some? && h.ipv4.Some? && h.udp.Some? && h.vxlan.Some?
    requires a.ToAz? ==> dst.None? && a.sharedBwVip == c.sharedBwVip
    requires a.ToEip? ==> a.srcIp == c.vip && (dst.Some? <==> t.dlMembers != [])
    requires a.ToEip? && dst.Some? ==>
      && dst.value in t.dlMembers
      && (BandwidthOf(h, dir, t).Some? ==> dst.value == PickedDl(t, BandwidthOf(h, dir, t).value))
    ensures SentTo(c, t, dir, ScopeTo(a), h, WithDst(Rewritten(h, dir, a), dst))
  {
    hide BandwidthOf, PickedDl, JdVxlan, Stamped, Widened;
    JdVxlanStamps(h.vxlan.value, dir, ScopeTo(a));
    var n := WithDst(Rewritten(h, dir, a), dst);
    assert n.ipv4 == Some(if dst.Some? then JdIp(h.ipv4.value, a).(dstAddr := dst.value) else JdIp(h.ipv4.value, a));
  }

  lemma JdVxlanStamps(v: Vxlan, dir: Direction, scope: Scope)
    ensures Stamped(v, JdVxlan(v, dir, scope), dir, scope)
  {
  }

  /** What the DL selector hashes comes from the EIP's entry. */
  lemma HashIndexIs(s: PacketState.State, dir: Direction, t: RedirectTables, r: Residue)
    requires s.hdr.bridge.Some? && BandwidthOf(s.hdr, dir, t).Some?
    ensures var b := BandwidthOf(s.hdr, dir, t).value;
      HashIndex(LookedUp(s, dir, t), dir, r) == if b.sharedId != 0 then Widened(b.sharedId) else b.id
  {
    hide BandwidthOf, Widened;
    InnerHasEntry(s.hdr, dir, t);
  }

  lemma InnerHasEntry(h: Headers, dir: Direction, t: RedirectTables)
    requires BandwidthOf(h, dir, t).Some?
    ensures h.innerIpv4.Some? || h.innerIpv6.Some?
  {
  }

  lemma NotSentThenSent(c: GatewayConfig, t: RedirectTables, dir: Direction, scope: Scope, h: Headers, m: Headers,
                        n: Headers)
    requires NotSent(h, m) && SentTo(c, t, dir, scope, m, n)
    ensures SentTo(c, t, dir, scope, h, n)
  {
    hide Stamped, Headed, OtherAddressKept, BandwidthOf;
    BandwidthOfSame(h, m, dir, t);
  }

  lemma DlAddressIsMember(t: RedirectTables, hash: bv32)
    ensures DlAddress(t, hash).Some? <==> t.dlMembers != []
    ensures t.dlMembers != [] ==>
      DlAddress(t, hash).value == t.dlMembers[t.pick(hash) % |t.dlMembers|] && DlAddress(t, hash).value in t.dlMembers
  {
  }

  /** The redirect stages on a VXLAN frame, completely: sent to the next scope
      when there is one, otherwise left alone. */
  lemma RedirectDecides(c: GatewayConfig, s: PacketState.State, dir: Direction, t: RedirectTables, r: Residue)
    requires t.jd == JdTable(c, dir)
    requires s.hdr.bridge.Some? && s.hdr.ipv4.Some? && s.hdr.udp.Some? && s.hdr.vxlan.Some?
    ensures var n := AfterRedirect(s, dir, t, r).hdr;
      match RedirectScope(s, dir, t)
      case None => NotSent(s.hdr, n)
      case Some(scope) => SentTo(c, t, dir, scope, s.hdr, n)
  {
    hide LookedUp, Rewritten, JdLookup, JdTable, DlAddress, HashIndex, NextScope, NotSent, SentTo, WithDst, BandwidthOf;
    LookUpKeeps(s, dir, t);
    var l := LookedUp(s, dir, t);
    NotSentIs(s.hdr, l.hdr);
    JdTableDecides(c, dir, JdFieldsOf(l, r.vxlan.tof));
    match RedirectScope(s, dir, t)
    case None =>
    case Some(scope) =>
      NextScopeIsPeer(dir, s.hdr.vxlan.value.tof, l.meta.withinCluster, l.meta.betweenCluster);
      var a := ActionFor(c, Some(scope)).value;
      var dst := if a.ToEip? then DlAddress(t, HashIndex(l, dir, r)) else None;
      DlAddressIsMember(t, HashIndex(l, dir, r));
      BandwidthOfSame(s.hdr, l.hdr, dir, t);
      if BandwidthOf(s.hdr, dir, t).Some? {
        HashIndexIs(s, dir, t, r);
      }
      RewriteSends(c, t, dir, a, l.hdr, dst);
      NoDst(Rewritten(l.hdr, dir, a));
      NotSentThenSent(c, t, dir, scope, s.hdr, l.hdr, WithDst(Rewritten(l.hdr, dir, a), dst));
  }

  lemma NoDst(h: Headers)
    ensures WithDst(h, None) == h
  {
  }

  lemma NotSentIs(h: Headers, n: Headers)
    requires NotSent(h, n)
    ensures n == h.(bridge := n.bridge) && n.bridge.Some?
    ensures n.ipv4 == h.ipv4 && n.udp == h.udp && n.vxlan == h.vxlan
  {
  }

  lemma NextScopeIsPeer(dir: Direction, tof: bv4, within: bv1, between: bv1)
    ensures NextScope(dir, tof, within, between).Some? ==> NextScope(dir, tof, within, between).value != Host
  {
  }

  /** A packet without an inner IP header has no EIP, so it is never redirected. */
  lemma NoInnerNotSent(c: GatewayConfig, s: PacketState.State, dir: Direction, t: RedirectTables, r: Residue)
    requires t.jd == JdTable(c, dir)
    requires s.hdr.innerIpv4.None? && s.hdr.innerIpv6.None? && s.meta.withinCluster == 0 && s.meta.betweenCluster == 0
    ensures AfterRedirect(s, dir, t, r) == s
  {
    hide JdLookup, JdTable;
    JdTableDecides(c, dir, JdFieldsOf(s, r.vxlan.tof));
  }
}
