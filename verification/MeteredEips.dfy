/** From an EIP's entry to the fate of its packets: the ids the redirect stages note are
    those of the packet's own EIP, and the meters of both directions are asked for them. */
module MeteredEips {
  import opened Wrappers
  import opened WireFormat
  import opened HeaderStack
  import opened PacketState
  import opened IpTypeTable
  import opened IngressShape
  import opened Classification
  import opened Tunnel
  import opened Redirect
  import opened Gateway
  import opened RedirectHop
  import opened HopTheorem
  import opened LimitedEips
  import opened Metering
  import opened EgressDrops

  // ---------- what the redirect stages note ----------

  /** The entry of a packet's EIP, by its inner header. */
  function EntryOf(h: Headers, dir: Direction, t: RedirectTables): Option<Bandwidth> {
    if h.innerIpv4.Some? then
      Entry4(t.eip4, if dir == Out then h.innerIpv4.value.srcAddr else h.innerIpv4.value.dstAddr)
    else if h.innerIpv6.Some? then
      Entry6(t.eip6, if dir == Out then h.innerIpv6.value.srcAddr else h.innerIpv6.value.dstAddr)
    else None
  }

  /** What the bridge header is left with: the entry's ids and its NLB flag, or no
      shared bandwidth without an entry. */
  predicate BridgeNotes(bg: Bridge, n: Bridge, dir: Direction, b: Option<Bandwidth>) {
    match b
    case None => n == bg.(tunnelDirectSend := n.tunnelDirectSend, sharedBandwidthId := 0)
    case Some(x) =>
      if dir == In then
        n == bg.(tunnelDirectSend := n.tunnelDirectSend, sharedBandwidthId := x.sharedId, nlbEip := x.flag)
      else
        n == bg.(tunnelDirectSend := n.tunnelDirectSend, sharedBandwidthId := x.sharedId, eipOrBwid := x.id)
  }

  /** What the metadata is left with. */
  predicate MetaNotes(m: Meta, n: Meta, dir: Direction, b: Option<Bandwidth>) {
    match b
    case None => n == m
    case Some(x) =>
      if dir == In then n == m.(withinCluster := x.within, betweenCluster := x.between, bandwidthId := x.id)
      else n == m.(withinCluster := x.within, betweenCluster := x.between, haveSharedBd := x.flag)
  }

  /** The notes on a packet around an IP packet, whether it is redirected or not. */
  predicate Noted(s: State, n: State, dir: Direction, t: RedirectTables) {
    && s.hdr.bridge.Some? && n.hdr.bridge.Some?
    && BridgeNotes(s.hdr.bridge.value, n.hdr.bridge.value, dir, EntryOf(s.hdr, dir, t))
    && MetaNotes(s.meta, n.meta, dir, EntryOf(s.hdr, dir, t))
    && n.hdr.innerIpv4 == s.hdr.innerIpv4 && n.hdr.innerIpv6 == s.hdr.innerIpv6 && n.drop == s.drop
  }

  lemma EipIsNoted(s: State, dir: Direction, t: RedirectTables, r: Residue)
    requires s.hdr.bridge.Some? && (s.hdr.innerIpv4.Some? || s.hdr.innerIpv6.Some?)
    ensures Noted(s, AfterRedirect(s, dir, t, r), dir, t)
  {
    hide LookedUp, Rewrote, Noted, AfterRedirect;
    LookUpNotes(s, dir, t);
    RedirectRewrites(s, dir, t, r);
    RewriteKeepsNotes(s, LookedUp(s, dir, t), AfterRedirect(s, dir, t, r), dir, t);
  }

  /** What the rewrites may change: the tunnel's headers, and where the packet is sent. */
  predicate Rewrote(l: State, n: State) {
    && n == l.(hdr := l.hdr.(bridge := n.hdr.bridge, ipv4 := n.hdr.ipv4, udp := n.hdr.udp, vxlan := n.hdr.vxlan))
    && (n.hdr.bridge == l.hdr.bridge || n.hdr.bridge == SetDirectSend(l.hdr.bridge, DL_PACKET))
  }

  lemma RedirectRewrites(s: State, dir: Direction, t: RedirectTables, r: Residue)
    ensures Rewrote(LookedUp(s, dir, t), AfterRedirect(s, dir, t, r))
  {
    hide LookedUp, JdLookup, HashIndex, DlAddress, JdFieldsOf, JdVxlan, JdIp, SetDirectSend;
  }

  lemma RewriteKeepsNotes(s: State, l: State, n: State, dir: Direction, t: RedirectTables)
    requires Noted(s, l, dir, t) && Rewrote(l, n)
    ensures Noted(s, n, dir, t)
  {
    hide EntryOf, MetaNotes;
  }

  lemma LookUpNotes(s: State, dir: Direction, t: RedirectTables)
    requires s.hdr.bridge.Some? && (s.hdr.innerIpv4.Some? || s.hdr.innerIpv6.Some?)
    ensures Noted(s, LookedUp(s, dir, t), dir, t)
    ensures LookedUp(s, dir, t).hdr.bridge.value.tunnelDirectSend == s.hdr.bridge.value.tunnelDirectSend
  {
    EntryIsBandwidth(s.hdr, dir, t);
    SetsNote(s.hdr.bridge.value, dir, EntryOf(s.hdr, dir, t));
    hide EntryOf, BandwidthOf, SetShared, SetNlb, SetEipOrBwid, BridgeNotes;
  }

  /** What the lookup makes of a bridge header. */
  function Booked(bg: Bridge, dir: Direction, b: Option<Bandwidth>): Option<Bridge> {
    match b
    case None => SetShared(Some(bg), 0)
    case Some(x) =>
      var shared := SetShared(Some(bg), x.sharedId);
      if dir == In then SetNlb(shared, x.flag) else SetEipOrBwid(shared, x.id)
  }

  lemma SetsNote(bg: Bridge, dir: Direction, b: Option<Bandwidth>)
    ensures var n := Booked(bg, dir, b);
      n.Some? && BridgeNotes(bg, n.value, dir, b) && n.value.tunnelDirectSend == bg.tunnelDirectSend
  {
  }

  lemma EntryIsBandwidth(h: Headers, dir: Direction, t: RedirectTables)
    ensures EntryOf(h, dir, t) == BandwidthOf(h, dir, t)
  {
  }

  // ---------- inbound ----------

  /** The packet P13 egress hands on carries the notes of its own EIP's entry. */
  lemma InboundNotes(h: Headers, t: bv2, g: Gateway, ch: Chances)
    requires P13Start(h, t, ch.encap).hdr.bridge.Some?
    requires var m := P13Start(h, t, ch.encap).hdr; m.innerIpv4.Some? || m.innerIpv6.Some?
    ensures Noted(P13Start(h, t, ch.encap), P13EgressResult(h, t, g, ch), In, g.inbound)
  {
    hide P13Start, P13EgressResult, AfterRedirect, Noted;
    P13StartThenRedirect(h, t, g, ch);
    EipIsNoted(P13Start(h, t, ch.encap), In, g.inbound, ch.encap);
  }

  /** The id the EIP's meter is asked for, inbound: metadata starts at zero. */
  function MeterId(b: Option<Bandwidth>): bv32 {
    if b.Some? then b.value.id else 0
  }

  function GroupId(b: Option<Bandwidth>): bv16 {
    if b.Some? then b.value.sharedId else 0
  }

  /** What the meters are asked for, of a packet around an IP packet. */
  lemma InboundIds(h: Headers, t: bv2, g: Gateway, ch: Chances)
    requires P13Start(h, t, ch.encap).hdr.bridge.Some?
    requires var m := P13Start(h, t, ch.encap).hdr; m.innerIpv4.Some? || m.innerIpv6.Some?
    ensures var m, n := P13Start(h, t, ch.encap).hdr, P13EgressResult(h, t, g, ch);
      var b := EntryOf(m, In, g.inbound);
      && n.hdr.bridge.Some? && n.meta.bandwidthId == MeterId(b)
      && n.hdr.bridge.value.sharedBandwidthId == GroupId(b)
      && n.hdr.bridge.value.meterPacketColor == m.bridge.value.meterPacketColor
      && n.hdr.bridge.value.eipOrBwid == m.bridge.value.eipOrBwid
      && n.hdr.innerIpv4 == m.innerIpv4 && n.hdr.innerIpv6 == m.innerIpv6 && !n.drop
  {
    InboundNotes(h, t, g, ch);
    P13StartMeta(h, t, ch.encap);
    StartsUndropped(h, t, ch.encap);
    hide P13Start, P13EgressResult, EntryOf, Noted, MeterId, GroupId, FreshMeta;
    NotesGiveIds(P13Start(h, t, ch.encap), P13EgressResult(h, t, g, ch), t, g.inbound);
  }

  lemma NotesGiveIds(s: State, n: State, t: bv2, tables: RedirectTables)
    requires Noted(s, n, In, tables) && s.meta == FreshMeta(t) && !s.drop
    ensures var b := EntryOf(s.hdr, In, tables);
      && n.hdr.bridge.Some? && n.meta.bandwidthId == MeterId(b)
      && n.hdr.bridge.value.sharedBandwidthId == GroupId(b)
      && n.hdr.bridge.value.meterPacketColor == s.hdr.bridge.value.meterPacketColor
      && n.hdr.bridge.value.eipOrBwid == s.hdr.bridge.value.eipOrBwid
      && n.hdr.innerIpv4 == s.hdr.innerIpv4 && n.hdr.innerIpv6 == s.hdr.innerIpv6 && !n.drop
  {
    hide EntryOf;
  }

  lemma StartsUndropped(h: Headers, t: bv2, r: Residue)
    ensures !P13Start(h, t, r).drop
  {
    hide EncapsulatedIfRaw, EipNoted;
  }

  /** An inbound IPv6 packet to an EIP that has an entry is dropped by P13 ingress
      exactly when the meter of the entry's id says RED. */
  lemma InboundIpv6Limited(h: Headers, t: bv2, g: Gateway, ch: Chances, eip: set<bv32>, answer: bv2, v: Visit,
                            dst: bv128)
    requires var m, n := P13Start(h, t, ch.encap).hdr, P13EgressResult(h, t, g, ch).hdr;
      && m.bridge.Some? && m.innerIpv4.None? && m.innerIpv6.Some? && m.innerIpv6.value.dstAddr == dst
      && n.bridge.Some? && n.bridge.value.tunnelDirectSend == 0
    requires dst in g.inbound.eip6 && g.inbound.eip6[dst].id in eip && v.drops == {3}
    ensures P13IngressResult(Metered(P13EgressResult(h, t, g, ch), eip, answer), v, ch.encap).drop <==> answer == 3
  {
    hide P13Start, P13EgressResult, Metered, P13IngressResult;
    InboundIds(h, t, g, ch);
    InboundIpv6Fate(P13EgressResult(h, t, g, ch), eip, answer, v, ch.encap);
  }

  /** An inbound IPv4 packet to an EIP that has an entry: the meter of the entry's id, or
      the one of its shared-bandwidth group. */
  lemma InboundIpv4Limited(h: Headers, t: bv2, g: Gateway, ch: Chances, eip: set<bv32>, answer: bv2, v: Visit,
                            dst: bv32)
    requires var m, n := P13Start(h, t, ch.encap).hdr, P13EgressResult(h, t, g, ch).hdr;
      && m.bridge.Some? && m.innerIpv4.Some? && m.innerIpv4.value.dstAddr == dst
      && n.bridge.Some? && n.bridge.value.tunnelDirectSend == 0
    requires dst in g.inbound.eip4 && g.inbound.eip4[dst].id in eip && v.drops == {3}
    ensures P13IngressResult(Metered(P13EgressResult(h, t, g, ch), eip, answer), v, ch.encap).drop <==>
      answer == 3 || (g.inbound.eip4[dst].sharedId in v.shared && v.answer == 3)
  {
    hide P13Start, P13EgressResult, Metered, P13IngressResult;
    InboundIds(h, t, g, ch);
    InboundIpv4Fate(P13EgressResult(h, t, g, ch), eip, answer, v, ch.encap);
  }

  /** P13 egress makes a tunnel exactly for packets that are neither redirected traffic nor
      in a tunnel; of any other it changes nothing but the noted EIP before the redirect. */
  lemma TunnelsRawOnly(h: Headers, t: bv2, r: Residue)
    requires h.bridge.Some?
    ensures var n := P13Start(h, t, r).hdr;
      && n.bridge.Some?
      && (n.vxlan.Some? <==> h.vxlan.Some? || h.bridge.value.dlPkt == 0)
      && (h.vxlan.Some? || h.bridge.value.dlPkt == 1 ==>
            n == h.(bridge := Some(h.bridge.value.(eipOrBwid := n.bridge.value.eipOrBwid))))
  {
    var e := EipNoted(h, r);
    NotesOnlyEip(h, r);
    TunnelIsThere(e, r);
    hide EipNoted, Encapsulated;
  }

  lemma NotesOnlyEip(h: Headers, r: Residue)
    requires h.bridge.Some?
    ensures var n := EipNoted(h, r);
      && n.bridge.Some? && n == h.(bridge := Some(h.bridge.value.(eipOrBwid := n.bridge.value.eipOrBwid)))
      && n.vxlan == h.vxlan && n.bridge.value.dlPkt == h.bridge.value.dlPkt
  {
  }

  lemma TunnelIsThere(h: Headers, r: Residue)
    requires h.bridge.Some?
    ensures Encapsulated(h, r).bridge.Some? && Encapsulated(h, r).vxlan.Some?
  {
    hide OuterIp, OuterUdpOf, OuterVxlan, MovedInside, PayloadLen;
  }

  /** P13 egress notes the destination of the IPv4 packet inside, raw or tunnelled: it is
      the key the inbound counters use after the destination has become the host's own. */
  lemma InboundKeyIsEip(h: Headers, t: bv2, r: Residue)
    requires h.bridge.Some? && h.ipv6.None? && (h.vxlan.Some? || h.innerIpv4.None?)
    requires P13Start(h, t, r).hdr.innerIpv4.Some?
    ensures var n := P13Start(h, t, r).hdr;
      n.bridge.Some? && n.bridge.value.eipOrBwid == n.innerIpv4.value.dstAddr
  {
  }

  /** The counter an inbound IPv4 packet moves: the one of the EIP it was sent to, the
      drop counter exactly when P13 ingress drops it, and none when it is marked. */
  lemma InboundIpv4Counted(h: Headers, t: bv2, g: Gateway, ch: Chances, eip: set<bv32>, answer: bv2, v: Visit,
                            dst: bv32)
    requires var m, n := P13Start(h, t, ch.encap).hdr, P13EgressResult(h, t, g, ch).hdr;
      && m.bridge.Some? && m.innerIpv4.Some? && m.innerIpv4.value.dstAddr == dst
      && n.bridge.Some? && n.bridge.value.tunnelDirectSend == 0
    requires h.bridge.Some? && h.ipv6.None? && (h.vxlan.Some? || h.innerIpv4.None?) && v.drops == {3}
    ensures var n := P13IngressResult(Metered(P13EgressResult(h, t, g, ch), eip, answer), v, ch.encap);
      && n.hdr.bridge.Some?
      && InboundEvent4(n, ch.encap) ==
           (if n.hdr.bridge.value.needDrop == 1 then None else Some(Event(Key32(dst), n.drop)))
  {
    hide P13Start, P13EgressResult, Metered, P13IngressResult, Key32;
    InboundIds(h, t, g, ch);
    InboundKeyIsEip(h, t, ch.encap);
    IngressCounts(P13EgressResult(h, t, g, ch), eip, answer, v, ch.encap);
  }

  /** The same for IPv6, whose destination stays what it was. */
  lemma InboundIpv6Counted(h: Headers, t: bv2, g: Gateway, ch: Chances, eip: set<bv32>, answer: bv2, v: Visit,
                            dst: bv128)
    requires var m, n := P13Start(h, t, ch.encap).hdr, P13EgressResult(h, t, g, ch).hdr;
      && m.bridge.Some? && m.innerIpv4.None? && m.innerIpv6.Some? && m.innerIpv6.value.dstAddr == dst
      && n.bridge.Some? && n.bridge.value.tunnelDirectSend == 0
    requires v.drops == {3}
    ensures var n := P13IngressResult(Metered(P13EgressResult(h, t, g, ch), eip, answer), v, ch.encap);
      && n.hdr.bridge.Some?
      && InboundEvent6(n, ch.encap) ==
           (if n.hdr.bridge.value.needDrop == 1 then None else Some(Event(Key128(dst), n.drop)))
  {
    hide P13Start, P13EgressResult, Metered, P13IngressResult, Key128;
    InboundIds(h, t, g, ch);
    IngressCounts(P13EgressResult(h, t, g, ch), eip, answer, v, ch.encap);
  }

  lemma IngressCounts(s: State, eip: set<bv32>, answer: bv2, v: Visit, r: Residue)
    requires s.hdr.bridge.Some? && s.hdr.bridge.value.tunnelDirectSend == 0 && !s.drop && v.drops == {3}
    ensures var n := P13IngressResult(Metered(s, eip, answer), v, r);
      && n.hdr.bridge.Some? && n.hdr.bridge.value.eipOrBwid == s.hdr.bridge.value.eipOrBwid
      && (n.drop <==> n.hdr.bridge.value.meterPacketColor == 3)
      && (n.hdr.innerIpv4.Some? <==> s.hdr.innerIpv4.Some?) && n.hdr.innerIpv6 == s.hdr.innerIpv6
  {
    var m := Metered(s, eip, answer);
    var u := m.(port := BridgeOf(m.hdr, r).igrPort as nat);
    MeterKeeps(s, eip, answer, v, r);
    var a := AfterMeter(u, v, r);
    MarkIsNeverCleared(a, v.lookups, r);
    LocatedKeepsInner(a, v.lookups, r);
    hide Metered, AfterMeter, Located;
  }

  /** Only the colour is new, and perhaps the drop decision. */
  predicate Recoloured(s: State, n: State) {
    && s.hdr.bridge.Some? && n.hdr.bridge.Some?
    && n.hdr.bridge.value == s.hdr.bridge.value.(meterPacketColor := n.hdr.bridge.value.meterPacketColor)
    && n.hdr.innerIpv4 == s.hdr.innerIpv4 && n.hdr.innerIpv6 == s.hdr.innerIpv6
  }

  lemma MeterKeeps(s: State, eip: set<bv32>, answer: bv2, v: Visit, r: Residue)
    requires s.hdr.bridge.Some? && !s.drop && v.drops == {3}
    ensures var m := Metered(s, eip, answer);
      var a := AfterMeter(m.(port := BridgeOf(m.hdr, r).igrPort as nat), v, r);
      && Recoloured(s, m) && Recoloured(s, a) && (a.drop <==> a.hdr.bridge.value.meterPacketColor == 3)
  {
    MeterRecolours(s, eip, answer);
    var m := Metered(s, eip, answer);
    hide Metered;
    SharedRecolours(m, BridgeOf(m.hdr, r).igrPort as nat, v, r);
  }

  lemma MeterRecolours(s: State, eip: set<bv32>, answer: bv2)
    requires s.hdr.bridge.Some?
    ensures Recoloured(s, Metered(s, eip, answer)) && Metered(s, eip, answer).drop == s.drop
  {
  }

  lemma SharedRecolours(s: State, port: nat, v: Visit, r: Residue)
    requires s.hdr.bridge.Some? && !s.drop && v.drops == {3}
    ensures var a := AfterMeter(s.(port := port), v, r);
      Recoloured(s, a) && (a.drop <==> a.hdr.bridge.value.meterPacketColor == 3)
  {
  }

  lemma LocatedKeepsInner(s: State, l: Lookups, r: Residue)
    requires s.hdr.bridge.Some?
    ensures Located(s, l, r).hdr.innerIpv4.Some? <==> s.hdr.innerIpv4.Some?
    ensures Located(s, l, r).hdr.innerIpv6 == s.hdr.innerIpv6
  {
    hide Located;
    InboundForwarding(s, l, r);
  }

  lemma RedirectKeepsPort(s: State, dir: Direction, t: RedirectTables, r: Residue)
    requires s.hdr.bridge.Some?
    ensures var n := AfterRedirect(s, dir, t, r);
      n.hdr.bridge.Some? && n.hdr.bridge.value.igrPort == s.hdr.bridge.value.igrPort
  {
    LookUpKeepsPort(s, dir, t);
    RedirectRewrites(s, dir, t, r);
    hide LookedUp, AfterRedirect;
  }

  lemma LookUpKeepsPort(s: State, dir: Direction, t: RedirectTables)
    requires s.hdr.bridge.Some?
    ensures var n := LookedUp(s, dir, t);
      n.hdr.bridge.Some? && n.hdr.bridge.value.igrPort == s.hdr.bridge.value.igrPort
  {
    BookingKeepsPort(s.hdr.bridge.value, dir, BandwidthOf(s.hdr, dir, t));
    hide BandwidthOf, SetShared, SetNlb, SetEipOrBwid;
  }

  lemma BookingKeepsPort(bg: Bridge, dir: Direction, b: Option<Bandwidth>)
    ensures Booked(bg, dir, b).Some? && Booked(bg, dir, b).value.igrPort == bg.igrPort
  {
  }

  lemma StartKeepsPort(h: Headers, t: bv2, r: Residue)
    requires h.bridge.Some?
    ensures var n := P13Start(h, t, r).hdr;
      n.bridge.Some? && n.bridge.value.igrPort == h.bridge.value.igrPort
  {
  }

  lemma BridgeTellsPort(h: Headers, t: bv2, g: Gateway, ch: Chances)
    requires P02IngressResult(h, t, g, ch).hdr.bridge.Some?
    ensures P02IngressResult(h, t, g, ch).hdr.bridge.value.igrPort == ch.igrPort
  {
    hide Directed, ClassifiedStart, Ported;
  }

  /** An inbound packet leaves P13 ingress for the network port it came in on: P02
      ingress writes the port into the bridge header, and nothing on the way changes it. */
  lemma InboundReturnsToItsPort(h: Headers, t: bv2, g: Gateway, ch: Chances, h13: Headers, t13: bv2, eip: set<bv32>,
                                answer: bv2, v: Visit)
    requires P02IngressResult(h, t, g, ch).hdr.bridge.Some? && h13.bridge == P02IngressResult(h, t, g, ch).hdr.bridge
    ensures P13IngressResult(Metered(P13EgressResult(h13, t13, g, ch), eip, answer), v, ch.encap).port ==
      PortNumber(ch.igrPort)
  {
    hide P02IngressResult, P13Start, AfterRedirect, P13EgressResult, PortNumber;
    BridgeTellsPort(h, t, g, ch);
    StartKeepsPort(h13, t13, ch.encap);
    P13StartThenRedirect(h13, t13, g, ch);
    RedirectKeepsPort(P13Start(h13, t13, ch.encap), In, g.inbound, ch.encap);
    LeavesByPort(P13EgressResult(h13, t13, g, ch), eip, answer, v, ch.encap);
  }

  lemma LeavesByPort(s: State, eip: set<bv32>, answer: bv2, v: Visit, r: Residue)
    requires s.hdr.bridge.Some?
    ensures P13IngressResult(Metered(s, eip, answer), v, r).port == PortNumber(s.hdr.bridge.value.igrPort)
  {
    MeterRecolours(s, eip, answer);
    var m := Metered(s, eip, answer);
    var t := m.(port := BridgeOf(m.hdr, r).igrPort as nat);
    hide Metered;
    SharedKeepsPort(t, v, r);
    LookupsKeepPort(AfterMeter(t, v, r), v.lookups, r);
    hide AfterMeter, Located;
  }

  lemma SharedKeepsPort(s: State, v: Visit, r: Residue)
    ensures AfterMeter(s, v, r).port == s.port
  {
    hide SharedAt;
  }

  lemma LookupsKeepPort(s: State, l: Lookups, r: Residue)
    ensures Located(s, l, r).port == s.port
  {
    hide SetHop, SetNexthop, SetNeedDrop, HopMissing;
  }

  // ---------- outbound ----------

  /** The source of the IPv4 packet inside after SNAT, keyed by VNI and source. */
  function SourceAfterSnat(h: Headers, snat: map<(bv24, bv32), bv32>): Option<bv32> {
    if h.innerIpv4.None? || h.vxlan.None? then None
    else
      var key := (h.vxlan.value.vni, h.innerIpv4.value.srcAddr);
      Some(if key in snat then snat[key] else h.innerIpv4.value.srcAddr)
  }

  /** An outbound packet P02 ingress takes, and which is not redirected. */
  ghost predicate GoesOut(h: Headers, t: bv2, g: Gateway, ch: Chances) {
    && TablesFilled(g) && Routed(g) && Shaped(h, t)
    && var n := P02IngressResult(h, t, g, ch);
    var r := RuleFor(g.cfg, KeyOf(h, t, ch.junk));
    && !n.drop && r.Some? && r.value.Tunnel? && r.value.dir == Out
    && n.hdr.bridge.Some? && n.hdr.bridge.value.tunnelDirectSend == 0
  }

  /** P02 ingress hands an outbound packet on with the notes of its EIP's entry. */
  lemma OutboundNotes(h: Headers, t: bv2, g: Gateway, ch: Chances)
    requires GoesOut(h, t, g, ch)
    ensures h.innerIpv4.Some? <==> h.innerIpv6.None?
    ensures var n := P02IngressResult(h, t, g, ch).hdr;
      var s := SnatHeaders(h, g.snat, ch.start);
      var b := EntryOf(s, Out, g.outbound);
      && n.bridge.Some? && n.bridge.value.igrTunnelType == TYPE_INGRESS_INTERNET_OUT
      && n.bridge.value.sharedBandwidthId == GroupId(b) && (b.Some? ==> n.bridge.value.eipOrBwid == b.value.id)
      && n.innerIpv4 == s.innerIpv4 && n.innerIpv6 == s.innerIpv6
  {
    hide ClassifiedStart, RuleFor, KeyOf, DlOf, Routed, PipeOf, OutboundStages;
    hide BridgeSent, P02IngressResult, Shaped, SnatHeaders, EntryOf, TablesFilled, Tunnels, IsInternal, BridgeNotes;
    TunnelRuleShape(g.cfg, h, t, ch.junk);
    OutboundResult(g, ch, h, t);
    var s0 := ClassifiedStart(h, t, g, ch);
    var r := RuleFor(g.cfg, KeyOf(h, t, ch.junk)).value;
    StagesNote(s0, g, ch, r);
    SnatKeepsStack(h, s0.hdr, g.snat, ch.start);
    SameEntry(SnatHeaders(h, g.snat, ch.start), SnatHeaders(s0.hdr, g.snat, ch.start), Out, g.outbound);
    EthernetIsThere(h, t);
    var s3 := OutboundStages(s0, g, ch);
    NotesThenCut(s0.hdr.bridge.value, s3.hdr, ch.igrPort, s3.hdr.ethernet.value.etherType,
                 EntryOf(SnatHeaders(h, g.snat, ch.start), Out, g.outbound));
  }

  lemma EthernetIsThere(h: Headers, t: bv2)
    requires Shaped(h, t)
    ensures h.ethernet.Some?
  {
  }

  lemma SameEntry(a: Headers, b: Headers, dir: Direction, t: RedirectTables)
    requires a.innerIpv4 == b.innerIpv4 && a.innerIpv6 == b.innerIpv6
    ensures EntryOf(a, dir, t) == EntryOf(b, dir, t)
  {
  }

  /** The outbound stages: SNAT, then the notes of the EIP that came of it. */
  lemma StagesNote(s: State, g: Gateway, ch: Chances, r: Rule)
    requires s.hdr.bridge.Some? && s.hdr.bridge.value.tunnelDirectSend == MATCH_PACKET
    requires s.meta.egrPipeline == PipeOf(r) && r.Tunnel? && r.dir == Out
    requires s.hdr.innerIpv4.Some? || s.hdr.innerIpv6.Some?
    ensures var n, h := OutboundStages(s, g, ch), SnatHeaders(s.hdr, g.snat, ch.start);
      && n.hdr.bridge.Some? && Tunnels(n.hdr.bridge.value) && n.hdr.ethernet == s.hdr.ethernet
      && (n.meta.egrPipeline == EGR_PIPELINE_0 || n.meta.egrPipeline == EGR_PIPELINE_2)
      && BridgeNotes(s.hdr.bridge.value, n.hdr.bridge.value, Out, EntryOf(h, Out, g.outbound))
      && n.hdr.innerIpv4 == h.innerIpv4 && n.hdr.innerIpv6 == h.innerIpv6
  {
    hide AfterRedirect, SnatHeaders, EntryOf, BridgeNotes, MetaNotes, PipelineFixed, LookedUp, Rewrote;
    SnatKeepsStack(s.hdr, s.hdr, g.snat, ch.start);
    var s1 := Snatted(s, g.snat, ch.start);
    HopTheorem.OutboundPipe(s1, r);
    var s2 := PipelineFixed(s1);
    EipIsNoted(s2, Out, g.outbound, ch.start);
    RedirectKeepsDrop(s2, Out, g.outbound, ch.start);
    SendsOrNot(s2, g.outbound, ch.start);
  }

  lemma SendsOrNot(s: State, t: RedirectTables, r: Residue)
    requires s.hdr.bridge.Some? && s.hdr.bridge.value.tunnelDirectSend == MATCH_PACKET
    requires s.hdr.innerIpv4.Some? || s.hdr.innerIpv6.Some?
    ensures var n := AfterRedirect(s, Out, t, r);
      n.hdr.bridge.Some? && Tunnels(n.hdr.bridge.value) && n.hdr.ethernet == s.hdr.ethernet
  {
    hide AfterRedirect, LookedUp, Noted;
    LookUpNotes(s, Out, t);
    LookUpKeeps(s, Out, t);
    NotSentIs(s.hdr, LookedUp(s, Out, t).hdr);
    RedirectRewrites(s, Out, t, r);
  }

  lemma NotesThenCut(bg: Bridge, h: Headers, igrPort: bv9, etherType: bv16, b: Option<Bandwidth>)
    requires h.bridge.Some? && BridgeNotes(bg, h.bridge.value, Out, b)
    ensures var n := Cut(h, igrPort, etherType);
      && n.bridge.Some? && n.bridge.value.igrTunnelType == bg.igrTunnelType
      && n.bridge.value.sharedBandwidthId == GroupId(b) && (b.Some? ==> n.bridge.value.eipOrBwid == b.value.id)
      && n.innerIpv4 == h.innerIpv4 && n.innerIpv6 == h.innerIpv6
  {
  }

  lemma SnatKeepsStack(h: Headers, n: Headers, snat: map<(bv24, bv32), bv32>, r: Residue)
    requires n == h.(bridge := n.bridge)
    ensures var a, b := SnatHeaders(h, snat, r), SnatHeaders(n, snat, r);
      && b == a.(bridge := n.bridge) && a == h.(innerIpv4 := a.innerIpv4)
      && (a.innerIpv4.Some? <==> h.innerIpv4.Some?)
  {
  }

  lemma SnatSource(h: Headers, snat: map<(bv24, bv32), bv32>, r: Residue)
    requires h.vxlan.Some?
    ensures var n := SnatHeaders(h, snat, r);
      && (h.innerIpv4.Some? <==> n.innerIpv4.Some?) && n.innerIpv6 == h.innerIpv6
      && (h.innerIpv4.Some? ==> Some(n.innerIpv4.value.srcAddr) == SourceAfterSnat(h, snat))
  {
  }

  /** An outbound IPv4 packet of an EIP that has an entry is dropped by P02 egress, where
      the installed ACL entries are the only ones, exactly when the meter of the entry's
      id says RED, or the one of its shared-bandwidth group. */
  lemma OutboundIpv4Limited(h: Headers, t: bv2, g: Gateway, ch: Chances, s: State, x: Exit, r: Residue, src: bv32,
                            a: AclAction)
    requires GoesOut(h, t, g, ch) && s.hdr == P02IngressResult(h, t, g, ch).hdr
    requires SourceAfterSnat(h, g.snat) == Some(src)
    requires src in g.outbound.eip4 && g.outbound.eip4[src].id in x.eip
    requires Decides(ACL_TABLE, [], SeenAtAcl(s, x, r), a)
    ensures Drops(a) <==>
      x.answers.0 == 3 || (g.outbound.eip4[src].sharedId in x.shared && x.answers.1 == 3)
  {
    hide GoesOut, P02IngressResult, Decides, SeenAtAcl, SnatHeaders;
    VxlanIsThere(h, t, g, ch);
    OutboundNotes(h, t, g, ch);
    SnatSource(h, g.snat, ch.start);
    OutboundIpv4Fate(s, x, r, a);
  }

  /** The same for IPv6, without SNAT and without a shared meter. */
  lemma OutboundIpv6Limited(h: Headers, t: bv2, g: Gateway, ch: Chances, s: State, x: Exit, r: Residue, src: bv128,
                            a: AclAction)
    requires GoesOut(h, t, g, ch) && s.hdr == P02IngressResult(h, t, g, ch).hdr
    requires h.innerIpv6.Some? && h.innerIpv6.value.srcAddr == src
    requires src in g.outbound.eip6 && g.outbound.eip6[src].id in x.eip
    requires Decides(ACL_TABLE, [], SeenAtAcl(s, x, r), a)
    ensures Drops(a) <==> x.answers.0 == 3
  {
    hide GoesOut, P02IngressResult, Decides, SeenAtAcl, SnatHeaders;
    VxlanIsThere(h, t, g, ch);
    OutboundNotes(h, t, g, ch);
    SnatSource(h, g.snat, ch.start);
    OutboundIpv6Fate(s, x, r, a);
  }

  lemma VxlanIsThere(h: Headers, t: bv2, g: Gateway, ch: Chances)
    requires GoesOut(h, t, g, ch)
    ensures h.vxlan.Some? && P02IngressResult(h, t, g, ch).hdr.bridge.Some?
  {
    hide P02IngressResult, RuleFor, KeyOf, Shaped, Routed, TablesFilled;
    TunnelRuleShape(g.cfg, h, t, ch.junk);
  }

  /** The counter an outbound IPv4 packet moves: that of its source after SNAT, the drop
      counter exactly when the ACL sees it RED. */
  lemma OutboundIpv4Counted(h: Headers, t: bv2, g: Gateway, ch: Chances, s: State, x: Exit, r: Residue, src: bv32)
    requires GoesOut(h, t, g, ch) && s.hdr == P02IngressResult(h, t, g, ch).hdr
    requires SourceAfterSnat(h, g.snat) == Some(src)
    ensures OutboundEvent4(OutboundMetered(s, x, r), r) ==
      Some(Event(Key32(src), SeenAtAcl(s, x, r).colour == 3))
  {
    hide GoesOut, P02IngressResult, SeenAtAcl, SnatHeaders, OutboundMetered, Key32;
    VxlanIsThere(h, t, g, ch);
    OutboundNotes(h, t, g, ch);
    SnatSource(h, g.snat, ch.start);
    SeenIsFate(s, x, r);
    MetersKeepInner(s, x, r);
  }

  lemma OutboundIpv6Counted(h: Headers, t: bv2, g: Gateway, ch: Chances, s: State, x: Exit, r: Residue, src: bv128)
    requires GoesOut(h, t, g, ch) && s.hdr == P02IngressResult(h, t, g, ch).hdr
    requires h.innerIpv6.Some? && h.innerIpv6.value.srcAddr == src
    ensures OutboundEvent6(OutboundMetered(s, x, r), r) ==
      Some(Event(Key128(src), SeenAtAcl(s, x, r).colour == 3))
  {
    hide GoesOut, P02IngressResult, SeenAtAcl, SnatHeaders, OutboundMetered, Key128;
    VxlanIsThere(h, t, g, ch);
    OutboundNotes(h, t, g, ch);
    SnatSource(h, g.snat, ch.start);
    SeenIsFate(s, x, r);
    MetersKeepInner(s, x, r);
  }
}
