/** What P02 ingress makes of a packet first: it initialises the bridge header
    and classifies the packet.  The table gives one answer for every packet the
    parser accepts. */
module Classification {
  import opened Words
  import opened Wrappers
  import opened WireFormat
  import opened HeaderStack
  import opened PacketParsers
  import opened PacketState
  import opened IngressShape
  import opened IpTypeTable

  // ---------- the table is deterministic and total ----------

  ghost predicate TwoPriorities(es: seq<Entry>) {
    forall i :: 0 <= i < |es| ==> es[i].key.priority == HIGHEST_PRI || es[i].key.priority == LOWEST_PRI
  }

  lemma {:induction false} RulesHaveTwoPriorities(c: GatewayConfig, rules: seq<Rule>)
    ensures TwoPriorities(EntriesOfAll(c, rules))
  {
    hide TunnelOuter, TunnelInner, ActionOfRule;
    if rules != [] {
      RulesHaveTwoPriorities(c, rules[1..]);
    }
  }

  lemma TableHasTwoPriorities(c: GatewayConfig)
    ensures TwoPriorities(Table(c))
  {
    hide EntriesOfAll;
    forall g: Group {
      RulesHaveTwoPriorities(c, RulesOf(g));
    }
    assert TwoPriorities(EntriesOfAll(c, RulesOf(OutHost))) && TwoPriorities(EntriesOfAll(c, RulesOf(OutAz)));
    assert TwoPriorities(EntriesOfAll(c, RulesOf(OutEip))) && TwoPriorities(EntriesOfAll(c, RulesOf(RawGroup)));
    assert TwoPriorities(EntriesOfAll(c, RulesOf(InAz))) && TwoPriorities(EntriesOfAll(c, RulesOf(InEip)));
  }

  /** The hardware's choice is the first match of priority 0, or else the first
      of priority 20. */
  ghost predicate BestIs(b: Option<Entry>, high: seq<IpAction>, low: seq<IpAction>) {
    if high != [] then b.Some? && b.value.key.priority == HIGHEST_PRI && b.value.action == high[0]
    else if low != [] then b.Some? && b.value.key.priority == LOWEST_PRI && b.value.action == low[0]
    else b.None?
  }

  lemma {:induction false} BestByPriority(es: seq<Entry>, f: Fields)
    requires TwoPriorities(es)
    ensures BestIs(Best(es, f), ActionsAt(es, f, HIGHEST_PRI), ActionsAt(es, f, LOWEST_PRI))
  {
    hide Matches, ActionsAt;
    if es == [] {
      NoEntries(f, HIGHEST_PRI);
      NoEntries(f, LOWEST_PRI);
    } else {
      var front, e := es[..|es| - 1], es[|es| - 1];
      assert es == front + [e];
      BestByPriority(front, f);
      ActionsAtConcat(front, [e], f, HIGHEST_PRI);
      ActionsAtConcat(front, [e], f, LOWEST_PRI);
      ActionsAtPair(e, e, f, HIGHEST_PRI);
      ActionsAtPair(e, e, f, LOWEST_PRI);
    }
  }

  /** The table makes exactly the decision of `Decision`. */
  lemma LookupDecides(c: GatewayConfig, f: Fields)
    requires DistinctVips(c) && OneInner(f)
    ensures Lookup(Table(c), f) == Decision(c, f)
  {
    hide Table, ActionsAt, FiringRule, ActionOfRule, Best;
    TableHasTwoPriorities(c);
    BestByPriority(Table(c), f);
    TableFires(c, f, HIGHEST_PRI);
    TableFires(c, f, LOWEST_PRI);
  }

  /** Every packet with one outer IP version matches some entry. */
  lemma EveryIpPacketMatches(c: GatewayConfig, f: Fields)
    requires DistinctVips(c) && OneInner(f) && f.ipv4Valid != f.ipv6Valid
    ensures Best(Table(c), f).Some?
  {
    hide Table, ActionsAt, ActionOfRule, Best;
    TableHasTwoPriorities(c);
    BestByPriority(Table(c), f);
    TableFires(c, f, HIGHEST_PRI);
    TableFires(c, f, LOWEST_PRI);
  }

  /** Two entries of equal priority match the same packet. */
  predicate Clash(d: Entry, e: Entry, f: Fields) {
    Matches(d.key, f) && Matches(e.key, f) && d.key.priority == e.key.priority
  }

  ghost predicate Ambiguous(es: seq<Entry>, f: Fields) {
    exists i, j :: 0 <= i < j < |es| && Clash(es[i], es[j], f)
  }

  lemma {:induction false} MatchCounts(es: seq<Entry>, f: Fields, j: nat)
    requires j < |es| && Matches(es[j].key, f)
    ensures ActionsAt(es, f, es[j].key.priority) != []
  {
    hide Matches;
    if j != 0 {
      MatchCounts(es[1..], f, j - 1);
    }
  }

  lemma {:induction false} ClashCounts(es: seq<Entry>, f: Fields, i: nat, j: nat)
    requires i < j < |es| && Clash(es[i], es[j], f)
    ensures |ActionsAt(es, f, es[i].key.priority)| >= 2
  {
    hide Matches;
    if i == 0 {
      MatchCounts(es[1..], f, j - 1);
    } else {
      ClashCounts(es[1..], f, i - 1, j - 1);
    }
  }

  /** The fields of an IPv4 packet a host tunnelled to the VIP. */
  predicate FromHost(c: GatewayConfig, f: Fields) {
    TunnelRuleOf(f) == Some(Tunnel(Out, Host, false, false)) && f.ipv4Dst == c.vip
  }

  /** With equal VIPs every such packet matches two entries. */
  lemma EqualVipsClash(c: GatewayConfig, f: Fields)
    requires !DistinctVips(c) && FromHost(c, f)
    ensures OneInner(f) && Ambiguous(Table(c), f)
  {
    hide EntriesOfAll, Matches, TunnelKey, ActionOfRule, Ternary32;
    var r := Tunnel(Out, Host, false, false);
    TunnelEntryMatches(r, c.vip, 0xFFFF_FFFF, f);
    TernaryExact32(f.ipv4Dst, c.vip);
    FirstEntries(c);
    var es := Table(c);
    assert Clash(es[0], es[1], f);
  }

  lemma SomeFromHost(c: GatewayConfig)
    ensures FromHost(c, Fields(1, c.vip, 1, 1, 0, 0, 0, 0, VXLAN_TYPE_STD, 0, 0, 0))
  {
  }

  lemma FirstEntries(c: GatewayConfig)
    requires c.backupVip != 0
    ensures var r := Tunnel(Out, Host, false, false);
      |Table(c)| >= 2
      && Table(c)[0] == Entry(TunnelKey(r, c.vip, 0xFFFF_FFFF), ActionOfRule(r))
      && Table(c)[1] == Entry(TunnelKey(r, c.backupVip, 0xFFFF_FFFF), ActionOfRule(r))
  {
    hide TunnelKey, ActionOfRule;
    assert EntriesOfAll(c, OUT_HOST_RULES) == EntriesOf(c, OUT_HOST_RULES[0]) + EntriesOfAll(c, OUT_HOST_RULES[1..]);
  }

  /** No packet matches two entries of equal priority, exactly when the two VIPs
      differ (or there is no backup VIP). */
  lemma DeterministicIffVipsDiffer(c: GatewayConfig)
    ensures (forall f: Fields | OneInner(f) :: !Ambiguous(Table(c), f)) <==> DistinctVips(c)
  {
    hide Table, FiringRule, ActionOfRule, ActionsAt;
    if DistinctVips(c) {
      forall f: Fields | OneInner(f)
        ensures !Ambiguous(Table(c), f)
      {
        if i, j :| 0 <= i < j < |Table(c)| && Clash(Table(c)[i], Table(c)[j], f) {
          ClashCounts(Table(c), f, i, j);
          TableFires(c, f, Table(c)[i].key.priority);
        }
      }
    } else {
      SomeFromHost(c);
      EqualVipsClash(c, Fields(1, c.vip, 1, 1, 0, 0, 0, 0, VXLAN_TYPE_STD, 0, 0, 0));
    }
  }

  // ---------- the table's key ----------

  /** The table's key for a header stack; fields of invalid headers hold
      whatever `junk` says. */
  function KeyOf(h: Headers, vxlanType: bv2, junk: Fields): Fields {
    Fields(
      if h.ipv4.Some? then 1 else 0, if h.ipv4.Some? then h.ipv4.value.dstAddr else junk.ipv4Dst,
      if h.vxlan.Some? then 1 else 0,
      if h.innerIpv4.Some? then 1 else 0, if h.innerIpv4.Some? then h.innerIpv4.value.dstAddr else junk.inner4Dst,
      if h.innerIpv6.Some? then 1 else 0,
      if h.innerIpv6.Some? then Low2(h.innerIpv6.value.dstAddr) else junk.inner6Dst,
      if h.innerIpv6.Some? then Low2(h.innerIpv6.value.srcAddr) else junk.inner6Src,
      vxlanType, if h.vxlan.Some? then h.vxlan.value.tof else junk.tof,
      if h.ipv6.Some? then 1 else 0, if h.ipv6.Some? then h.ipv6.value.dstAddr else junk.ipv6Dst)
  }

  function Low2(x: bv128): bv2 { (x & 3) as bv2 }

  // ---------- the first stages of P02 ingress ----------

  const MATCH_PACKET: bv3 := 0
  const DL_PACKET: bv3 := 1
  const TYPE_INGRESS_INTERNET_IN: bv3 := 1
  const TYPE_INGRESS_INTERNET_OUT: bv3 := 2

  datatype DecapAction = OverlayV4 | OverlayV6 | PlainV4 | PlainV6 | Nop

  /** The constant entries of `ig_decap_md02`. */
  function DecapEntry(v4: bool, v6: bool, i4: bool, i6: bool): Option<DecapAction> {
    if v4 && !v6 && i4 && !i6 then Some(OverlayV4)
    else if v4 && !v6 && !i4 && i6 then Some(OverlayV6)
    else if v4 && !v6 && !i4 && !i6 then Some(PlainV4)
    else if !v4 && v6 && !i4 && !i6 then Some(PlainV6)
    else if !v4 && !v6 && !i4 && !i6 then Some(Nop)
    else None
  }

  /** `ig_init_bridge` */
  function InitBridge(bg: Bridge): Bridge {
    bg.(tunnelNexthop := 0, tunnelDirectSend := MATCH_PACKET, tunnelSrcId := 0, tunnelDstId := 0,
        innerMacId := 0, needDrop := 0, outerEthernetInvalid := 0)
  }

  /** The bridge header after `DecapMetaData_02`. */
  function BridgeStart(h: Headers, r: Residue): Option<Bridge> {
    match DecapEntry(h.ipv4.Some?, h.ipv6.Some?, h.innerIpv4.Some?, h.innerIpv6.Some?)
    case None => h.bridge
    case Some(a) =>
      var bg := r.bridge;
      var vni := if h.vxlan.Some? then h.vxlan.value.vni else r.vxlan.vni;
      Some(InitBridge(if a == OverlayV4 || a == OverlayV6 then bg.(lkpVni := vni)
                      else if a == Nop then bg.(lkpVni := 0) else bg))
  }

  /** `DecapMetaData_02`, action by action; the lookup keys it also copies are
      not kept. */
  method DecapMetaData02(phv: Phv, r: Residue)
    modifies phv`hdr
    ensures phv.hdr == old(phv.hdr).(bridge := BridgeStart(old(phv.hdr), r))
  {
    match DecapEntry(phv.hdr.ipv4.Some?, phv.hdr.ipv6.Some?, phv.hdr.innerIpv4.Some?, phv.hdr.innerIpv6.Some?) {
      case Some(a) =>
        var bg := r.bridge;
        if a == OverlayV4 || a == OverlayV6 {
          bg := bg.(lkpVni := if phv.hdr.vxlan.Some? then phv.hdr.vxlan.value.vni else r.vxlan.vni);
        } else if a == Nop {
          bg := bg.(lkpVni := 0);
        }
        bg := bg.(tunnelNexthop := 0);
        bg := bg.(tunnelDirectSend := MATCH_PACKET);
        bg := bg.(tunnelSrcId := 0);
        bg := bg.(tunnelDstId := 0);
        bg := bg.(innerMacId := 0);
        bg := bg.(needDrop := 0);
        bg := bg.(outerEthernetInvalid := 0);
        phv.hdr := phv.hdr.(bridge := Some(bg));
      case None =>
    }
  }

  /** For every packet P02 ingress accepts exactly one entry of `ig_decap_md02`
      fires, so the bridge header is always initialised, whatever it held. */
  lemma BridgeIsInitialised(packet: seq<byte>, r: Residue)
    requires Parse(P02Ingress, packet).Accepted?
    ensures var h := Parse(P02Ingress, packet).hdr;
      && DecapEntry(h.ipv4.Some?, h.ipv6.Some?, h.innerIpv4.Some?, h.innerIpv6.Some?).Some?
      && BridgeStart(h, r).Some?
      && var bg := BridgeStart(h, r).value;
      && bg.tunnelDirectSend == 0 && bg.needDrop == 0 && bg.outerEthernetInvalid == 0 && bg.tunnelNexthop == 0
      && bg.tunnelSrcId == 0 && bg.tunnelDstId == 0 && bg.innerMacId == 0
      && (h.innerIpv4.Some? || h.innerIpv6.Some? ==> h.vxlan.Some? && bg.lkpVni == h.vxlan.value.vni)
      && (h.ipv4.None? && h.ipv6.None? ==> bg.lkpVni == 0)
  {
    hide Parse, Shaped, Emit;
    IngressIsShaped(packet);
  }

  // Writing to an invalid bridge header has no effect.

  function SetTunnelType(bg: Option<Bridge>, t: bv3): Option<Bridge> {
    if bg.None? then None else Some(bg.value.(igrTunnelType := t))
  }

  function SetDlPkt(bg: Option<Bridge>, dl: bv1): Option<Bridge> {
    if bg.None? then None else Some(bg.value.(dlPkt := dl))
  }

  function TunnelTypeOf(dir: Direction): bv3 {
    if dir == In then TYPE_INGRESS_INTERNET_IN else TYPE_INGRESS_INTERNET_OUT
  }

  /** The bridge header after an action of `igw_ip_type`. */
  function Marked(bg: Option<Bridge>, dir: Direction, dl: bv1): Option<Bridge> {
    SetDlPkt(SetTunnelType(bg, TunnelTypeOf(dir)), dl)
  }

  /** The state after `IgwIpType`. */
  function Classified(s: PacketState.State, a: IpAction): PacketState.State {
    if a == NeedDrop then s.(drop := true)
    else s.(hdr := s.hdr.(bridge := Marked(s.hdr.bridge, a.dir, a.dl)), meta := s.meta.(egrPipeline := a.pipe))
  }

  method IgwIpType(phv: Phv, es: seq<Entry>, junk: Fields)
    modifies phv
    ensures phv.Value() == Classified(old(phv.Value()), Lookup(es, KeyOf(old(phv.hdr), old(phv.meta).vxlanType, junk)))
  {
    hide Lookup, KeyOf, SetTunnelType, SetDlPkt;
    var a := LookupEntry(es, KeyOf(phv.hdr, phv.meta.vxlanType, junk));
    match a {
      case Hit(dir, dl, pipe) =>
        phv.hdr := phv.hdr.(bridge := SetTunnelType(phv.hdr.bridge, TunnelTypeOf(dir)));
        phv.meta := phv.meta.(egrPipeline := pipe);
        phv.hdr := phv.hdr.(bridge := SetDlPkt(phv.hdr.bridge, dl));
      case NeedDrop =>
        phv.drop := true;
    }
  }

  /** For every packet P02 ingress accepts, the table filled for distinct VIPs
      takes the one decision of `Decision`, whatever invalid headers hold. */
  lemma EveryPacketDecided(c: GatewayConfig, packet: seq<byte>, junk: Fields)
    requires DistinctVips(c) && Parse(P02Ingress, packet).Accepted?
    ensures var o := Parse(P02Ingress, packet);
      var f := KeyOf(o.hdr, o.vxlanType, junk);
      && Lookup(Table(c), f) == Decision(c, f)
      && !Ambiguous(Table(c), f)
      && (o.hdr.ipv4.Some? || o.hdr.ipv6.Some? ==> Best(Table(c), f).Some?)
  {
    hide Parse, Decision, Lookup, Table, Best, Ambiguous, Shaped, Emit;
    IngressIsShaped(packet);
    var o := Parse(P02Ingress, packet);
    var f := KeyOf(o.hdr, o.vxlanType, junk);
    LookupDecides(c, f);
    DeterministicIffVipsDiffer(c);
    if o.hdr.ipv4.Some? || o.hdr.ipv6.Some? {
      EveryIpPacketMatches(c, f);
    }
  }
}
