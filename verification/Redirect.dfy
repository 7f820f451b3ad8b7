/** The redirect decision: EIP lookup, the JD table and the rewrites that send
    a packet to another cluster or to another gateway of this one. */
module Redirect {
  import opened Wrappers
  import opened WireFormat
  import opened HeaderStack
  import opened PacketState
  import opened IpTypeTable
  import opened Classification

  // ---------- the JD table ----------

  datatype JdAction = ToAz(sharedBwVip: bv32) | ToEip(srcIp: bv32)

  datatype JdKey = JdKey(priority: nat, vxlanValid: bv1, vxlanValidMask: bv1, tof: bv4, tofMask: bv4,
                         between: bv1, betweenMask: bv1, within: bv1, withinMask: bv1)

  datatype JdEntry = JdEntry(key: JdKey, action: JdAction)

  /** The fields of a packet `modify_jd_vxlan` looks at. */
  datatype JdFields = JdFields(vxlanValid: bv1, tof: bv4, between: bv1, within: bv1)

  predicate JdMatches(k: JdKey, f: JdFields) {
    && Ternary1(f.vxlanValid, k.vxlanValid, k.vxlanValidMask)
    && Ternary4(f.tof, k.tof, k.tofMask)
    && Ternary1(f.between, k.between, k.betweenMask)
    && Ternary1(f.within, k.within, k.withinMask)
  }

  /** All entries have one priority, so the first match in table order. */
  function JdLookup(es: seq<JdEntry>, f: JdFields): Option<JdAction> {
    if es == [] then None
    else if JdMatches(es[0].key, f) then Some(es[0].action)
    else JdLookup(es[1..], f)
  }

  /** The entries of one direction, as the initialisers install them. */
  function JdTable(c: GatewayConfig, dir: Direction): seq<JdEntry> {
    [JdEntry(JdKey(HIGHEST_PRI, 1, 1, 0, 0xF, 0, 1, 1, 1), ToEip(c.vip)),
     JdEntry(JdKey(HIGHEST_PRI, 1, 1, TofOf(dir, Az), 0xF, 0, 0, 1, 1), ToEip(c.vip)),
     JdEntry(JdKey(HIGHEST_PRI, 1, 1, 0, 0xF, 1, 1, 0, 0), ToAz(c.sharedBwVip))]
  }

  class JdVxlanTable {
    var entries: seq<JdEntry>

    constructor ()
      ensures entries == []
    {
      entries := [];
    }

    method EntryAdd(key: JdKey, a: JdAction)
      modifies this
      ensures entries == old(entries) + [JdEntry(key, a)]
    {
      entries := entries + [JdEntry(key, a)];
    }

    /** `eip_in_entry_init` and `eip_out_entry_init` */
    method EipEntryInit(c: GatewayConfig, dir: Direction)
      modifies this
      ensures entries == old(entries) + JdTable(c, dir)[..2]
    {
      var key := JdKey(0, 0, 0, 0, 0, 0, 0, 0, 0);
      key := key.(priority := HIGHEST_PRI);
      key := key.(vxlanValid := 1, vxlanValidMask := 1);
      key := key.(tof := 0, tofMask := 0xF);
      key := key.(between := 0, betweenMask := 1);
      key := key.(within := 1, withinMask := 1);
      EntryAdd(key, ToEip(c.vip));
      key := JdKey(0, 0, 0, 0, 0, 0, 0, 0, 0);
      key := key.(priority := HIGHEST_PRI);
      key := key.(vxlanValid := 1, vxlanValidMask := 1);
      key := key.(tof := if dir == In then TOF_AZ_IN else TOF_AZ_OUT, tofMask := 0xF);
      key := key.(between := 0, betweenMask := 0);
      key := key.(within := 1, withinMask := 1);
      EntryAdd(key, ToEip(c.vip));
    }

    /** `az_in_entry_init` and `az_out_entry_init` */
    method AzEntryInit(c: GatewayConfig, dir: Direction)
      modifies this
      ensures entries == old(entries) + JdTable(c, dir)[2..]
    {
      var key := JdKey(0, 0, 0, 0, 0, 0, 0, 0, 0);
      key := key.(priority := HIGHEST_PRI);
      key := key.(vxlanValid := 1, vxlanValidMask := 1);
      key := key.(tof := 0, tofMask := 0xF);
      key := key.(between := 1, betweenMask := 1);
      EntryAdd(key, ToAz(c.sharedBwVip));
    }

    method Init(c: GatewayConfig, dir: Direction)
      requires entries == []
      modifies this
      ensures entries == JdTable(c, dir)
    {
      EipEntryInit(c, dir);
      AzEntryInit(c, dir);
      assert JdTable(c, dir) == JdTable(c, dir)[..2] + JdTable(c, dir)[2..];
    }
  }

  /** Where a packet goes next, if anywhere: to the EIP's gateway when its EIP
      is limited within the cluster, to the EIP's cluster when between. */
  function NextScope(dir: Direction, tof: bv4, within: bv1, between: bv1): Option<Scope> {
    if tof == 0 && between == 1 then Some(Az)
    else if tof == 0 && within == 1 then Some(Eip)
    else if tof == TofOf(dir, Az) && within == 1 then Some(Eip)
    else None
  }

  function ActionFor(c: GatewayConfig, scope: Option<Scope>): Option<JdAction> {
    if scope == Some(Az) then Some(ToAz(c.sharedBwVip))
    else if scope == Some(Eip) then Some(ToEip(c.vip))
    else None
  }

  /** The installed entries decide exactly that; no two of them match one packet. */
  lemma JdTableDecides(c: GatewayConfig, dir: Direction, f: JdFields)
    ensures JdLookup(JdTable(c, dir), f) ==
      ActionFor(c, if f.vxlanValid == 1 then NextScope(dir, f.tof, f.within, f.between) else None)
    ensures forall i, j :: 0 <= i < j < 3 ==> !(JdMatches(JdTable(c, dir)[i].key, f) &&
                                                JdMatches(JdTable(c, dir)[j].key, f))
  {
    var t := JdTable(c, dir);
    assert t[1..][1..] == t[2..] && t[2..][1..] == [];
    assert JdLookup(t[2..], f) == if JdMatches(t[2].key, f) then Some(t[2].action) else None;
    hide JdLookup;
  }

  // ---------- ranks ----------

  /** How many redirects a type of flow may still see: fresh traffic two,
      between-cluster traffic one, within-cluster traffic none. */
  function Rank(tof: bv4): nat {
    if tof == 0 then 2
    else if tof == TOF_AZ_IN || tof == TOF_AZ_OUT then 1
    else 0
  }

  function RankOf(scope: Scope): nat {
    match scope
    case Host => 2
    case Az => 1
    case Eip => 0
  }

  /** A redirect strictly lowers the rank and stamps its own direction. */
  lemma RedirectLowersRank(dir: Direction, tof: bv4, within: bv1, between: bv1)
    ensures NextScope(dir, tof, within, between).Some? ==>
      var next := NextScope(dir, tof, within, between).value;
      && Rank(TofOf(dir, next)) == RankOf(next) < Rank(tof)
      && ScopeOf(PacketParsers.VXLAN_TYPE_JD, TofOf(dir, next)) == Some((dir, next))
  {
  }

  // ---------- EIP lookup ----------

  /** What an EIP table holds for an EIP; `flag` is `nlb_eip` inbound and
      `have_shared_bd` outbound. */
  datatype Bandwidth = Bandwidth(id: bv32, sharedId: bv16, within: bv1, between: bv1, flag: bv1)

  /** A gateway's tables for one direction.  `pick` is the selector's hash. */
  datatype RedirectTables = RedirectTables(eip4: map<bv32, Bandwidth>, eip6: map<bv128, Bandwidth>, jd: seq<JdEntry>,
                                           dlMembers: seq<bv32>, pick: bv32 -> nat)

  /** The EIP's entry: by inner destination inbound, inner source outbound. */
  function BandwidthOf(h: Headers, dir: Direction, t: RedirectTables): Option<Bandwidth> {
    if h.innerIpv4.Some? then
      var eip := if dir == In then h.innerIpv4.value.dstAddr else h.innerIpv4.value.srcAddr;
      if eip in t.eip4 then Some(t.eip4[eip]) else None
    else if h.innerIpv6.Some? then
      var eip := if dir == In then h.innerIpv6.value.dstAddr else h.innerIpv6.value.srcAddr;
      if eip in t.eip6 then Some(t.eip6[eip]) else None
    else None
  }

  function SetShared(bg: Option<Bridge>, id: bv16): Option<Bridge> {
    if bg.None? then None else Some(bg.value.(sharedBandwidthId := id))
  }

  function SetNlb(bg: Option<Bridge>, nlb: bv1): Option<Bridge> {
    if bg.None? then None else Some(bg.value.(nlbEip := nlb))
  }

  function SetEipOrBwid(bg: Option<Bridge>, id: bv32): Option<Bridge> {
    if bg.None? then None else Some(bg.value.(eipOrBwid := id))
  }

  function SetDirectSend(bg: Option<Bridge>, x: bv3): Option<Bridge> {
    if bg.None? then None else Some(bg.value.(tunnelDirectSend := x))
  }

  /** The state after the EIP table. */
  function LookedUp(s: State, dir: Direction, t: RedirectTables): State {
    if s.hdr.innerIpv4.None? && s.hdr.innerIpv6.None? then s
    else
      match BandwidthOf(s.hdr, dir, t)
      case None => s.(hdr := s.hdr.(bridge := SetShared(s.hdr.bridge, 0)))
      case Some(b) =>
        var shared := SetShared(s.hdr.bridge, b.sharedId);
        var meta := s.meta.(withinCluster := b.within, betweenCluster := b.between);
        if dir == In then s.(hdr := s.hdr.(bridge := SetNlb(shared, b.flag)), meta := meta.(bandwidthId := b.id))
        else s.(hdr := s.hdr.(bridge := SetEipOrBwid(shared, b.id)), meta := meta.(haveSharedBd := b.flag))
  }

  // ---------- the rewrites ----------

  function JdVxlan(v: Vxlan, dir: Direction, scope: Scope): Vxlan {
    v.(flags := 0x0C, version := 1, tof := TofOf(dir, scope),
       vni := if dir == Out then v.vni else if scope == Az then 99 else 125)
  }

  function JdPort(scope: Scope): bv16 {
    if scope == Az then 50 else 250
  }

  function ScopeTo(a: JdAction): Scope {
    if a.ToAz? then Az else Eip
  }

  function JdIp(ip: Ipv4, a: JdAction): Ipv4 {
    match a
    case ToAz(vip) => ip.(dstAddr := vip)
    case ToEip(src) => ip.(srcAddr := src)
  }

  /** The four `rewrite_*_jd_vxlan` actions. */
  function Rewritten(h: Headers, dir: Direction, a: JdAction): Headers {
    h.(vxlan := (match h.vxlan case None => None case Some(v) => Some(JdVxlan(v, dir, ScopeTo(a)))),
       udp := (match h.udp case None => None case Some(u) => Some(u.(srcPort := JdPort(ScopeTo(a))))),
       ipv4 := (match h.ipv4 case None => None case Some(ip) => Some(JdIp(ip, a))),
       bridge := SetDirectSend(h.bridge, DL_PACKET))
  }

  function Widened(id: bv16): bv32 {
    id as bv32
  }

  /** What the DL selector hashes: the shared bandwidth id when there is one. */
  function HashIndex(s: State, dir: Direction, r: Residue): bv32 {
    var bg := if s.hdr.bridge.Some? then s.hdr.bridge.value else r.bridge;
    if bg.sharedBandwidthId != 0 then Widened(bg.sharedBandwidthId)
    else if dir == In then s.meta.bandwidthId
    else bg.eipOrBwid
  }

  /** `select_redirect_ip`: one of the DL addresses, whichever the hash picks. */
  function DlAddress(t: RedirectTables, hash: bv32): Option<bv32> {
    if t.dlMembers == [] then None else Some(t.dlMembers[t.pick(hash) % |t.dlMembers|])
  }

  function WithDst(h: Headers, a: Option<bv32>): Headers {
    if a.None? || h.ipv4.None? || h.vxlan.None? then h else h.(ipv4 := Some(h.ipv4.value.(dstAddr := a.value)))
  }

  function JdFieldsOf(s: State, junkTof: bv4): JdFields {
    JdFields(if s.hdr.vxlan.Some? then 1 else 0, if s.hdr.vxlan.Some? then s.hdr.vxlan.value.tof else junkTof,
             s.meta.betweenCluster, s.meta.withinCluster)
  }

  /** The state after `EipInRedirect` or `EipOutRedirect`. */
  function AfterRedirect(s: State, dir: Direction, t: RedirectTables, r: Residue): State {
    var l := LookedUp(s, dir, t);
    match JdLookup(t.jd, JdFieldsOf(l, r.vxlan.tof))
    case None => l
    case Some(ToAz(vip)) => l.(hdr := Rewritten(l.hdr, dir, ToAz(vip)))
    case Some(ToEip(src)) => l.(hdr := WithDst(Rewritten(l.hdr, dir, ToEip(src)), DlAddress(t, HashIndex(l, dir, r))))
  }

  /** The action `set_bw_id` or `nop` of an EIP table. */
  method LookUpEip(phv: Phv, dir: Direction, t: RedirectTables)
    modifies phv
    ensures phv.Value() == LookedUp(old(phv.Value()), dir, t)
  {
    hide BandwidthOf, SetShared, SetNlb, SetEipOrBwid;
    if phv.hdr.innerIpv4.Some? || phv.hdr.innerIpv6.Some? {
      match BandwidthOf(phv.hdr, dir, t) {
        case None =>
          phv.hdr := phv.hdr.(bridge := SetShared(phv.hdr.bridge, 0));
        case Some(b) =>
          phv.hdr := phv.hdr.(bridge := SetShared(phv.hdr.bridge, b.sharedId));
          phv.meta := phv.meta.(withinCluster := b.within, betweenCluster := b.between);
          if dir == In {
            phv.meta := phv.meta.(bandwidthId := b.id);
            phv.hdr := phv.hdr.(bridge := SetNlb(phv.hdr.bridge, b.flag));
          } else {
            phv.hdr := phv.hdr.(bridge := SetEipOrBwid(phv.hdr.bridge, b.id));
            phv.meta := phv.meta.(haveSharedBd := b.flag);
          }
      }
    }
  }

  /** The action of `modify_jd_vxlan`, field by field. */
  method RewriteJdVxlan(phv: Phv, dir: Direction, a: JdAction)
    modifies phv`hdr
    ensures phv.hdr == Rewritten(old(phv.hdr), dir, a)
  {
    hide SetDirectSend, JdIp, TofOf, JdPort;
    var tof, port := TofOf(dir, ScopeTo(a)), JdPort(ScopeTo(a));
    match phv.hdr.vxlan {
      case Some(v) =>
        var w := v.(flags := 0x0C).(version := 1);
        if dir == In {
          w := w.(vni := if a.ToAz? then 99 else 125);
        }
        w := w.(tof := tof);
        phv.hdr := phv.hdr.(vxlan := Some(w));
      case None =>
    }
    if phv.hdr.udp.Some? {
      phv.hdr := phv.hdr.(udp := Some(phv.hdr.udp.value.(srcPort := port)));
    }
    if phv.hdr.ipv4.Some? {
      phv.hdr := phv.hdr.(ipv4 := Some(JdIp(phv.hdr.ipv4.value, a)));
    }
    phv.hdr := phv.hdr.(bridge := SetDirectSend(phv.hdr.bridge, DL_PACKET));
  }

  /** `EipInRedirect` and `EipOutRedirect`. */
  method EipRedirect(phv: Phv, dir: Direction, t: RedirectTables, r: Residue)
    modifies phv
    ensures phv.Value() == AfterRedirect(old(phv.Value()), dir, t, r)
  {
    hide LookedUp, JdLookup, Rewritten, DlAddress, HashIndex, JdFieldsOf;
    LookUpEip(phv, dir, t);
    var hashIndex := HashIndex(phv.Value(), dir, r);
    match JdLookup(t.jd, JdFieldsOf(phv.Value(), r.vxlan.tof)) {
      case None =>
      case Some(a) =>
        RewriteJdVxlan(phv, dir, a);
        if a.ToEip? {
          phv.hdr := WithDst(phv.hdr, DlAddress(t, hashIndex));
        }
    }
  }
}
