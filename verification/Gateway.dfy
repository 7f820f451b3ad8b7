/** One gateway: the controls of P02 ingress, P13 egress and P02 egress in the
    order they apply, up to the point where a packet leaves the gateway again
    as redirected traffic. */
module Gateway {
  import opened Words
  import opened Wrappers
  import opened WireFormat
  import opened HeaderStack
  import opened PacketParsers
  import opened PacketState
  import opened IpTypeTable
  import opened Classification
  import opened Ecmp
  import opened Redirect
  import opened Tunnel

  /** A gateway's tables.  `snat` is keyed by VNI and inner source. */
  datatype Gateway = Gateway(cfg: GatewayConfig, inbound: RedirectTables, outbound: RedirectTables,
                             snat: map<(bv24, bv32), bv32>, sharedOuter: set<bv32>, sharedInner: set<bv32>,
                             ecmp: Tables, checksum: Ipv4 -> bv16)

  /** The JD tables are the installed ones. */
  ghost predicate TablesFilled(g: Gateway) {
    && g.inbound.jd == JdTable(g.cfg, In) && g.outbound.jd == JdTable(g.cfg, Out)
    && DistinctVips(g.cfg)
  }

  /** What one packet's way through a gateway depends on besides its tables:
      the contents of headers made valid, the port it came in on, whether it is
      taken for the CPU, the system ACLs, the ECMP hash and the MAC addresses
      it leaves with. */
  datatype Chances = Chances(start: Residue, encap: Residue, junk: Fields, igrPort: bv9, local: bool,
                             aclDrop: bool, egressDrop: bool, hash: nat, dstMac: bv48, srcMac: bv48)

  function BridgeIn(s: PacketState.State, r: Residue): Bridge {
    if s.hdr.bridge.Some? then s.hdr.bridge.value else r.bridge
  }

  function PortNumber(p: bv9): nat {
    p as nat
  }

  // ---------- the rest of P02 ingress ----------

  /** `FipInnerIpSnat` */
  function SnatHeaders(h: Headers, snat: map<(bv24, bv32), bv32>, r: Residue): Headers {
    match h.innerIpv4
    case None => h
    case Some(ip) =>
      var vni := if h.vxlan.Some? then h.vxlan.value.vni else r.vxlan.vni;
      if (vni, ip.srcAddr) in snat then h.(innerIpv4 := Some(ip.(srcAddr := snat[(vni, ip.srcAddr)]))) else h
  }

  function Snatted(s: PacketState.State, snat: map<(bv24, bv32), bv32>, r: Residue): PacketState.State {
    s.(hdr := SnatHeaders(s.hdr, snat, r))
  }

  method FipInnerIpSnat(phv: Phv, snat: map<(bv24, bv32), bv32>, r: Residue)
    modifies phv`hdr
    ensures phv.Value() == Snatted(old(phv.Value()), snat, r)
  {
    if phv.hdr.innerIpv4.Some? {
      var vni := if phv.hdr.vxlan.Some? then phv.hdr.vxlan.value.vni else r.vxlan.vni;
      var key := (vni, phv.hdr.innerIpv4.value.srcAddr);
      if key in snat {
        phv.hdr := phv.hdr.(innerIpv4 := Some(phv.hdr.innerIpv4.value.(srcAddr := snat[key])));
      }
    }
  }

  /** Outbound IPv4: the pipe by the parity of the source after SNAT. */
  function PipelineFixed(s: PacketState.State): PacketState.State {
    match s.hdr.innerIpv4
    case None => s
    case Some(ip) => s.(meta := s.meta.(egrPipeline := if ip.srcAddr & 1 == 1 then EGR_PIPELINE_0 else EGR_PIPELINE_2))
  }

  /** An entry of `pipeline_fix`. */
  datatype FixEntry = FixEntry(valid: bv1, validMask: bv1, src: bv32, srcMask: bv32, pipe: bv3)

  method PipelineFixInit() returns (es: seq<FixEntry>)
    ensures es == FIX_TABLE
  {
    es := [];
    var key := FixEntry(0, 0, 0, 0, 0);
    key := key.(valid := 1, validMask := 1).(src := 1, srcMask := 1);
    es := es + [key.(pipe := EGR_PIPELINE_0)];
    key := key.(valid := 1, validMask := 1).(src := 0, srcMask := 1);
    es := es + [key.(pipe := EGR_PIPELINE_2)];
  }

  const FIX_TABLE := [FixEntry(1, 1, 1, 1, EGR_PIPELINE_0), FixEntry(1, 1, 0, 1, EGR_PIPELINE_2)]

  predicate FixMatches(e: FixEntry, valid: bv1, src: bv32) {
    Ternary1(valid, e.valid, e.validMask) && Ternary32(src, e.src, e.srcMask)
  }

  /** `pipeline_fix`, entry by entry; a miss changes nothing. */
  method PipelineFix(phv: Phv, es: seq<FixEntry>, junkSrc: bv32)
    requires es == FIX_TABLE
    modifies phv`meta
    ensures phv.Value() == PipelineFixed(old(phv.Value()))
  {
    var valid: bv1 := if phv.hdr.innerIpv4.Some? then 1 else 0;
    var src := if phv.hdr.innerIpv4.Some? then phv.hdr.innerIpv4.value.srcAddr else junkSrc;
    TernaryParity(0, src, 0, true);
    TernaryParity(0, src, 0, false);
    hide Ternary32;
    if FixMatches(es[0], valid, src) {
      phv.meta := phv.meta.(egrPipeline := es[0].pipe);
    } else if FixMatches(es[1], valid, src) {
      phv.meta := phv.meta.(egrPipeline := es[1].pipe);
    }
  }

  /** `HaveSharedBindWith`: the flag of an inbound EIP with shared bandwidth. */
  function SharedFlagged(s: PacketState.State, g: Gateway, r: Residue): PacketState.State {
    var dl := BridgeIn(s, r).dlPkt;
    if dl == 0 && s.hdr.ipv4.Some? && s.hdr.ipv4.value.dstAddr in g.sharedOuter
    then s.(meta := s.meta.(haveSharedBd := 1))
    else if dl == 1 && s.hdr.innerIpv4.Some? && s.hdr.innerIpv4.value.dstAddr in g.sharedInner
    then s.(meta := s.meta.(haveSharedBd := 1))
    else s
  }

  method HaveSharedBindWith(phv: Phv, g: Gateway, r: Residue)
    modifies phv`meta
    ensures phv.Value() == SharedFlagged(old(phv.Value()), g, r)
  {
    var dl := if phv.hdr.bridge.Some? then phv.hdr.bridge.value.dlPkt else r.bridge.dlPkt;
    if dl == 0 && phv.hdr.ipv4.Some? {
      if phv.hdr.ipv4.value.dstAddr in g.sharedOuter {
        phv.meta := phv.meta.(haveSharedBd := 1);
      }
    } else if dl == 1 && phv.hdr.innerIpv4.Some? {
      if phv.hdr.innerIpv4.value.dstAddr in g.sharedInner {
        phv.meta := phv.meta.(haveSharedBd := 1);
      }
    }
  }

  predicate Tunnels(bg: Bridge) {
    bg.tunnelDirectSend == MATCH_PACKET || bg.tunnelDirectSend == DL_PACKET
  }

  /** `EcmpGroup02`.  The port it falls back to is read from the bridge header
      before P02 ingress has written it there. */
  function Ported(s: PacketState.State, g: Gateway, hash: nat, r: Residue): PacketState.State {
    var bg := BridgeIn(s, r);
    if Tunnels(bg) then
      s.(port := ChosenPort(g.ecmp, s.meta.egrPipeline, s.meta.haveSharedBd, PortNumber(bg.igrPort), hash))
    else s
  }

  method EcmpGroup02(phv: Phv, g: Gateway, hash: nat, r: Residue)
    modifies phv`port
    ensures phv.Value() == Ported(old(phv.Value()), g, hash, r)
  {
    hide PortNumber, GroupFor, Active;
    var bg := BridgeIn(phv.Value(), r);
    if Tunnels(bg) {
      phv.port := PortNumber(bg.igrPort);
      var t := g.ecmp;
      match GroupFor(t.forward, phv.meta.egrPipeline, phv.meta.haveSharedBd) {
        case None =>
        case Some(id) =>
          if id in t.groups && |t.groups[id].ids| == |t.groups[id].status| {
            var active := Active(t.groups[id]);
            if active != [] {
              var m := active[hash % |active|];
              if m in t.members {
                phv.port := t.members[m];
              }
            }
          }
      }
    }
  }

  /** The bridge header `EncapMetaData_02` completes. */
  function BridgeSent(bg: Bridge, igrPort: bv9, etherType: bv16): Bridge {
    bg.(igrPort := igrPort, proto := PKT_BRIDGE, outerEthernetType := etherType,
        outerEthernetInvalid := if Tunnels(bg) then 1 else bg.outerEthernetInvalid)
  }

  /** `EncapMetaData_02`: the Ethernet header comes off tunnelled traffic. */
  function Bridged(s: PacketState.State, igrPort: bv9, r: Residue): PacketState.State {
    var etherType := if s.hdr.ethernet.Some? then s.hdr.ethernet.value.etherType else r.ethernet.etherType;
    s.(hdr := s.hdr.(
      bridge := (match s.hdr.bridge case None => None case Some(bg) => Some(BridgeSent(bg, igrPort, etherType))),
      ethernet := if Tunnels(BridgeIn(s, r)) then None else s.hdr.ethernet))
  }

  method EncapMetaData02(phv: Phv, igrPort: bv9, r: Residue)
    modifies phv`hdr
    ensures phv.Value() == Bridged(old(phv.Value()), igrPort, r)
  {
    var etherType := if phv.hdr.ethernet.Some? then phv.hdr.ethernet.value.etherType else r.ethernet.etherType;
    var tunnels := Tunnels(BridgeIn(phv.Value(), r));
    if phv.hdr.bridge.Some? {
      var bg := phv.hdr.bridge.value;
      bg := bg.(igrPort := igrPort);
      bg := bg.(proto := PKT_BRIDGE);
      bg := bg.(outerEthernetType := etherType);
      if tunnels {
        bg := bg.(outerEthernetInvalid := 1);
      }
      phv.hdr := phv.hdr.(bridge := Some(bg));
    }
    if tunnels {
      phv.hdr := phv.hdr.(ethernet := None);
    }
  }

  // ---------- P02 ingress, in order ----------

  /** Outbound traffic: SNAT, pipe, redirect. */
  function OutboundStages(s: PacketState.State, g: Gateway, ch: Chances): PacketState.State {
    AfterRedirect(PipelineFixed(Snatted(s, g.snat, ch.start)), Out, g.outbound, ch.start)
  }

  /** What the stages up to the ACL make of a freshly parsed packet. */
  function ClassifiedStart(h: Headers, t: bv2, g: Gateway, ch: Chances): PacketState.State {
    var s := PacketState.State(h.(bridge := BridgeStart(h, ch.start)), FreshMeta(t), 0, false);
    var c := if BridgeIn(s, ch.start).tunnelDirectSend == MATCH_PACKET
             then Classified(s, Lookup(Table(g.cfg), KeyOf(s.hdr, t, ch.junk))) else s;
    c.(drop := c.drop || ch.aclDrop)
  }

  /** What the direction-dependent stages make of a classified packet. */
  function Directed(s: PacketState.State, g: Gateway, ch: Chances): PacketState.State {
    var bg := BridgeIn(s, ch.start);
    if bg.tunnelDirectSend != MATCH_PACKET then s
    else if bg.igrTunnelType == TYPE_INGRESS_INTERNET_OUT then OutboundStages(s, g, ch)
    else SharedFlagged(s, g, ch.start)
  }

  /** The packet as P02 ingress hands it on, unless it is taken for the CPU. */
  function P02IngressResult(h: Headers, t: bv2, g: Gateway, ch: Chances): PacketState.State {
    Bridged(Ported(Directed(ClassifiedStart(h, t, g, ch), g, ch), g, ch.hash, ch.start), ch.igrPort, ch.start)
  }

  /** `P02_Ingress` for a packet that is not taken for the CPU. */
  method P02IngressControl(phv: Phv, g: Gateway, ch: Chances, fix: seq<FixEntry>)
    requires phv.Value() == PacketState.State(phv.hdr, FreshMeta(phv.meta.vxlanType), 0, false) && fix == FIX_TABLE
    modifies phv
    ensures phv.Value() == P02IngressResult(old(phv.hdr), old(phv.meta).vxlanType, g, ch)
  {
    hide Bridged, Ported, SharedFlagged, Snatted, PipelineFixed, AfterRedirect, Lookup, KeyOf, Classified, BridgeStart;
    hide Table;
    DecapMetaData02(phv, ch.start);
    if BridgeIn(phv.Value(), ch.start).tunnelDirectSend == MATCH_PACKET {
      var es := Table(g.cfg);
      IgwIpType(phv, es, ch.junk);
    }
    if ch.aclDrop {
      phv.drop := true;
    }
    var bg := BridgeIn(phv.Value(), ch.start);
    if bg.tunnelDirectSend == MATCH_PACKET {
      if bg.igrTunnelType == TYPE_INGRESS_INTERNET_OUT {
        FipInnerIpSnat(phv, g.snat, ch.start);
        PipelineFix(phv, fix, ch.start.innerIpv4.srcAddr);
        EipRedirect(phv, Out, g.outbound, ch.start);
      } else {
        HaveSharedBindWith(phv, g, ch.start);
      }
    }
    EcmpGroup02(phv, g, ch.hash, ch.start);
    EncapMetaData02(phv, ch.igrPort, ch.start);
  }

  // ---------- P13 egress ----------

  /** `DecapMetaData_I2E13`: the EIP of IPv4 traffic goes into the bridge header. */
  function EipNoted(h: Headers, r: Residue): Headers {
    if h.vxlan.Some? && h.innerIpv4.Some? && h.ipv6.None?
    then h.(bridge := SetEipOrBwid(h.bridge, h.innerIpv4.value.dstAddr))
    else if h.vxlan.None? && h.innerIpv4.None? && h.ipv6.None? then
      h.(bridge := SetEipOrBwid(h.bridge, if h.ipv4.Some? then h.ipv4.value.dstAddr else r.ipv4.dstAddr))
    else h
  }

  function EncapsulatedIfRaw(h: Headers, r: Residue): Headers {
    if BridgeOf(h, r).dlPkt == 0 && h.vxlan.None? then Encapsulated(h, r) else h
  }

  /** The stages of `P13_Egress` up to the meter. */
  function P13EgressResult(h: Headers, t: bv2, g: Gateway, ch: Chances): PacketState.State {
    AfterRedirect(PacketState.State(EncapsulatedIfRaw(EipNoted(h, ch.encap), ch.encap), FreshMeta(t), 0, false), In,
                  g.inbound, ch.encap)
  }

  method P13EgressControl(phv: Phv, g: Gateway, ch: Chances)
    requires phv.Value() == PacketState.State(phv.hdr, FreshMeta(phv.meta.vxlanType), 0, false)
    modifies phv
    ensures phv.Value() == P13EgressResult(old(phv.hdr), old(phv.meta).vxlanType, g, ch)
  {
    hide AfterRedirect, Encapsulated;
    if phv.hdr.vxlan.Some? && phv.hdr.innerIpv4.Some? && phv.hdr.ipv6.None? {
      phv.hdr := phv.hdr.(bridge := SetEipOrBwid(phv.hdr.bridge, phv.hdr.innerIpv4.value.dstAddr));
    } else if phv.hdr.vxlan.None? && phv.hdr.innerIpv4.None? && phv.hdr.ipv6.None? {
      var eip := if phv.hdr.ipv4.Some? then phv.hdr.ipv4.value.dstAddr else ch.encap.ipv4.dstAddr;
      phv.hdr := phv.hdr.(bridge := SetEipOrBwid(phv.hdr.bridge, eip));
    }
    if BridgeOf(phv.hdr, ch.encap).dlPkt == 0 && phv.hdr.vxlan.None? {
      EnCapVxlan(phv, ch.encap);
    }
    EipRedirect(phv, In, g.inbound, ch.encap);
  }

  // ---------- P02 egress, for redirected traffic ----------

  /** The Ethernet header put back in front, with the addresses of the MAC
      rewrite, and the bridge header taken off. */
  function Reframed(h: Headers, ch: Chances): Headers {
    match h.bridge
    case None => h
    case Some(bg) =>
      h.(bridge := None,
         ethernet := if bg.outerEthernetInvalid == 1 then Some(Ethernet(ch.dstMac, ch.srcMac, bg.outerEthernetType))
                     else if h.ethernet.Some? then Some(h.ethernet.value.(dstAddr := ch.dstMac, srcAddr := ch.srcMac))
                     else None)
  }

  /** `P02_Egress` and its deparser for a packet sent on as it is. */
  method P02EgressControl(phv: Phv, g: Gateway, ch: Chances) returns (bytes: seq<byte>)
    requires phv.hdr.bridge.Some? && phv.hdr.bridge.value.tunnelDirectSend == DL_PACKET
    requires !phv.meta.innerChecksumEn
    modifies phv`hdr
    ensures bytes == Emit(WithChecksums(Reframed(old(phv.hdr), ch), false, g.checksum))
  {
    hide WithChecksums, Emit;
    var bg := phv.hdr.bridge.value;
    if bg.outerEthernetInvalid == 1 {
      phv.hdr := phv.hdr.(ethernet := Some(ch.start.ethernet.(etherType := bg.outerEthernetType)));
    }
    if phv.hdr.ethernet.Some? {
      phv.hdr := phv.hdr.(ethernet := Some(phv.hdr.ethernet.value.(srcAddr := ch.srcMac, dstAddr := ch.dstMac)));
    }
    phv.hdr := phv.hdr.(bridge := None);
    bytes := P02EgressDeparse(phv, g.checksum);
  }

  // ---------- a packet's way through a gateway ----------

  /** A gateway sends a packet on as redirected traffic, or keeps it: it goes to
      the CPU, to a host or to the Internet, or it is dropped. */
  datatype Hop = Kept | Sent(bytes: seq<byte>)

  predicate SentDirectly(h: Headers) {
    h.bridge.Some? && h.bridge.value.tunnelDirectSend == DL_PACKET
  }

  /** Out through P02 egress. */
  function Leave(g: Gateway, ch: Chances, bytes: seq<byte>): Hop {
    match Parse(P02Egress, bytes)
    case Rejected => Kept
    case Accepted(h, _, payload) =>
      if !SentDirectly(h) || ch.egressDrop then Kept
      else Sent(Emit(WithChecksums(Reframed(h, ch), false, g.checksum)) + payload)
  }

  /** Through P13 egress, and back through P13 ingress, which leaves redirected
      traffic alone and sends it to the network port it came in on. */
  function LoopBack(g: Gateway, ch: Chances, bytes: seq<byte>): Hop {
    match Parse(P13Egress, bytes)
    case Rejected => Kept
    case Accepted(h, t, payload) =>
      var s := P13EgressResult(h, t, g, ch);
      if !SentDirectly(s.hdr) then Kept
      else
        match Parse(P13Ingress, Emit(s.hdr) + payload)
        case Rejected => Kept
        case Accepted(h3, _, payload3) => Leave(g, ch, Emit(h3) + payload3)
  }

  /** Is the port in one of the internal pipes, whose ports loop back? */
  predicate IsInternal(port: nat) {
    PipeOfPort(port) == 1 || PipeOfPort(port) == 3
  }

  /** What a gateway does with a packet that arrives at a network port. */
  function HopOf(g: Gateway, ch: Chances, bytes: seq<byte>): Hop {
    match Parse(P02Ingress, bytes)
    case Rejected => Kept
    case Accepted(h, t, payload) =>
      if ch.local then Kept
      else
        var s := P02IngressResult(h, t, g, ch);
        if s.drop then Kept
        else if IsInternal(s.port) then LoopBack(g, ch, Emit(s.hdr) + payload)
        else Leave(g, ch, Emit(s.hdr) + payload)
  }
}
