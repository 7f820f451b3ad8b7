/** The frame a gateway sends on, derived from the packet it received: outbound
    traffic through P02 alone, inbound traffic through the loop over P13. */
module RedirectedFrames {
  import opened Words
  import opened Wrappers
  import opened WireFormat
  import opened HeaderStack
  import opened PacketParsers
  import opened FrameParsing
  import opened IngressShape
  import opened PacketState
  import opened IpTypeTable
  import opened Classification
  import opened Redirect
  import opened Tunnel
  import opened Gateway
  import opened Frames
  import opened RedirectHop

  // ---------- the inner packet ----------

  /** The tenant's packet: its EtherType and its bytes. */
  datatype Inner = Inner(etherType: bv16, l3: seq<byte>)

  /** Bytes agree everywhere but between `lo` and `hi`. */
  ghost predicate AgreeOutside(a: seq<byte>, b: seq<byte>, lo: nat, hi: nat) {
    |a| == |b| && forall i :: 0 <= i < |a| && !(lo <= i < hi) ==> a[i] == b[i]
  }

  /** The inner packet is kept: IPv6 exactly; IPv4 but for the checksum inbound
      (lost when the packet is first put into the tunnel) and for the source
      address outbound (SNAT). */
  ghost predicate KeptInner(dir: Direction, a: Inner, b: Inner) {
    && a.etherType == b.etherType
    && (if a.etherType != ETHERTYPE_IPV4 then a.l3 == b.l3
        else if dir == In then AgreeOutside(a.l3, b.l3, 10, 12)
        else AgreeOutside(a.l3, b.l3, 12, 16))
  }

  lemma KeptInnerSame(dir: Direction, a: Inner)
    ensures KeptInner(dir, a, a)
  {
  }

  lemma KeptInnerChain(dir: Direction, a: Inner, b: Inner, c: Inner)
    requires KeptInner(dir, a, b) && KeptInner(dir, b, c)
    ensures KeptInner(dir, a, c)
  {
  }

  /** An IPv4 packet with its source address overwritten. */
  function PutSource(l3: seq<byte>, x: bv32): seq<byte> {
    if |l3| >= 20 then l3[..12] + Bytes4(x) + l3[16..] else l3
  }

  /** What SNAT makes of an inner packet in a tunnel: the source is replaced by the
      entry of its VNI and address, if there is one. */
  function SnatInner(snat: map<(bv24, bv32), bv32>, vni: bv24, a: Inner): Inner {
    if a.etherType == ETHERTYPE_IPV4 && Ipv4At(a.l3).Some? && (vni, Ipv4At(a.l3).value.srcAddr) in snat
    then Inner(a.etherType, PutSource(a.l3, snat[(vni, Ipv4At(a.l3).value.srcAddr)]))
    else a
  }

  /** The inner packet a gateway sends on, exactly: outbound after its SNAT, inbound
      as it came; raw IPv4 traffic loses its checksum as it enters the tunnel. */
  function InnerSent(g: Gateway, ch: Chances, r: Rule, vni: bv24, a: Inner): Inner {
    if DirOf(r) == Out then SnatInner(g.snat, vni, a)
    else if r.Tunnel? || a.etherType != ETHERTYPE_IPV4 then a
    else Inner(a.etherType, PutChecksum(a.l3, ch.encap.innerIpv4.hdrChecksum))
  }

  lemma PutSourceKeeps(l3: seq<byte>, x: bv32)
    ensures AgreeOutside(l3, PutSource(l3, x), 12, 16)
  {
    hide Bytes4;
  }

  lemma PutChecksumKeeps(l3: seq<byte>, x: bv16)
    ensures AgreeOutside(l3, PutChecksum(l3, x), 10, 12)
  {
    hide Bytes2;
  }

  lemma SameAgrees(l3: seq<byte>)
    ensures AgreeOutside(l3, l3, 10, 12) && AgreeOutside(l3, l3, 12, 16)
  {
  }

  /** In particular it is the packet that came but for the bytes named. */
  lemma InnerSentIsKept(g: Gateway, ch: Chances, r: Rule, vni: bv24, a: Inner)
    ensures KeptInner(DirOf(r), a, InnerSent(g, ch, r, vni, a))
  {
    hide AgreeOutside, PutSource, PutChecksum, Ipv4At, DirOf;
    SameAgrees(a.l3);
    if SnatInner(g.snat, vni, a) != a {
      PutSourceKeeps(a.l3, g.snat[(vni, Ipv4At(a.l3).value.srcAddr)]);
    }
    PutChecksumKeeps(a.l3, ch.encap.innerIpv4.hdrChecksum);
  }

  lemma SourceBytes(ip: Ipv4, src: bv32, rest: seq<byte>)
    ensures EncodeIpv4(ip.(srcAddr := src)) + rest == PutSource(EncodeIpv4(ip) + rest, src)
  {
    hide Ipv4Front, Bytes2, Bytes4;
    var front, ck, tail := EncodeIpv4Front(ip), Bytes2(ip.hdrChecksum), Bytes4(ip.dstAddr);
    var x := EncodeIpv4(ip) + rest;
    assert x == (front + ck) + (Bytes4(ip.srcAddr) + (tail + rest));
    assert x[..12] == front + ck && x[16..] == tail + rest;
    assert EncodeIpv4(ip.(srcAddr := src)) + rest == (front + ck) + (Bytes4(src) + (tail + rest));
  }

  lemma Ipv4Leads(ip: Ipv4, rest: seq<byte>)
    ensures Ipv4At(EncodeIpv4(ip) + rest) == Some(ip)
  {
    hide EncodeIpv4, DecodeIpv4;
    Ipv4RoundTrip(ip);
    assert (EncodeIpv4(ip) + rest)[..20] == EncodeIpv4(ip);
  }

  /** A new source is read back. */
  lemma SourceIsRead(l3: seq<byte>, x: bv32)
    requires Ipv4At(l3).Some?
    ensures Ipv4At(PutSource(l3, x)) == Some(Ipv4At(l3).value.(srcAddr := x))
  {
    hide EncodeIpv4, DecodeIpv4, PutSource;
    var ip, rest := DecodeIpv4(l3[..20]), l3[20..];
    Ipv4Bytes(l3[..20]);
    assert l3 == EncodeIpv4(ip) + rest;
    SourceBytes(ip, x, rest);
    Ipv4Leads(ip.(srcAddr := x), rest);
  }

  lemma CarriedAgrees(bg: Bridge, l3: seq<byte>, r: Residue)
    ensures KeptInner(In, Inner(bg.outerEthernetType, l3), Inner(bg.outerEthernetType, CarriedL3(bg, l3, r)))
  {
    hide Bytes2;
  }

  // ---------- frames seen by P02 ingress ----------

  function ShimOf(h: Headers): Option<Shim> {
    if h.fabric.Some? && h.cpu.Some? then Some(Shim(h.fabric.value, h.cpu.value)) else None
  }

  function FrameOf(h: Headers, payload: seq<byte>): Frame
    requires IsVxlan(h) && h.ethernet.Some?
  {
    Frame(h.ethernet.value, ShimOf(h), h.ipv4.value, h.udp.value, h.vxlan.value, h.innerEthernet.value,
          EmitInner(h) + payload)
  }

  /** A packet in which P02 ingress finds a VXLAN header is a frame. */
  lemma PacketIsFrame(h: Headers, t: bv2, payload: seq<byte>)
    requires Shaped(h, t) && h.vxlan.Some?
    ensures IsVxlan(h) && h.ethernet.Some?
    ensures ValidFrame(FrameOf(h, payload))
    ensures Emit(h) + payload == FrameBytes(FrameOf(h, payload))
    ensures h.fabric == (if ShimOf(h).Some? then Some(ShimOf(h).value.fabric) else None)
    ensures h.cpu == (if ShimOf(h).Some? then Some(ShimOf(h).value.cpu) else None)
  {
    hide EncodeEthernet, ShimBytes, VxlanStack, EmitInner, Emit, CarriesVxlan, InnerFits, FrameType;
    EmitFrame(h, ShimOf(h));
    Reassociate(EncodeEthernet(h.ethernet.value), ShimBytes(ShimOf(h)),
                VxlanStack(h.ipv4.value, h.udp.value, h.vxlan.value, h.innerEthernet.value, EmitInner(h)), payload);
    StackAppends(h.ipv4.value, h.udp.value, h.vxlan.value, h.innerEthernet.value, EmitInner(h), payload);
  }

  /** A frame of the JD variant that says where it goes. */
  predicate Speaks(f: Frame, dir: Direction, scope: Scope) {
    scope != Host && f.vx.flags == 0x0C && f.vx.version == 1 && f.vx.tof == TofOf(dir, scope)
  }

  predicate IsIp(etherType: bv16) {
    etherType == ETHERTYPE_IPV4 || etherType == ETHERTYPE_IPV6
  }

  function TablesOf(g: Gateway, dir: Direction): RedirectTables {
    if dir == In then g.inbound else g.outbound
  }

  /** The IP header the EtherType of an inner packet announces. */
  function InnerHeaders(a: Inner): Headers {
    NO_HEADERS.(innerIpv4 := if a.etherType == ETHERTYPE_IPV4 then Ipv4At(a.l3) else None,
                innerIpv6 := if a.etherType == ETHERTYPE_IPV6 then Ipv6At(a.l3) else None)
  }

  /** The entry of the EIP of an inner packet. */
  function EntryFor(g: Gateway, dir: Direction, a: Inner): Option<Bandwidth> {
    BandwidthOf(InnerHeaders(a), dir, TablesOf(g, dir))
  }

  /** What a gateway sends on for a packet handled by rule `r`: redirected
      traffic of the same direction and of a strictly lower rank, around exactly
      the given inner packet (outbound in the given network, inbound without a
      shim), headed for a gateway of that scope. */
  ghost predicate SentOn(g: Gateway, r: Rule, inner: Inner, vni: bv24, scope: Scope, f: Frame) {
    && ValidFrame(f) && Speaks(f, DirOf(r), scope) && RankOf(scope) < RankOfRule(r)
    && Headed(g.cfg, TablesOf(g, DirOf(r)), EntryFor(g, DirOf(r), inner), scope, f.ip)
    && f.udp.srcPort == (if scope == Az then 50 else 250)
    && IsIp(f.ie.etherType) && Inner(f.ie.etherType, f.l3) == inner
    && (if DirOf(r) == Out then f.vx.vni == vni else f.shim.None? && f.vx.vni == if scope == Az then 99 else 125)
  }

  lemma SentKeepsVxlan(c: GatewayConfig, t: RedirectTables, dir: Direction, scope: Scope, h: Headers, n: Headers)
    requires SentTo(c, t, dir, scope, h, n) && IsVxlan(h) && CarriesVxlan(h.ipv4.value, h.udp.value)
    ensures IsVxlan(n) && CarriesVxlan(n.ipv4.value, n.udp.value)
    ensures EmitInner(n) == EmitInner(h)
  {
    hide Stamped, Headed, OtherAddressKept, BandwidthOf, EmitInner;
    SameInnerBytes(h, n);
  }

  /** The last leg, from a rewritten header stack to the frame on the wire. */
  lemma SentLeaves(g: Gateway, ch: Chances, r: Rule, inner: Inner, vni: bv24, scope: Scope, h: Headers, n: Headers,
                   payload: seq<byte>, shim: Option<Shim>)
    requires SentTo(g.cfg, TablesOf(g, DirOf(r)), DirOf(r), scope, h, n)
    requires IsVxlan(h) && CarriesVxlan(h.ipv4.value, h.udp.value) && h.ethernet.None?
    requires h.fabric == (if shim.Some? then Some(shim.value.fabric) else None)
    requires h.cpu == (if shim.Some? then Some(shim.value.cpu) else None)
    requires BridgesFrame(n.bridge.value, shim)
    requires scope != Host && RankOf(scope) < RankOfRule(r) && IsIp(h.innerEthernet.value.etherType)
    requires inner == Inner(h.innerEthernet.value.etherType, EmitInner(h) + payload)
    requires if DirOf(r) == Out then h.vxlan.value.vni == vni else shim.None?
    requires BandwidthOf(h, DirOf(r), TablesOf(g, DirOf(r))) == EntryFor(g, DirOf(r), inner)
    ensures var hop := Leave(g, ch, Emit(n) + payload);
      && (hop.Sent? ==> exists f :: hop.bytes == FrameBytes(f) && SentOn(g, r, inner, vni, scope, f))
      && (LongEnough(inner.etherType, inner.l3) ==> (hop.Sent? <==> !ch.egressDrop))
  {
    hide Leave, Emit, EmitInner, EncodeBridge, ShimBytes, VxlanStack, CarriesVxlan, FrameBytes, IsIp;
    hide BandwidthOf, EntryFor, PickedDl;
    SentKeepsVxlan(g.cfg, TablesOf(g, DirOf(r)), DirOf(r), scope, h, n);
    var ip, udp, vx, ie := n.ipv4.value, n.udp.value, n.vxlan.value, n.innerEthernet.value;
    var f := Frame(Ethernet(0, 0, 0), shim, ip, udp, vx, ie, EmitInner(n) + payload);
    EmitBridgedFrame(n, shim);
    Reassociate(EncodeBridge(n.bridge.value), ShimBytes(shim), VxlanStack(ip, udp, vx, ie, EmitInner(n)), payload);
    StackAppends(ip, udp, vx, ie, EmitInner(n), payload);
    LeavesAsFrame(g, ch, n.bridge.value, f);
    SentFrameIsValid(g, ch, n.bridge.value, f);
    if Leave(g, ch, Emit(n) + payload).Sent? {
      assert SentOn(g, r, inner, vni, scope, FrameSent(g, ch, n.bridge.value, f));
    }
  }

  lemma NotSentStays(g: Gateway, ch: Chances, n: Headers, payload: seq<byte>, shim: Option<Shim>)
    requires IsVxlan(n) && CarriesVxlan(n.ipv4.value, n.udp.value) && n.ethernet.None? && n.bridge.Some?
    requires n.fabric == (if shim.Some? then Some(shim.value.fabric) else None)
    requires n.cpu == (if shim.Some? then Some(shim.value.cpu) else None)
    requires BridgesFrame(n.bridge.value, shim) && n.bridge.value.tunnelDirectSend != DL_PACKET
    ensures Leave(g, ch, Emit(n) + payload) == Kept
  {
    hide Leave, Emit, EmitInner, EncodeBridge, ShimBytes, VxlanStack, CarriesVxlan, FrameBytes;
    var ip, udp, vx, ie := n.ipv4.value, n.udp.value, n.vxlan.value, n.innerEthernet.value;
    var f := Frame(Ethernet(0, 0, 0), shim, ip, udp, vx, ie, EmitInner(n) + payload);
    EmitBridgedFrame(n, shim);
    Reassociate(EncodeBridge(n.bridge.value), ShimBytes(shim), VxlanStack(ip, udp, vx, ie, EmitInner(n)), payload);
    StackAppends(ip, udp, vx, ie, EmitInner(n), payload);
    LeavesAsFrame(g, ch, n.bridge.value, f);
  }

  // ---------- the loop over P13 ----------

  /** P13 ingress hands redirected traffic on byte for byte. */
  lemma LoopsBack(g: Gateway, ch: Chances, bytes: seq<byte>)
    ensures LoopBack(g, ch, bytes) ==
      match Parse(P13Egress, bytes)
      case Rejected => Kept
      case Accepted(h, t, payload) =>
        var n := P13EgressResult(h, t, g, ch).hdr;
        if SentDirectly(n) && Parse(P13Ingress, Emit(n) + payload).Accepted? then Leave(g, ch, Emit(n) + payload)
        else Kept
  {
    hide Parse, P13EgressResult, Emit, Leave;
    match Parse(P13Egress, bytes)
    case Rejected =>
    case Accepted(h, t, payload) =>
      var out := Emit(P13EgressResult(h, t, g, ch).hdr) + payload;
      if Parse(P13Ingress, out).Accepted? {
        ParseThenEmit(P13Ingress, out);
        assert out[0..] == out;
      }
  }
}
