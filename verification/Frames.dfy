/** VXLAN frames as they travel between gateways, and what a gateway's parsers
    and its last stage make of them. */
module Frames {
  import opened Words
  import opened Wrappers
  import opened WireFormat
  import opened HeaderStack
  import opened PacketParsers
  import opened FrameParsing
  import opened Classification
  import opened Tunnel
  import opened Gateway

  /** The fabric and CPU headers that may stand behind the Ethernet header. */
  datatype Shim = Shim(fabric: Fabric, cpu: Cpu)

  datatype Frame = Frame(eth: Ethernet, shim: Option<Shim>, ip: Ipv4, udp: Udp, vx: Vxlan, ie: Ethernet, l3: seq<byte>)

  function ShimBytes(shim: Option<Shim>): seq<byte> {
    match shim
    case None => []
    case Some(s) => EncodeFabric(s.fabric) + EncodeCpu(s.cpu)
  }

  function FrameBytes(f: Frame): seq<byte> {
    EncodeEthernet(f.eth) + (ShimBytes(f.shim) + VxlanStack(f.ip, f.udp, f.vx, f.ie, f.l3))
  }

  /** The type field announces the shim, and the shim an IPv4 packet. */
  predicate Announces(etherType: bv16, shim: Option<Shim>) {
    match shim
    case None => etherType == ETHERTYPE_IPV4
    case Some(s) => etherType == ETHERTYPE_BFN && s.cpu.etherType == ETHERTYPE_IPV4
  }

  predicate ValidFrame(f: Frame) {
    Announces(f.eth.etherType, f.shim) && CarriesVxlan(f.ip, f.udp)
  }

  function WithShim(h: Headers, shim: Option<Shim>): Headers {
    match shim
    case None => h
    case Some(s) => h.(fabric := Some(s.fabric), cpu := Some(s.cpu))
  }

  /** The headers of a frame up to the inner Ethernet header. */
  function FrameHeaders(h: Headers, f: Frame): Headers {
    WithVxlan(WithShim(h, f.shim), f.ip, f.udp, f.vx, f.ie)
  }

  // ---------- parsing a frame ----------

  /** From the fabric header on, when there is a shim. */
  lemma RunTakesShim(p: Parser, h: Headers, s: Shim, rest: seq<byte>)
    requires p == P02Ingress || p == P02Egress
    requires s.cpu.etherType == ETHERTYPE_IPV4
    ensures Run(p, Config(FabricHeader, h, 0, ShimBytes(Some(s)) + rest)) ==
      Run(p, Config(OuterIpv4, WithShim(h, Some(s)), 0, rest))
  {
    hide Run, EncodeFabric, EncodeCpu;
    var h1 := h.(fabric := Some(s.fabric));
    ShimSelects(p, h1, WithShim(h, Some(s)));
    assert ShimBytes(Some(s)) + rest == EncodeFabric(s.fabric) + (EncodeCpu(s.cpu) + rest);
    RunTakesFabric(p, h, 0, s.fabric, EncodeCpu(s.cpu) + rest);
    RunTakesCpu(p, h1, 0, s.cpu, rest);
    assert h1.(cpu := Some(s.cpu)) == WithShim(h, Some(s));
  }

  lemma ShimSelects(p: Parser, h1: Headers, h2: Headers)
    requires p == P02Ingress || p == P02Egress
    requires h2.cpu.Some? && h2.cpu.value.etherType == ETHERTYPE_IPV4
    ensures Next(p, FabricHeader, h1, 0) == CpuHeader
    ensures Next(p, CpuHeader, h2, 0) == OuterIpv4
  {
  }

  /** From the point where the type field selects, shim or not, to the inner
      packet. */
  lemma RunTakesFrame(p: Parser, s: PacketParsers.State, h: Headers, f: Frame)
    requires p == P02Ingress || p == P02Egress
    requires CarriesVxlan(f.ip, f.udp)
    requires s == if f.shim.None? then OuterIpv4 else FabricHeader
    requires f.shim.Some? ==> f.shim.value.cpu.etherType == ETHERTYPE_IPV4
    ensures Run(p, Config(s, h, 0, ShimBytes(f.shim) + VxlanStack(f.ip, f.udp, f.vx, f.ie, f.l3))) ==
            Run(p, Config(InnerIpState(p, f.vx, f.ie), FrameHeaders(h, f), FrameType(p, f.vx), f.l3))
  {
    hide Run, VxlanStack, EncodeFabric, EncodeCpu, CarriesVxlan, FrameType;
    var stack := VxlanStack(f.ip, f.udp, f.vx, f.ie, f.l3);
    RunReachesInner(p, WithShim(h, f.shim), 0, f.ip, f.udp, f.vx, f.ie, f.l3);
    match f.shim
    case None =>
      assert ShimBytes(f.shim) + stack == stack;
    case Some(shim) =>
      RunTakesShim(p, h, shim, stack);
  }

  function EthernetOnly(e: Ethernet): Headers {
    NO_HEADERS.(ethernet := Some(e))
  }

  lemma IngressReachesInner(f: Frame)
    requires ValidFrame(f)
    ensures Parse(P02Ingress, FrameBytes(f)) ==
      Run(P02Ingress, Config(InnerIpState(P02Ingress, f.vx, f.ie), FrameHeaders(EthernetOnly(f.eth), f),
                             FrameType(P02Ingress, f.vx), f.l3))
  {
    hide Run, VxlanStack, EncodeEthernet, ShimBytes, CarriesVxlan, FrameType;
    RunTakesEthernet(P02Ingress, NO_HEADERS, 0, f.eth, ShimBytes(f.shim) + VxlanStack(f.ip, f.udp, f.vx, f.ie, f.l3));
    EthernetSelects(f);
    RunTakesFrame(P02Ingress, if f.shim.None? then OuterIpv4 else FabricHeader, EthernetOnly(f.eth), f);
  }

  /** P02 ingress takes a frame apart into exactly its headers; the inner IP
      header, if it finds one, is the one the inner packet starts with. */
  lemma IngressParsesFrame(f: Frame)
    requires ValidFrame(f)
    ensures InnerParsed(InnerIpState(P02Ingress, f.vx, f.ie), FrameHeaders(EthernetOnly(f.eth), f),
                        FrameType(P02Ingress, f.vx), f.l3,
                        Parse(P02Ingress, FrameBytes(f)))
  {
    hide Run, Parse, InnerParsed, FrameBytes, ValidFrame, FrameType;
    IngressReachesInner(f);
    RunParsesInner(P02Ingress, InnerIpState(P02Ingress, f.vx, f.ie), FrameHeaders(EthernetOnly(f.eth), f),
                   FrameType(P02Ingress, f.vx), f.l3);
  }

  lemma EthernetSelects(f: Frame)
    requires Announces(f.eth.etherType, f.shim)
    ensures Next(P02Ingress, OuterEthernet, EthernetOnly(f.eth), 0) == if f.shim.None? then OuterIpv4 else FabricHeader
  {
  }

  // ---------- leaving a gateway ----------

  function BridgeOnly(bg: Bridge): Headers {
    NO_HEADERS.(bridge := Some(bg))
  }

  /** A bridge header that announces a frame, as P02 ingress writes it. */
  predicate BridgesFrame(bg: Bridge, shim: Option<Shim>) {
    bg.proto == PKT_BRIDGE && bg.outerEthernetInvalid == 1 && Announces(bg.outerEthernetType, shim)
  }

  lemma EgressParsesFrame(bg: Bridge, f: Frame)
    requires BridgesFrame(bg, f.shim) && CarriesVxlan(f.ip, f.udp)
    ensures InnerParsed(InnerIpState(P02Egress, f.vx, f.ie), FrameHeaders(BridgeOnly(bg), f),
                        FrameType(P02Egress, f.vx), f.l3,
      Parse(P02Egress, EncodeBridge(bg) + (ShimBytes(f.shim) + VxlanStack(f.ip, f.udp, f.vx, f.ie, f.l3))))
  {
    hide Run, Parse, InnerParsed, VxlanStack, EncodeBridge, ShimBytes, CarriesVxlan, FrameType;
    ParsesBridge(P02Egress, bg, ShimBytes(f.shim) + VxlanStack(f.ip, f.udp, f.vx, f.ie, f.l3));
    BridgeSelects(bg, f.shim);
    RunTakesFrame(P02Egress, if f.shim.None? then OuterIpv4 else FabricHeader, BridgeOnly(bg), f);
    RunParsesInner(P02Egress, InnerIpState(P02Egress, f.vx, f.ie), FrameHeaders(BridgeOnly(bg), f),
                   FrameType(P02Egress, f.vx), f.l3);
  }

  /** Is there room for the inner IP header the EtherType announces? */
  predicate LongEnough(etherType: bv16, l3: seq<byte>) {
    (etherType == ETHERTYPE_IPV4 ==> |l3| >= 20) && (etherType == ETHERTYPE_IPV6 ==> |l3| >= 40)
  }

  /** P02 egress stops behind the inner IP header. */
  lemma EgressAcceptsFrame(bg: Bridge, f: Frame)
    requires BridgesFrame(bg, f.shim) && CarriesVxlan(f.ip, f.udp)
    ensures Parse(P02Egress, EncodeBridge(bg) +
                  (ShimBytes(f.shim) + VxlanStack(f.ip, f.udp, f.vx, f.ie, f.l3))).Accepted? <==>
      LongEnough(f.ie.etherType, f.l3)
  {
    hide Run, Parse, VxlanStack, EncodeBridge, ShimBytes, CarriesVxlan, FrameType;
    ParsesBridge(P02Egress, bg, ShimBytes(f.shim) + VxlanStack(f.ip, f.udp, f.vx, f.ie, f.l3));
    BridgeSelects(bg, f.shim);
    RunTakesFrame(P02Egress, if f.shim.None? then OuterIpv4 else FabricHeader, BridgeOnly(bg), f);
    EgressStops(InnerIpState(P02Egress, f.vx, f.ie), FrameHeaders(BridgeOnly(bg), f), FrameType(P02Egress, f.vx), f.l3);
  }

  lemma BridgeSelects(bg: Bridge, shim: Option<Shim>)
    requires BridgesFrame(bg, shim)
    ensures Next(P02Egress, BridgeHeader, BridgeOnly(bg), 0) == if shim.None? then OuterIpv4 else FabricHeader
  {
  }

  /** A stack of Ethernet header, shim and VXLAN headers emits a frame. */
  lemma EmitFrame(h: Headers, shim: Option<Shim>)
    requires IsVxlan(h) && h.bridge.None? && h.ethernet.Some?
    requires h.fabric == (if shim.Some? then Some(shim.value.fabric) else None)
    requires h.cpu == (if shim.Some? then Some(shim.value.cpu) else None)
    ensures Emit(h) == EncodeEthernet(h.ethernet.value) + (ShimBytes(shim) +
      VxlanStack(h.ipv4.value, h.udp.value, h.vxlan.value, h.innerEthernet.value, EmitInner(h)))
  {
    hide EncodeEthernet, EncodeFabric, EncodeCpu, VxlanStack, EmitInner;
    EmitVxlan(h);
    EmitShim(h, shim);
    assert EmitRange(h, 1, SLOTS) == EncodeEthernet(h.ethernet.value) + EmitRange(h, 2, SLOTS);
    hide EmitRange;
  }

  /** The same stack behind a bridge header. */
  lemma EmitBridgedFrame(h: Headers, shim: Option<Shim>)
    requires IsVxlan(h) && h.bridge.Some? && h.ethernet.None?
    requires h.fabric == (if shim.Some? then Some(shim.value.fabric) else None)
    requires h.cpu == (if shim.Some? then Some(shim.value.cpu) else None)
    ensures Emit(h) == EncodeBridge(h.bridge.value) + (ShimBytes(shim) +
      VxlanStack(h.ipv4.value, h.udp.value, h.vxlan.value, h.innerEthernet.value, EmitInner(h)))
  {
    hide EncodeBridge, EncodeFabric, EncodeCpu, VxlanStack, EmitInner;
    EmitVxlan(h);
    EmitShim(h, shim);
    assert EmitRange(h, 1, SLOTS) == EmitRange(h, 2, SLOTS);
    hide EmitRange;
  }

  lemma EmitShim(h: Headers, shim: Option<Shim>)
    requires h.fabric == (if shim.Some? then Some(shim.value.fabric) else None)
    requires h.cpu == (if shim.Some? then Some(shim.value.cpu) else None)
    ensures EmitRange(h, 2, SLOTS) == ShimBytes(shim) + EmitRange(h, 4, SLOTS)
  {
    hide EncodeFabric, EncodeCpu;
    assert Piece(h, 2) == (if shim.Some? then EncodeFabric(shim.value.fabric) else []);
    assert Piece(h, 3) == (if shim.Some? then EncodeCpu(shim.value.cpu) else []);
    assert EmitRange(h, 2, SLOTS) == Piece(h, 2) + EmitRange(h, 3, SLOTS);
    assert EmitRange(h, 3, SLOTS) == Piece(h, 3) + EmitRange(h, 4, SLOTS);
    hide EmitRange, Piece;
  }

  lemma Reassociate(a: seq<byte>, b: seq<byte>, c: seq<byte>, d: seq<byte>)
    ensures (a + (b + c)) + d == a + (b + (c + d))
  {
  }

  /** The frame a redirected packet leaves a gateway as. */
  function FrameSent(g: Gateway, ch: Chances, bg: Bridge, f: Frame): Frame {
    f.(eth := Ethernet(ch.dstMac, ch.srcMac, bg.outerEthernetType), ip := Checksummed(f.ip, g.checksum))
  }

  /** What P02 egress emits of a parsed frame. */
  lemma ReframedBytes(g: Gateway, ch: Chances, bg: Bridge, f: Frame, o: Outcome)
    requires BridgesFrame(bg, f.shim) && o.Accepted?
    requires InnerParsed(InnerIpState(P02Egress, f.vx, f.ie), FrameHeaders(BridgeOnly(bg), f),
                         FrameType(P02Egress, f.vx), f.l3, o)
    ensures o.hdr.bridge == Some(bg)
    ensures Emit(WithChecksums(Reframed(o.hdr, ch), false, g.checksum)) + o.payload ==
      FrameBytes(FrameSent(g, ch, bg, f))
  {
    hide VxlanStack, ShimBytes, EncodeEthernet, Emit, EmitInner, Checksummed, TakenAsJd;
    var h := WithChecksums(Reframed(o.hdr, ch), false, g.checksum);
    EmitFrame(h, f.shim);
    SameInnerBytes(o.hdr, h);
    var e := Ethernet(ch.dstMac, ch.srcMac, bg.outerEthernetType);
    var ip := Checksummed(f.ip, g.checksum);
    Reassociate(EncodeEthernet(e), ShimBytes(f.shim), VxlanStack(ip, f.udp, f.vx, f.ie, EmitInner(h)), o.payload);
    StackAppends(ip, f.udp, f.vx, f.ie, EmitInner(h), o.payload);
  }

  /** Redirected traffic leaves P02 egress as a frame with the headers and the
      inner packet it entered it with, behind fresh MAC addresses and with a
      fresh outer checksum. */
  lemma LeavesAsFrame(g: Gateway, ch: Chances, bg: Bridge, f: Frame)
    requires BridgesFrame(bg, f.shim) && CarriesVxlan(f.ip, f.udp)
    ensures var hop := Leave(g, ch, EncodeBridge(bg) + (ShimBytes(f.shim) + VxlanStack(f.ip, f.udp, f.vx, f.ie, f.l3)));
      && (hop.Sent? ==> hop.bytes == FrameBytes(FrameSent(g, ch, bg, f)))
      && (hop.Sent? <==> LongEnough(f.ie.etherType, f.l3) && bg.tunnelDirectSend == DL_PACKET && !ch.egressDrop)
  {
    hide Parse, EncodeBridge, VxlanStack, CarriesVxlan, ShimBytes, Emit, InnerParsed, FrameBytes, FrameSent;
    hide FrameHeaders, WithChecksums, Reframed, InnerIpState, FrameType, LongEnough, BridgesFrame;
    EgressParsesFrame(bg, f);
    EgressAcceptsFrame(bg, f);
    var bytes := EncodeBridge(bg) + (ShimBytes(f.shim) + VxlanStack(f.ip, f.udp, f.vx, f.ie, f.l3));
    if Parse(P02Egress, bytes).Accepted? {
      ReframedBytes(g, ch, bg, f, Parse(P02Egress, bytes));
    }
  }

  lemma SentFrameIsValid(g: Gateway, ch: Chances, bg: Bridge, f: Frame)
    requires BridgesFrame(bg, f.shim) && CarriesVxlan(f.ip, f.udp)
    ensures ValidFrame(FrameSent(g, ch, bg, f))
  {
  }
}
