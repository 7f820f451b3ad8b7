/** What the parsers make of bytes that a deparser wrote: each header that was
    emitted is extracted again unchanged, and everything behind the inner
    Ethernet header is kept byte for byte. */
module FrameParsing {
  import opened Words
  import opened Wrappers
  import opened WireFormat
  import opened HeaderStack
  import opened PacketParsers

  /** A state that extracts a header of known encoding moves on with it. */
  lemma RunTakes(p: Parser, c: Config, e: seq<byte>, rest: seq<byte>, k: nat)
    requires ActionOf(c.s) == Extract(k, |e|) && c.s != Accept && k < SLOTS && k != 12 && |e| == SlotWidth(k)
    requires c.b == e + rest
    ensures Run(p, c) == Run(p, Config(Next(p, c.s, Fill(c.h, k, e), 0), Fill(c.h, k, e), TypeAfter(c.s, c.t), rest))
  {
    hide Fill, Next, ActionOf, TypeAfter, SlotWidth, Depth;
    assert c.b[..|e|] == e && c.b[|e|..] == rest;
  }

  lemma RunTakesEthernet(p: Parser, h: Headers, t: bv2, x: Ethernet, rest: seq<byte>)
    ensures var g := h.(ethernet := Some(x));
      Run(p, Config(OuterEthernet, h, t, EncodeEthernet(x) + rest)) ==
        Run(p, Config(Next(p, OuterEthernet, g, 0), g, t, rest))
  {
    hide EncodeEthernet, DecodeEthernet, Run, Next;
    EthernetRoundTrip(x);
    RunTakes(p, Config(OuterEthernet, h, t, EncodeEthernet(x) + rest), EncodeEthernet(x), rest, 1);
  }

  lemma RunTakesBridge(p: Parser, h: Headers, t: bv2, x: Bridge, rest: seq<byte>)
    ensures var g := h.(bridge := Some(x));
      Run(p, Config(BridgeHeader, h, t, EncodeBridge(x) + rest)) ==
        Run(p, Config(Next(p, BridgeHeader, g, 0), g, t, rest))
  {
    hide EncodeBridge, DecodeBridge, Run, Next;
    BridgeRoundTrip(x);
    RunTakes(p, Config(BridgeHeader, h, t, EncodeBridge(x) + rest), EncodeBridge(x), rest, 0);
  }

  lemma RunTakesFabric(p: Parser, h: Headers, t: bv2, x: Fabric, rest: seq<byte>)
    ensures var g := h.(fabric := Some(x));
      Run(p, Config(FabricHeader, h, t, EncodeFabric(x) + rest)) ==
        Run(p, Config(Next(p, FabricHeader, g, 0), g, t, rest))
  {
    hide EncodeFabric, DecodeFabric, Run, Next;
    FabricRoundTrip(x);
    RunTakes(p, Config(FabricHeader, h, t, EncodeFabric(x) + rest), EncodeFabric(x), rest, 2);
  }

  lemma RunTakesCpu(p: Parser, h: Headers, t: bv2, x: Cpu, rest: seq<byte>)
    ensures var g := h.(cpu := Some(x));
      Run(p, Config(CpuHeader, h, t, EncodeCpu(x) + rest)) == Run(p, Config(Next(p, CpuHeader, g, 0), g, t, rest))
  {
    hide EncodeCpu, DecodeCpu, Run, Next;
    CpuRoundTrip(x);
    RunTakes(p, Config(CpuHeader, h, t, EncodeCpu(x) + rest), EncodeCpu(x), rest, 3);
  }

  lemma RunTakesIpv4(p: Parser, h: Headers, t: bv2, x: Ipv4, rest: seq<byte>)
    ensures var g := h.(ipv4 := Some(x));
      Run(p, Config(OuterIpv4, h, t, EncodeIpv4(x) + rest)) == Run(p, Config(Next(p, OuterIpv4, g, 0), g, t, rest))
  {
    hide EncodeIpv4, DecodeIpv4, Run, Next;
    Ipv4RoundTrip(x);
    RunTakes(p, Config(OuterIpv4, h, t, EncodeIpv4(x) + rest), EncodeIpv4(x), rest, 4);
  }

  lemma RunTakesUdp(p: Parser, h: Headers, t: bv2, x: Udp, rest: seq<byte>)
    ensures var g := h.(udp := Some(x));
      Run(p, Config(OuterUdp, h, t, EncodeUdp(x) + rest)) == Run(p, Config(Next(p, OuterUdp, g, 0), g, t, rest))
  {
    hide EncodeUdp, DecodeUdp, Run, Next;
    UdpRoundTrip(x);
    RunTakes(p, Config(OuterUdp, h, t, EncodeUdp(x) + rest), EncodeUdp(x), rest, 6);
  }

  lemma RunTakesVxlan(p: Parser, h: Headers, t: bv2, x: Vxlan, rest: seq<byte>)
    ensures var g := h.(vxlan := Some(x));
      Run(p, Config(StdVxlan, h, t, EncodeVxlan(x) + rest)) == Run(p, Config(Next(p, StdVxlan, g, 0), g, t, rest))
  {
    hide EncodeVxlan, DecodeVxlan, Run, Next;
    VxlanRoundTrip(x);
    RunTakes(p, Config(StdVxlan, h, t, EncodeVxlan(x) + rest), EncodeVxlan(x), rest, 9);
  }

  lemma RunTakesInnerEthernet(p: Parser, s: State, h: Headers, t: bv2, x: Ethernet, rest: seq<byte>)
    requires s == JdInnerEthernet || s == InnerEthernet
    ensures var g := h.(innerEthernet := Some(x));
      Run(p, Config(s, h, t, EncodeEthernet(x) + rest)) == Run(p, Config(Next(p, s, g, 0), g, TypeAfter(s, t), rest))
  {
    hide EncodeEthernet, DecodeEthernet, Run, Next;
    EthernetRoundTrip(x);
    RunTakes(p, Config(s, h, t, EncodeEthernet(x) + rest), EncodeEthernet(x), rest, 10);
  }

  // ---------- a VXLAN stack, parsed ----------

  /** Every parser looks past these outer headers for VXLAN. */
  predicate CarriesVxlan(ip: Ipv4, udp: Udp) {
    ip.ihl == 5 && ip.fragOffset == 0 && ip.protocol == IP_PROTOCOLS_UDP && udp.dstPort == UDP_PORT_VXLAN
  }

  /** Does this parser take the VXLAN header for the JD variant?  The P02
      ingress parser also asks for version 1. */
  predicate TakenAsJd(p: Parser, vx: Vxlan) {
    JdFlag(vx) && (p == P02Ingress ==> vx.version == 1)
  }

  function InnerState(p: Parser, vx: Vxlan): State {
    if TakenAsJd(p, vx) then JdInnerEthernet else InnerEthernet
  }

  function WithVxlan(h: Headers, ip: Ipv4, udp: Udp, vx: Vxlan, ie: Ethernet): Headers {
    h.(ipv4 := Some(ip), udp := Some(udp), vxlan := Some(vx), innerEthernet := Some(ie))
  }

  lemma RunTakesVxlanStack(p: Parser, h: Headers, t: bv2, ip: Ipv4, udp: Udp, vx: Vxlan, ie: Ethernet, l3: seq<byte>)
    requires CarriesVxlan(ip, udp)
    ensures var g := WithVxlan(h, ip, udp, vx, ie);
      var s := InnerState(p, vx);
      Run(p, Config(OuterIpv4, h, t, VxlanStack(ip, udp, vx, ie, l3))) ==
        Run(p, Config(Next(p, s, g, 0), g, TypeAfter(s, t), l3))
  {
    hide EncodeIpv4, EncodeUdp, EncodeVxlan, EncodeEthernet, JdFlag;
    var b3 := EncodeEthernet(ie) + l3;
    var b2 := EncodeVxlan(vx) + b3;
    var b1 := EncodeUdp(udp) + b2;
    var h1 := h.(ipv4 := Some(ip));
    var h2 := h1.(udp := Some(udp));
    var h3 := h2.(vxlan := Some(vx));
    RunTakesIpv4(p, h, t, ip, b1);
    OuterIpSelects(p, h1);
    OuterUdpSelects(p, h2);
    VxlanSelects(p, h3);
    RunSelects(p, h1, t, b1);
    RunTakesUdp(p, h1, t, udp, b2);
    RunTakesVxlan(p, h2, t, vx, b3);
    RunTakesInnerEthernet(p, InnerState(p, vx), h3, t, ie, l3);
    assert WithVxlan(h, ip, udp, vx, ie) == h3.(innerEthernet := Some(ie));
  }

  lemma OuterIpSelects(p: Parser, h: Headers)
    requires h.ipv4.Some? && h.ipv4.value.ihl == 5 && h.ipv4.value.fragOffset == 0
    requires h.ipv4.value.protocol == IP_PROTOCOLS_UDP
    ensures Next(p, OuterIpv4, h, 0) == Ipv4NoOptions
    ensures Next(p, Ipv4NoOptions, h, 0) == OuterUdp
  {
  }

  lemma OuterUdpSelects(p: Parser, h: Headers)
    requires h.udp.Some? && h.udp.value.dstPort == UDP_PORT_VXLAN
    ensures Next(p, OuterUdp, h, 0) == StdVxlan
  {
  }

  lemma VxlanSelects(p: Parser, h: Headers)
    requires h.vxlan.Some?
    ensures Next(p, StdVxlan, h, 0) == InnerState(p, h.vxlan.value)
  {
    hide JdFlag;
  }

  lemma RunSelects(p: Parser, h: Headers, t: bv2, b: seq<byte>)
    ensures Run(p, Config(Ipv4NoOptions, h, t, b)) == Run(p, Config(Next(p, Ipv4NoOptions, h, 0), h, t, b))
  {
    hide Next;
  }

  // ---------- the inner packet ----------

  /** The states behind an inner IP header. */
  predicate BehindInnerIp(s: State) {
    s == InnerNoOptions || s.InnerOptions? || s == InnerTcp || s == InnerUdp || s == Accept
  }

  /** Two stacks that differ at most behind the inner IP headers. */
  predicate SameUpToInnerIp(g: Headers, h: Headers) {
    g == h.(innerOptions := g.innerOptions, innerTcp := g.innerTcp, innerUdp := g.innerUdp)
  }

  lemma StepKeepsInnerIp(p: Parser, c: Config)
    requires BehindInnerIp(c.s) && c.s != Accept
    ensures Step(p, c).Some? ==>
      && BehindInnerIp(Step(p, c).value.s)
      && SameUpToInnerIp(Step(p, c).value.h, c.h)
      && Step(p, c).value.t == c.t
  {
    hide DecodeTcp, DecodeUdp;
    match p
    case P02Ingress =>
    case P02Egress =>
    case P13Ingress =>
    case P13Egress =>
  }

  lemma {:induction false} RunKeepsInnerIp(p: Parser, c: Config)
    requires BehindInnerIp(c.s)
    ensures Run(p, c).Accepted? ==> SameUpToInnerIp(Run(p, c).hdr, c.h) && Run(p, c).vxlanType == c.t
    decreases 34 - Depth(c.s)
  {
    hide Step, Depth;
    if c.s != Accept {
      StepKeepsInnerIp(p, c);
      StepGoesDeeper(p, c);
      if Step(p, c).Some? {
        RunKeepsInnerIp(p, Step(p, c).value);
      }
    }
  }

  /** No inner header is valid yet. */
  predicate NoInner(h: Headers) {
    h.innerIpv4.None? && h.innerOptions == [] && h.innerIpv6.None? && h.innerTcp.None? && h.innerUdp.None?
  }

  /** What a parser that stands behind the inner Ethernet header makes of the
      inner packet: the first inner IP header, decoded, and all its bytes. */
  ghost predicate InnerParsed(s: State, h: Headers, t: bv2, l3: seq<byte>, r: Outcome) {
    r.Accepted? ==>
      && r.vxlanType == t
      && SameUpToInnerIp(r.hdr, h.(innerIpv4 := r.hdr.innerIpv4, innerIpv6 := r.hdr.innerIpv6))
      && (s == InnerIpv4 ==> r.hdr.innerIpv4.Some? && r.hdr.innerIpv4 == Ipv4At(l3))
      && (s != InnerIpv4 ==> r.hdr.innerIpv4 == None)
      && (s == InnerIpv6 ==> r.hdr.innerIpv6.Some? && r.hdr.innerIpv6 == Ipv6At(l3))
      && (s != InnerIpv6 ==> r.hdr.innerIpv6 == None)
      && EmitInner(r.hdr) + r.payload == l3
  }

  lemma RunParsesInner(p: Parser, s: State, h: Headers, t: bv2, l3: seq<byte>)
    requires s == InnerIpv4 || s == InnerIpv6 || s == Accept
    requires NoInner(h)
    ensures InnerParsed(s, h, t, l3, Run(p, Config(s, h, t, l3)))
  {
    hide EmitInner, EmitRange;
    var c := Config(s, h, t, l3);
    InnerBytesKept(p, c);
    if s != Accept {
      InnerIpStep(p, c);
      if Step(p, c).Some? {
        RunKeepsInnerIp(p, Step(p, c).value);
      }
    }
  }

  lemma InnerIpStep(p: Parser, c: Config)
    requires c.s == InnerIpv4 || c.s == InnerIpv6
    ensures Step(p, c).Some? ==>
      && var d := Step(p, c).value;
      && BehindInnerIp(d.s) && d.t == c.t
      && (c.s == InnerIpv4 ==> Ipv4At(c.b).Some? && d.h == c.h.(innerIpv4 := Ipv4At(c.b)))
      && (c.s == InnerIpv6 ==> Ipv6At(c.b).Some? && d.h == c.h.(innerIpv6 := Ipv6At(c.b)))
  {
    hide DecodeIpv4, DecodeIpv6;
  }

  lemma InnerBytesKept(p: Parser, c: Config)
    requires (c.s == InnerIpv4 || c.s == InnerIpv6 || c.s == Accept) && NoInner(c.h)
    ensures var r := Run(p, c);
      r.Accepted? && SameUpToInnerIp(r.hdr, c.h.(innerIpv4 := r.hdr.innerIpv4, innerIpv6 := r.hdr.innerIpv6)) ==>
        EmitInner(r.hdr) + r.payload == c.b
  {
    hide EmitRange, ClearFrom, Run;
    var r := Run(p, c);
    if r.Accepted? && SameUpToInnerIp(r.hdr, c.h.(innerIpv4 := r.hdr.innerIpv4, innerIpv6 := r.hdr.innerIpv6)) {
      NoInnerIsClear(c.h);
      ClearFromHigher(c.h, 11, Floor(c.s));
      RunThenEmit(p, c);
      SameOuterBytes(r.hdr, c.h);
      EmitRangeSplits(r.hdr, 0, 11, SLOTS);
      EmitRangeSplits(c.h, 0, 11, SLOTS);
      EmitRangeClear(c.h, 11, SLOTS);
      DropsSamePrefix(EmitRange(c.h, 0, 11), EmitInner(r.hdr), r.payload, c.b);
    }
  }

  lemma NoInnerIsClear(h: Headers)
    requires NoInner(h)
    ensures ClearFrom(h, 11)
  {
  }

  lemma SameOuterBytes(g: Headers, h: Headers)
    requires SameUpToInnerIp(g, h.(innerIpv4 := g.innerIpv4, innerIpv6 := g.innerIpv6))
    ensures EmitRange(g, 0, 11) == EmitRange(h, 0, 11)
  {
    hide EmitRange;
    SameOuterPieces(g, h);
    EmitRangeAgrees(g, h, 0, 11);
  }

  lemma SameOuterPieces(g: Headers, h: Headers)
    requires SameUpToInnerIp(g, h.(innerIpv4 := g.innerIpv4, innerIpv6 := g.innerIpv6))
    ensures forall j :: 0 <= j < 11 ==> Piece(g, j) == Piece(h, j)
  {
    hide EncodeBridge, EncodeEthernet, EncodeFabric, EncodeCpu, EncodeIpv4, EncodeIpv6, EncodeUdp, EncodeTcp;
    hide EncodeIcmp, EncodeVxlan;
  }

  lemma DropsSamePrefix(a: seq<byte>, x: seq<byte>, y: seq<byte>, z: seq<byte>)
    requires (a + x) + y == (a + []) + z
    ensures x + y == z
  {
    assert ((a + x) + y)[|a|..] == x + y;
    assert ((a + []) + z)[|a|..] == z;
  }

  // ---------- a whole VXLAN frame, parsed ----------

  /** Which inner IP header a parser goes for. */
  function InnerIpState(p: Parser, vx: Vxlan, ie: Ethernet): State {
    if ie.etherType == ETHERTYPE_IPV4 then InnerIpv4
    else if ie.etherType == ETHERTYPE_IPV6 && (p == P13Egress ==> TakenAsJd(p, vx)) then InnerIpv6
    else Accept
  }

  function FrameType(p: Parser, vx: Vxlan): bv2 {
    if TakenAsJd(p, vx) then VXLAN_TYPE_JD else VXLAN_TYPE_STD
  }

  /** A parser takes the headers of a frame and goes on with the inner packet. */
  lemma RunReachesInner(p: Parser, h: Headers, t: bv2, ip: Ipv4, udp: Udp, vx: Vxlan, ie: Ethernet, l3: seq<byte>)
    requires CarriesVxlan(ip, udp)
    ensures Run(p, Config(OuterIpv4, h, t, VxlanStack(ip, udp, vx, ie, l3))) ==
            Run(p, Config(InnerIpState(p, vx, ie), WithVxlan(h, ip, udp, vx, ie), FrameType(p, vx), l3))
  {
    hide VxlanStack, Run, TakenAsJd;
    var g := WithVxlan(h, ip, udp, vx, ie);
    RunTakesVxlanStack(p, h, t, ip, udp, vx, ie, l3);
    InnerEtherSelects(p, vx, g);
  }

  lemma InnerEtherSelects(p: Parser, vx: Vxlan, h: Headers)
    requires h.innerEthernet.Some?
    ensures Next(p, InnerState(p, vx), h, 0) == InnerIpState(p, vx, h.innerEthernet.value)
  {
    hide TakenAsJd, SelectInnerIp;
    InnerIpSelected(h);
    InnerEtherNext(p, h);
    hide Next;
  }

  lemma InnerIpSelected(h: Headers)
    requires h.innerEthernet.Some?
    ensures var t := h.innerEthernet.value.etherType;
      SelectInnerIp(h) == if t == ETHERTYPE_IPV4 then InnerIpv4 else if t == ETHERTYPE_IPV6 then InnerIpv6 else Accept
  {
  }

  lemma InnerEtherNext(p: Parser, h: Headers)
    requires h.innerEthernet.Some?
    ensures Next(p, JdInnerEthernet, h, 0) == SelectInnerIp(h)
    ensures Next(p, InnerEthernet, h, 0) ==
      if p != P13Egress then SelectInnerIp(h)
      else if h.innerEthernet.value.etherType == ETHERTYPE_IPV4 then InnerIpv4 else Accept
  {
    hide SelectInnerIp;
  }

  /** P02 egress stops behind the inner IP header. */
  lemma EgressStops(s: State, h: Headers, t: bv2, l3: seq<byte>)
    requires s == InnerIpv4 || s == InnerIpv6 || s == Accept
    ensures Run(P02Egress, Config(s, h, t, l3)).Accepted? <==>
      (s == InnerIpv4 ==> |l3| >= 20) && (s == InnerIpv6 ==> |l3| >= 40)
  {
    hide DecodeIpv4, DecodeIpv6;
  }

  // ---------- a raw L3 packet behind a bridge header ----------

  lemma BridgeFirstByte(bg: Bridge, rest: seq<byte>)
    ensures (EncodeBridge(bg) + rest)[0] == bg.proto
  {
  }

  /** A parser that finds a bridge header extracts it and goes on behind it. */
  lemma ParsesBridge(p: Parser, bg: Bridge, rest: seq<byte>)
    requires p != P02Ingress && bg.proto == PKT_BRIDGE
    ensures var g := NO_HEADERS.(bridge := Some(bg));
      Parse(p, EncodeBridge(bg) + rest) == Run(p, Config(Next(p, BridgeHeader, g, 0), g, 0, rest))
  {
    hide EncodeBridge;
    BridgeFirstByte(bg, rest);
    var b := EncodeBridge(bg) + rest;
    assert b != [];
    HeaderCheckFindsBridge(p);
    var c := Config(HeaderCheck, NO_HEADERS, 0, b);
    assert Step(p, c) == Some(Config(BridgeHeader, NO_HEADERS, 0, b));
    assert Run(p, c) == Run(p, Config(BridgeHeader, NO_HEADERS, 0, b));
    RunTakesBridge(p, NO_HEADERS, 0, bg, rest);
  }

  lemma HeaderCheckFindsBridge(p: Parser)
    requires p != P02Ingress
    ensures Next(p, HeaderCheck, NO_HEADERS, PKT_BRIDGE) == BridgeHeader
  {
  }

  /** The P13 egress states behind a raw packet's IP header. */
  predicate RawL4State(s: State) {
    s == Ipv4NoOptionsV2 || s == OuterUdpV2 || s == OuterTcp || s == Accept
  }

  predicate RawL4(c: Config) {
    RawL4State(c.s) && (if c.s == Accept then c.h.udp.None? || c.h.tcp.None? else c.h.udp.None? && c.h.tcp.None?)
  }

  predicate SameUpToL4(g: Headers, h: Headers) {
    g == h.(udp := g.udp, tcp := g.tcp)
  }

  lemma SelectKeepsRawL4(c: Config)
    requires RawL4(c) && c.s == Ipv4NoOptionsV2
    ensures Step(P13Egress, c).Some? ==>
      RawL4(Step(P13Egress, c).value) && SameUpToL4(Step(P13Egress, c).value.h, c.h)
  {
  }

  lemma TcpKeepsRawL4(c: Config)
    requires RawL4(c) && c.s == OuterTcp
    ensures Step(P13Egress, c).Some? ==>
      RawL4(Step(P13Egress, c).value) && SameUpToL4(Step(P13Egress, c).value.h, c.h)
  {
    hide DecodeTcp, DecodeUdp;
  }

  lemma UdpKeepsRawL4(c: Config)
    requires RawL4(c) && c.s == OuterUdpV2
    ensures Step(P13Egress, c).Some? ==>
      RawL4(Step(P13Egress, c).value) && SameUpToL4(Step(P13Egress, c).value.h, c.h)
  {
    hide DecodeTcp, DecodeUdp;
  }

  lemma StepKeepsRawL4(c: Config)
    requires RawL4(c) && c.s != Accept
    ensures Step(P13Egress, c).Some? ==>
      RawL4(Step(P13Egress, c).value) && SameUpToL4(Step(P13Egress, c).value.h, c.h)
  {
    hide Step, SameUpToL4;
    match c.s
    case Ipv4NoOptionsV2 => SelectKeepsRawL4(c);
    case OuterTcp => TcpKeepsRawL4(c);
    case OuterUdpV2 => UdpKeepsRawL4(c);
    case _ =>
  }

  lemma {:induction false} RunKeepsRawL4(c: Config)
    requires RawL4(c)
    ensures var r := Run(P13Egress, c);
      r.Accepted? ==> SameUpToL4(r.hdr, c.h) && (r.hdr.udp.None? || r.hdr.tcp.None?)
    decreases 34 - Depth(c.s)
  {
    hide Step, Depth;
    if c.s != Accept {
      StepKeepsRawL4(c);
      StepGoesDeeper(P13Egress, c);
      if Step(P13Egress, c).Some? {
        RunKeepsRawL4(Step(P13Egress, c).value);
      }
    }
  }

  /** What the P13 egress parser makes of a raw L3 packet: its IP header, at
      most one L4 header, and all its bytes. */
  ghost predicate RawParsed(s: State, h: Headers, l3: seq<byte>, r: Outcome) {
    r.Accepted? ==>
      && SameUpToL4(r.hdr, h.(ipv4 := r.hdr.ipv4, ipv6 := r.hdr.ipv6))
      && (r.hdr.udp.None? || r.hdr.tcp.None?)
      && (s == OuterIpv4V2 ==> r.hdr.ipv4.Some? && r.hdr.ipv4 == Ipv4At(l3) && r.hdr.ipv6 == None)
      && (s == OuterIpv6 ==> r.hdr.ipv6.Some? && r.hdr.ipv6 == Ipv6At(l3) && r.hdr.ipv4 == None)
      && Emit(r.hdr) + r.payload == Emit(h) + l3
  }

  lemma RunParsesRaw(s: State, bg: Bridge, l3: seq<byte>)
    requires s == OuterIpv4V2 || s == OuterIpv6
    ensures var h := NO_HEADERS.(bridge := Some(bg));
      RawParsed(s, h, l3, Run(P13Egress, Config(s, h, 0, l3)))
  {
    hide Emit, ClearFrom, DecodeIpv4, DecodeIpv6;
    var h := NO_HEADERS.(bridge := Some(bg));
    var c := Config(s, h, 0, l3);
    OnlyBridgeIsClear(bg);
    ClearFromHigher(h, 1, Floor(s));
    RunThenEmit(P13Egress, c);
    RawIpStep(c);
    if Step(P13Egress, c).Some? {
      RunKeepsRawL4(Step(P13Egress, c).value);
    }
  }

  lemma OnlyBridgeIsClear(bg: Bridge)
    ensures ClearFrom(NO_HEADERS.(bridge := Some(bg)), 1)
  {
    hide EncodeBridge;
  }

  lemma RawIpStep(c: Config)
    requires c.s == OuterIpv4V2 || c.s == OuterIpv6
    requires c.h.udp.None? && c.h.tcp.None?
    ensures Step(P13Egress, c).Some? ==>
      var d := Step(P13Egress, c).value;
      && RawL4(d)
      && (c.s == OuterIpv4V2 ==> Ipv4At(c.b).Some? && d.h == c.h.(ipv4 := Ipv4At(c.b)))
      && (c.s == OuterIpv6 ==> Ipv6At(c.b).Some? && d.h == c.h.(ipv6 := Ipv6At(c.b)))
  {
    hide DecodeIpv4, DecodeIpv6;
  }

  // ---------- a VXLAN frame behind a bridge header ----------

  /** The bridge header announces an IPv4 packet with its Ethernet header off;
      P13 egress goes for VXLAN only in redirected traffic. */
  predicate AnnouncesFrame(p: Parser, bg: Bridge) {
    && bg.proto == PKT_BRIDGE && bg.outerEthernetInvalid == 1 && bg.outerEthernetType == ETHERTYPE_IPV4
    && (p == P13Egress ==> bg.dlPkt == 1)
  }

  lemma BridgedFrameReachesInner(p: Parser, bg: Bridge, ip: Ipv4, udp: Udp, vx: Vxlan, ie: Ethernet, l3: seq<byte>)
    requires p != P02Ingress && AnnouncesFrame(p, bg) && CarriesVxlan(ip, udp)
    ensures Parse(p, EncodeBridge(bg) + VxlanStack(ip, udp, vx, ie, l3)) ==
            Run(p, Config(InnerIpState(p, vx, ie), WithVxlan(NO_HEADERS.(bridge := Some(bg)), ip, udp, vx, ie),
                          FrameType(p, vx), l3))
  {
    hide VxlanStack, Run, Parse, EncodeBridge, TakenAsJd;
    ParsesBridge(p, bg, VxlanStack(ip, udp, vx, ie, l3));
    FrameSelects(p, bg);
    RunReachesInner(p, NO_HEADERS.(bridge := Some(bg)), 0, ip, udp, vx, ie, l3);
  }

  lemma ParsesBridgedFrame(p: Parser, bg: Bridge, ip: Ipv4, udp: Udp, vx: Vxlan, ie: Ethernet, l3: seq<byte>)
    requires p != P02Ingress && AnnouncesFrame(p, bg) && CarriesVxlan(ip, udp)
    ensures var g := WithVxlan(NO_HEADERS.(bridge := Some(bg)), ip, udp, vx, ie);
      InnerParsed(InnerIpState(p, vx, ie), g, FrameType(p, vx), l3,
                  Parse(p, EncodeBridge(bg) + VxlanStack(ip, udp, vx, ie, l3)))
  {
    hide VxlanStack, InnerParsed, Run, Parse, EncodeBridge, TakenAsJd;
    BridgedFrameReachesInner(p, bg, ip, udp, vx, ie, l3);
    RunParsesInner(p, InnerIpState(p, vx, ie), WithVxlan(NO_HEADERS.(bridge := Some(bg)), ip, udp, vx, ie),
                   FrameType(p, vx), l3);
  }

  lemma FrameSelects(p: Parser, bg: Bridge)
    requires p != P02Ingress && AnnouncesFrame(p, bg)
    ensures Next(p, BridgeHeader, NO_HEADERS.(bridge := Some(bg)), 0) == OuterIpv4
  {
  }
}
