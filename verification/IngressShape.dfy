/** What the P02 ingress parser leaves behind for every packet it accepts: which
    headers are valid together and what they say about each other. */
module IngressShape {
  import opened Words
  import opened Wrappers
  import opened WireFormat
  import opened HeaderStack
  import opened PacketParsers
  import opened FrameParsing

  predicate NoTunnel(h: Headers) {
    h.vxlan.None? && h.innerEthernet.None? && NoInner(h)
  }

  predicate NoL4(h: Headers) {
    h.udp.None? && h.tcp.None? && h.icmp.None? && NoTunnel(h)
  }

  predicate NoIpYet(h: Headers) {
    h.ipv4.None? && h.ipv6.None? && NoL4(h)
  }

  predicate EthTypeIs(h: Headers, t: bv16) {
    h.ethernet.Some? && h.ethernet.value.etherType == t
  }

  /** The Ethernet header is there, and behind it a fabric and a CPU header
      exactly when its type says so. */
  predicate FrontFits(h: Headers) {
    && h.bridge.None? && h.ethernet.Some?
    && (h.fabric.Some? <==> EthTypeIs(h, ETHERTYPE_BFN)) && (h.cpu.Some? <==> EthTypeIs(h, ETHERTYPE_BFN))
  }

  /** An IPv4 header is announced, directly or behind the CPU header. */
  predicate SaysIpv4(h: Headers) {
    || EthTypeIs(h, ETHERTYPE_IPV4)
    || (EthTypeIs(h, ETHERTYPE_BFN) && h.cpu.Some? && h.cpu.value.etherType == ETHERTYPE_IPV4)
  }

  /** The outer IP headers are the announced ones: never both. */
  predicate IpFits(h: Headers) {
    (h.ipv4.Some? <==> SaysIpv4(h)) && (h.ipv6.Some? <==> EthTypeIs(h, ETHERTYPE_IPV6))
  }

  predicate CarriesUdp(h: Headers) {
    h.ipv4.Some? && h.ipv4.value.ihl == 5 && h.ipv4.value.fragOffset == 0 && h.ipv4.value.protocol == IP_PROTOCOLS_UDP
  }

  /** The outer headers of a VXLAN frame. */
  predicate OuterFits(h: Headers) {
    && SaysIpv4(h) && h.ipv4.Some? && h.udp.Some? && CarriesVxlan(h.ipv4.value, h.udp.value)
    && h.ipv6.None? && h.tcp.None? && h.icmp.None?
  }

  /** A VXLAN frame up to the inner Ethernet header, with the VXLAN type the
      parser set for it. */
  predicate FrameFits(h: Headers, t: bv2) {
    OuterFits(h) && h.vxlan.Some? && h.innerEthernet.Some? && t == FrameType(P02Ingress, h.vxlan.value)
  }

  predicate InnerTypeIs(h: Headers, t: bv16) {
    h.innerEthernet.Some? && h.innerEthernet.value.etherType == t
  }

  /** The inner IP header is the announced one: never both. */
  predicate InnerFits(h: Headers) {
    (h.innerIpv4.Some? <==> InnerTypeIs(h, ETHERTYPE_IPV4)) && (h.innerIpv6.Some? <==> InnerTypeIs(h, ETHERTYPE_IPV6))
  }

  /** What every accepted packet looks like. */
  predicate Shaped(h: Headers, t: bv2) {
    && FrontFits(h) && IpFits(h)
    && (if h.vxlan.Some? then FrameFits(h, t) && InnerFits(h) else NoTunnel(h))
  }

  /** What holds in each state of the parser. */
  predicate Parsing(s: State, h: Headers, t: bv2) {
    match s
    case OuterEthernet => h == NO_HEADERS
    case FabricHeader => h.bridge.None? && EthTypeIs(h, ETHERTYPE_BFN) && h.fabric.None? && h.cpu.None? && NoIpYet(h)
    case CpuHeader => h.bridge.None? && EthTypeIs(h, ETHERTYPE_BFN) && h.fabric.Some? && h.cpu.None? && NoIpYet(h)
    case OuterIpv4 => FrontFits(h) && SaysIpv4(h) && NoIpYet(h)
    case OuterIpv6 => FrontFits(h) && EthTypeIs(h, ETHERTYPE_IPV6) && NoIpYet(h)
    case Ipv4NoOptions => FrontFits(h) && IpFits(h) && SaysIpv4(h) && NoL4(h)
    case OuterUdp => FrontFits(h) && IpFits(h) && SaysIpv4(h) && CarriesUdp(h) && NoL4(h)
    case OuterUdpV2 => FrontFits(h) && IpFits(h) && NoTunnel(h)
    case OuterTcp => FrontFits(h) && IpFits(h) && NoTunnel(h)
    case OuterIcmp => FrontFits(h) && IpFits(h) && NoTunnel(h)
    case StdVxlan => FrontFits(h) && IpFits(h) && OuterFits(h) && NoTunnel(h)
    case JdInnerEthernet => FrontFits(h) && IpFits(h) && OuterFits(h) && h.vxlan.Some? &&
      TakenAsJd(P02Ingress, h.vxlan.value) && NoInner(h)
    case InnerEthernet => FrontFits(h) && IpFits(h) && OuterFits(h) && h.vxlan.Some? &&
      !TakenAsJd(P02Ingress, h.vxlan.value) && NoInner(h)
    case InnerIpv4 => FrontFits(h) && IpFits(h) && FrameFits(h, t) && InnerTypeIs(h, ETHERTYPE_IPV4) && NoInner(h)
    case InnerIpv6 => FrontFits(h) && IpFits(h) && FrameFits(h, t) && InnerTypeIs(h, ETHERTYPE_IPV6) && NoInner(h)
    case InnerOptions(_) => h.vxlan.Some? && Shaped(h, t)
    case InnerNoOptions => h.vxlan.Some? && Shaped(h, t)
    case InnerTcp => h.vxlan.Some? && Shaped(h, t)
    case InnerUdp => h.vxlan.Some? && Shaped(h, t)
    case Accept => Shaped(h, t)
    case _ => false
  }

  predicate StepKeeps(c: Config)
    requires c.s != Accept
  {
    match Step(P02Ingress, c)
    case None => true
    case Some(d) => Parsing(d.s, d.h, d.t)
  }

  lemma EthernetStep(c: Config)
    requires c.s == OuterEthernet && Parsing(c.s, c.h, c.t)
    ensures StepKeeps(c)
  {
    hide DecodeEthernet, DecodeFabric, DecodeCpu;
  }

  lemma ShimStep(c: Config)
    requires (c.s == FabricHeader || c.s == CpuHeader) && Parsing(c.s, c.h, c.t)
    ensures StepKeeps(c)
  {
    hide DecodeEthernet, DecodeFabric, DecodeCpu;
  }

  lemma Ipv4Step(c: Config)
    requires c.s == OuterIpv4 && Parsing(c.s, c.h, c.t)
    ensures StepKeeps(c)
  {
    hide DecodeIpv4, SaysIpv4;
    if |c.b| >= 20 {
      SaysIpv4Kept(c.h, c.h.(ipv4 := Some(DecodeIpv4(c.b[..20]))));
    }
  }

  lemma SaysIpv4Kept(h: Headers, g: Headers)
    requires h.ethernet == g.ethernet && h.cpu == g.cpu
    ensures SaysIpv4(h) == SaysIpv4(g)
    ensures SaysIpv4(h) ==> !EthTypeIs(h, ETHERTYPE_IPV6)
  {
  }

  lemma Ipv6Step(c: Config)
    requires c.s == OuterIpv6 && Parsing(c.s, c.h, c.t)
    ensures StepKeeps(c)
  {
    hide DecodeIpv6;
  }

  lemma NoOptionsStep(c: Config)
    requires c.s == Ipv4NoOptions && Parsing(c.s, c.h, c.t)
    ensures StepKeeps(c)
  {
    hide SaysIpv4, FrontFits;
  }

  lemma L4Step(c: Config)
    requires c.s == OuterTcp || c.s == OuterIcmp || c.s == OuterUdpV2 || c.s == OuterUdp
    requires Parsing(c.s, c.h, c.t)
    ensures StepKeeps(c)
  {
    hide DecodeTcp, DecodeIcmp, DecodeUdp, SaysIpv4, EthTypeIs;
    if Step(P02Ingress, c).Some? {
      SaysIpv4Kept(c.h, Step(P02Ingress, c).value.h);
      EthTypeKept(c.h, Step(P02Ingress, c).value.h);
    }
  }

  lemma EthTypeKept(h: Headers, g: Headers)
    requires h.ethernet == g.ethernet
    ensures EthTypeIs(h, ETHERTYPE_IPV6) == EthTypeIs(g, ETHERTYPE_IPV6)
    ensures EthTypeIs(h, ETHERTYPE_BFN) == EthTypeIs(g, ETHERTYPE_BFN)
  {
  }

  lemma VxlanStep(c: Config)
    requires c.s == StdVxlan && Parsing(c.s, c.h, c.t)
    ensures StepKeeps(c)
  {
    hide DecodeVxlan, SaysIpv4, EthTypeIs, CarriesVxlan, JdFlag;
    if Step(P02Ingress, c).Some? {
      SaysIpv4Kept(c.h, Step(P02Ingress, c).value.h);
      EthTypeKept(c.h, Step(P02Ingress, c).value.h);
    }
  }

  lemma InnerEthernetStep(c: Config)
    requires c.s == JdInnerEthernet || c.s == InnerEthernet
    requires Parsing(c.s, c.h, c.t)
    ensures StepKeeps(c)
  {
    hide DecodeEthernet, SaysIpv4, EthTypeIs, CarriesVxlan, TakenAsJd;
    if Step(P02Ingress, c).Some? {
      SaysIpv4Kept(c.h, Step(P02Ingress, c).value.h);
      EthTypeKept(c.h, Step(P02Ingress, c).value.h);
    }
  }

  lemma InnerIpv4Step(c: Config)
    requires c.s == InnerIpv4
    requires Parsing(c.s, c.h, c.t)
    ensures StepKeeps(c)
  {
    hide DecodeIpv4, DecodeIpv6, SaysIpv4, EthTypeIs, CarriesVxlan, FrameType;
    if Step(P02Ingress, c).Some? {
      SaysIpv4Kept(c.h, Step(P02Ingress, c).value.h);
      EthTypeKept(c.h, Step(P02Ingress, c).value.h);
    }
  }

  lemma InnerIpv6Step(c: Config)
    requires c.s == InnerIpv6
    requires Parsing(c.s, c.h, c.t)
    ensures StepKeeps(c)
  {
    hide DecodeIpv4, DecodeIpv6, SaysIpv4, EthTypeIs, CarriesVxlan, FrameType;
    if Step(P02Ingress, c).Some? {
      SaysIpv4Kept(c.h, Step(P02Ingress, c).value.h);
      EthTypeKept(c.h, Step(P02Ingress, c).value.h);
    }
  }

  /** What comes behind the inner IP header is not part of the shape. */
  lemma ShapedKept(h: Headers, g: Headers, t: bv2)
    requires h.vxlan.Some? && g == h.(innerOptions := g.innerOptions, innerTcp := g.innerTcp, innerUdp := g.innerUdp)
    ensures Shaped(g, t) == Shaped(h, t)
  {
    hide SaysIpv4, EthTypeIs, CarriesVxlan, FrameType;
    SaysIpv4Kept(h, g);
    EthTypeKept(h, g);
  }

  lemma InnerOptionsStep(c: Config)
    requires c.s.InnerOptions? || c.s == InnerNoOptions
    requires Parsing(c.s, c.h, c.t)
    ensures StepKeeps(c)
  {
    hide DecodeTcp, DecodeUdp, Shaped;
    if Step(P02Ingress, c).Some? {
      ShapedKept(c.h, Step(P02Ingress, c).value.h, c.t);
    }
  }

  lemma InnerL4Step(c: Config)
    requires c.s == InnerTcp || c.s == InnerUdp
    requires Parsing(c.s, c.h, c.t)
    ensures StepKeeps(c)
  {
    hide DecodeTcp, DecodeUdp, Shaped;
    if Step(P02Ingress, c).Some? {
      ShapedKept(c.h, Step(P02Ingress, c).value.h, c.t);
    }
  }

  lemma StepKeepsShape(c: Config)
    requires c.s != Accept && Parsing(c.s, c.h, c.t)
    ensures StepKeeps(c)
  {
    hide StepKeeps;
    match c.s
    case OuterEthernet => EthernetStep(c);
    case FabricHeader => ShimStep(c);
    case CpuHeader => ShimStep(c);
    case OuterIpv4 => Ipv4Step(c);
    case OuterIpv6 => Ipv6Step(c);
    case Ipv4NoOptions => NoOptionsStep(c);
    case OuterUdp => L4Step(c);
    case OuterUdpV2 => L4Step(c);
    case OuterTcp => L4Step(c);
    case OuterIcmp => L4Step(c);
    case StdVxlan => VxlanStep(c);
    case JdInnerEthernet => InnerEthernetStep(c);
    case InnerEthernet => InnerEthernetStep(c);
    case InnerIpv4 => InnerIpv4Step(c);
    case InnerIpv6 => InnerIpv6Step(c);
    case InnerOptions(_) => InnerOptionsStep(c);
    case InnerNoOptions => InnerOptionsStep(c);
    case InnerTcp => InnerL4Step(c);
    case InnerUdp => InnerL4Step(c);
    case _ =>
  }

  lemma {:induction false} RunKeepsShape(c: Config)
    requires Parsing(c.s, c.h, c.t)
    ensures Run(P02Ingress, c).Accepted? ==> Shaped(Run(P02Ingress, c).hdr, Run(P02Ingress, c).vxlanType)
    decreases 34 - Depth(c.s)
  {
    hide Step, Depth, Shaped;
    if c.s != Accept {
      StepKeepsShape(c);
      StepGoesDeeper(P02Ingress, c);
      if Step(P02Ingress, c).Some? {
        RunKeepsShape(Step(P02Ingress, c).value);
      }
    }
  }

  /** Every packet P02 ingress accepts has the shape its own headers announce.
      In particular never both outer and never both inner IP versions are
      valid, and inner ones only inside a VXLAN frame over IPv4. */
  lemma IngressIsShaped(packet: seq<byte>)
    ensures var o := Parse(P02Ingress, packet);
      o.Accepted? ==>
        && Shaped(o.hdr, o.vxlanType)
        && Emit(o.hdr) + o.payload == packet
        && !(o.hdr.ipv4.Some? && o.hdr.ipv6.Some?)
        && !(o.hdr.innerIpv4.Some? && o.hdr.innerIpv6.Some?)
        && (o.hdr.innerIpv4.Some? || o.hdr.innerIpv6.Some? ==> o.hdr.vxlan.Some? && o.hdr.ipv4.Some?)
  {
    hide Run, Emit;
    RunKeepsShape(Config(OuterEthernet, NO_HEADERS, 0, packet));
    if Parse(P02Ingress, packet).Accepted? {
      ParseThenEmit(P02Ingress, packet);
      assert packet[0..] == packet;
      SaysIpv4Kept(Parse(P02Ingress, packet).hdr, Parse(P02Ingress, packet).hdr);
    }
  }
}
