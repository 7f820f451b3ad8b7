/** The four P4 parsers as one state machine over the packet's bytes: a state
    extracts at most one header and selects the next state from what it has
    extracted so far. */
module PacketParsers {
  import opened Words
  import opened Wrappers
  import opened WireFormat
  import opened HeaderStack

  const ETHERTYPE_IPV4: bv16 := 0x0800
  const ETHERTYPE_IPV6: bv16 := 0x86DD
  const ETHERTYPE_BFN: bv16 := 0x9000
  const IP_PROTOCOLS_ICMP: byte := 1
  const IP_PROTOCOLS_TCP: byte := 6
  const IP_PROTOCOLS_UDP: byte := 17
  const UDP_PORT_VXLAN: bv16 := 4789
  const PKT_BRIDGE: byte := 2
  const PKT_MIRR_MD_IG: byte := 3
  const PKT_MIRR_MD_EG: byte := 4
  const VXLAN_TYPE_STD: bv2 := 1
  const VXLAN_TYPE_JD: bv2 := 2

  /** Which of the four parsers is running. */
  datatype Parser = P02Ingress | P02Egress | P13Ingress | P13Egress

  /** The parser states. `parse_cpu` extracts two headers and is two states
      here; the ten `inner_options_n` states are one state with a count. */
  datatype State =
    | Accept
    | HeaderCheck | MirrorMetadata | BridgeHeader | OuterEthernet | FabricHeader | CpuHeader
    | OuterIpv4 | OuterIpv4V2 | Ipv4NoOptions | Ipv4NoOptionsV2 | OuterIpv6
    | OuterUdp | OuterUdpV2 | OuterTcp | OuterIcmp
    | StdVxlan | JdInnerEthernet | InnerEthernet
    | InnerIpv4 | InnerOptions(words: bv4) | InnerNoOptions | InnerIpv6 | InnerTcp | InnerUdp

  /** What a state does before it selects: nothing, look at the next byte, or
      extract `width` bytes into the slot at position `slot` (mirror metadata
      goes to no slot). */
  datatype Action = Select | Lookahead | Skip(width: nat) | Extract(slot: nat, width: nat)

  function ActionOf(s: State): Action {
    match s
    case Accept => Select
    case HeaderCheck => Lookahead
    case MirrorMetadata => Skip(11)
    case BridgeHeader => Extract(0, 29)
    case OuterEthernet => Extract(1, 14)
    case FabricHeader => Extract(2, 5)
    case CpuHeader => Extract(3, 11)
    case OuterIpv4 => Extract(4, 20)
    case OuterIpv4V2 => Extract(4, 20)
    case Ipv4NoOptions => Select
    case Ipv4NoOptionsV2 => Select
    case OuterIpv6 => Extract(5, 40)
    case OuterUdp => Extract(6, 8)
    case OuterUdpV2 => Extract(6, 8)
    case OuterTcp => Extract(7, 20)
    case OuterIcmp => Extract(8, 4)
    case StdVxlan => Extract(9, 8)
    case JdInnerEthernet => Extract(10, 14)
    case InnerEthernet => Extract(10, 14)
    case InnerIpv4 => Extract(11, 20)
    case InnerOptions(words) => Extract(12, 4 * (words as nat))
    case InnerNoOptions => Select
    case InnerIpv6 => Extract(13, 40)
    case InnerTcp => Extract(14, 20)
    case InnerUdp => Extract(15, 8)
  }

  /** `pkt.extract` into the slot at position `k`. */
  function Fill(h: Headers, k: nat, b: seq<byte>): Headers
    requires k < SLOTS
    requires k != 12 ==> |b| == SlotWidth(k)
  {
    match k
    case 0 => h.(bridge := Some(DecodeBridge(b)))
    case 1 => h.(ethernet := Some(DecodeEthernet(b)))
    case 2 => h.(fabric := Some(DecodeFabric(b)))
    case 3 => h.(cpu := Some(DecodeCpu(b)))
    case 4 => h.(ipv4 := Some(DecodeIpv4(b)))
    case 5 => h.(ipv6 := Some(DecodeIpv6(b)))
    case 6 => h.(udp := Some(DecodeUdp(b)))
    case 7 => h.(tcp := Some(DecodeTcp(b)))
    case 8 => h.(icmp := Some(DecodeIcmp(b)))
    case 9 => h.(vxlan := Some(DecodeVxlan(b)))
    case 10 => h.(innerEthernet := Some(DecodeEthernet(b)))
    case 11 => h.(innerIpv4 := Some(DecodeIpv4(b)))
    case 12 => h.(innerOptions := b)
    case 13 => h.(innerIpv6 := Some(DecodeIpv6(b)))
    case 14 => h.(innerTcp := Some(DecodeTcp(b)))
    case _ => h.(innerUdp := Some(DecodeUdp(b)))
  }

  function SlotWidth(k: nat): nat {
    match k
    case 0 => 29
    case 1 => 14
    case 2 => 5
    case 3 => 11
    case 4 => 20
    case 5 => 40
    case 6 => 8
    case 7 => 20
    case 8 => 4
    case 9 => 8
    case 10 => 14
    case 11 => 20
    case 12 => 0
    case 13 => 40
    case 14 => 20
    case _ => 8
  }

  // ---------- selects ----------

  function SelectEther(h: Headers): bv16 {
    if h.ethernet.Some? then h.ethernet.value.etherType else 0
  }

  function SelectInnerEther(h: Headers): bv16 {
    if h.innerEthernet.Some? then h.innerEthernet.value.etherType else 0
  }

  function SelectL4(h: Headers, tcp: State, udp: State, icmp: State): State {
    match h.ipv4
    case None => Accept
    case Some(ip) =>
      if ip.ihl != 5 || ip.fragOffset != 0 then Accept
      else if ip.protocol == IP_PROTOCOLS_ICMP then icmp
      else if ip.protocol == IP_PROTOCOLS_TCP then tcp
      else if ip.protocol == IP_PROTOCOLS_UDP then udp
      else Accept
  }

  function SelectIhl(h: Headers, plain: State): State {
    if h.ipv4.Some? && h.ipv4.value.ihl == 5 then plain else Accept
  }

  function SelectNextHdr(h: Headers, udp: State): State {
    match h.ipv6
    case None => Accept
    case Some(ip) =>
      if ip.nextHdr == IP_PROTOCOLS_TCP then OuterTcp
      else if ip.nextHdr == IP_PROTOCOLS_UDP then udp
      else Accept
  }

  function SelectUdpPort(h: Headers): State {
    if h.udp.Some? && h.udp.value.dstPort == UDP_PORT_VXLAN then StdVxlan else Accept
  }

  function SelectInnerIp(h: Headers): State {
    if SelectInnerEther(h) == ETHERTYPE_IPV4 then InnerIpv4
    else if SelectInnerEther(h) == ETHERTYPE_IPV6 then InnerIpv6
    else Accept
  }

  /** Bit 2 of the VXLAN flags marks the JD variant. */
  predicate JdFlag(v: Vxlan) {
    v.flags & 4 == 4
  }

  function SelectVxlanFlag(h: Headers): State {
    if h.vxlan.Some? && JdFlag(h.vxlan.value) then JdInnerEthernet else InnerEthernet
  }

  function OptionWords(ihl: bv4): bv4 {
    ihl - 5
  }

  function SelectInnerIhl(h: Headers): State {
    match h.innerIpv4
    case None => Accept
    case Some(ip) =>
      if ip.ihl == 5 then InnerNoOptions
      else if ip.ihl > 5 then InnerOptions(OptionWords(ip.ihl))
      else Accept
  }

  function SelectInnerProtocol(h: Headers): State {
    match h.innerIpv4
    case None => Accept
    case Some(ip) =>
      if ip.fragOffset != 0 then Accept
      else if ip.protocol == IP_PROTOCOLS_TCP then InnerTcp
      else if ip.protocol == IP_PROTOCOLS_UDP then InnerUdp
      else Accept
  }

  function SelectInnerNextHdr(h: Headers): State {
    match h.innerIpv6
    case None => Accept
    case Some(ip) =>
      if ip.nextHdr == IP_PROTOCOLS_TCP then InnerTcp
      else if ip.nextHdr == IP_PROTOCOLS_UDP then InnerUdp
      else Accept
  }

  // ---------- transitions, one function per parser file ----------

  function NextP02Ingress(s: State, h: Headers): State {
    match s
    case OuterEthernet =>
      if SelectEther(h) == ETHERTYPE_IPV4 then OuterIpv4
      else if SelectEther(h) == ETHERTYPE_IPV6 then OuterIpv6
      else if SelectEther(h) == ETHERTYPE_BFN then FabricHeader
      else Accept
    case FabricHeader => CpuHeader
    case CpuHeader => if h.cpu.Some? && h.cpu.value.etherType == ETHERTYPE_IPV4 then OuterIpv4 else Accept
    case OuterIpv4 => SelectIhl(h, Ipv4NoOptions)
    case Ipv4NoOptions => SelectL4(h, OuterTcp, OuterUdp, OuterIcmp)
    case OuterIpv6 => SelectNextHdr(h, OuterUdpV2)
    case OuterUdp => SelectUdpPort(h)
    case StdVxlan =>
      if h.vxlan.Some? && JdFlag(h.vxlan.value) && h.vxlan.value.version == 1 then JdInnerEthernet else InnerEthernet
    case JdInnerEthernet => SelectInnerIp(h)
    case InnerEthernet => SelectInnerIp(h)
    case InnerIpv4 => SelectInnerIhl(h)
    case InnerOptions(_) => InnerNoOptions
    case InnerNoOptions => SelectInnerProtocol(h)
    case InnerIpv6 => SelectInnerNextHdr(h)
    case _ => Accept
  }

  function NextP02Egress(s: State, h: Headers, next: byte): State {
    match s
    case HeaderCheck => SelectHeaderCheck(next)
    case MirrorMetadata => OuterEthernet
    case BridgeHeader =>
      (match h.bridge
       case None => Accept
       case Some(bg) =>
         if bg.outerEthernetInvalid == 0 then OuterEthernet
         else if bg.outerEthernetType == ETHERTYPE_IPV4 then OuterIpv4
         else if bg.outerEthernetType == ETHERTYPE_BFN then FabricHeader
         else Accept)
    case OuterEthernet =>
      if SelectEther(h) == ETHERTYPE_IPV4 then OuterIpv4
      else if SelectEther(h) == ETHERTYPE_BFN then FabricHeader
      else Accept
    case FabricHeader => CpuHeader
    case CpuHeader => if h.cpu.Some? && h.cpu.value.etherType == ETHERTYPE_IPV4 then OuterIpv4 else Accept
    case OuterIpv4 => SelectIhl(h, Ipv4NoOptions)
    case Ipv4NoOptions => SelectL4(h, OuterTcp, OuterUdp, Accept)
    case OuterUdp => SelectUdpPort(h)
    case StdVxlan => SelectVxlanFlag(h)
    case JdInnerEthernet => SelectInnerIp(h)
    case InnerEthernet => SelectInnerIp(h)
    case _ => Accept
  }

  function NextP13Ingress(s: State, h: Headers, next: byte): State {
    match s
    case HeaderCheck => if next == PKT_BRIDGE then BridgeHeader else Accept
    case BridgeHeader =>
      (match h.bridge
       case None => Accept
       case Some(bg) =>
         if bg.outerEthernetInvalid == 0 then OuterEthernet
         else if bg.outerEthernetType == ETHERTYPE_IPV4 then OuterIpv4
         else Accept)
    case OuterEthernet => if SelectEther(h) == ETHERTYPE_IPV4 then OuterIpv4 else Accept
    case OuterIpv4 => SelectIhl(h, Ipv4NoOptions)
    case Ipv4NoOptions => SelectL4(h, OuterTcp, OuterUdp, OuterIcmp)
    case OuterUdp => SelectUdpPort(h)
    case StdVxlan => SelectVxlanFlag(h)
    case JdInnerEthernet => SelectInnerIp(h)
    case InnerEthernet => SelectInnerIp(h)
    case InnerIpv4 => SelectInnerIhl(h)
    case InnerOptions(_) => InnerNoOptions
    case InnerNoOptions => SelectInnerProtocol(h)
    case InnerIpv6 => SelectInnerNextHdr(h)
    case _ => Accept
  }

  function NextP13Egress(s: State, h: Headers, next: byte): State {
    match s
    case HeaderCheck => SelectHeaderCheck(next)
    case MirrorMetadata => OuterEthernet
    case BridgeHeader =>
      (match h.bridge
       case None => Accept
       case Some(bg) =>
         if bg.outerEthernetInvalid == 0 then OuterEthernet
         else if bg.outerEthernetType == ETHERTYPE_IPV4 then (if bg.dlPkt == 1 then OuterIpv4 else OuterIpv4V2)
         else if bg.outerEthernetType == ETHERTYPE_IPV6 && bg.dlPkt == 0 then OuterIpv6
         else Accept)
    case OuterEthernet => if SelectEther(h) == ETHERTYPE_IPV4 then OuterIpv4 else Accept
    case OuterIpv4 => SelectIhl(h, Ipv4NoOptions)
    case OuterIpv4V2 => SelectIhl(h, Ipv4NoOptionsV2)
    case Ipv4NoOptions => SelectL4(h, OuterTcp, OuterUdp, Accept)
    case Ipv4NoOptionsV2 => SelectL4(h, OuterTcp, OuterUdpV2, Accept)
    case OuterIpv6 => SelectNextHdr(h, OuterUdpV2)
    case OuterUdp => SelectUdpPort(h)
    case StdVxlan => SelectVxlanFlag(h)
    case JdInnerEthernet => SelectInnerIp(h)
    case InnerEthernet => if SelectInnerEther(h) == ETHERTYPE_IPV4 then InnerIpv4 else Accept
    case _ => Accept
  }

  function SelectHeaderCheck(next: byte): State {
    if next == PKT_MIRR_MD_IG || next == PKT_MIRR_MD_EG then MirrorMetadata
    else if next == PKT_BRIDGE then BridgeHeader
    else Accept
  }

  function Next(p: Parser, s: State, h: Headers, next: byte): State {
    match p
    case P02Ingress => NextP02Ingress(s, h)
    case P02Egress => NextP02Egress(s, h, next)
    case P13Ingress => NextP13Ingress(s, h, next)
    case P13Egress => NextP13Egress(s, h, next)
  }

  function StartState(p: Parser): State {
    if p == P02Ingress then OuterEthernet else HeaderCheck
  }

  /** How deep in the packet a state works; every transition goes deeper. A
      state that fills slot k has depth 2k + 3. */
  function Depth(s: State): nat {
    match s
    case HeaderCheck => 0
    case MirrorMetadata => 1
    case BridgeHeader => 3
    case OuterEthernet => 5
    case FabricHeader => 7
    case CpuHeader => 9
    case OuterIpv4 => 11
    case OuterIpv4V2 => 11
    case Ipv4NoOptions => 12
    case Ipv4NoOptionsV2 => 12
    case OuterIpv6 => 13
    case OuterUdp => 15
    case OuterUdpV2 => 15
    case OuterTcp => 17
    case OuterIcmp => 19
    case StdVxlan => 21
    case JdInnerEthernet => 23
    case InnerEthernet => 23
    case InnerIpv4 => 25
    case InnerOptions(_) => 27
    case InnerNoOptions => 28
    case InnerIpv6 => 29
    case InnerTcp => 31
    case InnerUdp => 33
    case Accept => 34
  }

  /** The first slot a state or any state after it may fill. */
  function Floor(s: State): nat {
    if Depth(s) < 2 then 0 else (Depth(s) - 2) / 2
  }

  ghost predicate GoesDeeper(s: State, next: State) {
    Depth(s) < Depth(next) <= 34
  }

  lemma ExtractsAtFloor(s: State)
    ensures ActionOf(s).Extract? ==> Depth(s) % 2 == 1 && ActionOf(s).slot == Floor(s) < SLOTS
    ensures ActionOf(s).Extract? && ActionOf(s).slot != 12 ==> ActionOf(s).width == SlotWidth(ActionOf(s).slot)
  {
  }

  lemma L4GoesDeep(h: Headers, tcp: State, udp: State, icmp: State)
    requires 15 <= Depth(tcp) <= 34 && 15 <= Depth(udp) <= 34 && 15 <= Depth(icmp) <= 34
    ensures 15 <= Depth(SelectL4(h, tcp, udp, icmp)) <= 34
  {
    hide Depth;
    assert Depth(Accept) == 34 by { AcceptIsDeepest(); }
  }

  lemma AcceptIsDeepest()
    ensures Depth(Accept) == 34
  {
  }

  /** How deep the selects on the outer headers lead. */
  lemma OuterSelectsGoDeep(h: Headers)
    ensures 12 <= Depth(SelectIhl(h, Ipv4NoOptions)) <= 34 && 12 <= Depth(SelectIhl(h, Ipv4NoOptionsV2)) <= 34
    ensures 15 <= Depth(SelectNextHdr(h, OuterUdpV2)) <= 34
    ensures 21 <= Depth(SelectUdpPort(h)) <= 34 && 23 <= Depth(SelectVxlanFlag(h)) <= 34
  {
    hide JdFlag;
  }

  lemma L4SelectsGoDeep(h: Headers)
    ensures 15 <= Depth(SelectL4(h, OuterTcp, OuterUdp, OuterIcmp)) <= 34
    ensures 15 <= Depth(SelectL4(h, OuterTcp, OuterUdp, Accept)) <= 34
    ensures 15 <= Depth(SelectL4(h, OuterTcp, OuterUdpV2, Accept)) <= 34
  {
    hide SelectL4;
    L4GoesDeep(h, OuterTcp, OuterUdp, OuterIcmp);
    L4GoesDeep(h, OuterTcp, OuterUdp, Accept);
    L4GoesDeep(h, OuterTcp, OuterUdpV2, Accept);
  }

  /** And those on the inner ones. */
  lemma InnerSelectsGoDeep(h: Headers)
    ensures 25 <= Depth(SelectInnerIp(h)) <= 34 && 27 <= Depth(SelectInnerIhl(h)) <= 34
    ensures 31 <= Depth(SelectInnerProtocol(h)) <= 34 && 31 <= Depth(SelectInnerNextHdr(h)) <= 34
  {
    hide SelectInnerProtocol, SelectInnerNextHdr, SelectInnerEther, OptionWords;
    InnerL4SelectsGoDeep(h);
  }

  lemma InnerL4SelectsGoDeep(h: Headers)
    ensures 31 <= Depth(SelectInnerProtocol(h)) <= 34 && 31 <= Depth(SelectInnerNextHdr(h)) <= 34
  {
  }

  lemma P02IngressGoesDeeper(s: State, h: Headers)
    requires s != Accept
    ensures GoesDeeper(s, NextP02Ingress(s, h))
  {
    hide SelectIhl, SelectL4, SelectNextHdr, SelectUdpPort, SelectVxlanFlag, SelectInnerIp, SelectInnerIhl;
    hide SelectInnerProtocol, SelectInnerNextHdr, JdFlag;
    OuterSelectsGoDeep(h);
    L4SelectsGoDeep(h);
    InnerSelectsGoDeep(h);
  }

  lemma P02EgressGoesDeeper(s: State, h: Headers, next: byte)
    requires s != Accept
    ensures GoesDeeper(s, NextP02Egress(s, h, next))
  {
    hide SelectIhl, SelectL4, SelectNextHdr, SelectUdpPort, SelectVxlanFlag, SelectInnerIp, SelectInnerIhl;
    hide SelectInnerProtocol, SelectInnerNextHdr, JdFlag;
    OuterSelectsGoDeep(h);
    L4SelectsGoDeep(h);
    InnerSelectsGoDeep(h);
  }

  lemma P13IngressGoesDeeper(s: State, h: Headers, next: byte)
    requires s != Accept
    ensures GoesDeeper(s, NextP13Ingress(s, h, next))
  {
    hide SelectIhl, SelectL4, SelectNextHdr, SelectUdpPort, SelectVxlanFlag, SelectInnerIp, SelectInnerIhl;
    hide SelectInnerProtocol, SelectInnerNextHdr, JdFlag;
    OuterSelectsGoDeep(h);
    L4SelectsGoDeep(h);
    InnerSelectsGoDeep(h);
  }

  lemma P13EgressGoesDeeper(s: State, h: Headers, next: byte)
    requires s != Accept
    ensures GoesDeeper(s, NextP13Egress(s, h, next))
  {
    hide SelectIhl, SelectL4, SelectNextHdr, SelectUdpPort, SelectVxlanFlag, SelectInnerIp, SelectInnerIhl;
    hide SelectInnerProtocol, SelectInnerNextHdr, JdFlag;
    OuterSelectsGoDeep(h);
    L4SelectsGoDeep(h);
    InnerSelectsGoDeep(h);
  }

  /** Every transition goes strictly deeper, so a parser visits each state at
      most once and never returns to a slot the emit order has passed. */
  lemma TransitionsGoDeeper(p: Parser, s: State, h: Headers, next: byte)
    requires s != Accept
    ensures GoesDeeper(s, Next(p, s, h, next))
  {
    match p
    case P02Ingress => P02IngressGoesDeeper(s, h);
    case P02Egress => P02EgressGoesDeeper(s, h, next);
    case P13Ingress => P13IngressGoesDeeper(s, h, next);
    case P13Egress => P13EgressGoesDeeper(s, h, next);
  }

  // ---------- running a parser ----------

  /** The VXLAN type a state leaves in the metadata. */
  function TypeAfter(s: State, t: bv2): bv2 {
    match s
    case JdInnerEthernet => VXLAN_TYPE_JD
    case InnerEthernet => VXLAN_TYPE_STD
    case _ => t
  }

  datatype Outcome = Rejected | Accepted(hdr: Headers, vxlanType: bv2, payload: seq<byte>)

  /** Where a parser stands: its state, the headers so far, the VXLAN type and
      the bytes it has not consumed. */
  datatype Config = Config(s: State, h: Headers, t: bv2, b: seq<byte>)

  /** One state's work; `None` when the packet is too short. */
  function Step(p: Parser, c: Config): Option<Config>
    requires c.s != Accept
  {
    match ActionOf(c.s)
    case Select => Some(c.(s := Next(p, c.s, c.h, 0)))
    case Lookahead => if c.b == [] then None else Some(c.(s := Next(p, c.s, c.h, c.b[0])))
    case Skip(w) => if |c.b| < w then None else Some(Config(Next(p, c.s, c.h, 0), c.h, c.t, c.b[w..]))
    case Extract(k, w) =>
      if |c.b| < w then None
      else
        ExtractsAtFloor(c.s);
        var h := Fill(c.h, k, c.b[..w]);
        Some(Config(Next(p, c.s, h, 0), h, TypeAfter(c.s, c.t), c.b[w..]))
  }

  lemma StepGoesDeeper(p: Parser, c: Config)
    requires c.s != Accept
    ensures Step(p, c).Some? ==> Depth(c.s) < Depth(Step(p, c).value.s) <= 34
  {
    hide Fill, Next, ActionOf;
    var r := Step(p, c);
    if r.Some? {
      match ActionOf(c.s)
      case Lookahead => TransitionsGoDeeper(p, c.s, c.h, c.b[0]);
      case _ => TransitionsGoDeeper(p, c.s, r.value.h, 0);
    }
  }

  /** The result of a parser from a given configuration. */
  function Run(p: Parser, c: Config): Outcome
    decreases 34 - Depth(c.s)
  {
    if c.s == Accept then Accepted(c.h, c.t, c.b)
    else
      StepGoesDeeper(p, c);
      match Step(p, c)
      case None => Rejected
      case Some(d) => Run(p, d)
  }

  function Parse(p: Parser, packet: seq<byte>): Outcome {
    Run(p, Config(StartState(p), NO_HEADERS, 0, packet))
  }

  /** The parser as it runs: a cursor into the packet, headers filled as it
      goes, until the accept state. */
  method ParsePacket(p: Parser, packet: seq<byte>) returns (r: Outcome)
    ensures r == Parse(p, packet)
  {
    hide Fill, Next, ActionOf, TypeAfter, Depth, SlotWidth;
    var s := StartState(p);
    var h, t, cursor := NO_HEADERS, 0 as bv2, 0;
    assert packet[0..] == packet;
    while s != Accept
      invariant 0 <= cursor <= |packet|
      invariant Run(p, Config(s, h, t, packet[cursor..])) == Parse(p, packet)
      decreases 34 - Depth(s)
    {
      ghost var c := Config(s, h, t, packet[cursor..]);
      StepGoesDeeper(p, c);
      var rest := |packet| - cursor;
      match ActionOf(s) {
        case Select =>
          s := Next(p, s, h, 0);
        case Lookahead =>
          if rest == 0 { return Rejected; }
          s := Next(p, s, h, packet[cursor]);
        case Skip(w) =>
          if rest < w { return Rejected; }
          assert packet[cursor..][w..] == packet[cursor + w..];
          s, cursor := Next(p, s, h, 0), cursor + w;
        case Extract(k, w) =>
          if rest < w { return Rejected; }
          ExtractsAtFloor(s);
          assert packet[cursor..][..w] == packet[cursor..cursor + w];
          assert packet[cursor..][w..] == packet[cursor + w..];
          h := Fill(h, k, packet[cursor..cursor + w]);
          t, cursor := TypeAfter(s, t), cursor + w;
          s := Next(p, s, h, 0);
      }
      assert Step(p, c) == Some(Config(s, h, t, packet[cursor..]));
    }
    r := Accepted(h, t, packet[cursor..]);
  }

  // ---------- parse, then emit ----------

  lemma FilledPiece(h: Headers, k: nat, b: seq<byte>)
    requires k < SLOTS && (k != 12 ==> |b| == SlotWidth(k))
    ensures Piece(Fill(h, k, b), k) == b
  {
    hide EncodeBridge, EncodeEthernet, EncodeFabric, EncodeCpu, EncodeIpv4, EncodeIpv6, EncodeUdp, EncodeTcp;
    hide EncodeIcmp, EncodeVxlan;
    hide DecodeBridge, DecodeEthernet, DecodeFabric, DecodeCpu, DecodeIpv4, DecodeIpv6, DecodeUdp, DecodeTcp;
    hide DecodeIcmp, DecodeVxlan;
    match k
    case 0 => BridgeBytes(b);
    case 1 => EthernetBytes(b);
    case 2 => FabricBytes(b);
    case 3 => CpuBytes(b);
    case 4 => Ipv4Bytes(b);
    case 5 => Ipv6Bytes(b);
    case 6 => UdpBytes(b);
    case 7 => TcpBytes(b);
    case 8 => IcmpBytes(b);
    case 9 => VxlanBytes(b);
    case 10 => EthernetBytes(b);
    case 11 => Ipv4Bytes(b);
    case 12 =>
    case 13 => Ipv6Bytes(b);
    case 14 => TcpBytes(b);
    case _ => UdpBytes(b);
  }

  lemma FilledElsewhere(h: Headers, k: nat, b: seq<byte>, j: nat)
    requires k < SLOTS && (k != 12 ==> |b| == SlotWidth(k))
    requires j < SLOTS && j != k
    ensures Piece(Fill(h, k, b), j) == Piece(h, j)
  {
    hide EncodeBridge, EncodeEthernet, EncodeFabric, EncodeCpu, EncodeIpv4, EncodeIpv6, EncodeUdp, EncodeTcp;
    hide EncodeIcmp, EncodeVxlan;
    hide DecodeBridge, DecodeEthernet, DecodeFabric, DecodeCpu, DecodeIpv4, DecodeIpv6, DecodeUdp, DecodeTcp;
    hide DecodeIcmp, DecodeVxlan;
  }

  lemma FillAppends(h: Headers, k: nat, b: seq<byte>)
    requires k < SLOTS && (k != 12 ==> |b| == SlotWidth(k))
    requires ClearFrom(h, k)
    ensures ClearFrom(Fill(h, k, b), k + 1)
    ensures Emit(Fill(h, k, b)) == Emit(h) + b
  {
    hide Piece, Fill, Emit, SlotWidth;
    var g := Fill(h, k, b);
    FilledPiece(h, k, b);
    forall j: nat | j < SLOTS && j != k ensures Piece(g, j) == Piece(h, j) {
      FilledElsewhere(h, k, b, j);
    }
    EmitAppends(h, g, k);
  }

  /** A state past the mirror metadata keeps `what is emitted so far, then
      what is left` unchanged. */
  lemma StepAdvances(p: Parser, c: Config)
    requires 2 <= Depth(c.s) < 34 && Step(p, c).Some?
    requires ClearFrom(c.h, Floor(c.s))
    ensures var d := Step(p, c).value;
      && Depth(d.s) > Depth(c.s)
      && ClearFrom(d.h, Floor(d.s))
      && Emit(d.h) + d.b == Emit(c.h) + c.b
  {
    hide ClearFrom, Emit, Fill, Next, ActionOf, Depth;
    PastMirror(c.s);
    ExtractsAtFloor(c.s);
    StepGoesDeeper(p, c);
    var d := Step(p, c).value;
    TransitionsGoDeeper(p, c.s, d.h, 0);
    match ActionOf(c.s)
    case Select =>
      ClearFromHigher(d.h, Floor(c.s), Floor(d.s));
    case Extract(k, w) =>
      FillAppends(c.h, k, c.b[..w]);
      ClearFromHigher(d.h, k + 1, Floor(d.s));
      SplitPayload(Emit(c.h), c.b, w);
  }

  lemma SplitPayload(e: seq<byte>, b: seq<byte>, w: nat)
    requires w <= |b|
    ensures (e + b[..w]) + b[w..] == e + b
  {
  }

  lemma ClearFromHigher(h: Headers, lo: nat, hi: nat)
    requires lo <= hi && ClearFrom(h, lo)
    ensures ClearFrom(h, hi)
  {
  }

  lemma PastMirror(s: State)
    requires 2 <= Depth(s) < 34
    ensures s != Accept && (ActionOf(s).Select? || ActionOf(s).Extract?)
  {
  }

  /** Whatever a parser does from here on, emitting its headers and then the
      payload writes what was emitted before, then the bytes it was given. */
  lemma {:induction false} RunThenEmit(p: Parser, c: Config)
    requires Depth(c.s) >= 2 && ClearFrom(c.h, Floor(c.s))
    ensures Run(p, c).Accepted? ==> Emit(Run(p, c).hdr) + Run(p, c).payload == Emit(c.h) + c.b
    decreases 34 - Depth(c.s)
  {
    hide Piece, Emit, Step, Floor;
    if c.s != Accept && Step(p, c).Some? {
      StepAdvances(p, c);
      RunThenEmit(p, Step(p, c).value);
    }
  }

  /** How many bytes of mirror metadata, which no deparser emits, a parser
      takes off the front of a packet. */
  function MirrorBytes(p: Parser, packet: seq<byte>): nat {
    if (p == P02Egress || p == P13Egress) && packet != [] &&
      (packet[0] == PKT_MIRR_MD_IG || packet[0] == PKT_MIRR_MD_EG)
    then 11 else 0
  }

  /** Parse, then emit, is the identity on bytes: for each of the four parsers
      and every packet it accepts. */
  lemma ParseThenEmit(p: Parser, packet: seq<byte>)
    requires Parse(p, packet).Accepted?
    ensures MirrorBytes(p, packet) <= |packet|
    ensures Emit(Parse(p, packet).hdr) + Parse(p, packet).payload == packet[MirrorBytes(p, packet)..]
  {
    hide ClearFrom, Emit, Step, Floor, Depth;
    var c := Config(StartState(p), NO_HEADERS, 0, packet);
    NothingEmitted();
    if p == P02Ingress {
      FirstStates();
      ClearFromHigher(NO_HEADERS, 0, Floor(OuterEthernet));
      RunThenEmit(p, c);
    } else {
      StartingStep(p, packet);
      var d := Step(p, c).value;
      ClearFromHigher(NO_HEADERS, 0, Floor(d.s));
      if d.s == MirrorMetadata {
        FirstStates();
        MirrorStep(p, d);
        ClearFromHigher(NO_HEADERS, 0, Floor(OuterEthernet));
        assert Run(p, c) == Run(p, d);
        if Step(p, d).Some? {
          RunThenEmit(p, Step(p, d).value);
        }
      } else {
        RunThenEmit(p, d);
      }
    }
  }

  lemma FirstStates()
    ensures Depth(OuterEthernet) >= 2
  {
  }

  lemma MirrorStep(p: Parser, c: Config)
    requires c.s == MirrorMetadata && (p == P02Egress || p == P13Egress)
    ensures Step(p, c) == if |c.b| < 11 then None else Some(Config(OuterEthernet, c.h, c.t, c.b[11..]))
  {
  }

  lemma NothingEmitted()
    ensures ClearFrom(NO_HEADERS, 0) && Emit(NO_HEADERS) == []
  {
    EmitRangeClear(NO_HEADERS, 0, SLOTS);
  }

  lemma StartingStep(p: Parser, packet: seq<byte>)
    requires p != P02Ingress
    ensures var r := Step(p, Config(HeaderCheck, NO_HEADERS, 0, packet));
      r.Some? ==>
        && packet != []
        && r.value.h == NO_HEADERS && r.value.b == packet
        && (r.value.s == MirrorMetadata ==> MirrorBytes(p, packet) == 11 && (p == P02Egress || p == P13Egress))
        && (r.value.s != MirrorMetadata ==> MirrorBytes(p, packet) == 0)
        && (r.value.s == MirrorMetadata || Depth(r.value.s) >= 2)
  {
    hide Fill;
  }
}
