/** How long a packet has to be for the parsers on its way through the tunnel: the
    parser that feeds the encapsulation does not look behind IPv4 options, the one
    behind it does. */
module TunnelAcceptance {
  import opened Words
  import opened Wrappers
  import opened WireFormat
  import opened HeaderStack
  import opened PacketParsers
  import opened FrameParsing
  import opened PacketState
  import opened Tunnel
  import opened IpTypeTable
  import opened Frames
  import opened RedirectedFrames
  import opened InnerAcceptance

  // ---------- the room an inner packet needs ----------

  function L4Room(protocol: byte): nat {
    if protocol == 6 then 20 else if protocol == 17 then 8 else 0
  }

  function Ipv4L4Room(ip: Ipv4): nat {
    if ip.fragOffset != 0 then 0 else L4Room(ip.protocol)
  }

  function OptionsRoom(ip: Ipv4): nat {
    if ip.ihl > 5 then 4 * (OptionWords(ip.ihl) as nat) else 0
  }

  /** The bytes of the headers an inner packet announces: IP header, options, and
      the TCP or UDP header of an unfragmented packet. */
  function Room(inner: Inner): nat {
    if inner.etherType == 0x0800 then
      match Ipv4At(inner.l3)
      case None => 20
      case Some(ip) => if ip.ihl < 5 then 20 else 20 + OptionsRoom(ip) + Ipv4L4Room(ip)
    else if inner.etherType == 0x86DD then
      match Ipv6At(inner.l3)
      case None => 40
      case Some(ip) => 40 + L4Room(ip.nextHdr)
    else 0
  }

  function InnerL4Room(h: Headers): nat {
    if h.innerIpv4.Some? then Ipv4L4Room(h.innerIpv4.value) else 0
  }

  /** The bytes a thorough parser still needs behind the inner IP header. */
  function BehindRoom(s: PacketParsers.State, h: Headers): nat {
    match s
    case InnerOptions(words) => 4 * (words as nat) + InnerL4Room(h)
    case InnerNoOptions => InnerL4Room(h)
    case InnerTcp => 20
    case InnerUdp => 8
    case _ => 0
  }

  lemma RoomSplits(s: PacketParsers.State, h: Headers)
    requires BehindInnerIp(s) && s != Accept
    ensures BehindRoom(s, h) == WidthOf(s) + BehindRoom(InnerNext(s, h), h)
  {
  }

  lemma SameRoom(s: PacketParsers.State, g: Headers, h: Headers)
    requires g.innerIpv4 == h.innerIpv4 && g.innerIpv6 == h.innerIpv6
    ensures BehindRoom(s, g) == BehindRoom(s, h) && InnerNext(s, g) == InnerNext(s, h)
  {
    hide OptionWords;
  }

  lemma {:induction false} AcceptsIffRoom(p: Parser, c: Config)
    requires Thorough(p) && BehindInnerIp(c.s)
    ensures Run(p, c).Accepted? <==> |c.b| >= BehindRoom(c.s, c.h)
    decreases 34 - Depth(c.s)
  {
    hide Step, Depth, WidthOf, Next, InnerNext;
    if c.s != Accept {
      OneStep(p, c);
      RoomSplits(c.s, c.h);
      StepGoesDeeper(p, c);
      if Step(p, c).Some? {
        var d := Step(p, c).value;
        NextIsInnerNext(p, c.s, d.h);
        SameRoom(c.s, c.h, d.h);
        SameRoom(d.s, c.h, d.h);
        StaysBehind(c.s, d.h);
        AcceptsIffRoom(p, d);
      }
    }
  }

  lemma StaysBehind(s: PacketParsers.State, h: Headers)
    ensures BehindInnerIp(InnerNext(s, h))
  {
    hide AskAlike;
    assert AskAlike(h, h) by { AsksLikeItself(h); }
    InnerNextAlike(s, h, h);
  }

  lemma AsksLikeItself(h: Headers)
    ensures AskAlike(h, h)
  {
  }

  lemma IpStep(p: Parser, c: Config)
    requires c.s == InnerIpv4 || c.s == InnerIpv6
    ensures Step(p, c).Some? <==> |c.b| >= if c.s == InnerIpv4 then 20 else 40
    ensures Step(p, c).Some? ==>
      var d := Step(p, c).value;
      d.s == Next(p, c.s, d.h, 0) && |d.b| == |c.b| - (if c.s == InnerIpv4 then 20 else 40)
  {
    hide DecodeIpv4, DecodeIpv6, Next;
  }

  lemma Ipv4SelectsRoom(h: Headers, ip: Ipv4)
    requires h.innerIpv4 == Some(ip)
    ensures BehindRoom(InnerNext(InnerIpv4, h), h) == if ip.ihl < 5 then 0 else OptionsRoom(ip) + Ipv4L4Room(ip)
  {
    hide OptionWords, Ipv4L4Room;
  }

  lemma Ipv6SelectsRoom(h: Headers, ip: Ipv6)
    requires h.innerIpv6 == Some(ip)
    ensures BehindRoom(InnerNext(InnerIpv6, h), h) == L4Room(ip.nextHdr)
  {
  }

  /** An inner packet can be parsed exactly when it is as long as the headers it
      announces. */
  lemma ParsableIff(inner: Inner)
    ensures Parsable(inner) <==> |inner.l3| >= Room(inner)
  {
    hide Step, Next, InnerNext, Depth, BehindRoom, OptionsRoom, Ipv4L4Room, L4Room, DecodeIpv4, DecodeIpv6;
    var c := Config(InnerStateFor(inner.etherType), NO_HEADERS, 0, inner.l3);
    if c.s != Accept {
      IpStep(P02Ingress, c);
      InnerIpStep(P02Ingress, c);
      if Step(P02Ingress, c).Some? {
        var d := Step(P02Ingress, c).value;
        NextIsInnerNext(P02Ingress, c.s, d.h);
        if c.s == InnerIpv4 {
          Ipv4SelectsRoom(d.h, d.h.innerIpv4.value);
        } else {
          Ipv6SelectsRoom(d.h, d.h.innerIpv6.value);
        }
        AcceptsIffRoom(P02Ingress, d);
      }
    }
  }

  // ---------- what P13 egress accepts ----------

  /** The bytes P13 egress needs of a raw packet: it looks at L4 headers only when
      there are no options. */
  function RawRoom(inner: Inner): nat {
    if inner.etherType == ETHERTYPE_IPV4 then
      match Ipv4At(inner.l3)
      case None => 20
      case Some(ip) => if ip.ihl == 5 then 20 + Ipv4L4Room(ip) else 20
    else
      match Ipv6At(inner.l3)
      case None => 40
      case Some(ip) => 40 + L4Room(ip.nextHdr)
  }

  function RawL4Room(s: PacketParsers.State, h: Headers): nat {
    match s
    case Ipv4NoOptionsV2 => if h.ipv4.Some? && h.ipv4.value.ihl == 5 then Ipv4L4Room(h.ipv4.value) else 0
    case OuterTcp => 20
    case OuterUdpV2 => 8
    case _ => 0
  }

  lemma RawL4Step(c: Config)
    requires RawL4State(c.s) && c.s != Accept
    ensures Step(P13Egress, c).Some? <==> |c.b| >= WidthOf(c.s)
    ensures Step(P13Egress, c).Some? ==>
      var d := Step(P13Egress, c).value;
      && RawL4State(d.s) && |d.b| == |c.b| - WidthOf(c.s)
      && RawL4Room(c.s, c.h) == WidthOf(c.s) + RawL4Room(d.s, d.h)
    ensures Step(P13Egress, c).None? ==> RawL4Room(c.s, c.h) >= WidthOf(c.s)
  {
    hide DecodeTcp, DecodeUdp;
  }

  lemma {:induction false} RawL4AcceptsIff(c: Config)
    requires RawL4State(c.s)
    ensures Run(P13Egress, c).Accepted? <==> |c.b| >= RawL4Room(c.s, c.h)
    decreases 34 - Depth(c.s)
  {
    hide Step, Depth, WidthOf, RawL4Room;
    if c.s != Accept {
      RawL4Step(c);
      StepGoesDeeper(P13Egress, c);
      if Step(P13Egress, c).Some? {
        RawL4AcceptsIff(Step(P13Egress, c).value);
      }
    } else {
      NoneLeft(c.h);
    }
  }

  lemma NoneLeft(h: Headers)
    ensures RawL4Room(Accept, h) == 0
  {
  }

  lemma RawIpNeeds(c: Config)
    requires c.s == OuterIpv4V2 || c.s == OuterIpv6
    ensures Step(P13Egress, c).Some? <==> |c.b| >= if c.s == OuterIpv4V2 then 20 else 40
    ensures Step(P13Egress, c).Some? ==>
      var d := Step(P13Egress, c).value;
      d.s == Next(P13Egress, c.s, d.h, 0) && |d.b| == |c.b| - (if c.s == OuterIpv4V2 then 20 else 40)
  {
    hide DecodeIpv4, DecodeIpv6, Next;
  }

  lemma RawSelectsRoom(h: Headers)
    ensures h.ipv4.Some? ==>
      RawL4Room(Next(P13Egress, OuterIpv4V2, h, 0), h) == if h.ipv4.value.ihl == 5 then Ipv4L4Room(h.ipv4.value) else 0
    ensures h.ipv6.Some? ==> RawL4Room(Next(P13Egress, OuterIpv6, h, 0), h) == L4Room(h.ipv6.value.nextHdr)
  {
  }

  /** P13 egress accepts a raw packet exactly when it is that long. */
  lemma RawAcceptedIff(bg: Bridge, l3: seq<byte>)
    requires CarriesRawIp(bg)
    ensures ParseRaw(bg, l3).Accepted? <==> |l3| >= RawRoom(Inner(bg.outerEthernetType, l3))
  {
    hide Step, Next, Depth, RawL4Room, Ipv4L4Room, L4Room, DecodeIpv4, DecodeIpv6, EncodeBridge, Parse;
    ParsesBridge(P13Egress, bg, l3);
    RawSelects(bg);
    var c := Config(RawState(bg), NO_HEADERS.(bridge := Some(bg)), 0, l3);
    RawIpNeeds(c);
    RawIpStep(c);
    if Step(P13Egress, c).Some? {
      var d := Step(P13Egress, c).value;
      RawSelectsRoom(d.h);
      RawL4AcceptsIff(d);
    }
  }

  // ---------- there and back ----------

  /** P13 ingress accepts what the encapsulation sends exactly when the original
      packet is as long as the headers it announces. */
  lemma LoopedBackIff(bg: Bridge, l3: seq<byte>, r: Residue)
    requires CarriesRawIp(bg) && ParseRaw(bg, l3).Accepted?
    ensures Parse(P13Ingress, TunnelledBytes(bg, l3, r)).Accepted? <==> |l3| >= Room(Inner(bg.outerEthernetType, l3))
  {
    hide Parse, ParseRaw, EncodeBridge, VxlanStack, CarriedL3, OuterIp, CarriesVxlan, Encapsulated, Emit, Room;
    hide Parsable, KeptInner;
    EncapsulationKeepsEveryByte(bg, l3, r);
    var len := ClaimedLen(bg, l3);
    OuterCarriesVxlan(len, r);
    var f := Frame(Ethernet(0, 0, 0), None, OuterIp(len, r), OuterUdpOf(len), OuterVxlan(r), InnerEthernetOf(bg, r),
                   CarriedL3(bg, l3, r));
    LoopAccepted(bg.(outerEthernetType := ETHERTYPE_IPV4), f);
    CarriedAgrees(bg, l3, r);
    KeptIsParsable(In, Inner(bg.outerEthernetType, l3), Inner(bg.outerEthernetType, CarriedL3(bg, l3, r)));
    ParsableIff(Inner(bg.outerEthernetType, l3));
  }

  /** So a raw packet that enters the tunnel is lost behind it exactly when it has
      options and ends inside them or inside the L4 header behind them. */
  lemma LostInLoopIff(bg: Bridge, l3: seq<byte>, r: Residue)
    requires CarriesRawIp(bg) && ParseRaw(bg, l3).Accepted?
    ensures Parse(P13Ingress, TunnelledBytes(bg, l3, r)).Rejected? <==>
      bg.outerEthernetType == ETHERTYPE_IPV4 && Ipv4At(l3).Some? && Ipv4At(l3).value.ihl > 5 &&
      |l3| < 20 + OptionsRoom(Ipv4At(l3).value) + Ipv4L4Room(Ipv4At(l3).value)
  {
    hide Parse, ParseRaw, EncodeBridge, TunnelledBytes, OptionsRoom, Ipv4L4Room, L4Room, DecodeIpv4, DecodeIpv6;
    LoopedBackIff(bg, l3, r);
    RawAcceptedIff(bg, l3);
    if Ipv4At(l3).Some? && Ipv4At(l3).value.ihl == 5 {
      NoOptions(Ipv4At(l3).value);
    }
  }

  lemma NoOptions(ip: Ipv4)
    requires ip.ihl == 5
    ensures OptionsRoom(ip) == 0
  {
  }

  /** A TCP packet with one option word and nothing behind it. */
  const CUT_PACKET: seq<byte> := [0x46, 0, 0, 24, 0, 0, 0, 0, 64, 6, 0, 0, 10, 0, 0, 1, 10, 0, 0, 2, 1, 1, 1, 1]

  lemma CutHeader()
    ensures Ipv4At(CUT_PACKET).Some?
    ensures var ip := Ipv4At(CUT_PACKET).value; ip.ihl == 6 && ip.fragOffset == 0 && ip.protocol == IP_PROTOCOLS_TCP
  {
  }

  lemma OneOptionWord(ip: Ipv4)
    requires ip.ihl == 6
    ensures OptionsRoom(ip) == 4
  {
    assert OptionWords(6) == 1;
  }

  /** Such a packet is put into the tunnel and rejected behind it. */
  lemma CutPacketIsLost(bg: Bridge, r: Residue)
    requires CarriesRawIp(bg) && bg.outerEthernetType == ETHERTYPE_IPV4
    ensures ParseRaw(bg, CUT_PACKET).Accepted? && Parse(P13Ingress, TunnelledBytes(bg, CUT_PACKET, r)).Rejected?
  {
    hide Parse, ParseRaw, EncodeBridge, TunnelledBytes, OptionsRoom, OptionWords, Ipv4At;
    CutHeader();
    OneOptionWord(Ipv4At(CUT_PACKET).value);
    RawAcceptedIff(bg, CUT_PACKET);
    LostInLoopIff(bg, CUT_PACKET, r);
  }
}
