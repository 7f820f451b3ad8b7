/** Whether a parser accepts an inner packet depends only on the inner packet:
    on the bytes that say how long its headers are.  So a packet one gateway
    could parse, the next one can. */
module InnerAcceptance {
  import opened Words
  import opened Wrappers
  import opened WireFormat
  import opened HeaderStack
  import opened PacketParsers
  import opened FrameParsing
  import opened IpTypeTable
  import opened Frames
  import opened RedirectedFrames

  /** The parsers that look at inner L4 headers. */
  predicate Thorough(p: Parser) {
    p == P02Ingress || p == P13Ingress
  }

  /** The inner IP headers ask for the same headers behind them. */
  predicate AskAlike(g: Headers, h: Headers) {
    && (g.innerIpv4.Some? <==> h.innerIpv4.Some?) && (g.innerIpv6.Some? <==> h.innerIpv6.Some?)
    && (g.innerIpv4.Some? ==>
          g.innerIpv4.value.ihl == h.innerIpv4.value.ihl && g.innerIpv4.value.fragOffset == h.innerIpv4.value.fragOffset
          && g.innerIpv4.value.protocol == h.innerIpv4.value.protocol)
    && (g.innerIpv6.Some? ==> g.innerIpv6.value.nextHdr == h.innerIpv6.value.nextHdr)
  }

  predicate Alike(c: Config, d: Config) {
    c.s == d.s && BehindInnerIp(c.s) && AskAlike(c.h, d.h) && |c.b| == |d.b|
  }

  /** How both thorough parsers select from the inner IP header on. */
  function InnerNext(s: PacketParsers.State, h: Headers): PacketParsers.State {
    match s
    case InnerIpv4 => SelectInnerIhl(h)
    case InnerOptions(_) => InnerNoOptions
    case InnerNoOptions => SelectInnerProtocol(h)
    case InnerIpv6 => SelectInnerNextHdr(h)
    case _ => Accept
  }

  lemma NextIsInnerNext(p: Parser, s: PacketParsers.State, h: Headers)
    requires Thorough(p)
    requires (BehindInnerIp(s) && s != Accept) || s == InnerIpv4 || s == InnerIpv6
    ensures Next(p, s, h, 0) == InnerNext(s, h)
  {
    hide SelectInnerIhl, SelectInnerProtocol, SelectInnerNextHdr;
  }

  lemma InnerNextAlike(s: PacketParsers.State, g: Headers, h: Headers)
    requires AskAlike(g, h)
    ensures InnerNext(s, g) == InnerNext(s, h) && BehindInnerIp(InnerNext(s, g))
  {
    hide SelectInnerIhl, SelectInnerProtocol, SelectInnerNextHdr, AskAlike, BehindInnerIp;
    SelectionsAlike(g, h);
    assert BehindInnerIp(Accept) && BehindInnerIp(InnerNoOptions) by { EndsBehindIp(); }
  }

  lemma EndsBehindIp()
    ensures BehindInnerIp(Accept) && BehindInnerIp(InnerNoOptions)
  {
  }

  lemma SelectionsAlike(g: Headers, h: Headers)
    requires AskAlike(g, h)
    ensures SelectInnerIhl(g) == SelectInnerIhl(h) && BehindInnerIp(SelectInnerIhl(g))
    ensures SelectInnerProtocol(g) == SelectInnerProtocol(h) && BehindInnerIp(SelectInnerProtocol(g))
    ensures SelectInnerNextHdr(g) == SelectInnerNextHdr(h) && BehindInnerIp(SelectInnerNextHdr(g))
  {
    hide SelectInnerIhl, SelectInnerProtocol, SelectInnerNextHdr;
    LengthsAlike(g, h);
    ProtocolsAlike(g, h);
    NextHdrsAlike(g, h);
  }

  lemma LengthsAlike(g: Headers, h: Headers)
    requires AskAlike(g, h)
    ensures SelectInnerIhl(g) == SelectInnerIhl(h) && BehindInnerIp(SelectInnerIhl(g))
  {
    hide OptionWords;
  }

  lemma ProtocolsAlike(g: Headers, h: Headers)
    requires AskAlike(g, h)
    ensures SelectInnerProtocol(g) == SelectInnerProtocol(h) && BehindInnerIp(SelectInnerProtocol(g))
  {
  }

  lemma NextHdrsAlike(g: Headers, h: Headers)
    requires AskAlike(g, h)
    ensures SelectInnerNextHdr(g) == SelectInnerNextHdr(h) && BehindInnerIp(SelectInnerNextHdr(g))
  {
  }

  /** The inner states select alike, in either parser. */
  lemma SelectsAlike(p: Parser, q: Parser, s: PacketParsers.State, g: Headers, h: Headers)
    requires Thorough(p) && Thorough(q) && AskAlike(g, h)
    requires (BehindInnerIp(s) && s != Accept) || s == InnerIpv4 || s == InnerIpv6
    ensures Next(p, s, g, 0) == Next(q, s, h, 0) && BehindInnerIp(Next(p, s, g, 0))
  {
    hide Next, InnerNext, AskAlike;
    NextIsInnerNext(p, s, g);
    NextIsInnerNext(q, s, h);
    InnerNextAlike(s, g, h);
  }

  function WidthOf(s: PacketParsers.State): nat {
    match ActionOf(s) case Extract(_, w) => w case _ => 0
  }

  lemma OneStep(p: Parser, c: Config)
    requires BehindInnerIp(c.s) && c.s != Accept
    ensures Step(p, c).Some? <==> |c.b| >= WidthOf(c.s)
    ensures Step(p, c).Some? ==>
      var d := Step(p, c).value;
      d.s == Next(p, c.s, d.h, 0) && |d.b| == |c.b| - WidthOf(c.s) && d.h.innerIpv4 == c.h.innerIpv4 &&
        d.h.innerIpv6 == c.h.innerIpv6
  {
    hide DecodeTcp, DecodeUdp, Next;
  }

  lemma StepsAlike(p: Parser, q: Parser, c: Config, d: Config)
    requires Thorough(p) && Thorough(q) && Alike(c, d) && c.s != Accept
    ensures Step(p, c).Some? <==> Step(q, d).Some?
    ensures Step(p, c).Some? ==> Alike(Step(p, c).value, Step(q, d).value)
  {
    hide Step, Next, WidthOf, Depth;
    OneStep(p, c);
    OneStep(q, d);
    if Step(p, c).Some? && Step(q, d).Some? {
      SelectsAlike(p, q, c.s, Step(p, c).value.h, Step(q, d).value.h);
    }
  }

  lemma {:induction false} RunsAlike(p: Parser, q: Parser, c: Config, d: Config)
    requires Thorough(p) && Thorough(q) && Alike(c, d)
    ensures Run(p, c).Accepted? <==> Run(q, d).Accepted?
    decreases 34 - Depth(c.s)
  {
    hide Step, Depth, AskAlike;
    if c.s != Accept {
      StepsAlike(p, q, c, d);
      StepGoesDeeper(p, c);
      if Step(p, c).Some? {
        RunsAlike(p, q, Step(p, c).value, Step(q, d).value);
      }
    }
  }

  /** Two IP packets of one length that differ at most in the bytes of the IPv4
      checksum and source address. */
  ghost predicate SameForm(s: PacketParsers.State, a: seq<byte>, b: seq<byte>) {
    |a| == |b| && (if s == InnerIpv4 then AgreeOutside(a, b, 10, 16) else a == b)
  }

  lemma DecodesAlike(a: seq<byte>, b: seq<byte>)
    requires |a| >= 20 && |a| == |b| && AgreeOutside(a, b, 10, 16)
    ensures var x, y := DecodeIpv4(a[..20]), DecodeIpv4(b[..20]);
      x.ihl == y.ihl && x.fragOffset == y.fragOffset && x.protocol == y.protocol
  {
  }

  lemma FirstStepAlike(p: Parser, q: Parser, c: Config, d: Config)
    requires Thorough(p) && Thorough(q) && c.s == d.s && (c.s == InnerIpv4 || c.s == InnerIpv6)
    requires NoInner(c.h) && NoInner(d.h) && SameForm(c.s, c.b, d.b)
    ensures Step(p, c).Some? <==> Step(q, d).Some?
    ensures Step(p, c).Some? ==> Alike(Step(p, c).value, Step(q, d).value)
  {
    hide Step, Next, BehindInnerIp;
    if c.s == InnerIpv4 {
      Ipv4Asks(p, q, c, d);
    } else {
      Ipv6Asks(p, q, c, d);
    }
    if Step(p, c).Some? && Step(q, d).Some? {
      SelectsAlike(p, q, c.s, Step(p, c).value.h, Step(q, d).value.h);
    }
  }

  /** What reading the inner IP header leads to. */
  ghost predicate ReadAlike(p: Parser, q: Parser, c: Config, d: Config)
    requires c.s != Accept && d.s != Accept
  {
    && (Step(p, c).Some? <==> Step(q, d).Some?)
    && (Step(p, c).Some? ==>
          var x, y := Step(p, c).value, Step(q, d).value;
          AskAlike(x.h, y.h) && |x.b| == |y.b| && x.s == Next(p, c.s, x.h, 0) && y.s == Next(q, c.s, y.h, 0))
  }

  lemma Ipv4Asks(p: Parser, q: Parser, c: Config, d: Config)
    requires c.s == d.s == InnerIpv4 && NoInner(c.h) && NoInner(d.h) && SameForm(c.s, c.b, d.b)
    ensures ReadAlike(p, q, c, d)
  {
    hide DecodeIpv4, AgreeOutside, Next;
    if |c.b| >= 20 {
      DecodesAlike(c.b, d.b);
    }
  }

  lemma Ipv6Asks(p: Parser, q: Parser, c: Config, d: Config)
    requires c.s == d.s == InnerIpv6 && NoInner(c.h) && NoInner(d.h) && SameForm(c.s, c.b, d.b)
    ensures ReadAlike(p, q, c, d)
  {
    hide DecodeIpv6, Next;
  }

  /** The state the inner EtherType selects. */
  function InnerStateFor(etherType: bv16): PacketParsers.State {
    if etherType == ETHERTYPE_IPV4 then InnerIpv4 else if etherType == ETHERTYPE_IPV6 then InnerIpv6 else Accept
  }

  /** Can the inner packet be parsed? */
  predicate Parsable(inner: Inner) {
    Run(P02Ingress, Config(InnerStateFor(inner.etherType), NO_HEADERS, 0, inner.l3)).Accepted?
  }

  lemma ParsableIsLong(inner: Inner)
    requires Parsable(inner)
    ensures LongEnough(inner.etherType, inner.l3)
  {
    hide DecodeIpv4, DecodeIpv6, Next, Depth;
  }

  lemma AcceptsAlike(p: Parser, q: Parser, c: Config, d: Config)
    requires Thorough(p) && Thorough(q) && c.s == d.s && (c.s == InnerIpv4 || c.s == InnerIpv6 || c.s == Accept)
    requires NoInner(c.h) && NoInner(d.h) && SameForm(c.s, c.b, d.b)
    ensures Run(p, c).Accepted? <==> Run(q, d).Accepted?
  {
    hide Step, SameForm, NoInner;
    if c.s != Accept {
      FirstStepAlike(p, q, c, d);
      if Step(p, c).Some? {
        RunsAlike(p, q, Step(p, c).value, Step(q, d).value);
      }
    }
  }

  lemma KeptIsParsable(dir: Direction, a: Inner, b: Inner)
    requires KeptInner(dir, a, b)
    ensures Parsable(a) <==> Parsable(b)
  {
    hide Run;
    var s := InnerStateFor(a.etherType);
    AcceptsAlike(P02Ingress, P02Ingress, Config(s, NO_HEADERS, 0, a.l3), Config(s, NO_HEADERS, 0, b.l3));
  }

  /** P02 ingress accepts a frame exactly when its inner packet can be parsed. */
  lemma FrameAccepted(f: Frame)
    requires ValidFrame(f)
    ensures Parse(P02Ingress, FrameBytes(f)).Accepted? <==> Parsable(Inner(f.ie.etherType, f.l3))
  {
    hide Run, Parse, FrameBytes, ValidFrame, FrameType;
    IngressReachesInner(f);
    var s, h := InnerStateFor(f.ie.etherType), FrameHeaders(EthernetOnly(f.eth), f);
    InnerStatesAgree(P02Ingress, f.vx, f.ie);
    AcceptsAlike(P02Ingress, P02Ingress, Config(s, h, FrameType(P02Ingress, f.vx), f.l3),
                 Config(s, NO_HEADERS, 0, f.l3));
  }

  lemma InnerStatesAgree(p: Parser, vx: Vxlan, ie: Ethernet)
    requires Thorough(p)
    ensures InnerIpState(p, vx, ie) == InnerStateFor(ie.etherType)
  {
  }

  /** P13 ingress accepts a bridged frame exactly when its inner packet can be
      parsed. */
  lemma LoopAccepted(bg: Bridge, f: Frame)
    requires BridgesFrame(bg, None) && CarriesVxlan(f.ip, f.udp)
    ensures Parse(P13Ingress, EncodeBridge(bg) + VxlanStack(f.ip, f.udp, f.vx, f.ie, f.l3)).Accepted? <==>
      Parsable(Inner(f.ie.etherType, f.l3))
  {
    hide Run, Parse, EncodeBridge, VxlanStack, FrameType;
    BridgedFrameReachesInner(P13Ingress, bg, f.ip, f.udp, f.vx, f.ie, f.l3);
    var s, h := InnerStateFor(f.ie.etherType), WithVxlan(NO_HEADERS.(bridge := Some(bg)), f.ip, f.udp, f.vx, f.ie);
    InnerStatesAgree(P13Ingress, f.vx, f.ie);
    AcceptsAlike(P13Ingress, P02Ingress, Config(s, h, FrameType(P13Ingress, f.vx), f.l3),
                 Config(s, NO_HEADERS, 0, f.l3));
  }
}
