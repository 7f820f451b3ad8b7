/** The redirect protocol between gateways: a redirected packet is understood by
    the gateway it is addressed to, and over any network of gateways a packet is
    redirected at most twice, in one direction, and its inner packet is changed by
    the SNAT tables on its way and nothing else. */
module RedirectProtocol {
  import opened Words
  import opened Wrappers
  import opened WireFormat
  import opened HeaderStack
  import opened PacketParsers
  import opened FrameParsing
  import opened IngressShape
  import opened IpTypeTable
  import opened Classification
  import opened Redirect
  import opened Gateway
  import opened Frames
  import opened RedirectHop
  import opened RedirectedFrames
  import opened InnerAcceptance
  import opened HopTheorem

  // ---------- a redirected packet, received ----------

  /** What P02 ingress finds in a redirected frame. */
  ghost predicate Received(o: Outcome, f: Frame) {
    && o.Accepted? && o.hdr.ipv4 == Some(f.ip) && o.hdr.ipv6.None? && o.hdr.vxlan == Some(f.vx) &&
      o.hdr.innerEthernet == Some(f.ie)
    && o.vxlanType == VXLAN_TYPE_JD
    && (o.hdr.innerIpv4.Some? <==> f.ie.etherType == ETHERTYPE_IPV4)
    && (o.hdr.innerIpv6.Some? <==> f.ie.etherType == ETHERTYPE_IPV6)
    && EmitInner(o.hdr) + o.payload == f.l3
  }

  lemma FrameReceived(f: Frame, dir: Direction, scope: Scope)
    requires ValidFrame(f) && Speaks(f, dir, scope) && Parsable(Carried(f))
    ensures Received(Parse(P02Ingress, FrameBytes(f)), f)
  {
    hide Parsable, Parse, FrameBytes, EmitInner, CarriesVxlan, Ipv4At, Ipv6At;
    FrameAccepted(f);
    IngressParsesFrame(f);
    SpeaksIsJd(f, dir, scope);
  }

  lemma SpeaksIsJd(f: Frame, dir: Direction, scope: Scope)
    requires Speaks(f, dir, scope)
    ensures TakenAsJd(P02Ingress, f.vx)
  {
  }

  lemma SpeaksScope(f: Frame, dir: Direction, scope: Scope)
    requires Speaks(f, dir, scope)
    ensures ScopeOf(VXLAN_TYPE_JD, f.vx.tof) == Some((dir, scope))
  {
  }

  /** The gateway takes the packet for redirected traffic of that direction and
      scope: its table says so and sets `dl_pkt`. */
  ghost predicate TakenFor(g: Gateway, ch: Chances, o: Outcome, dir: Direction, scope: Scope)
    requires o.Accepted?
  {
    && RuleAt(g, ch, o).Some?
    && var r := RuleAt(g, ch, o).value;
    && r.Tunnel? && r.dir == dir && r.scope == scope
    && Lookup(Table(g.cfg), KeyOf(o.hdr, o.vxlanType, ch.junk)) == Hit(dir, 1, PipeOf(r))
  }

  /** The gateway takes the packet for raw inbound traffic, of the highest rank. */
  ghost predicate TakenForRaw(g: Gateway, ch: Chances, o: Outcome)
    requires o.Accepted?
  {
    && RuleAt(g, ch, o).Some?
    && var r := RuleAt(g, ch, o).value;
    && r.RawV4? && RankOfRule(r) == 2
    && Lookup(Table(g.cfg), KeyOf(o.hdr, o.vxlanType, ch.junk)) == Hit(In, 0, PipeOf(r))
  }

  lemma LookupOfRule(g: Gateway, ch: Chances, packet: seq<byte>)
    requires TablesFilled(g) && Parse(P02Ingress, packet).Accepted?
    ensures var o := Parse(P02Ingress, packet);
      RuleAt(g, ch, o).Some? && RuleAt(g, ch, o).value != Multicast ==>
        Lookup(Table(g.cfg), KeyOf(o.hdr, o.vxlanType, ch.junk)) ==
          Hit(DirOf(RuleAt(g, ch, o).value), DlOf(RuleAt(g, ch, o).value), PipeOf(RuleAt(g, ch, o).value))
  {
    hide Parse, RuleFor, Lookup, Table, DirOf, DlOf, PipeOf, ActionOfRule, Decision, Shaped, Emit;
    IngressIsShaped(packet);
    var o := Parse(P02Ingress, packet);
    LookupDecides(g.cfg, KeyOf(o.hdr, o.vxlanType, ch.junk));
    DecisionOfRule(g.cfg, KeyOf(o.hdr, o.vxlanType, ch.junk));
  }

  /** A packet of a tunnel rule is handled by it when it is addressed, else as raw
      traffic. */
  lemma RuleOfKey(c: GatewayConfig, k: Fields, r: Rule)
    requires TunnelRuleOf(k) == Some(r) && r.Tunnel?
    ensures RuleFor(c, k).Some?
    ensures if Addressed(c, r.scope, k.ipv4Dst) then RuleFor(c, k) == Some(r) else RuleFor(c, k).value.RawV4?
  {
    hide Addressed, ScopeOf, EipIsOdd;
  }

  /** A receiver takes a redirected frame for what its sender meant, marked
      `dl_pkt`, exactly when the frame is addressed to it as traffic of that scope
      is; to any other gateway it is raw inbound traffic of the highest rank. */
  lemma UnderstoodIffAddressed(g: Gateway, ch: Chances, f: Frame, dir: Direction, scope: Scope)
    requires TablesFilled(g) && ValidFrame(f) && Speaks(f, dir, scope) && IsIp(f.ie.etherType)
    requires Parsable(Carried(f))
    ensures var o := Parse(P02Ingress, FrameBytes(f));
      && o.Accepted?
      && (if Addressed(g.cfg, scope, f.ip.dstAddr) then TakenFor(g, ch, o, dir, scope) else TakenForRaw(g, ch, o))
  {
    hide Parsable, Parse, FrameBytes, EmitInner, Addressed, EipIsOdd, ScopeOf, Low2, ValidFrame, Lookup, Table, PipeOf;
    hide RuleFor, TablesFilled;
    FrameReceived(f, dir, scope);
    SpeaksScope(f, dir, scope);
    var o := Parse(P02Ingress, FrameBytes(f));
    var k := KeyOf(o.hdr, o.vxlanType, ch.junk);
    LookupOfRule(g, ch, FrameBytes(f));
    var r := Tunnel(dir, scope, k.inner6Valid == 1, EipIsOdd(dir, k));
    assert TunnelRuleOf(k) == Some(r);
    RuleOfKey(g.cfg, k, r);
  }

  // ---------- sender and receiver ----------

  /** The DL addresses a gateway picks from lie in its own DL block. */
  ghost predicate PicksOwnBlock(g: Gateway, dir: Direction) {
    var members := TablesOf(g, dir).dlMembers;
    members != [] && forall a :: a in members ==> Ternary32(a, g.cfg.dlIp, g.cfg.dlMask)
  }

  /** `to` is a peer for traffic of that scope from `g`: it shares the DL block,
      or it owns the shared-bandwidth VIP. */
  ghost predicate Peer(g: Gateway, to: Gateway, dir: Direction, scope: Scope) {
    if scope == Eip then PicksOwnBlock(g, dir) && to.cfg.dlIp == g.cfg.dlIp && to.cfg.dlMask == g.cfg.dlMask
    else g.cfg.sharedBwVip == to.cfg.vip || (to.cfg.backupVip != 0 && g.cfg.sharedBwVip == to.cfg.backupVip)
  }

  /** Whatever a gateway sends on, every peer of its scope understands: same
      direction, same scope, and never put into the tunnel again. */
  lemma PeerUnderstands(g: Gateway, r: Rule, inner: Inner, vni: bv24, scope: Scope, f: Frame, to: Gateway, ch: Chances)
    requires SentOn(g, r, inner, vni, scope, f) && Parsable(inner) && Peer(g, to, DirOf(r), scope) && TablesFilled(to)
    ensures var o := Parse(P02Ingress, FrameBytes(f));
      o.Accepted? && TakenFor(to, ch, o, DirOf(r), scope)
  {
    hide Parsable, Parse, FrameBytes, ValidFrame, RuleAt, Ternary32, TakenFor, TakenForRaw, TablesFilled;
    assert Addressed(to.cfg, scope, f.ip.dstAddr);
    UnderstoodIffAddressed(to, ch, f, DirOf(r), scope);
  }

  // ---------- a packet's journey ----------

  /** One gateway on a packet's way. */
  datatype Visit = Visit(g: Gateway, ch: Chances)

  function OutcomeAt(packet: seq<byte>): Outcome {
    Parse(P02Ingress, packet)
  }

  /** The packet has reached a gateway it is addressed to, as traffic of its
      type of flow is. */
  predicate ReachedOwner(g: Gateway, o: Outcome) {
    && o.Accepted? && o.hdr.ipv4.Some? && o.hdr.vxlan.Some?
    && var scope := if Rank(o.hdr.vxlan.value.tof) == 1 then Az else Eip;
    Addressed(g.cfg, scope, o.hdr.ipv4.value.dstAddr)
  }

  /** `ps` is the packet as it travels: every gateway of `vs` redirects it, and
      every one but the first is one it was addressed to. */
  ghost predicate Travels(vs: seq<Visit>, ps: seq<seq<byte>>) {
    && |ps| == |vs| + 1
    && (forall i :: 0 <= i < |vs| ==>
          TablesFilled(vs[i].g) && Routed(vs[i].g) && HopOf(vs[i].g, vs[i].ch, ps[i]) == Sent(ps[i + 1]))
    && (forall i :: 1 <= i < |vs| ==> ReachedOwner(vs[i].g, OutcomeAt(ps[i])))
  }

  /** The gateway handles the packet as traffic of that direction. */
  predicate Sees(g: Gateway, ch: Chances, packet: seq<byte>, dir: Direction) {
    ReadAt(g, ch, packet).Some? && DirOf(ReadAt(g, ch, packet).value.rule) == dir
  }

  /** After k redirects: a frame of the first direction whose rank has gone down
      by at least k, around exactly the inner packet `now`, outbound in the first
      network. */
  ghost predicate AfterRedirects(r: Rule, now: Inner, vni: bv24, k: nat, packet: seq<byte>) {
    exists f, scope :: packet == FrameBytes(f) && OnItsWay(r, now, vni, k, scope, f)
  }

  ghost predicate OnItsWay(r: Rule, now: Inner, vni: bv24, k: nat, scope: Scope, f: Frame) {
    && ValidFrame(f) && Speaks(f, DirOf(r), scope) && RankOf(scope) + k <= RankOfRule(r)
    && IsIp(f.ie.etherType) && Carried(f) == now && Parsable(now) && (DirOf(r) == Out ==> f.vx.vni == vni)
  }

  /** What a gateway behind the first one makes of the inner packet. */
  function Onward(g: Gateway, dir: Direction, vni: bv24, a: Inner): Inner {
    if dir == Out then SnatInner(g.snat, vni, a) else a
  }

  /** The inner packet a gateway sends on. */
  function SentFrom(v: Visit, x: Reading): Inner {
    InnerSent(v.g, v.ch, x.rule, x.vni, x.inner)
  }

  lemma FirstRedirect(v: Visit, packet: seq<byte>, next: seq<byte>)
    requires TablesFilled(v.g) && Routed(v.g) && HopOf(v.g, v.ch, packet) == Sent(next)
    ensures ReadAt(v.g, v.ch, packet).Some?
    ensures var x := ReadAt(v.g, v.ch, packet).value;
      AfterRedirects(x.rule, SentFrom(v, x), x.vni, 1, next)
  {
    hide Parsable, ReadAt, HopOf, TablesFilled, Routed, KeptInner, FrameBytes, ValidFrame, InnerSent;
    HopSends(v.g, v.ch, packet);
    var x := ReadAt(v.g, v.ch, packet).value;
    var now := SentFrom(v, x);
    var f :| next == FrameBytes(f) && SentOn(v.g, x.rule, now, x.vni, x.scope.value, f);
    InnerSentIsKept(v.g, v.ch, x.rule, x.vni, x.inner);
    KeptIsParsable(DirOf(x.rule), x.inner, now);
    assert OnItsWay(x.rule, now, x.vni, 1, x.scope.value, f);
  }

  lemma OwnerScope(g: Gateway, f: Frame, dir: Direction, scope: Scope, o: Outcome)
    requires Speaks(f, dir, scope) && o.Accepted? && Received(o, f) && ReachedOwner(g, o)
    ensures Addressed(g.cfg, scope, f.ip.dstAddr)
  {
    hide Parsable, EmitInner;
  }

  /** What a peer reads off a frame: the sender's direction and scope, and the inner
      packet it carries. */
  lemma ReadByOwner(g: Gateway, ch: Chances, f: Frame, dir: Direction, scope: Scope)
    requires TablesFilled(g) && ValidFrame(f) && Speaks(f, dir, scope) && IsIp(f.ie.etherType) && Parsable(Carried(f))
    requires Addressed(g.cfg, scope, f.ip.dstAddr)
    ensures ReadAt(g, ch, FrameBytes(f)).Some?
    ensures var x := ReadAt(g, ch, FrameBytes(f)).value;
      x.rule.Tunnel? && x.rule.dir == dir && x.rule.scope == scope && x.inner == Carried(f) && x.vni == f.vx.vni
  {
    hide Parsable, Parse, RuleAt, TablesFilled, FrameBytes, ValidFrame, Addressed, EmitInner, IsIp, Lookup, Table;
    FrameReceived(f, dir, scope);
    UnderstoodIffAddressed(g, ch, f, dir, scope);
  }

  lemma NextRedirect(r: Rule, now: Inner, vni: bv24, k: nat, v: Visit, packet: seq<byte>, next: seq<byte>)
    requires AfterRedirects(r, now, vni, k, packet)
    requires TablesFilled(v.g) && Routed(v.g) && HopOf(v.g, v.ch, packet) == Sent(next)
    requires ReachedOwner(v.g, OutcomeAt(packet))
    ensures AfterRedirects(r, Onward(v.g, DirOf(r), vni, now), vni, k + 1, next)
    ensures Sees(v.g, v.ch, packet, DirOf(r))
  {
    hide Parsable, Parse, HopOf, RuleAt, ReadAt, TablesFilled, Routed, KeptInner, FrameBytes, ValidFrame, Addressed;
    hide ReachedOwner;
    hide EmitInner, RankOf, IsIp, Lookup, Table, SnatInner;
    var f, scope :| packet == FrameBytes(f) && OnItsWay(r, now, vni, k, scope, f);
    HopSends(v.g, v.ch, packet);
    FrameReceived(f, DirOf(r), scope);
    OwnerScope(v.g, f, DirOf(r), scope, OutcomeAt(packet));
    ReadByOwner(v.g, v.ch, f, DirOf(r), scope);
    var x := ReadAt(v.g, v.ch, packet).value;
    var onward := Onward(v.g, DirOf(r), vni, now);
    assert SentFrom(v, x) == onward;
    var f' :| next == FrameBytes(f') && SentOn(v.g, x.rule, onward, x.vni, x.scope.value, f');
    InnerSentIsKept(v.g, v.ch, x.rule, x.vni, now);
    KeptIsParsable(DirOf(r), now, onward);
    assert OnItsWay(r, onward, vni, k + 1, x.scope.value, f');
  }

  /** The inner packet after k gateways: what the first one sends, then through the
      SNAT tables of the others. */
  function InnerAfter(vs: seq<Visit>, x: Reading, k: nat): Inner
    requires k <= |vs|
  {
    if k == 0 then x.inner
    else if k == 1 then SentFrom(vs[0], x)
    else Onward(vs[k - 1].g, DirOf(x.rule), x.vni, InnerAfter(vs, x, k - 1))
  }

  lemma OnwardIsKept(g: Gateway, ch: Chances, dir: Direction, vni: bv24, a: Inner)
    ensures KeptInner(dir, a, Onward(g, dir, vni, a))
  {
    hide KeptInner, SnatInner;
    var q := Tunnel(dir, Host, false, false);
    assert InnerSent(g, ch, q, vni, a) == Onward(g, dir, vni, a);
    InnerSentIsKept(g, ch, q, vni, a);
  }

  /** Inbound the inner packet stays as the first gateway sent it; outbound nothing
      but its source changes. */
  lemma {:induction false} InnerAfterIsKept(vs: seq<Visit>, x: Reading, k: nat)
    requires k <= |vs|
    ensures KeptInner(DirOf(x.rule), x.inner, InnerAfter(vs, x, k))
    ensures k > 0 && DirOf(x.rule) == In ==> InnerAfter(vs, x, k) == SentFrom(vs[0], x)
  {
    hide KeptInner, InnerSent, DirOf, SnatInner;
    if k == 0 {
      KeptInnerSame(DirOf(x.rule), x.inner);
    } else if k == 1 {
      InnerSentIsKept(vs[0].g, vs[0].ch, x.rule, x.vni, x.inner);
    } else {
      InnerAfterIsKept(vs, x, k - 1);
      var before := InnerAfter(vs, x, k - 1);
      OnwardIsKept(vs[k - 1].g, vs[k - 1].ch, DirOf(x.rule), x.vni, before);
      KeptInnerChain(DirOf(x.rule), x.inner, before, InnerAfter(vs, x, k));
    }
  }

  /** What the first gateway reads off the packet. */
  function FirstReading(vs: seq<Visit>, ps: seq<seq<byte>>): Option<Reading>
    requires |vs| > 0 && |ps| > 0
  {
    ReadAt(vs[0].g, vs[0].ch, ps[0])
  }

  lemma {:induction false} JourneySoFar(vs: seq<Visit>, ps: seq<seq<byte>>, k: nat)
    requires Travels(vs, ps) && 1 <= k <= |vs|
    ensures FirstReading(vs, ps).Some?
    ensures var x := FirstReading(vs, ps).value;
      AfterRedirects(x.rule, InnerAfter(vs, x, k), x.vni, k, ps[k])
    ensures Sees(vs[k - 1].g, vs[k - 1].ch, ps[k - 1], DirOf(FirstReading(vs, ps).value.rule))
  {
    hide OutcomeAt, HopOf, ReadAt, TablesFilled, Routed, ReachedOwner, AfterRedirects, DirOf, InnerSent, Onward;
    FirstRedirect(vs[0], ps[0], ps[1]);
    if k > 1 {
      JourneySoFar(vs, ps, k - 1);
      var x := FirstReading(vs, ps).value;
      NextRedirect(x.rule, InnerAfter(vs, x, k - 1), x.vni, k - 1, vs[k - 1], ps[k - 1], ps[k]);
    }
  }

  /** No redirect loops.  For any network of gateways, any tables and any packet: a
      packet that is delivered where it is addressed is redirected at most twice, and
      every gateway sees the direction the first one saw.  What it carries in the end
      is exactly the first gateway's inner packet after the SNAT of each gateway
      outbound; inbound exactly that packet, if it came in a tunnel or is IPv6, and
      otherwise that packet with its IPv4 checksum lost on entering the tunnel. */
  lemma NoRedirectLoops(vs: seq<Visit>, ps: seq<seq<byte>>)
    requires Travels(vs, ps) && |vs| > 0
    ensures |vs| <= 2
    ensures FirstReading(vs, ps).Some?
    ensures forall k :: 0 <= k < |vs| ==> Sees(vs[k].g, vs[k].ch, ps[k], DirOf(FirstReading(vs, ps).value.rule))
    ensures var x := FirstReading(vs, ps).value;
      var now := InnerAfter(vs, x, |vs|);
      && AfterRedirects(x.rule, now, x.vni, |vs|, ps[|vs|])
      && KeptInner(DirOf(x.rule), x.inner, now)
      && (DirOf(x.rule) == In && (x.rule.Tunnel? || x.inner.etherType != ETHERTYPE_IPV4) ==> now == x.inner)
  {
    hide OutcomeAt, HopOf, ReadAt, TablesFilled, Routed, ReachedOwner, DirOf, KeptInner, FrameBytes, ValidFrame;
    hide InnerAfter;
    JourneySoFar(vs, ps, |vs|);
    var x := FirstReading(vs, ps).value;
    InnerAfterIsKept(vs, x, |vs|);
    forall k | 0 <= k < |vs|
      ensures Sees(vs[k].g, vs[k].ch, ps[k], DirOf(x.rule))
    {
      JourneySoFar(vs, ps, k + 1);
    }
  }
}
