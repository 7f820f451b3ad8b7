/** P02 egress: the outbound meters, the unknown tunnel destination, and the egress
    ACL that drops RED and marked packets. */
module EgressDrops {
  import opened Wrappers
  import opened PacketState
  import opened IpTypeTable
  import opened Classification
  import opened Tunnel
  import opened Metering

  const ACL_HIGHEST_PRI := 0
  const ACL_MIRROR_PRI := 10
  const ACL_SYSTEM_PRI := 20

  // ---------- the egress ACL ----------

  datatype AclAction = Pass | CopyToCpu | CopyToSession | DropPacket | DropAndMirror

  predicate Drops(a: AclAction) {
    a.DropPacket? || a.DropAndMirror?
  }

  /** The key the initialiser fills; all other fields of its entries are free. */
  datatype AclKey = AclKey(priority: nat, ipv4: bv1, ipv4Mask: bv1, colour: bv2, colourMask: bv2, needDrop: bv1,
                           needDropMask: bv1)

  /** An entry somebody else installed and that matches the packet at hand. */
  datatype Foreign = Foreign(priority: nat, action: AclAction)

  const CLEARED := AclKey(0, 0, 0, 0, 0, 0, 0)
  const ACL_TABLE := [AclKey(ACL_SYSTEM_PRI, 1, 1, 0, 0, 1, 1), AclKey(ACL_HIGHEST_PRI, 0, 0, COLOR_RED, 3, 0, 0)]

  /** `egress_acl_init`: two entries, both dropping. */
  method EgressAclInit() returns (es: seq<AclKey>)
    ensures es == ACL_TABLE
  {
    var key := CLEARED;
    key := key.(priority := ACL_SYSTEM_PRI);
    key := key.(ipv4 := 1, ipv4Mask := 1);
    key := key.(colour := 0, colourMask := 0);
    key := key.(needDrop := 1, needDropMask := 1);
    es := [key];
    key := CLEARED;
    key := key.(priority := ACL_HIGHEST_PRI);
    key := key.(ipv4 := 0, ipv4Mask := 0);
    key := key.(colour := COLOR_RED, colourMask := 3);
    key := key.(needDrop := 0, needDropMask := 0);
    es := es + [key];
  }

  /** The fields of a packet those entries look at. */
  datatype Seen = Seen(ipv4: bool, colour: bv2, needDrop: bv1)

  function SeenOf(s: State, r: Residue): Seen {
    Seen(s.hdr.ipv4.Some?, BridgeOf(s.hdr, r).meterPacketColor, BridgeOf(s.hdr, r).needDrop)
  }

  predicate Matches(e: AclKey, p: Seen) {
    Ternary1(if p.ipv4 then 1 else 0, e.ipv4, e.ipv4Mask) && Ternary2(p.colour, e.colour, e.colourMask) &&
    Ternary1(p.needDrop, e.needDrop, e.needDropMask)
  }

  /** What the two entries mean. */
  lemma InstalledEntriesMatch(p: Seen)
    ensures Matches(ACL_TABLE[0], p) <==> p.ipv4 && p.needDrop == 1
    ensures Matches(ACL_TABLE[1], p) <==> p.colour == COLOR_RED
  {
    TernaryExtremes(if p.ipv4 then 1 else 0, 1, p.colour, COLOR_RED, 0, 0);
    TernaryExtremes(p.needDrop, 1, p.colour, 0, 0, 0);
    TernaryExtremes(p.needDrop, 0, p.colour, 0, 0, 0);
    TernaryExtremes(if p.ipv4 then 1 else 0, 0, p.colour, 0, 0, 0);
    hide Ternary1, Ternary2;
  }

  /** Some matching entry has that priority and that action. */
  ghost predicate Candidate(es: seq<AclKey>, foreign: seq<Foreign>, p: Seen, priority: nat, a: AclAction) {
    (a == DropPacket && exists i :: 0 <= i < |es| && Matches(es[i], p) && es[i].priority == priority) ||
    Foreign(priority, a) in foreign
  }

  /** The table may take the action: that of a matching entry none precedes, or,
      without a matching entry, the default. */
  ghost predicate Decides(es: seq<AclKey>, foreign: seq<Foreign>, p: Seen, a: AclAction) {
    if exists q: nat, b :: Candidate(es, foreign, p, q, b) then
      exists q: nat :: Candidate(es, foreign, p, q, a) && Precedes(es, foreign, p, q)
    else a == Pass
  }

  ghost predicate Precedes(es: seq<AclKey>, foreign: seq<Foreign>, p: Seen, q: nat) {
    forall q2: nat, b :: Candidate(es, foreign, p, q2, b) ==> q <= q2
  }

  /** `EgressSystemAcl`; traffic to the CPU is not looked up. */
  method EgressSystemAcl(phv: Phv, toCpu: bool, es: seq<AclKey>, foreign: seq<Foreign>,
                         r: Residue) returns (a: AclAction)
    modifies phv`drop
    ensures if toCpu then a == Pass else Decides(es, foreign, SeenOf(old(phv.Value()), r), a)
    ensures phv.Value() == old(phv.Value()).(drop := old(phv.drop) || Drops(a))
  {
    hide Matches;
    a := Pass;
    if toCpu {
      return;
    }
    var p := SeenOf(phv.Value(), r);
    var best: Option<nat> := None;
    for i := 0 to |es|
      invariant best == None ==> a == Pass && forall j :: 0 <= j < i ==> !Matches(es[j], p)
      invariant best.Some? ==> Candidate(es, foreign, p, best.value, a)
      invariant forall j :: 0 <= j < i && Matches(es[j], p) ==> best.Some? && best.value <= es[j].priority
    {
      if Matches(es[i], p) && (best.None? || es[i].priority < best.value) {
        best, a := Some(es[i].priority), DropPacket;
      }
    }
    for i := 0 to |foreign|
      invariant best == None ==> i == 0 && a == Pass && forall j :: 0 <= j < |es| ==> !Matches(es[j], p)
      invariant best.Some? ==> Candidate(es, foreign, p, best.value, a)
      invariant forall j :: 0 <= j < |es| && Matches(es[j], p) ==> best.Some? && best.value <= es[j].priority
      invariant forall j :: 0 <= j < i ==> best.Some? && best.value <= foreign[j].priority
    {
      if best.None? || foreign[i].priority < best.value {
        best, a := Some(foreign[i].priority), foreign[i].action;
        assert Foreign(best.value, a) in foreign;
      }
    }
    LookupDecides(es, foreign, p, best, a);
    if Drops(a) {
      phv.drop := true;
    }
  }

  lemma LookupDecides(es: seq<AclKey>, foreign: seq<Foreign>, p: Seen, best: Option<nat>, a: AclAction)
    requires best == None ==> a == Pass && foreign == [] && forall j :: 0 <= j < |es| ==> !Matches(es[j], p)
    requires best.Some? ==> Candidate(es, foreign, p, best.value, a)
    requires forall j :: 0 <= j < |es| && Matches(es[j], p) ==> best.Some? && best.value <= es[j].priority
    requires forall j :: 0 <= j < |foreign| ==> best.Some? && best.value <= foreign[j].priority
    ensures Decides(es, foreign, p, a)
  {
    hide Matches;
    if best.Some? {
      assert Precedes(es, foreign, p, best.value);
    }
  }

  /** The best installed entry a packet matches. */
  function InstalledPriority(p: Seen): Option<nat> {
    if p.colour == COLOR_RED then Some(ACL_HIGHEST_PRI)
    else if p.ipv4 && p.needDrop == 1 then Some(ACL_SYSTEM_PRI)
    else None
  }

  /** A foreign entry that lets the packet through can win. */
  ghost predicate Saves(foreign: seq<Foreign>, f: Foreign, limit: nat) {
    f in foreign && !Drops(f.action) && f.priority <= limit && forall g :: g in foreign ==> f.priority <= g.priority
  }

  /** A packet that matches an installed entry is dropped, whatever the table
      makes of ties, exactly when no foreign entry that lets it through comes
      first or ties for first. */
  lemma InstalledDropIff(foreign: seq<Foreign>, p: Seen)
    requires InstalledPriority(p).Some?
    ensures (forall a :: Decides(ACL_TABLE, foreign, p, a) ==> Drops(a)) <==>
      !(exists f :: Saves(foreign, f, InstalledPriority(p).value))
  {
    hide Matches;
    var limit := InstalledPriority(p).value;
    InstalledCandidates(foreign, p);
    if f :| Saves(foreign, f, limit) {
      assert Foreign(f.priority, f.action) == f;
      assert Candidate(ACL_TABLE, foreign, p, f.priority, f.action);
      assert Precedes(ACL_TABLE, foreign, p, f.priority);
      assert Decides(ACL_TABLE, foreign, p, f.action);
    }
    if a :| Decides(ACL_TABLE, foreign, p, a) && !Drops(a) {
      assert Candidate(ACL_TABLE, foreign, p, limit, DropPacket);
      var q: nat :| Candidate(ACL_TABLE, foreign, p, q, a) && Precedes(ACL_TABLE, foreign, p, q);
      forall g | g in foreign
        ensures q <= g.priority
      {
        assert Foreign(g.priority, g.action) == g;
        assert Candidate(ACL_TABLE, foreign, p, g.priority, g.action);
      }
      assert Saves(foreign, Foreign(q, a), limit);
    }
  }

  /** The installed entries a packet matches have its installed priority or a
      later one, and one of them has exactly it. */
  lemma InstalledCandidates(foreign: seq<Foreign>, p: Seen)
    requires InstalledPriority(p).Some?
    ensures Candidate(ACL_TABLE, foreign, p, InstalledPriority(p).value, DropPacket)
    ensures forall q: nat, a :: Candidate(ACL_TABLE, foreign, p, q, a) && Foreign(q, a) !in foreign ==>
      InstalledPriority(p).value <= q
  {
    hide Matches;
    InstalledEntriesMatch(p);
    if p.colour == COLOR_RED {
      assert Matches(ACL_TABLE[1], p) && ACL_TABLE[1].priority == ACL_HIGHEST_PRI;
    } else {
      assert Matches(ACL_TABLE[0], p) && ACL_TABLE[0].priority == ACL_SYSTEM_PRI;
    }
  }

  /** No RED packet leaves, as long as nobody else uses the first priority to let
      packets through. */
  lemma NoRedLeaves(foreign: seq<Foreign>, p: Seen, a: AclAction)
    requires p.colour == COLOR_RED && Decides(ACL_TABLE, foreign, p, a)
    requires forall f :: f in foreign && f.priority == ACL_HIGHEST_PRI ==> Drops(f.action)
    ensures Drops(a)
  {
    hide Decides;
    InstalledDropIff(foreign, p);
  }

  /** The mark does not always drop: a mirror entry, at the priority meant for
      mirrors, comes before the entry that drops marked packets. */
  lemma MirrorSavesMarkedPacket(p: Seen)
    requires p.ipv4 && p.needDrop == 1 && p.colour != COLOR_RED
    ensures Decides(ACL_TABLE, [Foreign(ACL_MIRROR_PRI, CopyToCpu)], p, CopyToCpu) && !Drops(CopyToCpu)
  {
    hide Matches;
    var foreign := [Foreign(ACL_MIRROR_PRI, CopyToCpu)];
    InstalledCandidates(foreign, p);
    assert Candidate(ACL_TABLE, foreign, p, ACL_MIRROR_PRI, CopyToCpu);
    assert Precedes(ACL_TABLE, foreign, p, ACL_MIRROR_PRI);
  }

  // ---------- the controls before it ----------

  /** `DecapMetaData_I2E02`, as far as the meters see it. */
  function BandwidthNoted(s: State, r: Residue): State {
    if s.hdr.innerIpv4.Some? != s.hdr.innerIpv6.Some?
    then s.(meta := s.meta.(bandwidthId := BridgeOf(s.hdr, r).eipOrBwid)) else s
  }

  /** An unknown tunnel destination marks the packet. */
  function DstChecked(s: State, known: bool, r: Residue): State {
    if !known && BridgeOf(s.hdr, r).tunnelDstId != 0 then MarkedForDrop(s) else s
  }

  /** What the outbound ledgers are told, by the source EIP. */
  function OutboundEvent4(s: State, r: Residue): Option<Event> {
    if s.hdr.innerIpv4.Some? then Some(Event(Key32(s.hdr.innerIpv4.value.srcAddr), IsRed(s, r))) else None
  }

  function OutboundEvent6(s: State, r: Residue): Option<Event> {
    if s.hdr.innerIpv4.None? && s.hdr.innerIpv6.Some?
    then Some(Event(Key128(s.hdr.innerIpv6.value.srcAddr), IsRed(s, r))) else None
  }

  method EipOutEgressPktStats(phv: Phv, l4: Ledger, l6: Ledger, r: Residue)
    requires l4 != l6
    modifies l4, l6
    ensures l4.Value() == Told(old(l4.Value()), OutboundEvent4(phv.Value(), r))
    ensures l6.Value() == Told(old(l6.Value()), OutboundEvent6(phv.Value(), r))
  {
    hide Counted, Key32, Key128;
    var colour := BridgeOf(phv.hdr, r).meterPacketColor;
    if phv.hdr.innerIpv4.Some? && colour != COLOR_RED {
      l4.Count(Key32(phv.hdr.innerIpv4.value.srcAddr), false);
    } else if phv.hdr.innerIpv4.Some? && colour == COLOR_RED {
      l4.Count(Key32(phv.hdr.innerIpv4.value.srcAddr), true);
    } else if phv.hdr.innerIpv6.Some? && colour != COLOR_RED {
      l6.Count(Key128(phv.hdr.innerIpv6.value.srcAddr), false);
    } else if phv.hdr.innerIpv6.Some? && colour == COLOR_RED {
      l6.Count(Key128(phv.hdr.innerIpv6.value.srcAddr), true);
    }
  }

  /** The tables and answers one packet meets in P02 egress. */
  datatype Exit = Exit(eip: set<bv32>, shared: set<bv16>, answers: (bv2, bv2), dstKnown: bool)

  function EipMetered(s: State, x: Exit, r: Residue): State {
    Metered(BandwidthNoted(s, r), x.eip, x.answers.0)
  }

  function OutboundMetered(s: State, x: Exit, r: Residue): State {
    BothMetered(BandwidthNoted(s, r), x.eip, x.shared, x.answers, r)
  }

  predicate IsInbound(s: State, r: Residue) {
    BridgeOf(s.hdr, r).igrTunnelType == TYPE_INGRESS_INTERNET_IN
  }

  /** What the ACL sees of a packet that is not redirected. */
  function SeenAtAcl(s: State, x: Exit, r: Residue): Seen {
    if IsInbound(s, r) then SeenOf(DstChecked(s, x.dstKnown, r), r)
    else
      var m := OutboundMetered(s, x, r);
      SeenOf(m.(hdr := Decapsulated(m.hdr)), r)
  }

  lemma SeenInHeaders(s: State, t: State, r: Residue)
    requires s.hdr == t.hdr
    ensures SeenOf(s, r) == SeenOf(t, r)
  {
  }

  /** `P02_Egress` up to the ACL, for a packet that is not redirected. */
  method P02EgressMatched(phv: Phv, x: Exit, toCpu: bool, es: seq<AclKey>, foreign: seq<Foreign>,
                          shared: Ledger, l4: Ledger, l6: Ledger, r: Residue) returns (a: AclAction)
    requires phv.hdr.bridge.Some? && IsMatched(phv.Value(), r) && shared != l4 && shared != l6 && l4 != l6
    modifies phv, shared, l4, l6
    ensures if toCpu then a == Pass else Decides(es, foreign, SeenAtAcl(old(phv.Value()), x, r), a)
    ensures phv.drop == (old(phv.drop) || Drops(a))
    ensures IsInbound(old(phv.Value()), r) ==>
      shared.Value() == old(shared.Value()) && l4.Value() == old(l4.Value()) && l6.Value() == old(l6.Value())
    ensures !IsInbound(old(phv.Value()), r) ==>
      && shared.Value() == Told(old(shared.Value()),
                                SharedEvent(EipMetered(old(phv.Value()), x, r), x.shared, x.answers.1, r))
      && l4.Value() == Told(old(l4.Value()), OutboundEvent4(OutboundMetered(old(phv.Value()), x, r), r))
      && l6.Value() == Told(old(l6.Value()), OutboundEvent6(OutboundMetered(old(phv.Value()), x, r), r))
  {
    hide Decides, Told, OutboundEvent4, OutboundEvent6, Metered, SharedMetered, Decapsulated, SharedEvent, SeenOf;
    if phv.hdr.innerIpv4.Some? != phv.hdr.innerIpv6.Some? {
      phv.meta := phv.meta.(bandwidthId := BridgeOf(phv.hdr, r).eipOrBwid);
    }
    if BridgeOf(phv.hdr, r).igrTunnelType == TYPE_INGRESS_INTERNET_IN {
      if !x.dstKnown && BridgeOf(phv.hdr, r).tunnelDstId != 0 {
        phv.hdr := phv.hdr.(bridge := SetNeedDrop(phv.hdr.bridge));
      }
    } else {
      EipMeter(phv, x.eip, x.answers.0);
      SharedMeter(phv, x.shared, shared, x.answers.1, r);
      EipOutEgressPktStats(phv, l4, l6, r);
      InternetOutProcess(phv);
    }
    ghost var s := old(phv.Value());
    ghost var m := OutboundMetered(s, x, r);
    ghost var n := if IsInbound(s, r) then DstChecked(s, x.dstKnown, r) else m.(hdr := Decapsulated(m.hdr));
    SeenInHeaders(phv.Value(), n, r);
    a := EgressSystemAcl(phv, toCpu, es, foreign, r);
  }

  // ---------- what becomes of a packet ----------

  /** What the ACL sees: inbound the colour the packet came with, and the mark it
      came with or an unknown tunnel destination; outbound the meters' colour. */
  lemma SeenIsFate(s: State, x: Exit, r: Residue)
    requires s.hdr.bridge.Some?
    ensures var p := SeenAtAcl(s, x, r);
      && (IsInbound(s, r) ==> p.colour == Colour(s, r) && p.ipv4 == s.hdr.ipv4.Some?)
      && (IsInbound(s, r) ==>
        (p.needDrop == 1 <==> NeedsDrop(s, r) || (!x.dstKnown && BridgeOf(s.hdr, r).tunnelDstId != 0)))
      && (!IsInbound(s, r) ==> p.colour == Colour(OutboundMetered(s, x, r), r))
  {
    hide OutboundMetered;
  }

  /** Outbound, a packet that a meter which ran called RED does not leave. */
  lemma OutboundRedDropped(s: State, x: Exit, foreign: seq<Foreign>, r: Residue, a: AclAction)
    requires s.hdr.bridge.Some? && !IsInbound(s, r)
    requires COLOR_RED in Answers(BandwidthNoted(s, r), x.eip, x.shared, x.answers, r)
    requires Decides(ACL_TABLE, foreign, SeenAtAcl(s, x, r), a)
    requires forall f :: f in foreign && f.priority == ACL_HIGHEST_PRI ==> Drops(f.action)
    ensures Drops(a)
  {
    SeenIsFate(s, x, r);
    RedIffMeterSaidRed(BandwidthNoted(s, r), x.eip, x.shared, x.answers, r);
    hide Decides, SeenAtAcl, Answers, BothMetered;
    NoRedLeaves(foreign, SeenAtAcl(s, x, r), a);
  }

  /** The fate of an outbound packet in terms of its headers, the entries and the
      answers: the ACL sees RED when the meter of the packet's EIP says so, or, on IPv4,
      the one of its shared-bandwidth group; an EIP without an entry leaves the colour
      the packet came with. */
  lemma OutboundFate(s: State, x: Exit, r: Residue)
    requires s.hdr.bridge.Some? && !IsInbound(s, r) && s.hdr.innerIpv4.Some? != s.hdr.innerIpv6.Some?
    ensures var bg := s.hdr.bridge.value;
      var eipRed := if bg.eipOrBwid in x.eip then x.answers.0 == 3 else bg.meterPacketColor == 3;
      SeenAtAcl(s, x, r).colour == 3 <==>
        eipRed || (s.hdr.innerIpv4.Some? && bg.sharedBandwidthId in x.shared && x.answers.1 == 3)
  {
    SeenIsFate(s, x, r);
    var n := BandwidthNoted(s, r);
    ColourAfterBoth(n, x.eip, x.shared, x.answers, r);
    hide SeenAtAcl, BothMetered;
  }

  lemma ColourAfterBoth(s: State, eip: set<bv32>, shared: set<bv16>, a: (bv2, bv2), r: Residue)
    requires s.hdr.bridge.Some?
    ensures var bg := s.hdr.bridge.value;
      IsRed(BothMetered(s, eip, shared, a, r), r) <==>
        (if (s.hdr.innerIpv4.Some? || s.hdr.innerIpv6.Some?) && s.meta.bandwidthId in eip
         then a.0 == 3 else bg.meterPacketColor == 3) ||
        (s.hdr.innerIpv4.Some? && bg.sharedBandwidthId in shared && a.1 == 3)
  {
  }

  /** An outbound IPv6 packet whose EIP is limited is dropped exactly when its meter
      says RED; nobody else's entry is in the ACL. */
  lemma OutboundIpv6Fate(s: State, x: Exit, r: Residue, a: AclAction)
    requires s.hdr.bridge.Some? && !IsInbound(s, r) && s.hdr.innerIpv4.None? && s.hdr.innerIpv6.Some?
    requires s.hdr.bridge.value.eipOrBwid in x.eip
    requires Decides(ACL_TABLE, [], SeenAtAcl(s, x, r), a)
    ensures Drops(a) <==> x.answers.0 == 3
  {
    hide Decides, SeenAtAcl;
    OutboundFate(s, x, r);
    OutboundIpv4IsNone(s, x, r);
    UnsharedAclDrops(SeenAtAcl(s, x, r), a);
  }

  /** An outbound IPv4 packet whose EIP is limited is dropped exactly when its meter
      says RED, or the shared one does that its group has. */
  lemma OutboundIpv4Fate(s: State, x: Exit, r: Residue, a: AclAction)
    requires s.hdr.bridge.Some? && !IsInbound(s, r) && s.hdr.innerIpv4.Some? && s.hdr.innerIpv6.None?
    requires s.hdr.bridge.value.eipOrBwid in x.eip
    requires Decides(ACL_TABLE, [], SeenAtAcl(s, x, r), a)
    ensures Drops(a) <==>
      x.answers.0 == 3 || (s.hdr.bridge.value.sharedBandwidthId in x.shared && x.answers.1 == 3)
  {
    hide Decides, SeenAtAcl;
    OutboundFate(s, x, r);
    OutboundIpv4IsNone(s, x, r);
    UnsharedAclDrops(SeenAtAcl(s, x, r), a);
  }

  /** Decapsulation has removed the outer IPv4 header before the ACL looks. */
  lemma OutboundIpv4IsNone(s: State, x: Exit, r: Residue)
    requires s.hdr.bridge.Some? && !IsInbound(s, r) && s.hdr.innerIpv4.Some? != s.hdr.innerIpv6.Some?
    ensures !SeenAtAcl(s, x, r).ipv4
  {
    MetersKeepInner(s, x, r);
    hide OutboundMetered, IsInbound;
  }

  /** With the installed entries alone, a packet is dropped exactly when it is RED or
      marked behind an outer IPv4 header. */
  lemma UnsharedAclDrops(p: Seen, a: AclAction)
    requires Decides(ACL_TABLE, [], p, a)
    ensures Drops(a) <==> p.colour == 3 || (p.ipv4 && p.needDrop == 1)
  {
    hide Matches;
    InstalledEntriesMatch(p);
    if InstalledPriority(p).Some? {
      InstalledDropIff([], p);
    } else {
      assert forall q: nat, b :: !Candidate(ACL_TABLE, [], p, q, b);
    }
  }

  /** Inbound, a mark set anywhere before P02 egress survives P13 ingress and gets
      the packet dropped, exactly when no foreign entry saves it. */
  lemma InboundMarkDropsIff(s: State, v: Visit, x: Exit, foreign: seq<Foreign>, r: Residue)
    requires s.hdr.bridge.Some? && IsMatched(s, r) && NeedsDrop(s, r) && s.hdr.ipv4.Some? && IsInbound(s, r)
    ensures var p := SeenAtAcl(P13IngressResult(s, v, r), x, r);
      && InstalledPriority(p).Some?
      && ((forall a :: Decides(ACL_TABLE, foreign, p, a) ==> Drops(a)) <==>
          !(exists f :: Saves(foreign, f, InstalledPriority(p).value)))
  {
    hide Decides, SeenAtAcl;
    var n := P13IngressResult(s, v, r);
    MarkSurvives(s, v, r);
    hide P13IngressResult;
    SeenIsFate(n, x, r);
    InstalledDropIff(foreign, SeenAtAcl(n, x, r));
  }

  lemma MarkSurvives(s: State, v: Visit, r: Residue)
    requires s.hdr.bridge.Some? && IsMatched(s, r) && NeedsDrop(s, r) && s.hdr.ipv4.Some? && IsInbound(s, r)
    ensures var n := P13IngressResult(s, v, r);
      n.hdr.bridge.Some? && NeedsDrop(n, r) && n.hdr.ipv4.Some? && IsInbound(n, r)
  {
    var t := s.(port := BridgeOf(s.hdr, r).igrPort as nat);
    AfterMeterKeeps(t, v, r);
    var m := AfterMeter(t, v, r);
    hide AfterMeter, Located;
    MarkIsNeverCleared(m, v.lookups, r);
  }

  lemma AfterMeterKeeps(s: State, v: Visit, r: Residue)
    requires s.hdr.bridge.Some?
    ensures var m := AfterMeter(s, v, r); m.hdr.bridge.Some? && NeedsDrop(m, r) == NeedsDrop(s, r) && SameWay(m, s, r)
  {
  }

  // ---------- runs of outbound packets ----------

  /** A packet that reaches P02 egress without having been redirected. */
  datatype Departure = Departure(s: State, x: Exit, r: Residue)

  /** What an outbound packet tells a ledger. */
  function OutEventOf(d: Departure, book: Book): Option<Event> {
    if IsInbound(d.s, d.r) then None
    else
      match book
      case Eip4 => OutboundEvent4(OutboundMetered(d.s, d.x, d.r), d.r)
      case Eip6 => OutboundEvent6(OutboundMetered(d.s, d.x, d.r), d.r)
      case SharedBandwidth => SharedEvent(EipMetered(d.s, d.x, d.r), d.x.shared, d.x.answers.1, d.r)
  }

  function OutEventsOfRun(run: seq<Departure>, book: Book): (es: seq<Option<Event>>)
    ensures |es| == |run|
  {
    if run == [] then [] else OutEventsOfRun(run[..|run| - 1], book) + [OutEventOf(run[|run| - 1], book)]
  }

  /** The packet is one of those the ledger counts under the key: it goes out from
      the EIP, or from the shared-bandwidth group and its EIP's meter left it not RED. */
  predicate GoesOutFrom(d: Departure, book: Book, key: nat) {
    !IsInbound(d.s, d.r) &&
    match book
    case Eip4 => d.s.hdr.innerIpv4.Some? && Key32(d.s.hdr.innerIpv4.value.srcAddr) == key
    case Eip6 => d.s.hdr.innerIpv4.None? && d.s.hdr.innerIpv6.Some? && Key128(d.s.hdr.innerIpv6.value.srcAddr) == key
    case SharedBandwidth =>
      d.s.hdr.innerIpv4.Some? && !IsRed(EipMetered(d.s, d.x, d.r), d.r) && SharedKey(d.s, d.r) == key
  }

  function OutboundPackets(run: seq<Departure>, book: Book, key: nat): nat {
    if run == [] then 0
    else OutboundPackets(run[..|run| - 1], book, key) + (if GoesOutFrom(run[|run| - 1], book, key) then 1 else 0)
  }

  lemma MetersKeepInner(s: State, x: Exit, r: Residue)
    ensures var m := OutboundMetered(s, x, r); m.hdr.innerIpv4 == s.hdr.innerIpv4 && m.hdr.innerIpv6 == s.hdr.innerIpv6
    ensures var m := EipMetered(s, x, r); m.hdr.innerIpv4 == s.hdr.innerIpv4 && SharedKey(m, r) == SharedKey(s, r)
  {
  }

  lemma GoesOutWhenTold(d: Departure, book: Book, key: nat)
    ensures GoesOutFrom(d, book, key) <==> OutEventOf(d, book).Some? && OutEventOf(d, book).value.key == key
  {
    hide IsInbound, Key32, Key128, OutboundMetered, EipMetered, SharedKey, SharedMetered;
    MetersKeepInner(d.s, d.x, d.r);
  }

  lemma {:induction false} OutRunCounts(run: seq<Departure>, book: Book, key: nat)
    ensures PacketsOf(OutEventsOfRun(run, book), key) == OutboundPackets(run, book, key)
  {
    hide GoesOutFrom, OutEventOf;
    if run != [] {
      OutRunCounts(run[..|run| - 1], book, key);
      GoesOutWhenTold(run[|run| - 1], book, key);
      assert OutEventsOfRun(run, book)[..|run| - 1] == OutEventsOfRun(run[..|run| - 1], book);
    }
  }

  /** Over any run of outbound packets and in each of the three ledgers: the passed
      and dropped counts of a key together grow by exactly the packets counted under
      it. */
  lemma OutboundConservation(l: LedgerState, run: seq<Departure>, book: Book, key: nat)
    requires key in l.pass && key in l.drop && l.pass[key] < TWO_TO_32 && l.drop[key] < TWO_TO_32
    ensures var n := ToldAll(l, OutEventsOfRun(run, book));
      (At(n.pass, key) + At(n.drop, key)) % TWO_TO_32 ==
        (At(l.pass, key) + At(l.drop, key) + OutboundPackets(run, book, key)) % TWO_TO_32
  {
    hide At, OutEventsOfRun, OutboundPackets, ToldAll, PacketsOf;
    OutRunCounts(run, book, key);
    Conservation(l, OutEventsOfRun(run, book), key);
  }
}
