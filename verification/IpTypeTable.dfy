/** The ternary table `igw_ip_type` that decides what an arriving packet is:
    filled the way the C initialisers fill it, looked up the way the hardware
    does, and characterised by one decision function. */
module IpTypeTable {
  import opened Wrappers
  import opened PacketParsers

  const EGR_PIPELINE_0: bv3 := 1
  const EGR_PIPELINE_1: bv3 := 2
  const EGR_PIPELINE_2: bv3 := 3
  const EGR_PIPELINE_3: bv3 := 4
  const TOF_EIP_IN: bv4 := 1
  const TOF_EIP_OUT: bv4 := 2
  const TOF_AZ_IN: bv4 := 3
  const TOF_AZ_OUT: bv4 := 4
  const HIGHEST_PRI := 0
  const LOWEST_PRI := 20

  /** The configuration the tables are filled from. */
  datatype GatewayConfig = GatewayConfig(vip: bv32, backupVip: bv32, sharedBwVip: bv32, dlIp: bv32, dlMask: bv32)

  datatype Direction = In | Out

  datatype IpAction = Hit(dir: Direction, dl: bv1, pipe: bv3) | NeedDrop

  /** A ternary key: a value and a mask per field. */
  datatype OuterKey = OuterKey(
    ipv4Valid: bv1, ipv4ValidMask: bv1, ipv4Dst: bv32, ipv4DstMask: bv32, vxlanValid: bv1, vxlanValidMask: bv1,
    vxlanType: bv2, vxlanTypeMask: bv2, tof: bv4, tofMask: bv4,
    ipv6Valid: bv1, ipv6ValidMask: bv1, ipv6Dst: bv128, ipv6DstMask: bv128)

  datatype InnerKey = InnerKey(
    ipv4Valid: bv1, ipv4ValidMask: bv1, ipv4Dst: bv32, ipv4DstMask: bv32,
    ipv6Valid: bv1, ipv6ValidMask: bv1, ipv6Dst: bv2, ipv6DstMask: bv2, ipv6Src: bv2, ipv6SrcMask: bv2)

  datatype Key = Key(priority: nat, outer: OuterKey, inner: InnerKey)

  // `memset(&key, 0, sizeof key)`
  const ZERO_OUTER := OuterKey(0, 0, 0, 0, 0, 0, 0, 0, 0, 0, 0, 0, 0, 0)
  const ZERO_INNER := InnerKey(0, 0, 0, 0, 0, 0, 0, 0, 0, 0)
  const ZERO_KEY := Key(0, ZERO_OUTER, ZERO_INNER)

  datatype Entry = Entry(key: Key, action: IpAction)

  /** The fields of a packet the table looks at. */
  datatype Fields = Fields(ipv4Valid: bv1, ipv4Dst: bv32, vxlanValid: bv1, inner4Valid: bv1, inner4Dst: bv32,
                           inner6Valid: bv1, inner6Dst: bv2, inner6Src: bv2, vxlanType: bv2, tof: bv4,
                           ipv6Valid: bv1, ipv6Dst: bv128)

  // A ternary field matches where its mask has ones.

  predicate Ternary1(v: bv1, k: bv1, m: bv1) { v & m == k & m }
  predicate Ternary2(v: bv2, k: bv2, m: bv2) { v & m == k & m }
  predicate Ternary4(v: bv4, k: bv4, m: bv4) { v & m == k & m }
  predicate Ternary32(v: bv32, k: bv32, m: bv32) { v & m == k & m }
  predicate Ternary128(v: bv128, k: bv128, m: bv128) { v & m == k & m }

  lemma TernaryExtremes(v1: bv1, k1: bv1, v2: bv2, k2: bv2, v4: bv4, k4: bv4)
    ensures Ternary1(v1, k1, 1) <==> v1 == k1
    ensures Ternary1(v1, k1, 0)
    ensures Ternary2(v2, k2, 3) <==> v2 == k2
    ensures Ternary2(v2, k2, 0)
    ensures Ternary4(v4, k4, 0xF) <==> v4 == k4
  {
  }

  lemma TernaryParity(v2: bv2, v32: bv32, v128: bv128, odd: bool)
    ensures Ternary2(v2, Bit2(odd), 1) <==> odd == (v2 & 1 == 1)
    ensures Ternary32(v32, Bit32(odd), 1) <==> odd == (v32 & 1 == 1)
    ensures Ternary128(v128, Bit128(odd), 1) <==> odd == (v128 & 1 == 1)
  {
  }

  lemma TernaryFree32(v: bv32, k: bv32)
    ensures Ternary32(v, k, 0)
  {
  }

  lemma TernaryFree128(v: bv128, k: bv128)
    ensures Ternary128(v, k, 0)
  {
  }

  lemma TernaryExact32(v: bv32, k: bv32)
    ensures Ternary32(v, k, 0xFFFF_FFFF) <==> v == k
  {
    assert v & 0xFFFF_FFFF == v;
    assert k & 0xFFFF_FFFF == k;
  }

  predicate MatchesOuter(k: OuterKey, f: Fields) {
    && Ternary1(f.ipv4Valid, k.ipv4Valid, k.ipv4ValidMask)
    && Ternary32(f.ipv4Dst, k.ipv4Dst, k.ipv4DstMask)
    && Ternary1(f.vxlanValid, k.vxlanValid, k.vxlanValidMask)
    && Ternary2(f.vxlanType, k.vxlanType, k.vxlanTypeMask)
    && Ternary4(f.tof, k.tof, k.tofMask)
    && Ternary1(f.ipv6Valid, k.ipv6Valid, k.ipv6ValidMask)
    && Ternary128(f.ipv6Dst, k.ipv6Dst, k.ipv6DstMask)
  }

  predicate MatchesInner(k: InnerKey, f: Fields) {
    && Ternary1(f.inner4Valid, k.ipv4Valid, k.ipv4ValidMask)
    && Ternary32(f.inner4Dst, k.ipv4Dst, k.ipv4DstMask)
    && Ternary1(f.inner6Valid, k.ipv6Valid, k.ipv6ValidMask)
    && Ternary2(f.inner6Dst, k.ipv6Dst, k.ipv6DstMask)
    && Ternary2(f.inner6Src, k.ipv6Src, k.ipv6SrcMask)
  }

  predicate Matches(k: Key, f: Fields) {
    MatchesOuter(k.outer, f) && MatchesInner(k.inner, f)
  }

  // ---------- the rules behind the entries ----------

  /** Where tunnelled traffic comes from: a host (standard VXLAN), another
      cluster, or another gateway of this cluster (both JD VXLAN). */
  datatype Scope = Host | Az | Eip

  /** One rule of the table.  `odd` is the parity of the EIP it selects. */
  datatype Rule =
    | Tunnel(dir: Direction, scope: Scope, inner6: bool, odd: bool)
    | RawV4(odd: bool)
    | Multicast
    | RawV6(odd: bool)

  function Bit2(b: bool): bv2 { if b then 1 else 0 }
  function Bit32(b: bool): bv32 { if b then 1 else 0 }
  function Bit128(b: bool): bv128 { if b then 1 else 0 }

  function TofOf(dir: Direction, scope: Scope): bv4 {
    match scope
    case Host => 0
    case Az => if dir == In then TOF_AZ_IN else TOF_AZ_OUT
    case Eip => if dir == In then TOF_EIP_IN else TOF_EIP_OUT
  }

  function TypeOf(scope: Scope): bv2 {
    if scope == Host then VXLAN_TYPE_STD else VXLAN_TYPE_JD
  }

  /** Outbound IPv4 takes pipe 2 here (its parity is looked at after SNAT). */
  function PipeOf(r: Rule): bv3 {
    match r
    case Tunnel(In, _, _, odd) => if odd then EGR_PIPELINE_1 else EGR_PIPELINE_3
    case Tunnel(Out, _, inner6, odd) => if inner6 && odd then EGR_PIPELINE_0 else EGR_PIPELINE_2
    case RawV4(odd) => if odd then EGR_PIPELINE_1 else EGR_PIPELINE_3
    case RawV6(odd) => if odd then EGR_PIPELINE_1 else EGR_PIPELINE_3
    case Multicast => 0
  }

  function ActionOfRule(r: Rule): IpAction {
    match r
    case Tunnel(dir, scope, _, _) => Hit(dir, if scope == Host then 0 else 1, PipeOf(r))
    case Multicast => NeedDrop
    case _ => Hit(In, 0, PipeOf(r))
  }

  function PriorityOf(r: Rule): nat {
    if r.Tunnel? || r.Multicast? then HIGHEST_PRI else LOWEST_PRI
  }

  /** The outbound within-cluster entries leave the other inner version open. */
  function OtherInnerMask(dir: Direction, scope: Scope): bv1 {
    if dir == Out && scope == Eip then 0 else 1
  }

  function TunnelOuter(dir: Direction, scope: Scope, dst: bv32, mask: bv32): OuterKey {
    OuterKey(ipv4Valid := 1, ipv4ValidMask := 1, ipv4Dst := dst, ipv4DstMask := mask, vxlanValid := 1,
             vxlanValidMask := 1,
             vxlanType := TypeOf(scope), vxlanTypeMask := 3, tof := TofOf(dir, scope), tofMask := 0xF,
             ipv6Valid := 0, ipv6ValidMask := 1, ipv6Dst := 0, ipv6DstMask := 0)
  }

  function TunnelInner(r: Rule): InnerKey
    requires r.Tunnel?
  {
    var other := OtherInnerMask(r.dir, r.scope);
    if !r.inner6 && r.dir == In then InnerKey(1, 1, Bit32(r.odd), 1, 0, other, 0, 0, 0, 0)
    else if !r.inner6 then InnerKey(1, 1, 0, 0, 0, other, 0, 0, 0, 0)
    else if r.dir == In then InnerKey(0, other, 0, 0, 1, 1, Bit2(r.odd), 1, 0, 0)
    else InnerKey(0, other, 0, 0, 1, 1, 0, 0, Bit2(r.odd), 1)
  }

  function TunnelKey(r: Rule, dst: bv32, mask: bv32): Key
    requires r.Tunnel?
  {
    Key(HIGHEST_PRI, TunnelOuter(r.dir, r.scope, dst, mask), TunnelInner(r))
  }

  const MULTICAST: bv128 := 0xFF00_0000_0000_0000_0000_0000_0000_0000

  function PlainKey(r: Rule): Key
    requires !r.Tunnel?
  {
    match r
    case RawV4(odd) =>
      Key(LOWEST_PRI, ZERO_OUTER.(ipv4Valid := 1, ipv4ValidMask := 1, ipv4Dst := Bit32(odd), ipv4DstMask := 1,
                                  ipv6ValidMask := 1), ZERO_INNER)
    case Multicast =>
      Key(HIGHEST_PRI, ZERO_OUTER.(ipv4ValidMask := 1, ipv6Valid := 1, ipv6ValidMask := 1, ipv6Dst := MULTICAST,
                                   ipv6DstMask := MULTICAST), ZERO_INNER)
    case RawV6(odd) =>
      Key(LOWEST_PRI, ZERO_OUTER.(ipv4ValidMask := 1, ipv6Valid := 1, ipv6ValidMask := 1, ipv6Dst := Bit128(odd),
                                  ipv6DstMask := 1), ZERO_INNER)
  }

  /** The entries a rule is installed as: one, or one per VIP. */
  function EntriesOf(c: GatewayConfig, r: Rule): seq<Entry> {
    if !r.Tunnel? then [Entry(PlainKey(r), ActionOfRule(r))]
    else if r.scope == Eip then [Entry(TunnelKey(r, c.dlIp, c.dlMask), ActionOfRule(r))]
    else [Entry(TunnelKey(r, c.vip, 0xFFFF_FFFF), ActionOfRule(r))] +
         (if c.backupVip != 0 then [Entry(TunnelKey(r, c.backupVip, 0xFFFF_FFFF), ActionOfRule(r))] else [])
  }

  function EntriesOfAll(c: GatewayConfig, rules: seq<Rule>): seq<Entry> {
    if rules == [] then [] else EntriesOf(c, rules[0]) + EntriesOfAll(c, rules[1..])
  }

  const OUT_HOST_RULES := [Tunnel(Out, Host, false, false), Tunnel(Out, Host, true, true),
                           Tunnel(Out, Host, true, false)]
  const OUT_AZ_RULES := [Tunnel(Out, Az, false, false), Tunnel(Out, Az, true, true), Tunnel(Out, Az, true, false)]
  const OUT_EIP_RULES := [Tunnel(Out, Eip, false, false), Tunnel(Out, Eip, true, true), Tunnel(Out, Eip, true, false)]
  const RAW_RULES := [RawV4(true), RawV4(false), Multicast, RawV6(true), RawV6(false)]
  const IN_AZ_RULES := [Tunnel(In, Az, false, true), Tunnel(In, Az, false, false), Tunnel(In, Az, true, true),
                        Tunnel(In, Az, true, false)]
  const IN_EIP_RULES := [Tunnel(In, Eip, false, true), Tunnel(In, Eip, false, false), Tunnel(In, Eip, true, true),
                         Tunnel(In, Eip, true, false)]

  /** The table as `igw_ip_type_table_init` leaves it. */
  function Table(c: GatewayConfig): seq<Entry> {
    EntriesOfAll(c, OUT_HOST_RULES) + (EntriesOfAll(c, OUT_AZ_RULES) + (EntriesOfAll(c, OUT_EIP_RULES) +
    (EntriesOfAll(c, RAW_RULES) + (EntriesOfAll(c, IN_AZ_RULES) + EntriesOfAll(c, IN_EIP_RULES)))))
  }

  // ---------- looking a packet up ----------

  /** The hardware's choice: the matching entry with the lowest priority
      number; on a tie the one installed first. */
  function Best(es: seq<Entry>, f: Fields): Option<Entry> {
    if es == [] then None
    else
      var b, e := Best(es[..|es| - 1], f), es[|es| - 1];
      if Matches(e.key, f) && (b.None? || e.key.priority < b.value.key.priority) then Some(e) else b
  }

  function Lookup(es: seq<Entry>, f: Fields): IpAction {
    match Best(es, f)
    case None => NeedDrop
    case Some(e) => e.action
  }

  method LookupEntry(es: seq<Entry>, f: Fields) returns (a: IpAction)
    ensures a == Lookup(es, f)
  {
    hide Matches;
    var best: Option<Entry> := None;
    for i := 0 to |es|
      invariant best == Best(es[..i], f)
    {
      assert es[..i + 1][..i] == es[..i];
      if Matches(es[i].key, f) && (best.None? || es[i].key.priority < best.value.key.priority) {
        best := Some(es[i]);
      }
    }
    assert es[..|es|] == es;
    match best {
      case None => a := NeedDrop;
      case Some(e) => a := e.action;
    }
  }

  // ---------- the decision the table makes ----------

  /** Is the packet addressed to this gateway, as traffic of that scope is? */
  predicate Addressed(c: GatewayConfig, scope: Scope, dst: bv32) {
    if scope == Eip then Ternary32(dst, c.dlIp, c.dlMask)
    else dst == c.vip || (c.backupVip != 0 && dst == c.backupVip)
  }

  /** Direction and scope, from the VXLAN variant and the type of flow. */
  function ScopeOf(vxlanType: bv2, tof: bv4): Option<(Direction, Scope)> {
    if vxlanType == VXLAN_TYPE_STD && tof == 0 then Some((Out, Host))
    else if vxlanType != VXLAN_TYPE_JD then None
    else if tof == TOF_EIP_IN then Some((In, Eip))
    else if tof == TOF_EIP_OUT then Some((Out, Eip))
    else if tof == TOF_AZ_IN then Some((In, Az))
    else if tof == TOF_AZ_OUT then Some((Out, Az))
    else None
  }

  /** The parity of the EIP: the inner destination inbound, the inner source
      outbound (for IPv4 that is decided later). */
  predicate EipIsOdd(dir: Direction, f: Fields) {
    if dir == In then (if f.inner6Valid == 1 then f.inner6Dst & 1 == 1 else f.inner4Dst & 1 == 1)
    else f.inner6Valid == 1 && f.inner6Src & 1 == 1
  }

  /** The tunnel rule a packet is for, whoever it is addressed to. */
  function TunnelRuleOf(f: Fields): Option<Rule> {
    if f.ipv4Valid == 1 && f.ipv6Valid == 0 && f.vxlanValid == 1 && f.inner4Valid != f.inner6Valid then
      match ScopeOf(f.vxlanType, f.tof)
      case None => None
      case Some((dir, scope)) => Some(Tunnel(dir, scope, f.inner6Valid == 1, EipIsOdd(dir, f)))
    else None
  }

  predicate IsMulticast(a: bv128) {
    a & MULTICAST == MULTICAST
  }

  /** The multicast addresses are those whose first byte is all ones. */
  lemma MulticastByte(a: bv128)
    ensures IsMulticast(a) <==> a >> 120 == 0xFF
  {
  }

  /** The rule of each priority that applies to a packet, if any. */
  function FiringRule(c: GatewayConfig, f: Fields, p: nat): Option<Rule> {
    if p == HIGHEST_PRI then
      (if f.ipv4Valid == 0 && f.ipv6Valid == 1 && IsMulticast(f.ipv6Dst) then Some(Multicast)
       else match TunnelRuleOf(f)
         case None => None
         case Some(r) => if r.Tunnel? && Addressed(c, r.scope, f.ipv4Dst) then Some(r) else None)
    else if p == LOWEST_PRI then
      (if f.ipv4Valid == 1 && f.ipv6Valid == 0 then Some(RawV4(f.ipv4Dst & 1 == 1))
       else if f.ipv4Valid == 0 && f.ipv6Valid == 1 then Some(RawV6(f.ipv6Dst & 1 == 1))
       else None)
    else None
  }

  /** What becomes of a packet: the tunnel rule it is addressed by, else raw
      inbound traffic, else dropped. */
  function Decision(c: GatewayConfig, f: Fields): IpAction {
    match FiringRule(c, f, HIGHEST_PRI)
    case Some(r) => ActionOfRule(r)
    case None =>
      match FiringRule(c, f, LOWEST_PRI)
      case Some(r) => ActionOfRule(r)
      case None => NeedDrop
  }

  /** The parser never makes both inner IP versions valid. */
  predicate OneInner(f: Fields) {
    f.inner4Valid == 0 || f.inner6Valid == 0
  }

  /** The rules that are installed: hosts only send outbound, and outbound IPv4
      has no parity. */
  predicate Installed(r: Rule) {
    r.Tunnel? ==> (r.dir == In ==> r.scope != Host) && (r.dir == Out && !r.inner6 ==> !r.odd)
  }

  // ---------- one rule's entries ----------

  /** The actions of the matching entries of one priority, in table order. */
  function ActionsAt(es: seq<Entry>, f: Fields, p: nat): seq<IpAction> {
    if es == [] then []
    else (if Matches(es[0].key, f) && es[0].key.priority == p then [es[0].action] else []) + ActionsAt(es[1..], f, p)
  }

  lemma {:induction false} ActionsAtConcat(a: seq<Entry>, b: seq<Entry>, f: Fields, p: nat)
    ensures ActionsAt(a + b, f, p) == ActionsAt(a, f, p) + ActionsAt(b, f, p)
  {
    hide Matches;
    if a == [] {
      assert a + b == b;
    } else {
      assert (a + b)[1..] == a[1..] + b;
      ActionsAtConcat(a[1..], b, f, p);
    }
  }

  lemma PlainEntryFires(c: GatewayConfig, r: Rule, f: Fields, p: nat)
    requires !r.Tunnel?
    ensures Matches(PlainKey(r), f) && PriorityOf(r) == p <==> FiringRule(c, f, p) == Some(r)
    ensures PlainKey(r).priority == PriorityOf(r)
  {
    hide TunnelRuleOf, Addressed, Matches;
    TunnelRuleIsTunnel(f);
    RawV4Matches(f, true);
    RawV4Matches(f, false);
    RawV6Matches(f, true);
    RawV6Matches(f, false);
    MulticastMatches(f);
  }

  lemma RawV4Matches(f: Fields, odd: bool)
    ensures Matches(PlainKey(RawV4(odd)), f) <==> f.ipv4Valid == 1 && f.ipv6Valid == 0 && odd == (f.ipv4Dst & 1 == 1)
  {
  }

  lemma RawV6Matches(f: Fields, odd: bool)
    ensures Matches(PlainKey(RawV6(odd)), f) <==> f.ipv4Valid == 0 && f.ipv6Valid == 1 && odd == (f.ipv6Dst & 1 == 1)
  {
  }

  lemma MulticastMatches(f: Fields)
    ensures Matches(PlainKey(Multicast), f) <==> f.ipv4Valid == 0 && f.ipv6Valid == 1 && IsMulticast(f.ipv6Dst)
  {
  }

  lemma TunnelRuleIsTunnel(f: Fields)
    ensures TunnelRuleOf(f).Some? ==> TunnelRuleOf(f).value.Tunnel? && Installed(TunnelRuleOf(f).value)
  {
  }

  lemma TunnelOuterMatches(dir: Direction, scope: Scope, dst: bv32, mask: bv32, f: Fields)
    requires dir == In ==> scope != Host
    ensures MatchesOuter(TunnelOuter(dir, scope, dst, mask), f) <==>
      && f.ipv4Valid == 1 && f.ipv6Valid == 0 && f.vxlanValid == 1
      && Ternary32(f.ipv4Dst, dst, mask)
      && ScopeOf(f.vxlanType, f.tof) == Some((dir, scope))
  {
    hide TofOf, TypeOf, ScopeOf, Ternary1, Ternary2, Ternary4, Ternary32, Ternary128;
    KeyScope(dir, scope, f.vxlanType, f.tof);
    TernaryExtremes(f.ipv4Valid, 1, f.vxlanType, TypeOf(scope), f.tof, TofOf(dir, scope));
    TernaryExtremes(f.vxlanValid, 1, 0, 0, 0, 0);
    TernaryExtremes(f.ipv6Valid, 0, 0, 0, 0, 0);
    TernaryFree128(f.ipv6Dst, 0);
  }

  lemma KeyScope(dir: Direction, scope: Scope, t: bv2, tof: bv4)
    requires dir == In ==> scope != Host
    ensures ScopeOf(t, tof) == Some((dir, scope)) <==> t == TypeOf(scope) && tof == TofOf(dir, scope)
  {
  }

  lemma TunnelInnerMatches(r: Rule, f: Fields)
    requires r.Tunnel? && Installed(r) && OneInner(f)
    ensures MatchesInner(TunnelInner(r), f) <==>
      f.inner4Valid != f.inner6Valid && r.inner6 == (f.inner6Valid == 1) && r.odd == EipIsOdd(r.dir, f)
  {
    hide Ternary1, Ternary2, Ternary32, Bit2, Bit32;
    TernaryExtremes(f.inner4Valid, 1, f.inner6Dst, 0, 0, 0);
    TernaryExtremes(f.inner4Valid, 0, f.inner6Src, 0, 0, 0);
    TernaryExtremes(f.inner6Valid, 1, 0, 0, 0, 0);
    TernaryExtremes(f.inner6Valid, 0, 0, 0, 0, 0);
    TernaryFree32(f.inner4Dst, 0);
    TernaryParity(f.inner6Dst, f.inner4Dst, 0, r.odd);
    TernaryParity(f.inner6Src, f.inner4Dst, 0, r.odd);
  }

  lemma TunnelEntryMatches(r: Rule, dst: bv32, mask: bv32, f: Fields)
    requires r.Tunnel? && Installed(r) && OneInner(f)
    ensures Matches(TunnelKey(r, dst, mask), f) <==> TunnelRuleOf(f) == Some(r) && Ternary32(f.ipv4Dst, dst, mask)
  {
    hide MatchesOuter, MatchesInner, ScopeOf, EipIsOdd, Ternary32;
    TunnelOuterMatches(r.dir, r.scope, dst, mask, f);
    TunnelInnerMatches(r, f);
  }

  /** Two VIPs that would give the same tunnel entries twice. */
  predicate DistinctVips(c: GatewayConfig) {
    c.backupVip == 0 || c.vip != c.backupVip
  }

  /** Of the entries a rule is installed as, exactly one matches where the rule
      applies, and none elsewhere. */
  lemma RuleFiresOnce(c: GatewayConfig, r: Rule, f: Fields, p: nat)
    requires DistinctVips(c) && Installed(r) && OneInner(f)
    ensures ActionsAt(EntriesOf(c, r), f, p) == if FiringRule(c, f, p) == Some(r) then [ActionOfRule(r)] else []
  {
    hide ActionsAt, Matches, PlainKey, TunnelKey, ActionOfRule, Ternary32, TunnelRuleOf;
    if r.Tunnel? {
      ActionsAtPair(Entry(TunnelKey(r, c.vip, 0xFFFF_FFFF), ActionOfRule(r)),
                    Entry(TunnelKey(r, c.backupVip, 0xFFFF_FFFF), ActionOfRule(r)), f, p);
      ActionsAtPair(Entry(TunnelKey(r, c.dlIp, c.dlMask), ActionOfRule(r)),
                    Entry(TunnelKey(r, c.dlIp, c.dlMask), ActionOfRule(r)), f, p);
      KeyPriority(r, c.vip, c.dlIp, c.dlMask, c.backupVip);
      TunnelEntryMatches(r, c.dlIp, c.dlMask, f);
      TunnelEntryMatches(r, c.vip, 0xFFFF_FFFF, f);
      TunnelEntryMatches(r, c.backupVip, 0xFFFF_FFFF, f);
      TernaryExact32(f.ipv4Dst, c.vip);
      TernaryExact32(f.ipv4Dst, c.backupVip);
      TunnelExcludesMulticast(c, r, f);
    } else {
      ActionsAtPair(Entry(PlainKey(r), ActionOfRule(r)), Entry(PlainKey(r), ActionOfRule(r)), f, p);
      PlainEntryFires(c, r, f, p);
    }
  }

  lemma ActionsAtPair(d: Entry, e: Entry, f: Fields, p: nat)
    ensures var one := if Matches(d.key, f) && d.key.priority == p then [d.action] else [];
      var two := if Matches(e.key, f) && e.key.priority == p then [e.action] else [];
      ActionsAt([d], f, p) == one && ActionsAt([d] + [e], f, p) == one + two && ActionsAt([d] + [], f, p) == one
  {
    hide Matches;
    assert ([d] + [e])[1..] == [e] && [d] + [] == [d];
    assert ActionsAt([e], f, p) == (if Matches(e.key, f) && e.key.priority == p then [e.action] else []) +
      ActionsAt([], f, p);
  }

  lemma KeyPriority(r: Rule, a: bv32, b: bv32, m: bv32, d: bv32)
    requires r.Tunnel?
    ensures TunnelKey(r, a, 0xFFFF_FFFF).priority == TunnelKey(r, d, 0xFFFF_FFFF).priority ==
      TunnelKey(r, b, m).priority == HIGHEST_PRI
  {
  }

  lemma TunnelExcludesMulticast(c: GatewayConfig, r: Rule, f: Fields)
    requires r.Tunnel?
    ensures TunnelRuleOf(f) == Some(r) ==> f.ipv4Valid == 1
  {
  }

  // ---------- the whole table ----------

  function RuleActions(c: GatewayConfig, rules: seq<Rule>, f: Fields, p: nat): seq<IpAction> {
    if rules == [] then []
    else
      var first := if FiringRule(c, f, p) == Some(rules[0]) then [ActionOfRule(rules[0])] else [];
      first + RuleActions(c, rules[1..], f, p)
  }

  lemma {:induction false} RulesFire(c: GatewayConfig, rules: seq<Rule>, f: Fields, p: nat)
    requires DistinctVips(c) && OneInner(f)
    requires forall r :: r in rules ==> Installed(r)
    ensures ActionsAt(EntriesOfAll(c, rules), f, p) == RuleActions(c, rules, f, p)
  {
    hide ActionsAt, EntriesOf, FiringRule, ActionOfRule, Installed;
    if rules != [] {
      RuleFiresOnce(c, rules[0], f, p);
      ActionsAtConcat(EntriesOf(c, rules[0]), EntriesOfAll(c, rules[1..]), f, p);
      RulesFire(c, rules[1..], f, p);
    } else {
      NoEntries(f, p);
    }
  }

  lemma NoEntries(f: Fields, p: nat)
    ensures ActionsAt([], f, p) == []
  {
  }

  /** The initialiser a rule belongs to. */
  datatype Group = OutHost | OutAz | OutEip | RawGroup | InAz | InEip

  function GroupOf(r: Rule): Group {
    if !r.Tunnel? then RawGroup
    else if r.dir == Out then (match r.scope case Host => OutHost case Az => OutAz case Eip => OutEip)
    else if r.scope == Eip then InEip else InAz
  }

  function RulesOf(g: Group): seq<Rule> {
    match g
    case OutHost => OUT_HOST_RULES
    case OutAz => OUT_AZ_RULES
    case OutEip => OUT_EIP_RULES
    case RawGroup => RAW_RULES
    case InAz => IN_AZ_RULES
    case InEip => IN_EIP_RULES
  }

  function OneAction(c: GatewayConfig, g: Group, f: Fields, p: nat): seq<IpAction> {
    match FiringRule(c, f, p)
    case None => []
    case Some(r) => if GroupOf(r) == g then [ActionOfRule(r)] else []
  }

  /** Each initialiser installs every rule of its group once. */
  lemma GroupFires(c: GatewayConfig, g: Group, f: Fields, p: nat)
    requires DistinctVips(c) && OneInner(f)
    ensures ActionsAt(EntriesOfAll(c, RulesOf(g)), f, p) == OneAction(c, g, f, p)
  {
    hide ActionsAt, EntriesOfAll, OneInner, DistinctVips, RuleActions, OneAction, Installed, RulesOf;
    GroupInstalled(g);
    RulesFire(c, RulesOf(g), f, p);
    FiringIsInstalled(c, f, p);
    match g
    case RawGroup => RawFires(c, f, p);
    case InAz => FourFire(c, g, f, p);
    case InEip => FourFire(c, g, f, p);
    case _ => ThreeFire(c, g, f, p);
  }

  lemma RawFires(c: GatewayConfig, f: Fields, p: nat)
    requires FiringRule(c, f, p).Some? ==> Installed(FiringRule(c, f, p).value)
    ensures RuleActions(c, RulesOf(RawGroup), f, p) == OneAction(c, RawGroup, f, p)
  {
    hide FiringRule, ActionOfRule, RuleActions;
    FiveRules(c, RAW_RULES, f, p);
  }

  lemma FourFire(c: GatewayConfig, g: Group, f: Fields, p: nat)
    requires g == InAz || g == InEip
    requires FiringRule(c, f, p).Some? ==> Installed(FiringRule(c, f, p).value)
    ensures RuleActions(c, RulesOf(g), f, p) == OneAction(c, g, f, p)
  {
    hide FiringRule, ActionOfRule, RuleActions;
    FourRules(c, RulesOf(g), f, p);
  }

  lemma ThreeFire(c: GatewayConfig, g: Group, f: Fields, p: nat)
    requires g != RawGroup && g != InAz && g != InEip
    requires FiringRule(c, f, p).Some? ==> Installed(FiringRule(c, f, p).value)
    ensures RuleActions(c, RulesOf(g), f, p) == OneAction(c, g, f, p)
  {
    hide FiringRule, ActionOfRule, RuleActions;
    ThreeRules(c, RulesOf(g), f, p);
  }

  lemma GroupInstalled(g: Group)
    ensures forall r :: r in RulesOf(g) ==> Installed(r)
  {
  }

  lemma FiringIsInstalled(c: GatewayConfig, f: Fields, p: nat)
    ensures FiringRule(c, f, p).Some? ==> Installed(FiringRule(c, f, p).value)
  {
    hide Addressed, TunnelRuleOf;
    TunnelRuleIsTunnel(f);
  }

  function FireOf(c: GatewayConfig, r: Rule, f: Fields, p: nat): seq<IpAction> {
    if FiringRule(c, f, p) == Some(r) then [ActionOfRule(r)] else []
  }

  lemma ThreeRules(c: GatewayConfig, rs: seq<Rule>, f: Fields, p: nat)
    requires |rs| == 3
    ensures RuleActions(c, rs, f, p) == FireOf(c, rs[0], f, p) + (FireOf(c, rs[1], f, p) + FireOf(c, rs[2], f, p))
  {
    hide FiringRule, ActionOfRule;
    assert rs[1..][1..] == rs[2..] && rs[2..][1..] == rs[3..] == [];
    assert RuleActions(c, rs[2..], f, p) == FireOf(c, rs[2], f, p) + [];
  }

  lemma FourRules(c: GatewayConfig, rs: seq<Rule>, f: Fields, p: nat)
    requires |rs| == 4
    ensures RuleActions(c, rs, f, p) == FireOf(c, rs[0], f, p) +
      (FireOf(c, rs[1], f, p) + (FireOf(c, rs[2], f, p) + FireOf(c, rs[3], f, p)))
  {
    hide FiringRule, ActionOfRule;
    ThreeRules(c, rs[1..], f, p);
  }

  lemma FiveRules(c: GatewayConfig, rs: seq<Rule>, f: Fields, p: nat)
    requires |rs| == 5
    ensures RuleActions(c, rs, f, p) ==
      FireOf(c, rs[0], f, p) + (FireOf(c, rs[1], f, p) +
                                (FireOf(c, rs[2], f, p) + (FireOf(c, rs[3], f, p) + FireOf(c, rs[4], f, p))))
  {
    hide FiringRule, ActionOfRule;
    FourRules(c, rs[1..], f, p);
  }

  /** At each priority the table matches a packet with the one rule that
      applies to it, and with nothing when none does. */
  lemma TableFires(c: GatewayConfig, f: Fields, p: nat)
    requires DistinctVips(c) && OneInner(f)
    ensures ActionsAt(Table(c), f, p) == match FiringRule(c, f, p) case None => [] case Some(r) => [ActionOfRule(r)]
  {
    hide ActionsAt, EntriesOfAll, FiringRule, ActionOfRule;
    var t5 := EntriesOfAll(c, IN_AZ_RULES) + EntriesOfAll(c, IN_EIP_RULES);
    var t4 := EntriesOfAll(c, RAW_RULES) + t5;
    var t3 := EntriesOfAll(c, OUT_EIP_RULES) + t4;
    var t2 := EntriesOfAll(c, OUT_AZ_RULES) + t3;
    ActionsAtConcat(EntriesOfAll(c, OUT_HOST_RULES), t2, f, p);
    ActionsAtConcat(EntriesOfAll(c, OUT_AZ_RULES), t3, f, p);
    ActionsAtConcat(EntriesOfAll(c, OUT_EIP_RULES), t4, f, p);
    ActionsAtConcat(EntriesOfAll(c, RAW_RULES), t5, f, p);
    ActionsAtConcat(EntriesOfAll(c, IN_AZ_RULES), EntriesOfAll(c, IN_EIP_RULES), f, p);
    GroupFires(c, OutHost, f, p);
    GroupFires(c, OutAz, f, p);
    GroupFires(c, OutEip, f, p);
    GroupFires(c, RawGroup, f, p);
    GroupFires(c, InAz, f, p);
    GroupFires(c, InEip, f, p);
  }
}
