/** The prioritised table that exchanges packets with the CPU: packets from the
    CPU port are received, some packets from other ports are copied to it. */
module PuntTable {
  import opened Wrappers
  import opened IpTypeTable

  const MIDDLE_PRI := 10
  const ETHERTYPE_ARP: bv16 := 0x0806
  const ETHERTYPE_LLDP: bv16 := 0x88CC
  const V4: bv16 := 0x0800
  const V6: bv16 := 0x86DD

  datatype PuntAction = ReceiveLldp | ReceiveNos | CopyToCpu(port: bv9)

  datatype PuntKey = PuntKey(priority: nat, ipv4: bv1, ipv4Mask: bv1, vxlan: bv1, vxlanMask: bv1, ipv6: bv1,
                             ipv6Mask: bv1,
                             etherType: bv16, etherTypeMask: bv16, dip: bv32, dipMask: bv32, port: bv9, portMask: bv9,
                             dip6: bv128, dip6Mask: bv128)

  const ZERO_PUNT_KEY := PuntKey(0, 0, 0, 0, 0, 0, 0, 0, 0, 0, 0, 0, 0, 0, 0)

  datatype PuntEntry = PuntEntry(key: PuntKey, action: PuntAction)

  /** The fields of a packet the table looks at. */
  datatype PuntFields = PuntFields(ipv4: bv1, vxlan: bv1, ipv6: bv1, etherType: bv16, dip: bv32, port: bv9, dip6: bv128)

  predicate Ternary9(v: bv9, k: bv9, m: bv9) { v & m == k & m }
  predicate Ternary16(v: bv16, k: bv16, m: bv16) { v & m == k & m }

  lemma Ternary9Extremes(v: bv9, k: bv9)
    ensures Ternary9(v, k, 0x1FF) <==> v == k
    ensures Ternary9(v, k, 0)
  {
  }

  predicate PuntMatches(k: PuntKey, f: PuntFields) {
    && Ternary1(f.ipv4, k.ipv4, k.ipv4Mask) && Ternary1(f.vxlan, k.vxlan, k.vxlanMask) &&
      Ternary1(f.ipv6, k.ipv6, k.ipv6Mask)
    && Ternary16(f.etherType, k.etherType, k.etherTypeMask) && Ternary32(f.dip, k.dip, k.dipMask)
    && Ternary9(f.port, k.port, k.portMask) && Ternary128(f.dip6, k.dip6, k.dip6Mask)
  }

  /** The matching entry with the lowest priority number, first on a tie. */
  function BestPunt(es: seq<PuntEntry>, f: PuntFields): Option<PuntEntry> {
    if es == [] then None
    else
      var b, e := BestPunt(es[..|es| - 1], f), es[|es| - 1];
      if PuntMatches(e.key, f) && (b.None? || e.key.priority < b.value.key.priority) then Some(e) else b
  }

  /** A host interface, as far as the table needs it. */
  datatype Hostif = Hostif(ip4: bv32, devPort: bv9, ipv6Enable: bool, ip6: bv128, ip6Mc: bv128, linkLocal: bv128,
                           linkLocalMc: bv128)

  // ---------- the entries ----------

  /** The entry that takes everything from the CPU port. */
  function ReceiveNosEntry(cpu: bv9): PuntEntry {
    PuntEntry(ZERO_PUNT_KEY.(priority := MIDDLE_PRI, port := cpu, portMask := 0x1FF), ReceiveNos)
  }

  /** Neither IP nor VXLAN, of one EtherType. */
  function PlainKey(priority: nat, etherType: bv16, port: bv9, portMask: bv9): PuntKey {
    PuntKey(priority, 0, 1, 0, 1, 0, 1, etherType, 0xFFFF, 0, 0, port, portMask, 0, 0)
  }

  /** IPv4 to an address, possibly only outside VXLAN or on one port. */
  function V4Key(addr: bv32, vxlanMask: bv1, port: bv9, portMask: bv9): PuntKey {
    PuntKey(LOWEST_PRI, 1, 1, 0, vxlanMask, 0, 1, V4, 0xFFFF, addr, 0xFFFF_FFFF, port, portMask, 0, 0)
  }

  const ALL_ONES: bv128 := 0xFFFF_FFFF_FFFF_FFFF_FFFF_FFFF_FFFF_FFFF

  /** IPv6 to an address, on one port. */
  function V6Key(addr: bv128, port: bv9): PuntKey {
    PuntKey(LOWEST_PRI, 0, 1, 0, 0, 1, 1, V6, 0xFFFF, 0, 0, port, 0x1FF, addr, ALL_ONES)
  }

  function LldpEntries(cpu: bv9): seq<PuntEntry> {
    [PuntEntry(PlainKey(HIGHEST_PRI, ETHERTYPE_LLDP, cpu, 0x1FF), ReceiveLldp),
     PuntEntry(PlainKey(LOWEST_PRI, ETHERTYPE_LLDP, 0, 0), CopyToCpu(cpu))]
  }

  function AddressEntries(mgtIp: bv32, c: GatewayConfig, cpu: bv9): seq<PuntEntry> {
    [PuntEntry(PlainKey(LOWEST_PRI, ETHERTYPE_ARP, 0, 0), CopyToCpu(cpu)),
     PuntEntry(V4Key(mgtIp, 0, 0, 0), CopyToCpu(cpu)),
     PuntEntry(V4Key(c.vip, 1, 0, 0), CopyToCpu(cpu))] +
    (if c.backupVip != 0 then [PuntEntry(V4Key(c.backupVip, 1, 0, 0), CopyToCpu(cpu))] else [])
  }

  function HostifEntries(h: Hostif, cpu: bv9): seq<PuntEntry> {
    [PuntEntry(V4Key(h.ip4, 0, h.devPort, 0x1FF), CopyToCpu(cpu))] +
    (if h.ipv6Enable then
       [PuntEntry(V6Key(h.ip6, h.devPort), CopyToCpu(cpu)), PuntEntry(V6Key(h.ip6Mc, h.devPort), CopyToCpu(cpu)),
        PuntEntry(V6Key(h.linkLocal, h.devPort), CopyToCpu(cpu)),
          PuntEntry(V6Key(h.linkLocalMc, h.devPort), CopyToCpu(cpu))]
     else [])
  }

  function AllHostifEntries(hostifs: seq<Hostif>, cpu: bv9): seq<PuntEntry> {
    if hostifs == [] then []
    else AllHostifEntries(hostifs[..|hostifs| - 1], cpu) + HostifEntries(hostifs[|hostifs| - 1], cpu)
  }

  /** The table as `process_protocol_packet_table_init` leaves it. */
  function ProtocolTable(mgtIp: bv32, c: GatewayConfig, hostifs: seq<Hostif>, cpu: bv9): seq<PuntEntry> {
    ((LldpEntries(cpu) + [ReceiveNosEntry(cpu)]) + AddressEntries(mgtIp, c, cpu)) + AllHostifEntries(hostifs, cpu)
  }

  class ProcessProtocolTable {
    const cpuPort: bv9
    var entries: seq<PuntEntry>

    constructor (cpu: bv9)
      ensures cpuPort == cpu && entries == []
    {
      cpuPort := cpu;
      entries := [];
    }

    method EntryAdd(key: PuntKey, a: PuntAction)
      modifies this`entries
      ensures entries == old(entries) + [PuntEntry(key, a)]
    {
      entries := entries + [PuntEntry(key, a)];
    }

    method ReceiveFromCpuLldpInit()
      modifies this`entries
      ensures entries == old(entries) + LldpEntries(cpuPort)
    {
      var key := ZERO_PUNT_KEY;
      key := key.(priority := HIGHEST_PRI, ipv4 := 0, ipv4Mask := 1, ipv6 := 0, ipv6Mask := 1, vxlan := 0,
                  vxlanMask := 1);
      key := key.(etherType := ETHERTYPE_LLDP, etherTypeMask := 0xFFFF, dip := 0, dipMask := 0, port := cpuPort,
                  portMask := 0x1FF);
      EntryAdd(key, ReceiveLldp);
      key := key.(priority := LOWEST_PRI, ipv4 := 0, ipv4Mask := 1, ipv6 := 0, ipv6Mask := 1, vxlan := 0,
                  vxlanMask := 1);
      key := key.(etherType := ETHERTYPE_LLDP, etherTypeMask := 0xFFFF, dip := 0, dipMask := 0, port := 0,
                  portMask := 0);
      EntryAdd(key, CopyToCpu(cpuPort));
    }

    method ReceiveFromCpuNosInit()
      modifies this`entries
      ensures entries == old(entries) + [ReceiveNosEntry(cpuPort)]
    {
      var key := ZERO_PUNT_KEY.(priority := MIDDLE_PRI, port := cpuPort, portMask := 0x1FF);
      EntryAdd(key, ReceiveNos);
    }

    /** The management address takes VXLAN or not; a VIP only plain packets. */
    method AddressCopyInit(addr: bv32, vxlanMask: bv1)
      modifies this`entries
      ensures entries == old(entries) + [PuntEntry(V4Key(addr, vxlanMask, 0, 0), CopyToCpu(cpuPort))]
    {
      var key := ZERO_PUNT_KEY.(priority := LOWEST_PRI, ipv4 := 1, ipv4Mask := 1, ipv6Mask := 1);
      key := key.(vxlanMask := vxlanMask, etherType := V4, etherTypeMask := 0xFFFF);
      key := key.(dip := addr, dipMask := 0xFFFF_FFFF);
      EntryAdd(key, CopyToCpu(cpuPort));
    }

    method AddressesCopyInit(mgtIp: bv32, c: GatewayConfig)
      modifies this`entries
      ensures entries == old(entries) + AddressEntries(mgtIp, c, cpuPort)
    {
      hide V4Key;
      var key := ZERO_PUNT_KEY.(priority := LOWEST_PRI, ipv4Mask := 1, ipv6Mask := 1, vxlanMask := 1);
      key := key.(etherType := ETHERTYPE_ARP, etherTypeMask := 0xFFFF);
      EntryAdd(key, CopyToCpu(cpuPort));
      AddressCopyInit(mgtIp, 0);
      AddressCopyInit(c.vip, 1);
      if c.backupVip != 0 {
        AddressCopyInit(c.backupVip, 1);
      }
    }

    method Hostif6Copy(port: bv9, addr: bv128)
      modifies this`entries
      ensures entries == old(entries) + [PuntEntry(V6Key(addr, port), CopyToCpu(cpuPort))]
    {
      var key := ZERO_PUNT_KEY.(priority := LOWEST_PRI, ipv4Mask := 1, ipv6 := 1, ipv6Mask := 1);
      key := key.(etherType := V6, etherTypeMask := 0xFFFF);
      key := key.(dip6 := addr, dip6Mask := ALL_ONES, port := port, portMask := 0x1FF);
      EntryAdd(key, CopyToCpu(cpuPort));
    }

    method HostifCopy(h: Hostif)
      modifies this`entries
      ensures entries == old(entries) + HostifEntries(h, cpuPort)
    {
      hide V6Key;
      var key := ZERO_PUNT_KEY.(priority := LOWEST_PRI, ipv4 := 1, ipv4Mask := 1, ipv6Mask := 1);
      key := key.(etherType := V4, etherTypeMask := 0xFFFF, dip := h.ip4, dipMask := 0xFFFF_FFFF, port := h.devPort,
                  portMask := 0x1FF);
      EntryAdd(key, CopyToCpu(cpuPort));
      if h.ipv6Enable {
        Hostif6Copy(h.devPort, h.ip6);
        Hostif6Copy(h.devPort, h.ip6Mc);
        Hostif6Copy(h.devPort, h.linkLocal);
        Hostif6Copy(h.devPort, h.linkLocalMc);
      }
    }

    method HostifCopyInit(hostifs: seq<Hostif>)
      modifies this`entries
      ensures entries == old(entries) + AllHostifEntries(hostifs, cpuPort)
    {
      hide HostifEntries;
      for index := 0 to |hostifs|
        invariant entries == old(entries) + AllHostifEntries(hostifs[..index], cpuPort)
      {
        HostifCopy(hostifs[index]);
        assert hostifs[..index + 1][..index] == hostifs[..index];
      }
      assert hostifs[..|hostifs|] == hostifs;
    }

    method Init(mgtIp: bv32, c: GatewayConfig, hostifs: seq<Hostif>)
      requires entries == []
      modifies this`entries
      ensures entries == ProtocolTable(mgtIp, c, hostifs, cpuPort)
    {
      hide LldpEntries, ReceiveNosEntry, AddressEntries, AllHostifEntries;
      ReceiveFromCpuLldpInit();
      ReceiveFromCpuNosInit();
      AddressesCopyInit(mgtIp, c);
      HostifCopyInit(hostifs);
    }
  }

  // ---------- what the table does ----------

  /** The entries that apply to packets from other ports than the CPU's. */
  predicate AnyMatch(es: seq<PuntEntry>, f: PuntFields) {
    es != [] && (PuntMatches(es[0].key, f) || AnyMatch(es[1..], f))
  }

  /** What the choice has to be: a matching entry no other one outranks. */
  ghost predicate IsBest(es: seq<PuntEntry>, f: PuntFields, b: Option<PuntEntry>) {
    match b
    case None => forall i :: 0 <= i < |es| ==> !PuntMatches(es[i].key, f)
    case Some(e) => e in es && PuntMatches(e.key, f) && forall i :: 0 <= i < |es| && PuntMatches(es[i].key, f) ==>
      e.key.priority <= es[i].key.priority
  }

  lemma {:induction false} BestIsBest(es: seq<PuntEntry>, f: PuntFields)
    ensures IsBest(es, f, BestPunt(es, f))
  {
    hide PuntMatches;
    if es != [] {
      var front, e := es[..|es| - 1], es[|es| - 1];
      BestIsBest(front, f);
      assert es == front + [e];
      assert forall i :: 0 <= i < |front| ==> es[i] == front[i];
    }
  }

  lemma Ternary16Extremes(v: bv16, k: bv16)
    ensures Ternary16(v, k, 0xFFFF) <==> v == k
    ensures Ternary16(v, k, 0)
  {
  }

  lemma Ternary128Exact(v: bv128, k: bv128)
    ensures Ternary128(v, k, ALL_ONES) <==> v == k
  {
    assert v & ALL_ONES == v;
    assert k & ALL_ONES == k;
  }

  lemma ReceiveNosMatches(cpu: bv9, f: PuntFields)
    ensures PuntMatches(ReceiveNosEntry(cpu).key, f) <==> f.port == cpu
  {
    hide Ternary9, Ternary128, Ternary32, Ternary16;
    Ternary9Extremes(f.port, cpu);
    TernaryFree32(f.dip, 0);
    TernaryFree128(f.dip6, 0);
    Ternary16Extremes(f.etherType, 0);
  }

  predicate IsPlain(f: PuntFields) { f.ipv4 == 0 && f.vxlan == 0 && f.ipv6 == 0 }
  predicate IsV4(f: PuntFields) { f.ipv4 == 1 && f.ipv6 == 0 && f.etherType == V4 }
  predicate IsV6(f: PuntFields) { f.ipv4 == 0 && f.ipv6 == 1 && f.etherType == V6 }

  lemma PlainMatches(priority: nat, etherType: bv16, port: bv9, portMask: bv9, f: PuntFields)
    requires portMask == 0 || portMask == 0x1FF
    ensures PuntMatches(PlainKey(priority, etherType, port, portMask), f) <==>
      IsPlain(f) && f.etherType == etherType && (portMask == 0 || f.port == port)
  {
    hide Ternary9, Ternary128, Ternary32, Ternary16;
    Ternary9Extremes(f.port, port);
    TernaryFree32(f.dip, 0);
    TernaryFree128(f.dip6, 0);
    Ternary16Extremes(f.etherType, etherType);
  }

  lemma V4Matches(addr: bv32, vxlanMask: bv1, port: bv9, portMask: bv9, f: PuntFields)
    requires portMask == 0 || portMask == 0x1FF
    ensures PuntMatches(V4Key(addr, vxlanMask, port, portMask), f) <==>
      IsV4(f) && f.dip == addr && (vxlanMask == 1 ==> f.vxlan == 0) && (portMask == 0 || f.port == port)
  {
    hide Ternary9, Ternary128, Ternary32, Ternary16;
    Ternary9Extremes(f.port, port);
    TernaryExact32(f.dip, addr);
    TernaryFree128(f.dip6, 0);
    Ternary16Extremes(f.etherType, V4);
  }

  lemma V6Matches(addr: bv128, port: bv9, f: PuntFields)
    ensures PuntMatches(V6Key(addr, port), f) <==> IsV6(f) && f.dip6 == addr && f.port == port
  {
    hide Ternary9, Ternary128, Ternary32, Ternary16;
    Ternary9Extremes(f.port, port);
    TernaryFree32(f.dip, 0);
    Ternary128Exact(f.dip6, addr);
    Ternary16Extremes(f.etherType, V6);
  }

  lemma {:induction false} AnyMatchConcat(a: seq<PuntEntry>, b: seq<PuntEntry>, f: PuntFields)
    ensures AnyMatch(a + b, f) <==> AnyMatch(a, f) || AnyMatch(b, f)
  {
    hide PuntMatches;
    if a == [] {
      assert a + b == b;
    } else {
      assert (a + b)[1..] == a[1..] + b;
      AnyMatchConcat(a[1..], b, f);
    }
  }

  lemma {:induction false} AnyMatchIndex(es: seq<PuntEntry>, f: PuntFields, i: nat)
    requires i < |es| && PuntMatches(es[i].key, f)
    ensures AnyMatch(es, f)
  {
    hide PuntMatches;
    if i != 0 {
      AnyMatchIndex(es[1..], f, i - 1);
    }
  }

  lemma {:induction false} AnyMatchMember(es: seq<PuntEntry>, f: PuntFields)
    requires AnyMatch(es, f)
    ensures exists i :: 0 <= i < |es| && PuntMatches(es[i].key, f)
  {
    hide PuntMatches;
    if !PuntMatches(es[0].key, f) {
      AnyMatchMember(es[1..], f);
      var i :| 0 <= i < |es[1..]| && PuntMatches(es[1..][i].key, f);
      assert PuntMatches(es[i + 1].key, f);
    }
  }

  /** Is the packet for this host interface: one of its own addresses, on its own
      port? */
  predicate ForHostif(h: Hostif, f: PuntFields) {
    && f.port == h.devPort
    && ((IsV4(f) && f.dip == h.ip4) ||
        (h.ipv6Enable && IsV6(f) && (f.dip6 == h.ip6 || f.dip6 == h.ip6Mc || f.dip6 == h.linkLocal ||
                                     f.dip6 == h.linkLocalMc)))
  }

  /** What is copied to the CPU: LLDP and ARP, packets to the management address,
      packets to a VIP outside VXLAN, and packets for a host interface. */
  ghost predicate Wanted(mgtIp: bv32, c: GatewayConfig, hostifs: seq<Hostif>, f: PuntFields) {
    || (IsPlain(f) && (f.etherType == ETHERTYPE_LLDP || f.etherType == ETHERTYPE_ARP))
    || (IsV4(f) && f.dip == mgtIp)
    || (IsV4(f) && f.vxlan == 0 && (f.dip == c.vip || (c.backupVip != 0 && f.dip == c.backupVip)))
    || exists i :: 0 <= i < |hostifs| && ForHostif(hostifs[i], f)
  }

  lemma HostifMatches(h: Hostif, cpu: bv9, f: PuntFields)
    ensures AnyMatch(HostifEntries(h, cpu), f) <==> ForHostif(h, f)
  {
    hide PuntMatches, V4Key, V6Key, IsV4, IsV6;
    V4Matches(h.ip4, 0, h.devPort, 0x1FF, f);
    V6Matches(h.ip6, h.devPort, f);
    V6Matches(h.ip6Mc, h.devPort, f);
    V6Matches(h.linkLocal, h.devPort, f);
    V6Matches(h.linkLocalMc, h.devPort, f);
    var v4 := PuntEntry(V4Key(h.ip4, 0, h.devPort, 0x1FF), CopyToCpu(cpu));
    var a, b := PuntEntry(V6Key(h.ip6, h.devPort), CopyToCpu(cpu)),
      PuntEntry(V6Key(h.ip6Mc, h.devPort), CopyToCpu(cpu));
    var c, d := PuntEntry(V6Key(h.linkLocal, h.devPort), CopyToCpu(cpu)),
      PuntEntry(V6Key(h.linkLocalMc, h.devPort), CopyToCpu(cpu));
    AnyMatchFour(a, b, c, d, f);
    AnyMatchFour(v4, a, b, c, f);
    AnyMatchConcat([v4], [a, b, c, d], f);
    assert HostifEntries(h, cpu) == [v4] + (if h.ipv6Enable then [a, b, c, d] else []);
    assert [v4] + [] == [v4];
    hide AnyMatch, HostifEntries;
  }

  lemma AnyMatchFour(a: PuntEntry, b: PuntEntry, c: PuntEntry, d: PuntEntry, f: PuntFields)
    ensures AnyMatch([a, b, c, d], f) <==>
      PuntMatches(a.key, f) || PuntMatches(b.key, f) || PuntMatches(c.key, f) || PuntMatches(d.key, f)
    ensures AnyMatch([a, b, c], f) <==> PuntMatches(a.key, f) || PuntMatches(b.key, f) || PuntMatches(c.key, f)
    ensures AnyMatch([a, b], f) <==> PuntMatches(a.key, f) || PuntMatches(b.key, f)
    ensures AnyMatch([a], f) <==> PuntMatches(a.key, f)
    ensures !AnyMatch([], f)
  {
    hide PuntMatches;
    assert [a, b, c, d] == [a, b] + [c, d] && [a, b, c] == [a, b] + [c] && [a, b] == [a] + [b] && [c, d] == [c] + [d];
    AnyMatchConcat([a, b], [c, d], f);
    AnyMatchConcat([a, b], [c], f);
    AnyMatchConcat([a], [b], f);
    AnyMatchConcat([c], [d], f);
    assert [a][1..] == [] && [b][1..] == [] && [c][1..] == [] && [d][1..] == [];
  }

  lemma {:induction false} HostifsMatch(hostifs: seq<Hostif>, cpu: bv9, f: PuntFields)
    ensures AnyMatch(AllHostifEntries(hostifs, cpu), f) <==> exists i :: 0 <= i < |hostifs| && ForHostif(hostifs[i], f)
  {
    hide AnyMatch, HostifEntries, ForHostif;
    if hostifs == [] {
      NoneMatch(f);
    } else {
      var front, h := hostifs[..|hostifs| - 1], hostifs[|hostifs| - 1];
      HostifsMatch(front, cpu, f);
      HostifMatches(h, cpu, f);
      AnyMatchConcat(AllHostifEntries(front, cpu), HostifEntries(h, cpu), f);
      assert forall i :: 0 <= i < |front| ==> front[i] == hostifs[i];
    }
  }

  lemma NoneMatch(f: PuntFields)
    ensures !AnyMatch([], f)
  {
  }

  lemma AddressesMatch(mgtIp: bv32, c: GatewayConfig, cpu: bv9, f: PuntFields)
    ensures AnyMatch(AddressEntries(mgtIp, c, cpu), f) <==>
      || (IsPlain(f) && f.etherType == ETHERTYPE_ARP)
      || (IsV4(f) && f.dip == mgtIp)
      || (IsV4(f) && f.vxlan == 0 && (f.dip == c.vip || (c.backupVip != 0 && f.dip == c.backupVip)))
  {
    hide PuntMatches, V4Key, PlainKey, IsV4, IsPlain, AnyMatch;
    PlainMatches(LOWEST_PRI, ETHERTYPE_ARP, 0, 0, f);
    V4Matches(mgtIp, 0, 0, 0, f);
    V4Matches(c.vip, 1, 0, 0, f);
    V4Matches(c.backupVip, 1, 0, 0, f);
    var arp, mgt := PuntEntry(PlainKey(LOWEST_PRI, ETHERTYPE_ARP, 0, 0), CopyToCpu(cpu)),
      PuntEntry(V4Key(mgtIp, 0, 0, 0), CopyToCpu(cpu));
    var vip, backup := PuntEntry(V4Key(c.vip, 1, 0, 0), CopyToCpu(cpu)),
      PuntEntry(V4Key(c.backupVip, 1, 0, 0), CopyToCpu(cpu));
    AnyMatchFour(arp, mgt, vip, backup, f);
    assert [arp, mgt, vip] + [backup] == [arp, mgt, vip, backup] && [arp, mgt, vip] + [] == [arp, mgt, vip];
  }

  lemma LldpMatches(cpu: bv9, f: PuntFields)
    ensures f.port != cpu ==>
      (AnyMatch(LldpEntries(cpu) + [ReceiveNosEntry(cpu)], f) <==> IsPlain(f) && f.etherType == ETHERTYPE_LLDP)
    ensures f.port == cpu ==> AnyMatch(LldpEntries(cpu) + [ReceiveNosEntry(cpu)], f)
  {
    hide PuntMatches, PlainKey, IsPlain, AnyMatch, ReceiveNosEntry;
    PlainMatches(HIGHEST_PRI, ETHERTYPE_LLDP, cpu, 0x1FF, f);
    PlainMatches(LOWEST_PRI, ETHERTYPE_LLDP, 0, 0, f);
    ReceiveNosMatches(cpu, f);
    var receive, copy := PuntEntry(PlainKey(HIGHEST_PRI, ETHERTYPE_LLDP, cpu, 0x1FF), ReceiveLldp),
      PuntEntry(PlainKey(LOWEST_PRI, ETHERTYPE_LLDP, 0, 0), CopyToCpu(cpu));
    AnyMatchFour(receive, copy, ReceiveNosEntry(cpu), copy, f);
    assert [receive, copy] + [ReceiveNosEntry(cpu)] == [receive, copy, ReceiveNosEntry(cpu)];
  }

  /** What tells the kinds of entries apart: receive entries ask for the CPU port and
      outrank every copy entry, the one for LLDP outranks the other. */
  predicate WellPlaced(e: PuntEntry, cpu: bv9) {
    match e.action
    case CopyToCpu(p) => e.key.priority == 20 && p == cpu
    case ReceiveLldp => e.key == PlainKey(0, 0x88CC, cpu, 0x1FF)
    case ReceiveNos => e.key.priority == 10 && e.key.port == cpu && e.key.portMask == 0x1FF
  }

  lemma {:induction false} HostifsPlaced(hostifs: seq<Hostif>, cpu: bv9)
    ensures forall e :: e in AllHostifEntries(hostifs, cpu) ==> WellPlaced(e, cpu)
  {
    if hostifs != [] {
      HostifsPlaced(hostifs[..|hostifs| - 1], cpu);
    }
  }

  lemma TablePlaced(mgtIp: bv32, c: GatewayConfig, hostifs: seq<Hostif>, cpu: bv9)
    ensures forall e :: e in ProtocolTable(mgtIp, c, hostifs, cpu) ==> WellPlaced(e, cpu)
    ensures |ProtocolTable(mgtIp, c, hostifs, cpu)| > 2
    ensures ProtocolTable(mgtIp, c, hostifs, cpu)[2] == ReceiveNosEntry(cpu)
  {
    HostifsPlaced(hostifs, cpu);
    hide AllHostifEntries;
  }

  lemma ReceiveNeedsCpuPort(e: PuntEntry, cpu: bv9, f: PuntFields)
    requires WellPlaced(e, cpu) && !e.action.CopyToCpu? && PuntMatches(e.key, f)
    ensures f.port == cpu
  {
    Ternary9Extremes(f.port, cpu);
    hide Ternary9;
  }

  /** What becomes of every packet, for any host interfaces: one that came in on
      the CPU port is received, as LLDP when it is, and so never punted back; of the
      others exactly the wanted ones are copied to the CPU. */
  lemma PuntDecision(mgtIp: bv32, c: GatewayConfig, hostifs: seq<Hostif>, cpu: bv9, f: PuntFields)
    ensures match BestPunt(ProtocolTable(mgtIp, c, hostifs, cpu), f)
      case None => f.port != cpu && !Wanted(mgtIp, c, hostifs, f)
      case Some(e) =>
        if f.port == cpu then
          if IsPlain(f) && f.etherType == 0x88CC then e.action == ReceiveLldp && e.key.priority == 0
          else e.action == ReceiveNos && e.key.priority == 10
        else e.action == CopyToCpu(cpu) && Wanted(mgtIp, c, hostifs, f)
  {
    hide PuntMatches, BestPunt, ProtocolTable, AnyMatch, ForHostif, IsPlain, IsV4, IsV6;
    var es := ProtocolTable(mgtIp, c, hostifs, cpu);
    BestIsBest(es, f);
    TablePlaced(mgtIp, c, hostifs, cpu);
    ReceiveNosMatches(cpu, f);
    TableMatches(mgtIp, c, hostifs, cpu, f);
    match BestPunt(es, f)
    case None =>
      if AnyMatch(es, f) {
        AnyMatchMember(es, f);
      }
    case Some(e) =>
      var i :| 0 <= i < |es| && es[i] == e;
      AnyMatchIndex(es, f, i);
      if f.port == cpu {
        LldpFromCpu(mgtIp, c, hostifs, cpu, f, e);
      } else if !e.action.CopyToCpu? {
        ReceiveNeedsCpuPort(e, cpu, f);
      }
  }

  /** Of the two entries for frames from the CPU, the one for LLDP comes first. */
  lemma LldpFromCpu(mgtIp: bv32, c: GatewayConfig, hostifs: seq<Hostif>, cpu: bv9, f: PuntFields, e: PuntEntry)
    requires var es := ProtocolTable(mgtIp, c, hostifs, cpu);
      e in es && PuntMatches(e.key, f) && IsBest(es, f, Some(e)) && WellPlaced(e, cpu)
    requires f.port == cpu
    ensures if IsPlain(f) && f.etherType == 0x88CC then e.action == ReceiveLldp && e.key.priority == 0
            else e.action == ReceiveNos && e.key.priority == 10
  {
    hide PuntMatches, AllHostifEntries, AddressEntries, IsPlain;
    var es := ProtocolTable(mgtIp, c, hostifs, cpu);
    ReceiveNosMatches(cpu, f);
    PlainMatches(HIGHEST_PRI, ETHERTYPE_LLDP, cpu, 0x1FF, f);
    assert es[0] == LldpEntries(cpu)[0] && es[2] == ReceiveNosEntry(cpu);
  }

  lemma TableMatches(mgtIp: bv32, c: GatewayConfig, hostifs: seq<Hostif>, cpu: bv9, f: PuntFields)
    ensures f.port == cpu ==> AnyMatch(ProtocolTable(mgtIp, c, hostifs, cpu), f)
    ensures f.port != cpu ==> (AnyMatch(ProtocolTable(mgtIp, c, hostifs, cpu), f) <==> Wanted(mgtIp, c, hostifs, f))
  {
    hide AnyMatch, ForHostif, IsPlain, IsV4, IsV6, LldpEntries, ReceiveNosEntry, AddressEntries, AllHostifEntries;
    var first := LldpEntries(cpu) + [ReceiveNosEntry(cpu)];
    AnyMatchConcat(first, AddressEntries(mgtIp, c, cpu), f);
    AnyMatchConcat(first + AddressEntries(mgtIp, c, cpu), AllHostifEntries(hostifs, cpu), f);
    LldpMatches(cpu, f);
    AddressesMatch(mgtIp, c, cpu, f);
    HostifsMatch(hostifs, cpu, f);
  }
}
