/** The C initialisers of `igw_ip_type`: a key structure cleared and refilled in
    place, entries added one by one.  Each is proved to install exactly the
    entries of its rules. */
module IpTypeInit {
  import opened PacketParsers
  import opened IpTypeTable

  /** The key structure the initialisers refill. */
  class KeyBuffer {
    var priority: nat
    var outer: OuterKey
    var inner: InnerKey

    constructor ()
      ensures Value() == ZERO_KEY
    {
      priority, outer, inner := 0, ZERO_OUTER, ZERO_INNER;
    }

    function Value(): Key
      reads this
    {
      Key(priority, outer, inner)
    }

    method Clear()
      modifies this
      ensures Value() == ZERO_KEY
    {
      priority, outer, inner := 0, ZERO_OUTER, ZERO_INNER;
    }

    /** The fields every tunnel entry sets alike. */
    method FillTunnel(dst: bv32, mask: bv32, vxlanType: bv2, tof: bv4)
      requires Value() == ZERO_KEY
      modifies this
      ensures priority == HIGHEST_PRI && inner == ZERO_INNER
      ensures outer == OuterKey(1, 1, dst, mask, 1, 1, vxlanType, 3, tof, 0xF, 0, 1, 0, 0)
    {
      priority := HIGHEST_PRI;
      outer := outer.(ipv4Valid := 1, ipv4ValidMask := 1);
      outer := outer.(ipv4Dst := dst, ipv4DstMask := mask);
      outer := outer.(vxlanValid := 1, vxlanValidMask := 1);
      outer := outer.(vxlanType := vxlanType, vxlanTypeMask := 3);
      outer := outer.(tof := tof, tofMask := 0xF);
      outer := outer.(ipv6Valid := 0, ipv6ValidMask := 1);
    }

    /** Selects an inner IP version; the other one's valid bit is compared
        under `otherMask`. */
    method FillInner(inner6: bool, otherMask: bv1)
      requires inner == ZERO_INNER
      modifies this`inner
      ensures inner == if inner6 then ZERO_INNER.(ipv6Valid := 1, ipv6ValidMask := 1, ipv4ValidMask := otherMask)
                       else ZERO_INNER.(ipv4Valid := 1, ipv4ValidMask := 1, ipv6ValidMask := otherMask)
    {
      inner := inner.(ipv4Valid := if inner6 then 0 else 1);
      inner := inner.(ipv4ValidMask := if inner6 then otherMask else 1);
      inner := inner.(ipv6Valid := if inner6 then 1 else 0);
      inner := inner.(ipv6ValidMask := if inner6 then 1 else otherMask);
    }
  }

  lemma FirstRule(c: GatewayConfig, r: Rule, rest: seq<Rule>)
    ensures EntriesOfAll(c, [r] + rest) == EntriesOf(c, r) + EntriesOfAll(c, rest)
    ensures EntriesOfAll(c, []) == []
  {
    hide EntriesOf;
    assert ([r] + rest)[1..] == rest;
  }

  lemma {:induction false} EntriesOfAllAppend(c: GatewayConfig, rules: seq<Rule>, r: Rule)
    ensures EntriesOfAll(c, rules + [r]) == EntriesOfAll(c, rules) + EntriesOf(c, r)
  {
    hide EntriesOf, EntriesOfAll;
    if rules == [] {
      assert rules + [r] == [r] + [];
      FirstRule(c, r, []);
    } else {
      assert rules == [rules[0]] + rules[1..] && rules + [r] == [rules[0]] + (rules[1..] + [r]);
      FirstRule(c, rules[0], rules[1..]);
      FirstRule(c, rules[0], rules[1..] + [r]);
      EntriesOfAllAppend(c, rules[1..], r);
    }
  }

  /** The table being filled. */
  class IgwIpTypeTable {
    const cfg: GatewayConfig
    var entries: seq<Entry>
    /** The rules installed so far. */
    ghost var rules: seq<Rule>

    ghost predicate Valid()
      reads this
    {
      entries == EntriesOfAll(cfg, rules)
    }

    constructor (c: GatewayConfig)
      ensures Valid() && cfg == c && rules == [] && entries == []
    {
      cfg, entries, rules := c, [], [];
    }

    method EntryAdd(key: KeyBuffer, a: IpAction)
      modifies this`entries
      ensures entries == old(entries) + [Entry(key.Value(), a)]
    {
      entries := entries + [Entry(key.Value(), a)];
    }

    /** Adds the entry for the VIP in the key, then the one for the backup VIP
        when there is one. */
    method EntryAddVips(key: KeyBuffer, a: IpAction, ghost r: Rule)
      requires Valid() && r.Tunnel? && r.scope != Eip
      requires key.Value() == TunnelKey(r, cfg.vip, 0xFFFF_FFFF) && a == ActionOfRule(r)
      modifies this`entries, this`rules, key`outer
      ensures Valid() && rules == old(rules) + [r]
    {
      hide EntriesOfAll, TunnelInner, TypeOf, TofOf, ActionOfRule;
      EntryAdd(key, a);
      if cfg.backupVip != 0 {
        key.outer := key.outer.(ipv4Dst := cfg.backupVip);
        EntryAdd(key, a);
        assert key.Value() == TunnelKey(r, cfg.backupVip, 0xFFFF_FFFF);
      }
      EntriesOfAllAppend(cfg, rules, r);
      rules := rules + [r];
    }

    method EntryAddOnce(key: KeyBuffer, a: IpAction, ghost r: Rule)
      requires Valid() && (r.Tunnel? ==> r.scope == Eip)
      requires key.Value() == (if r.Tunnel? then TunnelKey(r, cfg.dlIp, cfg.dlMask) else PlainKey(r))
      requires a == ActionOfRule(r)
      modifies this`entries, this`rules
      ensures Valid() && rules == old(rules) + [r]
    {
      hide EntriesOfAll, TunnelKey, PlainKey, ActionOfRule;
      EntryAdd(key, a);
      EntriesOfAllAppend(cfg, rules, r);
      rules := rules + [r];
    }

    method InternetOutV4EntryInit()
      requires Valid()
      modifies this`entries, this`rules
      ensures Valid() && rules == old(rules) + OUT_HOST_RULES[..1]
    {
      hide EntriesOfAll, Valid;
      var key := new KeyBuffer();
      key.FillTunnel(cfg.vip, 0xFFFF_FFFF, VXLAN_TYPE_STD, 0);
      key.FillInner(false, 1);
      EntryAddVips(key, Hit(Out, 0, EGR_PIPELINE_2), Tunnel(Out, Host, false, false));
    }

    method InternetOutV6EntryInit()
      requires Valid()
      modifies this`entries, this`rules
      ensures Valid() && rules == old(rules) + OUT_HOST_RULES[1..]
    {
      hide EntriesOfAll, Valid;
      var key := new KeyBuffer();
      key.FillTunnel(cfg.vip, 0xFFFF_FFFF, VXLAN_TYPE_STD, 0);
      key.FillInner(true, 1);
      key.inner := key.inner.(ipv6Src := 1, ipv6SrcMask := 1);
      EntryAddVips(key, Hit(Out, 0, EGR_PIPELINE_0), Tunnel(Out, Host, true, true));

      key.Clear();
      key.FillTunnel(cfg.vip, 0xFFFF_FFFF, VXLAN_TYPE_STD, 0);
      key.FillInner(true, 1);
      key.inner := key.inner.(ipv6Src := 0, ipv6SrcMask := 1);
      EntryAddVips(key, Hit(Out, 0, EGR_PIPELINE_2), Tunnel(Out, Host, true, false));
    }

    method InternetOutEntryInit()
      requires Valid()
      modifies this`entries, this`rules
      ensures Valid() && rules == old(rules) + OUT_HOST_RULES
    {
      hide Valid;
      InternetOutV4EntryInit();
      InternetOutV6EntryInit();
      assert OUT_HOST_RULES == OUT_HOST_RULES[..1] + OUT_HOST_RULES[1..];
    }

    method InternetOutBetweenClusterV4EntryInit()
      requires Valid()
      modifies this`entries, this`rules
      ensures Valid() && rules == old(rules) + OUT_AZ_RULES[..1]
    {
      hide EntriesOfAll, Valid;
      var key := new KeyBuffer();
      key.FillTunnel(cfg.vip, 0xFFFF_FFFF, VXLAN_TYPE_JD, TOF_AZ_OUT);
      key.FillInner(false, 1);
      EntryAddVips(key, Hit(Out, 1, EGR_PIPELINE_2), Tunnel(Out, Az, false, false));
    }

    method InternetOutBetweenClusterV6EntryInit()
      requires Valid()
      modifies this`entries, this`rules
      ensures Valid() && rules == old(rules) + OUT_AZ_RULES[1..]
    {
      hide EntriesOfAll, Valid;
      var key := new KeyBuffer();
      key.FillTunnel(cfg.vip, 0xFFFF_FFFF, VXLAN_TYPE_JD, TOF_AZ_OUT);
      key.FillInner(true, 1);
      key.inner := key.inner.(ipv6Src := 1, ipv6SrcMask := 1);
      EntryAddVips(key, Hit(Out, 1, EGR_PIPELINE_0), Tunnel(Out, Az, true, true));

      key.Clear();
      key.FillTunnel(cfg.vip, 0xFFFF_FFFF, VXLAN_TYPE_JD, TOF_AZ_OUT);
      key.FillInner(true, 1);
      key.inner := key.inner.(ipv6Src := 0, ipv6SrcMask := 1);
      EntryAddVips(key, Hit(Out, 1, EGR_PIPELINE_2), Tunnel(Out, Az, true, false));
    }

    method InternetOutBetweenClusterEntryInit()
      requires Valid()
      modifies this`entries, this`rules
      ensures Valid() && rules == old(rules) + OUT_AZ_RULES
    {
      hide Valid;
      InternetOutBetweenClusterV4EntryInit();
      InternetOutBetweenClusterV6EntryInit();
      assert OUT_AZ_RULES == OUT_AZ_RULES[..1] + OUT_AZ_RULES[1..];
    }

    method InternetOutWithinClusterV4EntryInit()
      requires Valid()
      modifies this`entries, this`rules
      ensures Valid() && rules == old(rules) + OUT_EIP_RULES[..1]
    {
      hide EntriesOfAll, Valid;
      var key := new KeyBuffer();
      key.FillTunnel(cfg.dlIp, cfg.dlMask, VXLAN_TYPE_JD, TOF_EIP_OUT);
      key.FillInner(false, 0);
      EntryAddOnce(key, Hit(Out, 1, EGR_PIPELINE_2), Tunnel(Out, Eip, false, false));
    }

    method InternetOutWithinClusterV6EntryInit()
      requires Valid()
      modifies this`entries, this`rules
      ensures Valid() && rules == old(rules) + OUT_EIP_RULES[1..]
    {
      hide EntriesOfAll, Valid;
      var key := new KeyBuffer();
      key.FillTunnel(cfg.dlIp, cfg.dlMask, VXLAN_TYPE_JD, TOF_EIP_OUT);
      key.FillInner(true, 0);
      key.inner := key.inner.(ipv6Src := 1, ipv6SrcMask := 1);
      EntryAddOnce(key, Hit(Out, 1, EGR_PIPELINE_0), Tunnel(Out, Eip, true, true));

      key.Clear();
      key.FillTunnel(cfg.dlIp, cfg.dlMask, VXLAN_TYPE_JD, TOF_EIP_OUT);
      key.FillInner(true, 0);
      key.inner := key.inner.(ipv6Src := 0, ipv6SrcMask := 1);
      EntryAddOnce(key, Hit(Out, 1, EGR_PIPELINE_2), Tunnel(Out, Eip, true, false));
    }

    method InternetOutWithinClusterEntryInit()
      requires Valid()
      modifies this`entries, this`rules
      ensures Valid() && rules == old(rules) + OUT_EIP_RULES
    {
      hide Valid;
      InternetOutWithinClusterV4EntryInit();
      InternetOutWithinClusterV6EntryInit();
      assert OUT_EIP_RULES == OUT_EIP_RULES[..1] + OUT_EIP_RULES[1..];
    }

    method InternetInV4EntryInit()
      requires Valid()
      modifies this`entries, this`rules
      ensures Valid() && rules == old(rules) + RAW_RULES[..2]
    {
      hide EntriesOfAll, Valid;
      var key := new KeyBuffer();
      key.priority := LOWEST_PRI;
      key.outer := key.outer.(ipv4Valid := 1, ipv4ValidMask := 1, ipv4Dst := 1, ipv4DstMask := 1);
      key.outer := key.outer.(ipv6Valid := 0, ipv6ValidMask := 1);
      EntryAddOnce(key, Hit(In, 0, EGR_PIPELINE_1), RawV4(true));

      key.Clear();
      key.priority := LOWEST_PRI;
      key.outer := key.outer.(ipv4Valid := 1, ipv4ValidMask := 1, ipv4Dst := 0, ipv4DstMask := 1);
      key.outer := key.outer.(ipv6Valid := 0, ipv6ValidMask := 1);
      EntryAddOnce(key, Hit(In, 0, EGR_PIPELINE_3), RawV4(false));
    }

    method InternetInV6EntryInit()
      requires Valid()
      modifies this`entries, this`rules
      ensures Valid() && rules == old(rules) + RAW_RULES[2..]
    {
      hide EntriesOfAll, Valid;
      var key := new KeyBuffer();
      key.priority := HIGHEST_PRI;
      key.outer := key.outer.(ipv4Valid := 0, ipv4ValidMask := 1, ipv6Valid := 1, ipv6ValidMask := 1);
      key.outer := key.outer.(ipv6Dst := MULTICAST, ipv6DstMask := MULTICAST);
      EntryAddOnce(key, NeedDrop, Multicast);

      key.Clear();
      key.priority := LOWEST_PRI;
      key.outer := key.outer.(ipv4Valid := 0, ipv4ValidMask := 1, ipv6Valid := 1, ipv6ValidMask := 1);
      key.outer := key.outer.(ipv6Dst := 1, ipv6DstMask := 1);
      EntryAddOnce(key, Hit(In, 0, EGR_PIPELINE_1), RawV6(true));

      key.Clear();
      key.priority := LOWEST_PRI;
      key.outer := key.outer.(ipv4Valid := 0, ipv4ValidMask := 1, ipv6Valid := 1, ipv6ValidMask := 1);
      key.outer := key.outer.(ipv6Dst := 0, ipv6DstMask := 1);
      EntryAddOnce(key, Hit(In, 0, EGR_PIPELINE_3), RawV6(false));
    }

    method InternetInEntryInit()
      requires Valid()
      modifies this`entries, this`rules
      ensures Valid() && rules == old(rules) + RAW_RULES
    {
      hide Valid;
      InternetInV4EntryInit();
      InternetInV6EntryInit();
      assert RAW_RULES == RAW_RULES[..2] + RAW_RULES[2..];
    }

    method InternetInBetweenClusterV4EntryInit()
      requires Valid()
      modifies this`entries, this`rules
      ensures Valid() && rules == old(rules) + IN_AZ_RULES[..2]
    {
      hide EntriesOfAll, Valid;
      var key := new KeyBuffer();
      key.FillTunnel(cfg.vip, 0xFFFF_FFFF, VXLAN_TYPE_JD, TOF_AZ_IN);
      key.FillInner(false, 1);
      key.inner := key.inner.(ipv4Dst := 1, ipv4DstMask := 1);
      EntryAddVips(key, Hit(In, 1, EGR_PIPELINE_1), Tunnel(In, Az, false, true));

      key.Clear();
      key.FillTunnel(cfg.vip, 0xFFFF_FFFF, VXLAN_TYPE_JD, TOF_AZ_IN);
      key.FillInner(false, 1);
      key.inner := key.inner.(ipv4Dst := 0, ipv4DstMask := 1);
      EntryAddVips(key, Hit(In, 1, EGR_PIPELINE_3), Tunnel(In, Az, false, false));
    }

    method InternetInBetweenClusterV6EntryInit()
      requires Valid()
      modifies this`entries, this`rules
      ensures Valid() && rules == old(rules) + IN_AZ_RULES[2..]
    {
      hide EntriesOfAll, Valid;
      var key := new KeyBuffer();
      key.FillTunnel(cfg.vip, 0xFFFF_FFFF, VXLAN_TYPE_JD, TOF_AZ_IN);
      key.FillInner(true, 1);
      key.inner := key.inner.(ipv6Dst := 1, ipv6DstMask := 1);
      EntryAddVips(key, Hit(In, 1, EGR_PIPELINE_1), Tunnel(In, Az, true, true));

      key.Clear();
      key.FillTunnel(cfg.vip, 0xFFFF_FFFF, VXLAN_TYPE_JD, TOF_AZ_IN);
      key.FillInner(true, 1);
      key.inner := key.inner.(ipv6Dst := 0, ipv6DstMask := 1);
      EntryAddVips(key, Hit(In, 1, EGR_PIPELINE_3), Tunnel(In, Az, true, false));
    }

    method InternetInBetweenClusterEntryInit()
      requires Valid()
      modifies this`entries, this`rules
      ensures Valid() && rules == old(rules) + IN_AZ_RULES
    {
      hide Valid;
      InternetInBetweenClusterV4EntryInit();
      InternetInBetweenClusterV6EntryInit();
      assert IN_AZ_RULES == IN_AZ_RULES[..2] + IN_AZ_RULES[2..];
    }

    method InternetInWithinClusterV4EntryInit()
      requires Valid()
      modifies this`entries, this`rules
      ensures Valid() && rules == old(rules) + IN_EIP_RULES[..2]
    {
      hide EntriesOfAll, Valid;
      var key := new KeyBuffer();
      key.FillTunnel(cfg.dlIp, cfg.dlMask, VXLAN_TYPE_JD, TOF_EIP_IN);
      key.FillInner(false, 1);
      key.inner := key.inner.(ipv4Dst := 1, ipv4DstMask := 1);
      EntryAddOnce(key, Hit(In, 1, EGR_PIPELINE_1), Tunnel(In, Eip, false, true));

      key.Clear();
      key.FillTunnel(cfg.dlIp, cfg.dlMask, VXLAN_TYPE_JD, TOF_EIP_IN);
      key.FillInner(false, 1);
      key.inner := key.inner.(ipv4Dst := 0, ipv4DstMask := 1);
      EntryAddOnce(key, Hit(In, 1, EGR_PIPELINE_3), Tunnel(In, Eip, false, false));
    }

    method InternetInWithinClusterV6EntryInit()
      requires Valid()
      modifies this`entries, this`rules
      ensures Valid() && rules == old(rules) + IN_EIP_RULES[2..]
    {
      hide EntriesOfAll, Valid;
      var key := new KeyBuffer();
      key.FillTunnel(cfg.dlIp, cfg.dlMask, VXLAN_TYPE_JD, TOF_EIP_IN);
      key.FillInner(true, 1);
      key.inner := key.inner.(ipv6Dst := 1, ipv6DstMask := 1);
      EntryAddOnce(key, Hit(In, 1, EGR_PIPELINE_1), Tunnel(In, Eip, true, true));

      key.Clear();
      key.FillTunnel(cfg.dlIp, cfg.dlMask, VXLAN_TYPE_JD, TOF_EIP_IN);
      key.FillInner(true, 1);
      key.inner := key.inner.(ipv6Dst := 0, ipv6DstMask := 1);
      EntryAddOnce(key, Hit(In, 1, EGR_PIPELINE_3), Tunnel(In, Eip, true, false));
    }

    method InternetInWithinClusterEntryInit()
      requires Valid()
      modifies this`entries, this`rules
      ensures Valid() && rules == old(rules) + IN_EIP_RULES
    {
      hide Valid;
      InternetInWithinClusterV4EntryInit();
      InternetInWithinClusterV6EntryInit();
      assert IN_EIP_RULES == IN_EIP_RULES[..2] + IN_EIP_RULES[2..];
    }

    /** `igw_ip_type_table_init` leaves exactly the entries of `Table`. */
    method Init()
      requires Valid() && rules == []
      modifies this`entries, this`rules
      ensures entries == Table(cfg)
    {
      hide EntriesOfAll, Table;
      InternetOutEntryInit();
      InternetOutBetweenClusterEntryInit();
      InternetOutWithinClusterEntryInit();
      InternetInEntryInit();
      InternetInBetweenClusterEntryInit();
      InternetInWithinClusterEntryInit();
      TableOfAllRules(cfg);
    }
  }

  lemma {:induction false} EntriesOfAllConcat(c: GatewayConfig, a: seq<Rule>, b: seq<Rule>)
    ensures EntriesOfAll(c, a + b) == EntriesOfAll(c, a) + EntriesOfAll(c, b)
  {
    hide EntriesOf, EntriesOfAll;
    if a == [] {
      assert a + b == b;
      FirstRule(c, Multicast, []);
    } else {
      assert a == [a[0]] + a[1..] && a + b == [a[0]] + (a[1..] + b);
      FirstRule(c, a[0], a[1..]);
      FirstRule(c, a[0], a[1..] + b);
      EntriesOfAllConcat(c, a[1..], b);
    }
  }

  lemma TableOfAllRules(c: GatewayConfig)
    ensures Table(c) == EntriesOfAll(c, ((((([] + OUT_HOST_RULES) + OUT_AZ_RULES) + OUT_EIP_RULES) + RAW_RULES) +
                                         IN_AZ_RULES) + IN_EIP_RULES)
  {
    hide EntriesOfAll;
    var e: seq<Rule> := [];
    EntriesOfAllConcat(c, (((((e + OUT_HOST_RULES) + OUT_AZ_RULES) + OUT_EIP_RULES) + RAW_RULES) + IN_AZ_RULES),
                       IN_EIP_RULES);
    EntriesOfAllConcat(c, ((((e + OUT_HOST_RULES) + OUT_AZ_RULES) + OUT_EIP_RULES) + RAW_RULES), IN_AZ_RULES);
    EntriesOfAllConcat(c, (((e + OUT_HOST_RULES) + OUT_AZ_RULES) + OUT_EIP_RULES), RAW_RULES);
    EntriesOfAllConcat(c, ((e + OUT_HOST_RULES) + OUT_AZ_RULES), OUT_EIP_RULES);
    EntriesOfAllConcat(c, (e + OUT_HOST_RULES), OUT_AZ_RULES);
    assert e + OUT_HOST_RULES == OUT_HOST_RULES;
  }
}
