/** The addresses a redirect picks from are those the DL initialiser lists, so the
    picked gateway owns the block exactly when the list stays inside it. */
module DlPeers {
  import opened IpTypeTable
  import opened Gateway
  import opened RedirectedFrames
  import opened RedirectProtocol
  import opened DlPrefix

  /** A direction's selector holds the listed members' addresses. */
  ghost predicate Holds(addresses: seq<bv32>, members: seq<DlMember>) {
    |addresses| == |members| && forall i :: 0 <= i < |members| ==> addresses[i] == members[i].dlIp
  }

  lemma SomeMember(mask: bv32, dlIp: bv32)
    ensures Nat(MemberCount(dlIp, mask)) > 0
  {
    hide RunsOver;
  }

  /** With the tables of `EcmpDlTableInit`, a gateway picks only addresses of its
      own DL block, exactly when the list does not run over 255.255.255.255. */
  lemma PicksOwnBlockIff(g: Gateway, dir: Direction, prefixLen: nat, members: seq<DlMember>)
    requires 24 <= prefixLen <= 32 && g.cfg.dlMask == MaskOf(prefixLen)
    requires Lists(members, FirstIp(g.cfg.dlIp, g.cfg.dlMask))
    requires |members| == Nat(MemberCount(g.cfg.dlIp, g.cfg.dlMask))
    requires Holds(TablesOf(g, dir).dlMembers, members)
    ensures PicksOwnBlock(g, dir) <==> !RunsOver(g.cfg.dlIp, g.cfg.dlMask)
  {
    hide MaskOf, Lists, MemberCount, RunsOver, FirstIp, Ternary32;
    var ip, mask, addresses := g.cfg.dlIp, g.cfg.dlMask, TablesOf(g, dir).dlMembers;
    SomeMember(mask, ip);
    MembersInBlockIff(ip, prefixLen, members);
    if PicksOwnBlock(g, dir) {
      forall m | m in members
        ensures Ternary32(m.dlIp, ip, mask)
      {
        var i :| 0 <= i < |members| && members[i] == m;
        assert addresses[i] in addresses;
      }
    }
    if forall m :: m in members ==> Ternary32(m.dlIp, ip, mask) {
      forall a | a in addresses
        ensures Ternary32(a, ip, mask)
      {
        var i :| 0 <= i < |addresses| && addresses[i] == a;
        assert members[i] in members;
      }
    }
  }
}
