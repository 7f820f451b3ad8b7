/** The route agent: default-route messages select gateways, and the status of
    the hardware selector members follows. */
module RouteAgent {
  import opened Wrappers
  import opened HashTables
  import opened Ecmp

  const MAX_GATEWAY := 64

  // ---------- gateways ----------

  /** A gateway as the hash table keeps it, under its address. */
  datatype Gateway = Gateway(memberIndex: nat, pipe: nat, devPort: nat)

  datatype Hostif = Hostif(gwIp: nat, devPort: nat)

  /** `get_member_index_from_port`: the position of a port in its pipe's array,
      or the array's size. */
  method GetMemberIndexFromPort(pipe: nat, devPort: nat, devports0: seq<nat>, devports2: seq<nat>) returns (i: nat)
    requires |devports0| == |devports2| == PER_PIPE_PORT_NUMS
    ensures i < PER_PIPE_PORT_NUMS ==> (pipe == 0 && devports0[i] == devPort) || (pipe == 2 && devports2[i] == devPort)
    ensures i >= PER_PIPE_PORT_NUMS ==> (pipe == 0 ==> devPort !in devports0) && (pipe == 2 ==> devPort !in devports2)
    ensures i <= PER_PIPE_PORT_NUMS
  {
    if pipe != 0 && pipe != 2 {
      return PER_PIPE_PORT_NUMS;
    }
    var ports := if pipe == 0 then devports0 else devports2;
    i := 0;
    while i < PER_PIPE_PORT_NUMS
      invariant i <= PER_PIPE_PORT_NUMS && devPort !in ports[..i]
    {
      if ports[i] == devPort {
        return;
      }
      i := i + 1;
    }
    assert ports[..i] == ports;
  }

  /** A gateway sits in pipe 0 or 2, at the member whose port is its own. */
  predicate GoodGateway(g: Gateway) {
    (g.pipe == 0 || g.pipe == 2) && g.memberIndex < PER_PIPE_PORT_NUMS && g.devPort == PortOf(g.pipe, g.memberIndex)
  }

  ghost predicate GoodGateways(gws: seq<Entry<Gateway>>) {
    forall i :: 0 <= i < |gws| ==> GoodGateway(gws[i].value)
  }

  /** The gateways name the array's addresses and ports, one by one. */
  ghost predicate GatewaysOf(gws: seq<Entry<Gateway>>, hostifs: seq<Hostif>) {
    |gws| == |hostifs| && forall i :: 0 <= i < |gws| ==>
      gws[i].key == hostifs[i].gwIp && gws[i].value.devPort == hostifs[i].devPort
  }

  /** The port is the i-th of pipe 0 or of pipe 2. */
  predicate AtMember(port: nat, i: nat) {
    port == PortOf(0, i) || port == PortOf(2, i)
  }

  ghost predicate Placeable(port: nat) {
    exists i :: 0 <= i < PER_PIPE_PORT_NUMS && AtMember(port, i)
  }

  ghost predicate AllPlaceable(hostifs: seq<Hostif>) {
    forall i :: 0 <= i < |hostifs| ==> Placeable(hostifs[i].devPort)
  }

  /** `hostif_array_to_gateways`; `None` where the source aborts, which is exactly
      when there are too many interfaces or one is on no gateway port. */
  method HostifArrayToGateways(hostifs: seq<Hostif>, devports0: seq<nat>,
                               devports2: seq<nat>) returns (r: Option<HashTable<Gateway>>)
    requires ListsPorts(devports0, 0) && ListsPorts(devports2, 2)
    ensures r.Some? <==> |hostifs| <= MAX_GATEWAY && AllPlaceable(hostifs)
    ensures r.Some? ==> r.value.Valid() && GoodGateways(r.value.contents) && GatewaysOf(r.value.contents, hostifs)
  {
    hide Placeable, GoodGateway, PipeOfPort, PortOf;
    if |hostifs| > MAX_GATEWAY {
      return None;
    }
    var t := new HashTable<Gateway>();
    for i := 0 to |hostifs|
      invariant t.Valid() && fresh(t) && fresh(t.buckets) && fresh(t.buckets[..]) && fresh(t.entryOf.Keys)
      invariant GoodGateways(t.contents) && GatewaysOf(t.contents, hostifs[..i])
      invariant AllPlaceable(hostifs[..i])
    {
      var devPort := hostifs[i].devPort;
      var pipe := PipeOfPort(devPort);
      if pipe != 0 && pipe != 2 {
        NotPlaceable(devPort);
        return None;
      }
      var m := GetMemberIndexFromPort(pipe, devPort, devports0, devports2);
      if m >= PER_PIPE_PORT_NUMS {
        NoMember(devPort, pipe, devports0, devports2);
        return None;
      }
      MemberIsPlace(devPort, pipe, m, devports0, devports2);
      assert t.buckets[BucketOf(hostifs[i].gwIp)] in t.buckets[..];
      t.Add(Entry(hostifs[i].gwIp, Gateway(m, pipe, devPort)));
    }
    assert hostifs[..|hostifs|] == hostifs;
    r := Some(t);
  }

  lemma NotPlaceable(port: nat)
    requires PipeOfPort(port) != 0 && PipeOfPort(port) != 2
    ensures !Placeable(port)
  {
    forall i: nat | i < PER_PIPE_PORT_NUMS
      ensures !AtMember(port, i)
    {
      PortsOfPipe(0, i);
      PortsOfPipe(2, i);
    }
  }

  lemma NoMember(port: nat, pipe: nat, devports0: seq<nat>, devports2: seq<nat>)
    requires ListsPorts(devports0, 0) && ListsPorts(devports2, 2) && pipe == PipeOfPort(port)
    requires (pipe == 0 && port !in devports0) || (pipe == 2 && port !in devports2)
    ensures !Placeable(port)
  {
    forall i: nat | i < PER_PIPE_PORT_NUMS
      ensures !AtMember(port, i)
    {
      PortsOfPipe(0, i);
      PortsOfPipe(2, i);
    }
  }

  lemma MemberIsPlace(port: nat, pipe: nat, m: nat, devports0: seq<nat>, devports2: seq<nat>)
    requires ListsPorts(devports0, 0) && ListsPorts(devports2, 2) && m < PER_PIPE_PORT_NUMS
    requires (pipe == 0 && devports0[m] == port) || (pipe == 2 && devports2[m] == port)
    ensures Placeable(port) && GoodGateway(Gateway(m, pipe, port))
  {
    assert AtMember(port, m);
  }

  // ---------- messages ----------

  /** A next hop of a multipath attribute; `up` is the state of its interface. */
  datatype Nexthop = Nexthop(isGateway: bool, ip: nat, up: bool)

  datatype Attr = Dst(ip: nat) | Via(ip: nat) | Multipath(hops: seq<Nexthop>) | Other

  datatype RouteMsg = RouteMsg(inet: bool, dstLen: nat, attrs: seq<Attr>)

  /** The gateways of a multipath attribute whose interface is up. */
  function UpGateways(hops: seq<Nexthop>): seq<nat> {
    if hops == [] then []
    else
      var h := hops[|hops| - 1];
      UpGateways(hops[..|hops| - 1]) + (if h.isGateway && h.up then [h.ip] else [])
  }

  function Capped(s: seq<nat>): seq<nat> {
    if |s| > MAX_GATEWAY then s[..MAX_GATEWAY] else s
  }

  lemma {:induction false} UpGatewaysPrefix(hops: seq<Nexthop>, i: nat)
    requires i <= |hops|
    ensures UpGateways(hops[..i]) <= UpGateways(hops)
  {
    if i < |hops| {
      assert hops[..|hops| - 1][..i] == hops[..i];
      UpGatewaysPrefix(hops[..|hops| - 1], i);
    } else {
      assert hops[..i] == hops;
    }
  }

  /** A next hop that counts: a gateway whose interface is up. */
  predicate Usable(h: Nexthop) {
    h.isGateway && h.up
  }

  /** How many of the first i next hops count. */
  function UsableBefore(hops: seq<Nexthop>, i: nat): nat
    requires i <= |hops|
  {
    if i == 0 then 0 else UsableBefore(hops, i - 1) + if Usable(hops[i - 1]) then 1 else 0
  }

  /** The k-th next hop counts, and n of them before it do. */
  predicate PlacedAt(hops: seq<Nexthop>, k: nat, n: nat) {
    k < |hops| && Usable(hops[k]) && UsableBefore(hops, k) == n
  }

  /** One of the first sixty-four next hops that count. */
  predicate Taken(hops: seq<Nexthop>, k: nat) {
    k < |hops| && Usable(hops[k]) && UsableBefore(hops, k) < 64
  }

  /** The n-th address is that of the next hop with n before it. */
  ghost predicate ListedAt(gws: seq<nat>, hops: seq<Nexthop>, n: nat) {
    n < |gws| ==> exists k: nat :: PlacedAt(hops, k, n) && hops[k].ip == gws[n]
  }

  /** The list holds the addresses of exactly those next hops, each at its place. */
  ghost predicate ListsTaken(gws: seq<nat>, hops: seq<Nexthop>) {
    && |gws| == (if UsableBefore(hops, |hops|) < 64 then UsableBefore(hops, |hops|) else 64)
    && (forall k: nat :: Taken(hops, k) ==> UsableBefore(hops, k) < |gws| && gws[UsableBefore(hops, k)] == hops[k].ip)
    && (forall n: nat :: ListedAt(gws, hops, n))
  }

  lemma {:induction false} UsablePrefix(hops: seq<Nexthop>, i: nat, k: nat)
    requires k <= i <= |hops|
    ensures UsableBefore(hops[..i], k) == UsableBefore(hops, k)
  {
    if k > 0 {
      UsablePrefix(hops, i, k - 1);
    }
  }

  /** The place of a next hop among the up gateways is the number of those before it. */
  lemma {:induction false} UpGatewaysPlace(hops: seq<Nexthop>, k: nat)
    requires k < |hops| && Usable(hops[k])
    ensures UsableBefore(hops, k) < |UpGateways(hops)| && UpGateways(hops)[UsableBefore(hops, k)] == hops[k].ip
  {
    var m := |hops| - 1;
    UpGatewaysLength(hops[..m]);
    UsablePrefix(hops, m, k);
    UsablePrefix(hops, m, m);
    if k < m {
      UpGatewaysPlace(hops[..m], k);
    }
  }

  lemma {:induction false} UpGatewaysLength(hops: seq<Nexthop>)
    ensures |UpGateways(hops)| == UsableBefore(hops, |hops|)
  {
    if hops != [] {
      UpGatewaysLength(hops[..|hops| - 1]);
      UsablePrefix(hops, |hops| - 1, |hops| - 1);
    }
  }

  lemma {:induction false} UpGatewaysListed(hops: seq<Nexthop>, n: nat)
    ensures ListedAt(UpGateways(hops), hops, n)
  {
    if n < |UpGateways(hops)| {
      var m := |hops| - 1;
      var front := hops[..m];
      UpGatewaysListed(front, n);
      UpGatewaysLength(front);
      UsablePrefix(hops, m, m);
      if n < |UpGateways(front)| {
        var k: nat :| PlacedAt(front, k, n) && front[k].ip == UpGateways(front)[n];
        UsablePrefix(hops, m, k);
        assert PlacedAt(hops, k, n);
      } else {
        assert PlacedAt(hops, m, n);
      }
    }
  }

  lemma CappedListsTaken(hops: seq<Nexthop>)
    ensures ListsTaken(Capped(UpGateways(hops)), hops)
  {
    hide UpGateways, UsableBefore;
    UpGatewaysLength(hops);
    var gws := Capped(UpGateways(hops));
    forall k: nat | Taken(hops, k)
      ensures UsableBefore(hops, k) < |gws| && gws[UsableBefore(hops, k)] == hops[k].ip
    {
      UpGatewaysPlace(hops, k);
    }
    forall n: nat
      ensures ListedAt(gws, hops, n)
    {
      UpGatewaysListed(hops, n);
    }
  }

  /** `process_ecmp`: the gateways whose interface is up, in order, at most
      sixty-four; below that number none is missing. */
  method ProcessEcmp(hops: seq<Nexthop>) returns (gws: seq<nat>)
    ensures gws == Capped(UpGateways(hops))
    ensures ListsTaken(gws, hops)
  {
    hide ListsTaken;
    CappedListsTaken(hops);
    gws := [];
    var i := 0;
    while i < |hops|
      invariant 0 <= i <= |hops| && gws == UpGateways(hops[..i]) && |gws| < MAX_GATEWAY
    {
      assert hops[..i + 1][..i] == hops[..i];
      if hops[i].isGateway {
        if hops[i].up {
          gws := gws + [hops[i].ip];
          if |gws| >= MAX_GATEWAY {
            UpGatewaysPrefix(hops, i + 1);
            return;
          }
        }
      }
      i := i + 1;
    }
    assert hops[..i] == hops;
  }

  /** What the attribute loop collects: the last gateway and the gateways of the
      last multipath attribute. */
  datatype Collected = Collected(via: Option<nat>, ecmp: seq<nat>)

  function Collect(attrs: seq<Attr>): Collected {
    if attrs == [] then Collected(None, [])
    else
      var c := Collect(attrs[..|attrs| - 1]);
      match attrs[|attrs| - 1]
      case Via(ip) => c.(via := Some(ip))
      case Multipath(hops) => c.(ecmp := Capped(UpGateways(hops)))
      case _ => c
  }

  predicate NamesDst(attrs: seq<Attr>) {
    exists i :: 0 <= i < |attrs| && attrs[i].Dst? && attrs[i].ip != 0
  }

  /** The gateways of an accepted default-route message: an IPv4 route without
      destination, through its multipath gateways if any is up, else through its
      single gateway.  The message type is not looked at. */
  function Accepted(m: RouteMsg): Option<seq<nat>> {
    if !m.inet || NamesDst(m.attrs) || m.dstLen != 0 then None
    else
      var c := Collect(m.attrs);
      if c.ecmp != [] then Some(c.ecmp)
      else if c.via.Some? then Some([c.via.value])
      else None
  }

  /** Does the list name a known gateway at that member of that pipe?  Gateways
      outside pipe 0 count as pipe 2. */
  predicate NamesMember(gws: seq<Entry<Gateway>>, ips: seq<nat>, pipe: nat, i: nat) {
    ips != [] &&
    ((match LastWith(gws, ips[|ips| - 1])
      case None => false
      case Some(g) => (g.pipe == 0 <==> pipe == 0) && g.memberIndex == i) ||
     NamesMember(gws, ips[..|ips| - 1], pipe, i))
  }

  predicate NamesPipe(gws: seq<Entry<Gateway>>, ips: seq<nat>, pipe: nat) {
    ips != [] &&
    ((match LastWith(gws, ips[|ips| - 1]) case None => false case Some(g) => (g.pipe == 0 <==> pipe == 0)) ||
     NamesPipe(gws, ips[..|ips| - 1], pipe))
  }

  function StatusOf(gws: seq<Entry<Gateway>>, ips: seq<nat>, pipe: nat): (s: seq<bool>)
    ensures |s| == PER_PIPE_PORT_NUMS
  {
    seq(PER_PIPE_PORT_NUMS, i requires 0 <= i => NamesMember(gws, ips, pipe, i))
  }

  /** A pipe's group with a new status. */
  function WithStatus(t: Tables, pipe: nat, status: seq<bool>): Tables
    requires pipe < 4
  {
    t.(groups := t.groups[SelectorOf(pipe) := Selector(PipeIds(FirstMember(pipe)), status)])
  }

  /** The hardware after one message; a write may fail. */
  function Written(t: Tables, gws: seq<Entry<Gateway>>, ips: seq<nat>, pipe: nat, ok: bool): Tables
    requires pipe < 4
  {
    if NamesPipe(gws, ips, pipe) && ok then WithStatus(t, pipe, StatusOf(gws, ips, pipe)) else t
  }

  function Handled(t: Tables, gws: seq<Entry<Gateway>>, m: RouteMsg, ok0: bool, ok2: bool): Tables {
    match Accepted(m)
    case None => t
    case Some(ips) => Written(Written(t, gws, ips, 0, ok0), gws, ips, 2, ok2)
  }

  // ---------- the agent ----------

  class Agent {
    const table: HashTable<Gateway>
    const pipe0MemberIds: seq<nat>
    const pipe2MemberIds: seq<nat>
    const pipe0Status: array<bool>
    const pipe2Status: array<bool>
    /** The hardware tables. */
    var hw: Tables

    constructor (t: HashTable<Gateway>, hardware: Tables)
      requires t.Valid() && GoodGateways(t.contents)
      ensures Ready() && table == t && hw == hardware && fresh(pipe0Status) && fresh(pipe2Status)
    {
      table, hw := t, hardware;
      pipe0MemberIds, pipe2MemberIds := PipeIds(FirstMember(0)), PipeIds(FirstMember(2));
      pipe0Status := new bool[PER_PIPE_PORT_NUMS](_ => false);
      pipe2Status := new bool[PER_PIPE_PORT_NUMS](_ => false);
    }

    ghost predicate Ready()
      reads table, table.buckets, table.buckets[..], table.entryOf.Keys
    {
      && table.Valid() && GoodGateways(table.contents)
      && pipe0MemberIds == PipeIds(FirstMember(0)) && pipe2MemberIds == PipeIds(FirstMember(2))
      && pipe0Status.Length == pipe2Status.Length == PER_PIPE_PORT_NUMS && pipe0Status != pipe2Status
    }

    method InitMembersState()
      requires pipe0Status.Length == pipe2Status.Length == PER_PIPE_PORT_NUMS
      modifies pipe0Status, pipe2Status
      ensures forall i :: 0 <= i < PER_PIPE_PORT_NUMS ==> !pipe0Status[i] && !pipe2Status[i]
    {
      for i := 0 to PER_PIPE_PORT_NUMS
        invariant forall j :: 0 <= j < i ==> !pipe0Status[j] && !pipe2Status[j]
      {
        pipe0Status[i] := false;
        pipe2Status[i] := false;
      }
    }

    /** The attribute loop; `None` where it returns at a destination. */
    method ReadAttrs(attrs: seq<Attr>) returns (r: Option<Collected>)
      ensures r == if NamesDst(attrs) then None else Some(Collect(attrs))
    {
      var c := Collected(None, []);
      var i := 0;
      while i < |attrs|
        invariant 0 <= i <= |attrs| && !NamesDst(attrs[..i]) && c == Collect(attrs[..i])
      {
        assert attrs[..i + 1][..i] == attrs[..i];
        match attrs[i] {
          case Dst(ip) =>
            if ip != 0 {
              assert NamesDst(attrs);
              return None;
            }
          case Via(ip) => c := c.(via := Some(ip));
          case Multipath(hops) =>
            var gws := ProcessEcmp(hops);
            c := c.(ecmp := gws);
          case Other =>
        }
        i := i + 1;
      }
      assert attrs[..i] == attrs;
      r := Some(c);
    }

    /** The gateway loop: marks the members of known gateways. */
    method MarkMembers(ips: seq<nat>) returns (change0: bool, change2: bool)
      requires Ready()
      requires forall i :: 0 <= i < PER_PIPE_PORT_NUMS ==> !pipe0Status[i] && !pipe2Status[i]
      modifies pipe0Status, pipe2Status
      ensures change0 == NamesPipe(table.contents, ips, 0) && change2 == NamesPipe(table.contents, ips, 2)
      ensures pipe0Status[..] == StatusOf(table.contents, ips, 0) && pipe2Status[..] == StatusOf(table.contents, ips, 2)
    {
      change0, change2 := false, false;
      ghost var gws := table.contents;
      for i := 0 to |ips|
        invariant Ready() && change0 == NamesPipe(gws, ips[..i], 0) && change2 == NamesPipe(gws, ips[..i], 2)
        invariant forall j :: 0 <= j < PER_PIPE_PORT_NUMS ==> pipe0Status[j] == NamesMember(gws, ips[..i], 0, j)
        invariant forall j :: 0 <= j < PER_PIPE_PORT_NUMS ==> pipe2Status[j] == NamesMember(gws, ips[..i], 2, j)
        modifies pipe0Status, pipe2Status
      {
        assert ips[..i + 1][..i] == ips[..i];
        var e := table.Get(ips[i]);
        if e.Some? {
          FoundIsGood(gws, ips[i]);
          if e.value.pipe == 0 {
            change0 := true;
            pipe0Status[e.value.memberIndex] := true;
          } else {
            change2 := true;
            pipe2Status[e.value.memberIndex] := true;
          }
        }
      }
      assert ips[..|ips|] == ips;
    }

    /** `process_route_msg` */
    method ProcessRouteMsg(m: RouteMsg, ok0: bool, ok2: bool)
      requires Ready()
      modifies this`hw, pipe0Status, pipe2Status
      ensures Ready() && hw == Handled(old(hw), table.contents, m, ok0, ok2)
    {
      hide Collect, NamesPipe, NamesMember, StatusOf, PipeIds, GoodGateways;
      if !m.inet {
        return;
      }
      var r := ReadAttrs(m.attrs);
      if r.None? {
        return;
      }
      var via, ecmp := r.value.via, r.value.ecmp;
      if m.dstLen != 0 {
        return;
      }
      if via.None? && ecmp == [] {
        return;
      }
      InitMembersState();
      if ecmp == [] {
        ecmp := [via.value];
      }
      assert Accepted(m) == Some(ecmp);
      var change0, change2 := MarkMembers(ecmp);
      if change0 && ok0 {
        hw := hw.(groups := hw.groups[PIPE0_SELECTOR := Selector(pipe0MemberIds, pipe0Status[..])]);
      }
      if change2 && ok2 {
        hw := hw.(groups := hw.groups[PIPE2_SELECTOR := Selector(pipe2MemberIds, pipe2Status[..])]);
      }
    }
  }

  lemma {:induction false} FoundIsGood(gws: seq<Entry<Gateway>>, ip: nat)
    requires GoodGateways(gws)
    ensures LastWith(gws, ip).Some? ==> GoodGateway(LastWith(gws, ip).value)
  {
    if gws != [] {
      FoundIsGood(gws[..|gws| - 1], ip);
    }
  }

  // ---------- runs of messages ----------

  /** A message, and whether the writes it may lead to succeed. */
  datatype Turn = Turn(m: RouteMsg, ok0: bool, ok2: bool)

  /** The hardware after a run of messages, whichever writes fail. */
  function After(t: Tables, gws: seq<Entry<Gateway>>, es: seq<Turn>): Tables {
    if es == [] then t
    else
      var e := es[|es| - 1];
      Handled(After(t, gws, es[..|es| - 1]), gws, e.m, e.ok0, e.ok2)
  }

  /** The message is accepted and names a known gateway of the pipe. */
  predicate Names(gws: seq<Entry<Gateway>>, m: RouteMsg, pipe: nat) {
    Accepted(m).Some? && NamesPipe(gws, Accepted(m).value, pipe)
  }

  /** The message changes the pipe's group. */
  predicate Writes(gws: seq<Entry<Gateway>>, e: Turn, pipe: nat) {
    Names(gws, e.m, pipe) && if pipe == 0 then e.ok0 else e.ok2
  }

  /** The pipe's group, whatever else is in the tables. */
  function StatusIn(t: Tables, pipe: nat): seq<bool> {
    if SelectorOf(pipe) in t.groups then t.groups[SelectorOf(pipe)].status else []
  }

  lemma HandledStatus(t: Tables, gws: seq<Entry<Gateway>>, e: Turn, pipe: nat)
    requires pipe == 0 || pipe == 2
    ensures StatusIn(Handled(t, gws, e.m, e.ok0, e.ok2), pipe) ==
      if Writes(gws, e, pipe) then StatusOf(gws, Accepted(e.m).value, pipe) else StatusIn(t, pipe)
  {
    hide Accepted, NamesPipe, StatusOf, PipeIds;
  }

  lemma HandledServes(t: Tables, gws: seq<Entry<Gateway>>, m: RouteMsg, ok0: bool, ok2: bool)
    requires Serves(t)
    ensures Serves(Handled(t, gws, m, ok0, ok2))
  {
    hide Accepted, NamesPipe, StatusOf, PipeIds;
    match Accepted(m)
    case None =>
    case Some(ips) =>
      WrittenServes(t, gws, ips, 0, ok0);
      WrittenServes(Written(t, gws, ips, 0, ok0), gws, ips, 2, ok2);
  }

  lemma WrittenServes(t: Tables, gws: seq<Entry<Gateway>>, ips: seq<nat>, pipe: nat, ok: bool)
    requires Serves(t) && pipe < 4
    ensures Serves(Written(t, gws, ips, pipe, ok))
  {
    hide NamesPipe, StatusOf, PipeIds;
    var n := Written(t, gws, ips, pipe, ok);
    forall p | 0 <= p < 4
      ensures ServesPipe(n, p)
    {
      assert ServesPipe(t, p);
    }
  }

  lemma {:induction false} AfterServes(t: Tables, gws: seq<Entry<Gateway>>, es: seq<Turn>)
    requires Serves(t)
    ensures Serves(After(t, gws, es))
  {
    hide Handled, Serves;
    if es != [] {
      var front, e := es[..|es| - 1], es[|es| - 1];
      AfterServes(t, gws, front);
      HandledServes(After(t, gws, front), gws, e.m, e.ok0, e.ok2);
    }
  }

  /** The gateways of the last message of the run that changed the pipe's group. */
  function LastWritten(gws: seq<Entry<Gateway>>, es: seq<Turn>, pipe: nat): Option<seq<nat>> {
    if es == [] then None
    else if Writes(gws, es[|es| - 1], pipe) then Accepted(es[|es| - 1].m)
    else LastWritten(gws, es[..|es| - 1], pipe)
  }

  /** `LastWritten` is what it says. */
  lemma {:induction false} LastWrittenIsLast(gws: seq<Entry<Gateway>>, es: seq<Turn>, pipe: nat, j: nat)
    requires j < |es| && Writes(gws, es[j], pipe)
    requires forall l :: j < l < |es| ==> !Writes(gws, es[l], pipe)
    ensures LastWritten(gws, es, pipe) == Accepted(es[j].m)
  {
    hide Names, Accepted;
    if j < |es| - 1 {
      var front := es[..|es| - 1];
      assert !Writes(gws, es[|es| - 1], pipe);
      LastWrittenIsLast(gws, front, pipe, j);
    }
  }

  /** After any run of messages, whichever writes fail, a pipe's group shows exactly
      the known gateways of the last accepted message that names one of that pipe and
      whose write succeeded; before there is such a message it shows what it showed
      at first. */
  lemma {:induction false} StatusAfterRun(t: Tables, gws: seq<Entry<Gateway>>, es: seq<Turn>, pipe: nat)
    requires pipe == 0 || pipe == 2
    ensures StatusIn(After(t, gws, es), pipe) ==
      (match LastWritten(gws, es, pipe) case None => StatusIn(t, pipe) case Some(ips) => StatusOf(gws, ips, pipe))
  {
    hide Handled, StatusOf, StatusIn, Accepted, NamesPipe;
    if es != [] {
      var front, e := es[..|es| - 1], es[|es| - 1];
      StatusAfterRun(t, gws, front, pipe);
      HandledStatus(After(t, gws, front), gws, e, pipe);
    }
  }

  // ---------- what a message says ----------

  /** The last attribute of its kind. */
  predicate LastVia(attrs: seq<Attr>, k: nat) {
    k < |attrs| && attrs[k].Via? && forall j :: k < j < |attrs| ==> !attrs[j].Via?
  }

  predicate LastMultipath(attrs: seq<Attr>, k: nat) {
    k < |attrs| && attrs[k].Multipath? && forall j :: k < j < |attrs| ==> !attrs[j].Multipath?
  }

  ghost predicate HasVia(attrs: seq<Attr>) {
    exists k: nat :: LastVia(attrs, k)
  }

  ghost predicate HasMultipath(attrs: seq<Attr>) {
    exists k: nat :: LastMultipath(attrs, k)
  }

  lemma {:induction false} ViaIs(attrs: seq<Attr>)
    ensures forall k: nat :: LastVia(attrs, k) ==> Collect(attrs).via == Some(attrs[k].ip)
    ensures Collect(attrs).via.Some? ==> HasVia(attrs)
  {
    hide Capped, UpGateways;
    if attrs != [] {
      var m := |attrs| - 1;
      var front := attrs[..m];
      ViaIs(front);
      forall k: nat | LastVia(attrs, k)
        ensures k == m || LastVia(front, k)
      {
      }
      if attrs[m].Via? {
        assert LastVia(attrs, m);
      } else if k: nat :| LastVia(front, k) {
        assert LastVia(attrs, k);
      }
    }
  }

  lemma {:induction false} MultipathIs(attrs: seq<Attr>)
    ensures forall k: nat :: LastMultipath(attrs, k) ==> Collect(attrs).ecmp == Capped(UpGateways(attrs[k].hops))
    ensures Collect(attrs).ecmp != [] ==> HasMultipath(attrs)
  {
    hide Capped, UpGateways;
    if attrs != [] {
      var m := |attrs| - 1;
      var front := attrs[..m];
      MultipathIs(front);
      forall k: nat | LastMultipath(attrs, k)
        ensures k == m || LastMultipath(front, k)
      {
      }
      if attrs[m].Multipath? {
        assert LastMultipath(attrs, m);
      } else if k: nat :| LastMultipath(front, k) {
        assert LastMultipath(attrs, k);
      }
    }
  }

  /** An IPv4 route without destination. */
  predicate IsDefaultRoute(m: RouteMsg) {
    m.inet && m.dstLen == 0 && forall k :: 0 <= k < |m.attrs| && m.attrs[k].Dst? ==> m.attrs[k].ip == 0
  }

  /** A next hop of the last multipath attribute that counts. */
  predicate UsableHop(m: RouteMsg, k: nat, n: nat) {
    LastMultipath(m.attrs, k) && n < |m.attrs[k].hops| && Usable(m.attrs[k].hops[n])
  }

  predicate TakenHop(m: RouteMsg, k: nat, n: nat, ip: nat) {
    LastMultipath(m.attrs, k) && Taken(m.attrs[k].hops, n) && m.attrs[k].hops[n].ip == ip
  }

  /** Some next hop of the last multipath attribute counts. */
  ghost predicate HasUsableHop(m: RouteMsg) {
    exists k: nat, n: nat :: UsableHop(m, k, n)
  }

  ghost predicate TakesHop(m: RouteMsg, ip: nat) {
    exists k: nat, n: nat :: TakenHop(m, k, n, ip)
  }

  ghost predicate LastViaIs(m: RouteMsg, ip: nat) {
    exists k: nat :: LastVia(m.attrs, k) && m.attrs[k].ip == ip
  }

  /** The default route leads through the address: through the next hops of its last
      multipath attribute that count, or, when none does, through its last single
      gateway. */
  ghost predicate LeadsThrough(m: RouteMsg, ip: nat) {
    IsDefaultRoute(m) && if HasUsableHop(m) then TakesHop(m, ip) else LastViaIs(m, ip)
  }

  lemma OneMultipath(attrs: seq<Attr>, k: nat, l: nat)
    requires LastMultipath(attrs, k) && LastMultipath(attrs, l)
    ensures k == l
  {
  }

  ghost predicate TakenAt(hops: seq<Nexthop>, n: nat, ip: nat) {
    Taken(hops, n) && hops[n].ip == ip
  }

  lemma CappedHas(hops: seq<Nexthop>, ip: nat)
    ensures ip in Capped(UpGateways(hops)) <==> exists n: nat :: TakenAt(hops, n, ip)
  {
    hide UpGateways, UsableBefore, Capped;
    CappedListsTaken(hops);
    var gws := Capped(UpGateways(hops));
    if ip in gws {
      var n: nat :| n < |gws| && gws[n] == ip;
      assert ListedAt(gws, hops, n);
      var k: nat :| PlacedAt(hops, k, n) && hops[k].ip == gws[n];
      assert TakenAt(hops, k, ip);
    }
    if n: nat :| TakenAt(hops, n, ip) {
      assert Taken(hops, n);
    }
  }

  lemma CappedEmptyIff(hops: seq<Nexthop>)
    ensures Capped(UpGateways(hops)) == [] <==> forall n :: 0 <= n < |hops| ==> !Usable(hops[n])
  {
    hide UpGateways, UsableBefore, Capped;
    CappedListsTaken(hops);
    var gws := Capped(UpGateways(hops));
    if n: nat :| n < |hops| && Usable(hops[n]) {
      UsableGrows(hops, n + 1, |hops|);
      CountsOne(hops, n);
    }
    if gws != [] {
      assert ListedAt(gws, hops, 0);
      var k: nat :| PlacedAt(hops, k, 0);
    }
  }

  lemma CountsOne(hops: seq<Nexthop>, n: nat)
    requires n < |hops| && Usable(hops[n])
    ensures UsableBefore(hops, n + 1) > 0
  {
  }

  lemma {:induction false} UsableGrows(hops: seq<Nexthop>, i: nat, j: nat)
    requires i <= j <= |hops|
    ensures UsableBefore(hops, i) <= UsableBefore(hops, j)
  {
    if i < j {
      UsableGrows(hops, i, j - 1);
    }
  }

  lemma HopsOfLast(m: RouteMsg, k: nat, ip: nat)
    requires LastMultipath(m.attrs, k)
    ensures ip in Capped(UpGateways(m.attrs[k].hops)) <==> TakesHop(m, ip)
    ensures Capped(UpGateways(m.attrs[k].hops)) != [] <==> HasUsableHop(m)
  {
    hide Capped, UpGateways, Taken, Usable;
    var hops := m.attrs[k].hops;
    CappedHas(hops, ip);
    CappedEmptyIff(hops);
    if n: nat :| TakenAt(hops, n, ip) {
      assert TakenHop(m, k, n, ip);
    }
    if n: nat :| n < |hops| && Usable(hops[n]) {
      assert UsableHop(m, k, n);
    }
    if l: nat, n: nat :| TakenHop(m, l, n, ip) {
      OneMultipath(m.attrs, k, l);
      assert TakenAt(hops, n, ip);
    }
    if l: nat, n: nat :| UsableHop(m, l, n) {
      OneMultipath(m.attrs, k, l);
    }
  }

  lemma NoDstIff(m: RouteMsg)
    ensures IsDefaultRoute(m) <==> m.inet && !NamesDst(m.attrs) && m.dstLen == 0
  {
  }

  lemma EcmpIff(m: RouteMsg, ip: nat)
    ensures Collect(m.attrs).ecmp != [] <==> HasUsableHop(m)
    ensures Collect(m.attrs).ecmp != [] ==> (ip in Collect(m.attrs).ecmp <==> TakesHop(m, ip))
  {
    hide Collect, Capped, UpGateways, Taken, LastMultipath, Usable;
    MultipathIs(m.attrs);
    if k: nat :| LastMultipath(m.attrs, k) {
      HopsOfLast(m, k, ip);
    }
  }

  lemma ViaIff(m: RouteMsg, ip: nat)
    ensures Collect(m.attrs).via == Some(ip) <==> LastViaIs(m, ip)
  {
    hide Collect, LastVia;
    ViaIs(m.attrs);
  }

  /** The gateways of an accepted message are those its default route leads through. */
  lemma AcceptedIff(m: RouteMsg, ip: nat)
    ensures Accepted(m).Some? && ip in Accepted(m).value <==> LeadsThrough(m, ip)
  {
    hide Collect, NamesDst, IsDefaultRoute, HasUsableHop, TakesHop, LastViaIs;
    NoDstIff(m);
    EcmpIff(m, ip);
    ViaIff(m, ip);
  }

  /** The default route leads through a known gateway on that port. */
  ghost predicate LeadsToPort(gws: seq<Entry<Gateway>>, m: RouteMsg, port: nat) {
    exists ip: nat :: LeadsThrough(m, ip) && KnownAt(gws, ip, port)
  }

  lemma LeadsToPortIff(gws: seq<Entry<Gateway>>, m: RouteMsg, port: nat)
    ensures LeadsToPort(gws, m, port) <==> Accepted(m).Some? && NamesPort(gws, Accepted(m).value, port)
  {
    hide Accepted, LeadsThrough, KnownAt;
    if ip: nat :| LeadsThrough(m, ip) && KnownAt(gws, ip, port) {
      AcceptedIff(m, ip);
      var ips := Accepted(m).value;
      var k :| 0 <= k < |ips| && ips[k] == ip;
      assert KnownAt(gws, ips[k], port);
    }
    if Accepted(m).Some? && NamesPort(gws, Accepted(m).value, port) {
      var ips := Accepted(m).value;
      var k :| 0 <= k < |ips| && KnownAt(gws, ips[k], port);
      AcceptedIff(m, ips[k]);
    }
  }

  ghost predicate LeadsToMember(gws: seq<Entry<Gateway>>, m: RouteMsg, pipe: nat, i: nat) {
    i < PER_PIPE_PORT_NUMS && LeadsToPort(gws, m, PortOf(pipe, i))
  }

  /** A message that changes the pipe's group: its default route leads through a known
      gateway on one of the pipe's ports, and the write succeeds. */
  ghost predicate Effective(gws: seq<Entry<Gateway>>, e: Turn, pipe: nat) {
    (if pipe == 0 then e.ok0 else e.ok2) && exists i: nat :: LeadsToMember(gws, e.m, pipe, i)
  }

  lemma LeadsToMemberIff(gws: seq<Entry<Gateway>>, m: RouteMsg, pipe: nat, i: nat)
    requires GoodGateways(gws) && (pipe == 0 || pipe == 2)
    ensures LeadsToMember(gws, m, pipe, i) <==>
      i < PER_PIPE_PORT_NUMS && Accepted(m).Some? && NamesMember(gws, Accepted(m).value, pipe, i)
  {
    hide Accepted, NamesMember, GoodGateways, LeadsToPort, NamesPort, PortOf;
    LeadsToPortIff(gws, m, PortOf(pipe, i));
    if Accepted(m).Some? && i < PER_PIPE_PORT_NUMS {
      NamesMemberIff(gws, Accepted(m).value, pipe, i);
    }
  }

  lemma WritesIff(gws: seq<Entry<Gateway>>, e: Turn, pipe: nat)
    requires GoodGateways(gws) && (pipe == 0 || pipe == 2)
    ensures Writes(gws, e, pipe) <==> Effective(gws, e, pipe)
  {
    hide Accepted, NamesPipe, NamesMember, GoodGateways, LeadsToMember;
    if Accepted(e.m).Some? {
      NamesPipeIff(gws, Accepted(e.m).value, pipe);
      if NamesPipe(gws, Accepted(e.m).value, pipe) {
        var i :| 0 <= i < PER_PIPE_PORT_NUMS && NamesMember(gws, Accepted(e.m).value, pipe, i);
        LeadsToMemberIff(gws, e.m, pipe, i);
      }
    }
    if i: nat :| LeadsToMember(gws, e.m, pipe, i) {
      LeadsToMemberIff(gws, e.m, pipe, i);
    }
  }

  /** After any run of messages, whichever writes fail: a member of a pipe is active
      exactly when the default route of the last effective message leads through a
      known gateway on the member's port. */
  lemma ActiveAfterRun(t: Tables, gws: seq<Entry<Gateway>>, es: seq<Turn>, pipe: nat, i: nat, j: nat)
    requires Serves(t) && GoodGateways(gws) && (pipe == 0 || pipe == 2) && i < PER_PIPE_PORT_NUMS
    requires j < |es| && Effective(gws, es[j], pipe) && forall l :: j < l < |es| ==> !Effective(gws, es[l], pipe)
    ensures MemberPort(After(t, gws, es), pipe, i).Some?
    ensures Active1(After(t, gws, es), pipe, i) <==>
      LeadsToPort(gws, es[j].m, MemberPort(After(t, gws, es), pipe, i).value)
  {
    hide Accepted, NamesPipe, GoodGateways, LeadsToPort, NamesPort, PortOf, Effective, After, Serves, StatusOf;
    hide StatusIn;
    hide LastWritten, Writes, Active1, MemberPort;
    forall l: nat | l < |es|
      ensures Writes(gws, es[l], pipe) <==> Effective(gws, es[l], pipe)
    {
      WritesIff(gws, es[l], pipe);
    }
    LastWrittenIsLast(gws, es, pipe, j);
    StatusAfterRun(t, gws, es, pipe);
    AfterServes(t, gws, es);
    WritesAccepts(gws, es[j], pipe);
    var ips := Accepted(es[j].m).value;
    ActiveMembersAreGateways(After(t, gws, es), gws, ips, pipe, i);
    LeadsToPortIff(gws, es[j].m, MemberPort(After(t, gws, es), pipe, i).value);
  }

  /** Without an effective message the group stays as it was. */
  lemma KeptWithoutEffective(t: Tables, gws: seq<Entry<Gateway>>, es: seq<Turn>, pipe: nat)
    requires GoodGateways(gws) && (pipe == 0 || pipe == 2)
    requires forall l :: 0 <= l < |es| ==> !Effective(gws, es[l], pipe)
    ensures StatusIn(After(t, gws, es), pipe) == StatusIn(t, pipe)
  {
    hide GoodGateways, Effective, After, StatusOf, StatusIn, LastWritten, Writes;
    forall l: nat | l < |es|
      ensures !Writes(gws, es[l], pipe)
    {
      WritesIff(gws, es[l], pipe);
    }
    WrittenIff(gws, es, pipe);
    StatusAfterRun(t, gws, es, pipe);
  }

  lemma WritesAccepts(gws: seq<Entry<Gateway>>, e: Turn, pipe: nat)
    requires Writes(gws, e, pipe)
    ensures Accepted(e.m).Some?
  {
    hide Accepted;
  }

  /** The list names a known gateway on that port. */
  ghost predicate NamesPort(gws: seq<Entry<Gateway>>, ips: seq<nat>, port: nat) {
    exists k :: 0 <= k < |ips| && KnownAt(gws, ips[k], port)
  }

  lemma NamesPortNext(gws: seq<Entry<Gateway>>, ips: seq<nat>, port: nat)
    requires ips != []
    ensures NamesPort(gws, ips, port) <==> KnownAt(gws, ips[|ips| - 1], port) || NamesPort(gws, ips[..|ips| - 1], port)
  {
    hide KnownAt;
    var front := ips[..|ips| - 1];
    if k :| 0 <= k < |front| && KnownAt(gws, front[k], port) {
      assert ips[k] == front[k];
    }
    if k :| 0 <= k < |ips| && KnownAt(gws, ips[k], port) {
      if k < |front| {
        assert front[k] == ips[k];
      }
    }
  }

  /** The member marked for a gateway is the one whose port is the gateway's. */
  lemma {:induction false} NamesMemberIff(gws: seq<Entry<Gateway>>, ips: seq<nat>, pipe: nat, i: nat)
    requires GoodGateways(gws) && (pipe == 0 || pipe == 2) && i < PER_PIPE_PORT_NUMS
    ensures NamesMember(gws, ips, pipe, i) <==> NamesPort(gws, ips, PortOf(pipe, i))
  {
    hide LastWith, GoodGateways, PortOf, GoodGateway, NamesPort, KnownAt;
    if ips == [] {
      NamesNoPort(gws, PortOf(pipe, i));
    } else {
      NamesMemberIff(gws, ips[..|ips| - 1], pipe, i);
      FoundIsGood(gws, ips[|ips| - 1]);
      LastIsMember(gws, ips[|ips| - 1], pipe, i);
      NamesPortNext(gws, ips, PortOf(pipe, i));
    }
  }

  lemma NamesNoPort(gws: seq<Entry<Gateway>>, port: nat)
    ensures !NamesPort(gws, [], port)
  {
  }

  /** The address is that of a known gateway on that port. */
  predicate KnownAt(gws: seq<Entry<Gateway>>, ip: nat, port: nat) {
    LastWith(gws, ip).Some? && LastWith(gws, ip).value.devPort == port
  }

  lemma LastIsMember(gws: seq<Entry<Gateway>>, ip: nat, pipe: nat, i: nat)
    requires (pipe == 0 || pipe == 2) && i < PER_PIPE_PORT_NUMS
    requires LastWith(gws, ip).Some? ==> GoodGateway(LastWith(gws, ip).value)
    ensures KnownAt(gws, ip, PortOf(pipe, i)) <==>
      match LastWith(gws, ip) case None => false case Some(g) => (g.pipe == 0 <==> pipe == 0) && g.memberIndex == i
  {
    hide LastWith;
  }

  /** A list names a gateway of the pipe exactly if it marks one of its members. */
  lemma NamesPipeIff(gws: seq<Entry<Gateway>>, ips: seq<nat>, pipe: nat)
    requires GoodGateways(gws) && (pipe == 0 || pipe == 2)
    ensures NamesPipe(gws, ips, pipe) <==> exists i :: 0 <= i < PER_PIPE_PORT_NUMS && NamesMember(gws, ips, pipe, i)
  {
    hide LastWith, GoodGateways, PortOf, NamesPipe, NamesMember;
    if NamesPipe(gws, ips, pipe) {
      var i := MemberNamed(gws, ips, pipe);
    }
    forall i: nat | i < PER_PIPE_PORT_NUMS && NamesMember(gws, ips, pipe, i)
      ensures NamesPipe(gws, ips, pipe)
    {
      MemberNamesPipe(gws, ips, pipe, i);
    }
  }

  lemma {:induction false} MemberNamesPipe(gws: seq<Entry<Gateway>>, ips: seq<nat>, pipe: nat, i: nat)
    requires NamesMember(gws, ips, pipe, i)
    ensures NamesPipe(gws, ips, pipe)
  {
    var front := ips[..|ips| - 1];
    if NamesMember(gws, front, pipe, i) {
      MemberNamesPipe(gws, front, pipe, i);
    }
  }

  lemma {:induction false} MemberNamed(gws: seq<Entry<Gateway>>, ips: seq<nat>, pipe: nat) returns (i: nat)
    requires GoodGateways(gws) && NamesPipe(gws, ips, pipe)
    ensures i < PER_PIPE_PORT_NUMS && NamesMember(gws, ips, pipe, i)
  {
    hide LastWith, GoodGateways, PortOf;
    var front, ip := ips[..|ips| - 1], ips[|ips| - 1];
    FoundIsGood(gws, ip);
    if NamesPipe(gws, front, pipe) {
      i := MemberNamed(gws, front, pipe);
    } else {
      i := LastWith(gws, ip).value.memberIndex;
    }
  }

  /** The egress port programmed for a pipe's i-th member. */
  function MemberPort(t: Tables, pipe: nat, i: nat): Option<nat> {
    if SelectorOf(pipe) in t.groups && i < |t.groups[SelectorOf(pipe)].ids| &&
      t.groups[SelectorOf(pipe)].ids[i] in t.members
    then Some(t.members[t.groups[SelectorOf(pipe)].ids[i]])
    else None
  }

  /** Each active member's egress port is the port of a gateway the message
      named, and every such gateway's member is active. */
  lemma ActiveMembersAreGateways(t: Tables, gws: seq<Entry<Gateway>>, ips: seq<nat>, pipe: nat, i: nat)
    requires Serves(t) && GoodGateways(gws) && (pipe == 0 || pipe == 2) && i < PER_PIPE_PORT_NUMS
    requires StatusIn(t, pipe) == StatusOf(gws, ips, pipe)
    ensures MemberPort(t, pipe, i).Some?
    ensures Active1(t, pipe, i) <==> NamesPort(gws, ips, MemberPort(t, pipe, i).value)
  {
    hide NamesMember, NamesPort, PipeIds, GoodGateways;
    assert ServesPipe(t, pipe);
    NamesMemberIff(gws, ips, pipe, i);
  }

  /** Whichever writes fail, a pipe's group has an active member after a run exactly
      when it had one at first or some message changed it: a group that is once
      non-empty never becomes empty. */
  lemma {:induction false} ActiveAfterRunIff(t: Tables, gws: seq<Entry<Gateway>>, es: seq<Turn>, pipe: nat)
    requires Serves(t) && GoodGateways(gws) && (pipe == 0 || pipe == 2)
    ensures HasActive(After(t, gws, es), pipe) <==>
      HasActive(t, pipe) || exists j :: 0 <= j < |es| && Writes(gws, es[j], pipe)
  {
    hide Handled, Accepted, NamesPipe, GoodGateways, Serves, HasActive, Writes;
    if es != [] {
      var front, e := es[..|es| - 1], es[|es| - 1];
      ActiveAfterRunIff(t, gws, front, pipe);
      AfterServes(t, gws, front);
      ActiveNext(After(t, gws, front), gws, e, pipe);
      assert forall j :: 0 <= j < |front| ==> es[j] == front[j];
    }
  }

  lemma ActiveNext(t: Tables, gws: seq<Entry<Gateway>>, e: Turn, pipe: nat)
    requires Serves(t) && GoodGateways(gws) && (pipe == 0 || pipe == 2)
    ensures HasActive(Handled(t, gws, e.m, e.ok0, e.ok2), pipe) <==> HasActive(t, pipe) || Writes(gws, e, pipe)
  {
    hide Accepted, NamesPipe, NamesMember, GoodGateways, Handled, Serves, StatusOf, HasActive;
    var n := Handled(t, gws, e.m, e.ok0, e.ok2);
    HandledStatus(t, gws, e, pipe);
    HandledServes(t, gws, e.m, e.ok0, e.ok2);
    if Writes(gws, e, pipe) {
      NamedIsActive(n, gws, Accepted(e.m).value, pipe);
    } else {
      SameStatus(t, n, pipe);
    }
  }

  lemma NamedIsActive(n: Tables, gws: seq<Entry<Gateway>>, ips: seq<nat>, pipe: nat)
    requires Serves(n) && GoodGateways(gws) && (pipe == 0 || pipe == 2)
    requires NamesPipe(gws, ips, pipe) && StatusIn(n, pipe) == StatusOf(gws, ips, pipe)
    ensures HasActive(n, pipe)
  {
    hide NamesPipe, NamesMember, GoodGateways;
    assert ServesPipe(n, pipe);
    var i := MemberNamed(gws, ips, pipe);
    assert Active1(n, pipe, i);
  }

  lemma SameStatus(t: Tables, n: Tables, pipe: nat)
    requires Serves(t) && Serves(n) && pipe < 4 && StatusIn(n, pipe) == StatusIn(t, pipe)
    ensures HasActive(n, pipe) <==> HasActive(t, pipe)
  {
    assert ServesPipe(t, pipe) && ServesPipe(n, pipe);
    if i :| 0 <= i < PER_PIPE_PORT_NUMS && Active1(t, pipe, i) {
      assert Active1(n, pipe, i);
    }
    if i :| 0 <= i < PER_PIPE_PORT_NUMS && Active1(n, pipe, i) {
      assert Active1(t, pipe, i);
    }
  }

  /** The messages write to pipes 0 and 2 only. */
  lemma {:induction false} OtherPipesKept(t: Tables, gws: seq<Entry<Gateway>>, es: seq<Turn>, pipe: nat)
    requires pipe == 1 || pipe == 3
    ensures StatusIn(After(t, gws, es), pipe) == StatusIn(t, pipe)
  {
    hide StatusOf, Accepted, NamesPipe, PipeIds;
    if es != [] {
      OtherPipesKept(t, gws, es[..|es| - 1], pipe);
    }
  }

  /** From the initialised tables on, every group is usable exactly from the time a
      message has put gateways of pipe 0, and one gateways of pipe 2, into service. */
  lemma AllActiveIff(t: Tables, gws: seq<Entry<Gateway>>, es: seq<Turn>)
    requires Serves(t) && GoodGateways(gws)
    requires SetUp(t, 1, true) && SetUp(t, 3, true) && SetUp(t, 0, false) && SetUp(t, 2, false)
    ensures Serves(After(t, gws, es))
    ensures (forall pipe :: 0 <= pipe < 4 ==> HasActive(After(t, gws, es), pipe)) <==>
      LastWritten(gws, es, 0).Some? && LastWritten(gws, es, 2).Some?
  {
    hide Serves, HasActive, After, Writes, LastWritten, ServesPipe;
    AfterServes(t, gws, es);
    for pipe := 0 to 4
      invariant 0 < pipe ==> (HasActive(After(t, gws, es), 0) <==> LastWritten(gws, es, 0).Some?)
      invariant 1 < pipe ==> HasActive(After(t, gws, es), 1)
      invariant 2 < pipe ==> (HasActive(After(t, gws, es), 2) <==> LastWritten(gws, es, 2).Some?)
      invariant 3 < pipe ==> HasActive(After(t, gws, es), 3)
    {
      StartsActiveIff(t, pipe, pipe == 1 || pipe == 3);
      if pipe == 0 || pipe == 2 {
        ActiveAfterRunIff(t, gws, es, pipe);
        WrittenIff(gws, es, pipe);
      } else {
        OtherPipesKept(t, gws, es, pipe);
        SameStatus(t, After(t, gws, es), pipe);
      }
    }
  }

  lemma StartsActiveIff(t: Tables, pipe: nat, active: bool)
    requires pipe < 4 && SetUp(t, pipe, active)
    ensures HasActive(t, pipe) <==> active
  {
    if active {
      assert Active1(t, pipe, 0);
    }
  }

  lemma {:induction false} WrittenIff(gws: seq<Entry<Gateway>>, es: seq<Turn>, pipe: nat)
    ensures LastWritten(gws, es, pipe).Some? <==> exists j :: 0 <= j < |es| && Writes(gws, es[j], pipe)
  {
    hide Accepted, NamesPipe;
    if es != [] {
      var front := es[..|es| - 1];
      WrittenIff(gws, front, pipe);
      assert forall j :: 0 <= j < |front| ==> es[j] == front[j];
      assert Writes(gws, es[|es| - 1], pipe) ==> exists j :: 0 <= j < |es| && Writes(gws, es[j], pipe);
    }
  }
}
