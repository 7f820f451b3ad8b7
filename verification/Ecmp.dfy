/** The four-pipe ECMP set-up that turns the chosen internal pipe into an
    egress port: action-profile members, one selector group per pipe and the
    forwarding entries that pick a group. */
module Ecmp {
  import opened Wrappers
  import opened IpTypeTable

  const PIPE0_SELECTOR: nat := 1
  const PIPE1_SELECTOR: nat := 2
  const PIPE2_SELECTOR: nat := 3
  const PIPE3_SELECTOR: nat := 4
  const PER_PIPE_PORT_NUMS: nat := 16

  /** A selector group: member ids and whether each is active. */
  datatype Selector = Selector(ids: seq<nat>, status: seq<bool>)

  /** An entry of `ecmp_group_02_v2`: exact on the pipe, ternary on the flag. */
  datatype Forward = Forward(egrPipeline: bv3, shared: bv1, sharedMask: bv1, group: nat)

  /** The three hardware tables. */
  datatype Tables = Tables(members: map<nat, nat>, groups: map<nat, Selector>, forward: seq<Forward>)

  /** `DEV_PORT_TO_PIPE` */
  function PipeOfPort(port: nat): nat {
    port / 128
  }

  function SelectorOf(pipe: nat): nat {
    pipe + 1
  }

  /** The member id of a pipe's first port. */
  function FirstMember(pipe: nat): nat
    requires pipe < 4
  {
    match pipe
    case 1 => 1
    case 3 => 17
    case 0 => 33
    case _ => 49
  }

  /** The egress port of a pipe's member: every fourth port of the pipe. */
  function PortOf(pipe: nat, index: nat): nat {
    128 * pipe + 4 * index
  }

  function PipeIds(first: nat): (ids: seq<nat>)
    ensures |ids| == PER_PIPE_PORT_NUMS
  {
    seq(PER_PIPE_PORT_NUMS, i requires 0 <= i => first + i)
  }

  predicate InSpan(k: nat, first: nat, n: int) {
    first <= k < first + n
  }

  /** None of the pipe's member ids is taken. */
  ghost predicate Free(members: map<nat, nat>, pipe: nat)
    requires pipe < 4
  {
    forall k: nat :: k in members ==> !InSpan(k, FirstMember(pipe), PER_PIPE_PORT_NUMS)
  }

  /** The array of a pipe's sixteen ports. */
  ghost predicate ListsPorts(devports: seq<nat>, pipe: nat) {
    |devports| == PER_PIPE_PORT_NUMS && forall i :: 0 <= i < PER_PIPE_PORT_NUMS ==> devports[i] == PortOf(pipe, i)
  }

  const FORWARD := [
    Forward(EGR_PIPELINE_1, 0, 1, PIPE1_SELECTOR), Forward(EGR_PIPELINE_1, 1, 1, PIPE3_SELECTOR),
    Forward(EGR_PIPELINE_3, 0, 0, PIPE3_SELECTOR), Forward(EGR_PIPELINE_0, 0, 1, PIPE0_SELECTOR),
    Forward(EGR_PIPELINE_0, 1, 1, PIPE2_SELECTOR), Forward(EGR_PIPELINE_2, 0, 0, PIPE2_SELECTOR)]

  /** The tables serve a pipe: its group lists the pipe's sixteen members, and
      each is programmed with its own port.  Which are active is left open. */
  ghost predicate ServesPipe(t: Tables, pipe: nat)
    requires pipe < 4
  {
    && SelectorOf(pipe) in t.groups
    && var g := t.groups[SelectorOf(pipe)];
    && g.ids == PipeIds(FirstMember(pipe)) && |g.status| == PER_PIPE_PORT_NUMS
    && forall i :: 0 <= i < PER_PIPE_PORT_NUMS ==> g.ids[i] in t.members && t.members[g.ids[i]] == PortOf(pipe, i)
  }

  ghost predicate Serves(t: Tables) {
    t.forward == FORWARD && forall pipe :: 0 <= pipe < 4 ==> ServesPipe(t, pipe)
  }

  /** The `i`th member of each group and its port, in numbers. */
  predicate NumberedAt(t: Tables, i: nat) {
    && MemberOf(t, 2, i) == Some((1 + i, 128 + 4 * i)) && MemberOf(t, 4, i) == Some((17 + i, 384 + 4 * i))
    && MemberOf(t, 1, i) == Some((33 + i, 4 * i)) && MemberOf(t, 3, i) == Some((49 + i, 256 + 4 * i))
  }

  function MemberOf(t: Tables, group: nat, i: nat): Option<(nat, nat)> {
    if group in t.groups && i < |t.groups[group].ids| && t.groups[group].ids[i] in t.members
    then Some((t.groups[group].ids[i], t.members[t.groups[group].ids[i]]))
    else None
  }

  lemma ServesInNumbers(t: Tables, i: nat)
    requires Serves(t) && i < 16
    ensures NumberedAt(t, i)
  {
    assert ServesPipe(t, 0) && ServesPipe(t, 1) && ServesPipe(t, 2) && ServesPipe(t, 3);
  }

  function Statuses(active: bool): seq<bool> {
    seq(PER_PIPE_PORT_NUMS, _ => active)
  }

  /** A pipe as the initialiser leaves it. */
  ghost predicate SetUp(t: Tables, pipe: nat, active: bool)
    requires pipe < 4
  {
    ServesPipe(t, pipe) && t.groups[SelectorOf(pipe)].status == Statuses(active)
  }

  /** The tables after a pipe's members and group have been added. */
  ghost predicate Adds(t: Tables, n: Tables, pipe: nat)
    requires pipe < 4
  {
    && (forall k: nat :: k in n.members <==> k in t.members || InSpan(k, FirstMember(pipe), PER_PIPE_PORT_NUMS))
    && (forall k: nat :: k in t.members ==> k in n.members && n.members[k] == t.members[k])
    && (forall k: nat :: InSpan(k, FirstMember(pipe), PER_PIPE_PORT_NUMS) ==>
          k in n.members && n.members[k] == PortOf(pipe, 0) + 4 * (k - FirstMember(pipe)))
  }

  lemma PipeAdded(t: Tables, n: Tables, pipe: nat, active: bool)
    requires pipe < 4 && Adds(t, n, pipe)
    requires n.groups == t.groups[SelectorOf(pipe) := Selector(PipeIds(FirstMember(pipe)), Statuses(active))]
    ensures SetUp(n, pipe, active)
  {
    var first := FirstMember(pipe);
    forall i | 0 <= i < PER_PIPE_PORT_NUMS
      ensures PipeIds(first)[i] in n.members && n.members[PipeIds(first)[i]] == PortOf(pipe, i)
    {
      assert PipeIds(first)[i] == first + i && InSpan(first + i, first, PER_PIPE_PORT_NUMS);
    }
    assert ServesPipe(n, pipe);
  }

  lemma FreeKept(m: map<nat, nat>, n: map<nat, nat>, pipe: nat, p: nat)
    requires pipe < 4 && p < 4 && p != pipe && Free(m, p)
    requires forall k: nat :: k in n <==> k in m || InSpan(k, FirstMember(pipe), PER_PIPE_PORT_NUMS)
    ensures Free(n, p)
  {
  }

  lemma OtherPipeKept(t: Tables, n: Tables, pipe: nat, group: Selector, p: nat, a: bool)
    requires pipe < 4 && p < 4 && p != pipe && SetUp(t, p, a) && Adds(t, n, pipe)
    requires n.groups == t.groups[SelectorOf(pipe) := group]
    ensures SetUp(n, p, a)
  {
    hide InSpan, FirstMember, PipeIds, Statuses;
  }

  // ---------- filling the tables ----------

  class EcmpHardware {
    var members: map<nat, nat>
    var groups: map<nat, Selector>
    var forward: seq<Forward>
    // The arrays the route agent looks members up in.
    var pipe0MemberIds: seq<nat>
    var pipe2MemberIds: seq<nat>
    var pipe0Devports: seq<nat>
    var pipe2Devports: seq<nat>

    constructor ()
      ensures Value() == Tables(map[], map[], [])
    {
      members, groups, forward := map[], map[], [];
      pipe0MemberIds, pipe2MemberIds, pipe0Devports, pipe2Devports := [], [], [], [];
    }

    function Value(): Tables
      reads this
    {
      Tables(members, groups, forward)
    }

    /** One of the four loops: sixteen members with every fourth port of the
        pipe, then the pipe's group. */
    method AddPipe(pipe: nat, active: bool) returns (ids: seq<nat>, ports: seq<nat>)
      requires pipe < 4 && Free(members, pipe)
      modifies this`members, this`groups
      ensures ids == PipeIds(FirstMember(pipe)) && ListsPorts(ports, pipe)
      ensures SetUp(Value(), pipe, active)
      ensures forall p :: 0 <= p < 4 && p != pipe && Free(old(members), p) ==> Free(members, p)
      ensures forall p, a :: 0 <= p < 4 && p != pipe && SetUp(old(Value()), p, a) ==> SetUp(Value(), p, a)
    {
      hide SetUp, PipeIds, InSpan, Statuses;
      ghost var before := Value();
      ids, ports := FillMembers(FirstMember(pipe), PortOf(pipe, 0));
      var status := FillStatus(active);
      groups := groups[SelectorOf(pipe) := Selector(ids, status)];
      PipeAdded(before, Value(), pipe, active);
      forall p | 0 <= p < 4 && p != pipe && Free(before.members, p)
        ensures Free(members, p)
      {
        FreeKept(before.members, members, pipe, p);
      }
      forall p, a | 0 <= p < 4 && p != pipe && SetUp(before, p, a)
        ensures SetUp(Value(), p, a)
      {
        OtherPipeKept(before, Value(), pipe, Selector(ids, status), p, a);
      }
    }

    method FillStatus(active: bool) returns (s: seq<bool>)
      ensures s == Statuses(active)
    {
      var status := new bool[PER_PIPE_PORT_NUMS];
      for i := 0 to PER_PIPE_PORT_NUMS
        invariant forall k :: 0 <= k < i ==> status[k] == active
      {
        status[i] := active;
      }
      s := status[..];
    }

    method FillMembers(first: nat, base: nat) returns (ids: seq<nat>, ports: seq<nat>)
      requires forall k: nat :: k in members ==> !InSpan(k, first, PER_PIPE_PORT_NUMS)
      modifies this`members
      ensures ids == PipeIds(first) && |ports| == PER_PIPE_PORT_NUMS
      ensures forall i :: 0 <= i < PER_PIPE_PORT_NUMS ==> ports[i] == base + 4 * i
      ensures forall k: nat :: k in members <==> k in old(members) || InSpan(k, first, PER_PIPE_PORT_NUMS)
      ensures forall k: nat :: k in old(members) ==> members[k] == old(members)[k]
      ensures forall k: nat :: InSpan(k, first, PER_PIPE_PORT_NUMS) ==> members[k] == base + 4 * (k - first)
    {
      var memberIds, devPorts := new nat[PER_PIPE_PORT_NUMS], new nat[PER_PIPE_PORT_NUMS];
      for i := first to first + PER_PIPE_PORT_NUMS
        invariant forall k: nat :: k in members <==> k in old(members) || InSpan(k, first, i - first)
        invariant forall k: nat :: k in old(members) ==> members[k] == old(members)[k]
        invariant forall k: nat :: InSpan(k, first, i - first) ==> members[k] == base + 4 * (k - first)
        invariant forall k :: 0 <= k < i - first ==> memberIds[k] == first + k && devPorts[k] == base + 4 * k
      {
        assert InSpan(i, first, PER_PIPE_PORT_NUMS);
        var port := base + (i - first) * 4;
        memberIds[i - first] := i;
        devPorts[i - first] := port;
        members := members[i := port];
      }
      ids, ports := memberIds[..], devPorts[..];
      assert ids == PipeIds(first);
    }

    method GroupEntryAdd(e: Forward)
      modifies this`forward
      ensures forward == old(forward) + [e]
    {
      forward := forward + [e];
    }

    /** `ecmp_group02_init_4p`: pipes 1 and 3 start active, pipes 0 and 2 wait
        for a route. */
    method Init4p()
      requires Value() == Tables(map[], map[], [])
      modifies this
      ensures Serves(Value())
      ensures SetUp(Value(), 1, true) && SetUp(Value(), 3, true) && SetUp(Value(), 0, false) && SetUp(Value(), 2, false)
      ensures pipe0MemberIds == PipeIds(FirstMember(0)) && pipe2MemberIds == PipeIds(FirstMember(2))
      ensures ListsPorts(pipe0Devports, 0) && ListsPorts(pipe2Devports, 2)
    {
      hide PipeIds, ListsPorts, SetUp, FirstMember, PortOf, ServesPipe;
      InitGroups();
      ghost var filled := Value();
      GroupEntryAdd(Forward(EGR_PIPELINE_1, 0, 1, PIPE1_SELECTOR));
      GroupEntryAdd(Forward(EGR_PIPELINE_1, 1, 1, PIPE3_SELECTOR));
      GroupEntryAdd(Forward(EGR_PIPELINE_3, 0, 0, PIPE3_SELECTOR));
      GroupEntryAdd(Forward(EGR_PIPELINE_0, 0, 1, PIPE0_SELECTOR));
      GroupEntryAdd(Forward(EGR_PIPELINE_0, 1, 1, PIPE2_SELECTOR));
      GroupEntryAdd(Forward(EGR_PIPELINE_2, 0, 0, PIPE2_SELECTOR));
      SetUpKept(filled, Value());
      SetUpServes(Value());
    }

    method InitGroups()
      requires Value() == Tables(map[], map[], [])
      modifies this`members, this`groups, this`pipe0MemberIds, this`pipe2MemberIds, this`pipe0Devports,
        this`pipe2Devports
      ensures SetUp(Value(), 1, true) && SetUp(Value(), 3, true) && SetUp(Value(), 0, false) && SetUp(Value(), 2, false)
      ensures pipe0MemberIds == PipeIds(FirstMember(0)) && pipe2MemberIds == PipeIds(FirstMember(2))
      ensures ListsPorts(pipe0Devports, 0) && ListsPorts(pipe2Devports, 2)
    {
      assert forall p :: 0 <= p < 4 ==> Free(members, p);
      hide SetUp, PipeIds, ListsPorts, Free, FirstMember, PortOf;
      var ids, ports := AddPipe(1, true);
      ids, ports := AddPipe(3, true);
      ids, ports := AddPipe(0, false);
      pipe0MemberIds, pipe0Devports := ids, ports;
      ids, ports := AddPipe(2, false);
      pipe2MemberIds, pipe2Devports := ids, ports;
    }
  }

  lemma SetUpServes(t: Tables)
    requires t.forward == FORWARD
    requires SetUp(t, 1, true) && SetUp(t, 3, true) && SetUp(t, 0, false) && SetUp(t, 2, false)
    ensures Serves(t)
  {
    hide ServesPipe;
  }

  lemma SetUpKept(s: Tables, t: Tables)
    requires t.members == s.members && t.groups == s.groups
    ensures forall p, a :: 0 <= p < 4 && SetUp(s, p, a) ==> SetUp(t, p, a)
  {
  }

  // ---------- choosing a port ----------

  predicate ForwardMatches(e: Forward, egrPipeline: bv3, shared: bv1) {
    e.egrPipeline == egrPipeline && Ternary1(shared, e.shared, e.sharedMask)
  }

  /** The group of the first matching entry. */
  function GroupFor(es: seq<Forward>, egrPipeline: bv3, shared: bv1): Option<nat> {
    if es == [] then None
    else if ForwardMatches(es[0], egrPipeline, shared) then Some(es[0].group)
    else GroupFor(es[1..], egrPipeline, shared)
  }

  /** The ids of the active members, in order. */
  function Active(g: Selector): seq<nat>
    requires |g.ids| == |g.status|
    decreases |g.ids|
  {
    if g.ids == [] then []
    else (if g.status[0] then [g.ids[0]] else []) + Active(Selector(g.ids[1..], g.status[1..]))
  }

  /** The port `EcmpGroup02` leaves: the port of some active member of the
      group, whichever the hash picks, or the port it set before the lookup. */
  function ChosenPort(t: Tables, egrPipeline: bv3, shared: bv1, fallback: nat, hash: nat): nat {
    match GroupFor(t.forward, egrPipeline, shared)
    case None => fallback
    case Some(id) =>
      if id !in t.groups || |t.groups[id].ids| != |t.groups[id].status| then fallback
      else
        var active := Active(t.groups[id]);
        if active == [] then fallback
        else
          var m := active[hash % |active|];
          if m in t.members then t.members[m] else fallback
  }

  /** The internal pipe traffic is meant for: pipe 1 becomes 3 and pipe 0
      becomes 2 for EIPs with shared bandwidth. */
  function IntendedPipe(egrPipeline: bv3, shared: bv1): Option<nat> {
    if egrPipeline == EGR_PIPELINE_1 then Some(if shared == 1 then 3 else 1)
    else if egrPipeline == EGR_PIPELINE_3 then Some(3)
    else if egrPipeline == EGR_PIPELINE_0 then Some(if shared == 1 then 2 else 0)
    else if egrPipeline == EGR_PIPELINE_2 then Some(2)
    else None
  }

  lemma ForwardPicksPipe(egrPipeline: bv3, shared: bv1)
    ensures GroupFor(FORWARD, egrPipeline, shared) ==
      match IntendedPipe(egrPipeline, shared) case None => None case Some(k) => Some(SelectorOf(k))
  {
    var f := FORWARD;
    GroupForStep(f, 5, egrPipeline, shared);
    GroupForStep(f, 4, egrPipeline, shared);
    GroupForStep(f, 3, egrPipeline, shared);
    GroupForStep(f, 2, egrPipeline, shared);
    GroupForStep(f, 1, egrPipeline, shared);
    GroupForStep(f, 0, egrPipeline, shared);
    assert f[6..] == [] && f[0..] == f;
    assert GroupFor([], egrPipeline, shared) == None;
    hide GroupFor;
  }

  lemma GroupForStep(es: seq<Forward>, k: nat, egrPipeline: bv3, shared: bv1)
    requires k < |es|
    ensures GroupFor(es[k..], egrPipeline, shared) ==
      if ForwardMatches(es[k], egrPipeline, shared) then Some(es[k].group)
      else GroupFor(es[k + 1..], egrPipeline, shared)
  {
    hide ForwardMatches;
    assert es[k..][1..] == es[k + 1..];
  }

  /** Membership in the active list is membership with status true. */
  lemma {:induction false} ActiveMembers(g: Selector, m: nat)
    requires |g.ids| == |g.status|
    ensures m in Active(g) <==> exists i :: 0 <= i < |g.ids| && g.ids[i] == m && g.status[i]
    decreases |g.ids|
  {
    if g.ids != [] {
      var rest := Selector(g.ids[1..], g.status[1..]);
      ActiveMembers(rest, m);
      if i :| 0 <= i < |g.ids| && g.ids[i] == m && g.status[i] {
        if i != 0 {
          assert rest.ids[i - 1] == m && rest.status[i - 1];
        }
      }
      if i :| 0 <= i < |rest.ids| && rest.ids[i] == m && rest.status[i] {
        assert g.ids[i + 1] == m && g.status[i + 1];
      }
    }
  }

  /** Some member of the pipe's group is active and has the port. */
  ghost predicate ActivePort(t: Tables, pipe: nat, port: nat) {
    exists i :: 0 <= i < PER_PIPE_PORT_NUMS && Active1(t, pipe, i) && port == PortOf(pipe, i)
  }

  ghost predicate HasActive(t: Tables, pipe: nat) {
    exists i :: 0 <= i < PER_PIPE_PORT_NUMS && Active1(t, pipe, i)
  }

  predicate Active1(t: Tables, pipe: nat, i: nat) {
    SelectorOf(pipe) in t.groups && i < |t.groups[SelectorOf(pipe)].status| && t.groups[SelectorOf(pipe)].status[i]
  }

  /** The pipeline codes the classification sets, in numbers. */
  lemma IntendedInNumbers(egrPipeline: bv3, shared: bv1)
    ensures IntendedPipe(egrPipeline, shared) ==
      if egrPipeline == 1 then Some(if shared == 1 then 2 else 0)
      else if egrPipeline == 2 then Some(if shared == 1 then 3 else 1)
      else if egrPipeline == 3 then Some(2)
      else if egrPipeline == 4 then Some(3)
      else None
  {
  }

  /** For every selector hash and every member status, the chosen port is an
      active member of the intended pipe's group, so it lies in that pipe; only
      when the group has no active member does the port set before stay. */
  lemma ChosenPortInPipe(t: Tables, egrPipeline: bv3, shared: bv1, fallback: nat, hash: nat)
    requires Serves(t) && IntendedPipe(egrPipeline, shared).Some?
    ensures var pipe := IntendedPipe(egrPipeline, shared).value;
      var port := ChosenPort(t, egrPipeline, shared, fallback, hash);
      if HasActive(t, pipe)
      then ActivePort(t, pipe, port) && PipeOfPort(port) == pipe
      else port == fallback
    ensures var pipe := IntendedPipe(egrPipeline, shared).value;
      && (egrPipeline == 1 ==> pipe == if shared == 1 then 2 else 0)
      && (egrPipeline == 2 ==> pipe == if shared == 1 then 3 else 1)
      && (egrPipeline == 3 ==> pipe == 2) && (egrPipeline == 4 ==> pipe == 3)
  {
    IntendedInNumbers(egrPipeline, shared);
    hide IntendedPipe, GroupFor, Active;
    var pipe := IntendedPipe(egrPipeline, shared).value;
    ForwardPicksPipe(egrPipeline, shared);
    IntendedIsPipe(egrPipeline, shared);
    assert ServesPipe(t, pipe);
    ActivePortChosen(t, pipe, hash);
  }

  lemma IntendedIsPipe(egrPipeline: bv3, shared: bv1)
    ensures IntendedPipe(egrPipeline, shared).Some? ==> IntendedPipe(egrPipeline, shared).value < 4
  {
  }

  lemma ActivePortChosen(t: Tables, pipe: nat, hash: nat)
    requires pipe < 4 && ServesPipe(t, pipe)
    ensures var g := t.groups[SelectorOf(pipe)];
      var active := Active(g);
      if HasActive(t, pipe)
      then
        && active != [] && active[hash % |active|] in t.members
        && var port := t.members[active[hash % |active|]];
        ActivePort(t, pipe, port) && PipeOfPort(port) == pipe
      else active == []
  {
    hide Active;
    var g := t.groups[SelectorOf(pipe)];
    var active := Active(g);
    if i :| 0 <= i < PER_PIPE_PORT_NUMS && Active1(t, pipe, i) {
      ActiveMembers(g, g.ids[i]);
      var m := active[hash % |active|];
      ActiveMembers(g, m);
      var j :| 0 <= j < |g.ids| && g.ids[j] == m && g.status[j];
      assert Active1(t, pipe, j) && t.members[m] == PortOf(pipe, j);
      PortsOfPipe(pipe, j);
    } else if active != [] {
      ActiveMembers(g, active[0]);
      ghost var j :| 0 <= j < |g.ids| && g.ids[j] == active[0] && g.status[j];
      NotAllInactive(t, pipe, j);
    }
  }

  lemma NotAllInactive(t: Tables, pipe: nat, j: nat)
    requires pipe < 4 && ServesPipe(t, pipe) && j < PER_PIPE_PORT_NUMS && t.groups[SelectorOf(pipe)].status[j]
    ensures HasActive(t, pipe)
  {
    assert Active1(t, pipe, j);
  }

  lemma PortsOfPipe(pipe: nat, i: nat)
    requires i < PER_PIPE_PORT_NUMS
    ensures PipeOfPort(PortOf(pipe, i)) == pipe
  {
  }
}
