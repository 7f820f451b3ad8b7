/** The port monitor: the gateway is taken down after a whole port group has been
    down for long enough, and brought up again with three commands. */
module PortMonitor {
  import opened Wrappers
  import opened Ecmp

  const MAX_DOWN_COUNT := 15
  const UP_RETRIES := 3
  const TWO_TO_32 := 0x1_0000_0000

  datatype Command = SetDown | SetUp

  /** What a complete poll finds: is any port of pipe 0, of pipe 2, up? */
  datatype Groups = Groups(up0: bool, up2: bool)

  function UpOf(g: Groups, pipe: nat): bool {
    if pipe == 0 then g.up0 else g.up2
  }

  // ---------- one poll ----------

  predicate PortUp(ports: seq<nat>, answers: seq<Option<bool>>, pipe: nat, i: nat) {
    i < |ports| && i < |answers| && PipeOfPort(ports[i]) == pipe && answers[i] == Some(true)
  }

  ghost predicate GroupUp(ports: seq<nat>, answers: seq<Option<bool>>, pipe: nat) {
    exists i :: 0 <= i < |ports| && PortUp(ports, answers, pipe, i)
  }

  /** A poll is aborted when a port's state cannot be read. */
  predicate Aborted(answers: seq<Option<bool>>) {
    exists i :: 0 <= i < |answers| && answers[i] == None
  }

  ghost function Found(ports: seq<nat>, answers: seq<Option<bool>>): Option<Groups> {
    if Aborted(answers) then None else Some(Groups(GroupUp(ports, answers, 0), GroupUp(ports, answers, 2)))
  }

  /** What one poll finds, in device ports: nothing when some port cannot be read, else
      whether one of the 128 ports from 0 on, and one of those from 256 on, is up. */
  lemma PollFinds(ports: seq<nat>, answers: seq<Option<bool>>)
    requires |answers| == |ports|
    ensures Found(ports, answers) == None <==> None in answers
    ensures Found(ports, answers).Some? ==>
      var g := Found(ports, answers).value;
      && (g.up0 <==> exists i :: 0 <= i < |ports| && ports[i] < 128 && answers[i] == Some(true))
      && (g.up2 <==> exists i :: 0 <= i < |ports| && 256 <= ports[i] < 384 && answers[i] == Some(true))
  {
    if i :| 0 <= i < |ports| && ports[i] < 128 && answers[i] == Some(true) {
      assert PortUp(ports, answers, 0, i);
    }
    if i :| 0 <= i < |ports| && 256 <= ports[i] < 384 && answers[i] == Some(true) {
      assert PortUp(ports, answers, 2, i);
    }
  }

  datatype State = State(up: bool, down0: nat, down2: nat, retries: nat, log: seq<Command>)

  const START := State(true, 0, 0, 0, [])

  function Incremented(count: nat): nat {
    (count + 1) % TWO_TO_32
  }

  /** One group's counter; the third component says that it orders the gateway down. */
  function Counted(count: nat, up: bool): (nat, bool) {
    if up then (0, false) else (Incremented(count), count >= MAX_DOWN_COUNT)
  }

  function Step(s: State, found: Option<Groups>): State {
    match found
    case None => s
    case Some(g) =>
      var (down0, order0) := Counted(s.down0, g.up0);
      var (down2, order2) := Counted(s.down2, g.up2);
      var log := s.log + (if order0 then [SetDown] else []) + (if order2 then [SetDown] else []);
      var up := s.up && !order0 && !order2;
      if g.up0 && g.up2 && !up then
        State(s.retries + 1 >= UP_RETRIES, down0, down2,
              if s.retries + 1 >= UP_RETRIES then 0 else s.retries + 1, log + [SetUp])
      else
        State(up, down0, down2, s.retries, log)
  }

  class Monitor {
    const ports: seq<nat>
    var pipe0DownCount: nat
    var pipe2DownCount: nat
    var upRetryCount: nat
    var operUp: bool
    /** The commands run so far. */
    var log: seq<Command>

    constructor (ports: seq<nat>)
      ensures this.ports == ports && View() == START
    {
      this.ports := ports;
      pipe0DownCount, pipe2DownCount, upRetryCount, operUp, log := 0, 0, 0, true, [];
    }

    ghost function View(): State
      reads this
    {
      State(operUp, pipe0DownCount, pipe2DownCount, upRetryCount, log)
    }

    /** The port loop; `None` where it returns at an unreadable port. */
    method ReadGroups(answers: seq<Option<bool>>) returns (r: Option<Groups>)
      requires |answers| == |ports|
      ensures r == Found(ports, answers)
    {
      var up0, up2 := false, false;
      for i := 0 to |ports|
        invariant forall j :: 0 <= j < i ==> answers[j].Some?
        invariant up0 == exists j :: 0 <= j < i && PortUp(ports, answers, 0, j)
        invariant up2 == exists j :: 0 <= j < i && PortUp(ports, answers, 2, j)
      {
        if answers[i].None? {
          return None;
        }
        var pipe := PipeOfPort(ports[i]);
        if pipe == 0 && answers[i].value {
          assert PortUp(ports, answers, 0, i);
          up0 := true;
        } else if pipe == 2 && answers[i].value {
          assert PortUp(ports, answers, 2, i);
          up2 := true;
        }
      }
      r := Some(Groups(up0, up2));
    }

    /** `igw_monitor_all_devports_oper_state` */
    method MonitorAllDevports(answers: seq<Option<bool>>)
      requires |answers| == |ports|
      modifies this
      ensures View() == Step(old(View()), Found(ports, answers))
    {
      var r := ReadGroups(answers);
      if r.None? {
        return;
      }
      var g := r.value;
      if !g.up0 {
        if pipe0DownCount >= MAX_DOWN_COUNT {
          log := log + [SetDown];
          operUp := false;
        }
        pipe0DownCount := Incremented(pipe0DownCount);
      } else {
        pipe0DownCount := 0;
      }
      if !g.up2 {
        if pipe2DownCount >= MAX_DOWN_COUNT {
          log := log + [SetDown];
          operUp := false;
        }
        pipe2DownCount := Incremented(pipe2DownCount);
      } else {
        pipe2DownCount := 0;
      }
      if g.up0 && g.up2 {
        if !operUp {
          log := log + [SetUp];
          upRetryCount := upRetryCount + 1;
          if upRetryCount >= UP_RETRIES {
            operUp := true;
            upRetryCount := 0;
          }
        }
      }
    }
  }

  // ---------- whole histories ----------

  /** The state after a history of polls, oldest first. */
  function Run(h: seq<Option<Groups>>): State {
    if h == [] then START else Step(Run(h[..|h| - 1]), h[|h| - 1])
  }

  /** How many complete polls in a row, up to the last, found the group down. */
  function DownRun(h: seq<Option<Groups>>, pipe: nat): (n: nat)
    ensures n <= |Complete(h)|
  {
    if h == [] then 0
    else
      match h[|h| - 1]
      case None => DownRun(h[..|h| - 1], pipe)
      case Some(g) => if UpOf(g, pipe) then 0 else DownRun(h[..|h| - 1], pipe) + 1
  }

  /** The history without its aborted polls. */
  function Complete(h: seq<Option<Groups>>): seq<Groups> {
    if h == [] then []
    else Complete(h[..|h| - 1]) + (match h[|h| - 1] case None => [] case Some(g) => [g])
  }

  /** `DownRun` is what it says: the last complete polls found the group down, and
      the one before them, if any, did not. */
  lemma {:induction false} DownRunIsTheLastPolls(h: seq<Option<Groups>>, pipe: nat)
    ensures var c, n := Complete(h), DownRun(h, pipe);
      && (forall k :: |c| - n <= k < |c| ==> !UpOf(c[k], pipe))
      && (n < |c| ==> UpOf(c[|c| - n - 1], pipe))
  {
    if h != [] {
      DownRunIsTheLastPolls(h[..|h| - 1], pipe);
    }
  }

  /** What every history keeps: the counters count the runs (modulo their width),
      UP excludes runs of sixteen, and the retry counter belongs to an outage. */
  predicate Inv(h: seq<Option<Groups>>, s: State) {
    && s.down0 == DownRun(h, 0) % TWO_TO_32 && s.down2 == DownRun(h, 2) % TWO_TO_32
    && (s.up ==> DownRun(h, 0) <= MAX_DOWN_COUNT && DownRun(h, 2) <= MAX_DOWN_COUNT && s.retries == 0)
    && (s.up && s.log != [] ==> s.log[|s.log| - 1] == SetUp)
    && s.retries < UP_RETRIES
  }

  lemma {:induction false} InvHolds(h: seq<Option<Groups>>)
    ensures Inv(h, Run(h))
  {
    if h != [] {
      var front, o := h[..|h| - 1], h[|h| - 1];
      InvHolds(front);
      if o.Some? {
        CountedIsRun(DownRun(front, 0), o.value.up0);
        CountedIsRun(DownRun(front, 2), o.value.up2);
        hide Counted;
      }
    }
  }

  lemma CountedIsRun(n: nat, up: bool)
    ensures Counted(n % TWO_TO_32, up).0 == (if up then 0 else n + 1) % TWO_TO_32
    ensures n <= MAX_DOWN_COUNT ==> (Counted(n % TWO_TO_32, up).1 <==> !up && n == MAX_DOWN_COUNT)
  {
  }

  /** While UP, no retry is pending and the last command, if any, was an up. */
  lemma UpMeansLastCommandUp(h: seq<Option<Groups>>)
    requires Run(h).up
    ensures Run(h).retries == 0
    ensures Run(h).log != [] ==> Run(h).log[|Run(h).log| - 1] == SetUp
  {
    InvHolds(h);
  }

  /** UP turns to DOWN exactly on a complete poll that makes sixteen in a row with
      all of pipe 0, or all of pipe 2, down. */
  lemma DownExactlyAtSixteen(h: seq<Option<Groups>>, o: Option<Groups>)
    requires Run(h).up
    ensures !Run(h + [o]).up <==> o.Some? && (DownRun(h + [o], 0) == 16 || DownRun(h + [o], 2) == 16)
  {
    InvHolds(h);
    assert (h + [o])[..|h|] == h;
    if o.Some? {
      CountedIsRun(DownRun(h, 0), o.value.up0);
      CountedIsRun(DownRun(h, 2), o.value.up2);
      hide Counted;
    }
  }

  function UpCommands(log: seq<Command>): nat {
    if log == [] then 0 else UpCommands(log[..|log| - 1]) + if log[|log| - 1] == SetUp then 1 else 0
  }

  lemma UpCommandsGrow(log: seq<Command>, c: Command)
    ensures UpCommands(log + [c]) == UpCommands(log) + if c == SetUp then 1 else 0
  {
    assert (log + [c])[..|log|] == log;
  }

  function DownCommands(log: seq<Command>): nat {
    if log == [] then 0 else DownCommands(log[..|log| - 1]) + if log[|log| - 1] == SetDown then 1 else 0
  }

  lemma DownCommandsGrow(log: seq<Command>, c: Command)
    ensures DownCommands(log + [c]) == DownCommands(log) + if c == SetDown then 1 else 0
  {
    assert (log + [c])[..|log|] == log;
  }

  /** The poll finds the group down, and found it down fifteen times in a row before
      (the counter has 32 bits). */
  predicate OrdersDown(h: seq<Option<Groups>>, o: Option<Groups>, pipe: nat) {
    o.Some? && !UpOf(o.value, pipe) && DownRun(h, pipe) % 0x1_0000_0000 >= 15
  }

  lemma StepDownCommands(s: State, g: Groups)
    ensures DownCommands(Step(s, Some(g)).log) == DownCommands(s.log) +
      (if Counted(s.down0, g.up0).1 then 1 else 0) + (if Counted(s.down2, g.up2).1 then 1 else 0)
  {
    hide DownCommands;
    assert s.log + [] == s.log;
    var order0, order2 := Counted(s.down0, g.up0).1, Counted(s.down2, g.up2).1;
    var log0 := s.log + if order0 then [SetDown] else [];
    var log2 := log0 + if order2 then [SetDown] else [];
    assert log0 + [] == log0;
    DownCommandsGrow(s.log, SetDown);
    DownCommandsGrow(log0, SetDown);
    DownCommandsGrow(log2, SetUp);
  }

  /** The down commands of one poll: one for each group that has been down for sixteen
      complete polls or more. */
  lemma DownCommandsOfPoll(h: seq<Option<Groups>>, o: Option<Groups>)
    ensures DownCommands(Run(h + [o]).log) == DownCommands(Run(h).log) +
      (if OrdersDown(h, o, 0) then 1 else 0) + (if OrdersDown(h, o, 2) then 1 else 0)
  {
    hide DownCommands, Step, Run, DownRun;
    RunsOn(h, o);
    InvHolds(h);
    if o.Some? {
      StepDownCommands(Run(h), o.value);
    } else {
      AbortedStays(Run(h));
    }
  }

  lemma RunsOn(h: seq<Option<Groups>>, o: Option<Groups>)
    ensures Run(h + [o]) == Step(Run(h), o)
  {
    hide Step;
    assert (h + [o])[..|h|] == h;
  }

  lemma AbortedStays(s: State)
    ensures Step(s, None) == s
  {
  }

  lemma OrdersAtSixteen(h: seq<Option<Groups>>, o: Option<Groups>, pipe: nat)
    requires DownRun(h, pipe) <= 15
    ensures OrdersDown(h, o, pipe) <==> o.Some? && DownRun(h + [o], pipe) == 16
  {
    assert (h + [o])[..|h|] == h;
  }

  lemma OrdersComeLast(s: State, g: Groups)
    requires s.up && !Step(s, Some(g)).up
    ensures Step(s, Some(g)).log != [] && Step(s, Some(g)).log[|Step(s, Some(g)).log| - 1] == SetDown
  {
  }

  /** So every outage begins with a down command: on the poll that turns UP to DOWN,
      one for each group whose run becomes sixteen, and the last command is a down. */
  lemma OutageBeginsWithDown(h: seq<Option<Groups>>, o: Option<Groups>)
    requires Run(h).up && !Run(h + [o]).up
    ensures DownCommands(Run(h + [o]).log) == DownCommands(Run(h).log) +
      (if DownRun(h + [o], 0) == 16 then 1 else 0) + (if DownRun(h + [o], 2) == 16 then 1 else 0)
    ensures DownCommands(Run(h + [o]).log) > DownCommands(Run(h).log)
    ensures Run(h + [o]).log != [] && Run(h + [o]).log[|Run(h + [o]).log| - 1] == SetDown
  {
    hide DownCommands, Step, Run, DownRun, OrdersDown;
    DownExactlyAtSixteen(h, o);
    DownCommandsOfPoll(h, o);
    InvHolds(h);
    OrdersAtSixteen(h, o, 0);
    OrdersAtSixteen(h, o, 2);
    RunsOn(h, o);
    OrdersComeLast(Run(h), o.value);
  }

  /** The up commands of one poll: one more exactly when it finds both groups up
      while the gateway is down. */
  lemma StepUpCommands(s: State, o: Option<Groups>)
    ensures UpCommands(Step(s, o).log) == UpCommands(s.log) +
      if o.Some? && o.value.up0 && o.value.up2 && !s.up then 1 else 0
  {
    hide UpCommands;
    if o.Some? {
      assert s.log + [] == s.log;
      var order0, order2 := Counted(s.down0, o.value.up0).1, Counted(s.down2, o.value.up2).1;
      var log0 := s.log + if order0 then [SetDown] else [];
      var log2 := log0 + if order2 then [SetDown] else [];
      assert log0 + [] == log0;
      UpCommandsGrow(s.log, SetDown);
      UpCommandsGrow(log0, SetDown);
      UpCommandsGrow(log2, SetUp);
    }
  }

  /** An outage: DOWN throughout, between two moments of UP. */
  ghost predicate Outage(h: seq<Option<Groups>>, i: nat, j: nat) {
    i + 1 < j <= |h| && Run(h[..i]).up && Run(h[..j]).up && forall k :: i < k < j ==> !Run(h[..k]).up
  }

  lemma RunNext(h: seq<Option<Groups>>, k: nat)
    requires k < |h|
    ensures Run(h[..k + 1]) == Step(Run(h[..k]), h[k])
  {
    assert h[..k + 1][..k] == h[..k];
  }

  /** During an outage, every up command so far is a pending retry. */
  lemma {:induction false} RetriesAreCommands(h: seq<Option<Groups>>, i: nat, k: nat)
    requires i < k <= |h| && Run(h[..i]).up && forall l :: i < l <= k ==> !Run(h[..l]).up
    ensures UpCommands(Run(h[..k]).log) == UpCommands(Run(h[..i]).log) + Run(h[..k]).retries
  {
    hide Run, UpCommands;
    RunNext(h, k - 1);
    StepUpCommands(Run(h[..k - 1]), h[k - 1]);
    InvHolds(h[..k - 1]);
    if i < k - 1 {
      RetriesAreCommands(h, i, k - 1);
    }
  }

  /** Every outage ends with exactly three up commands issued since it began. */
  lemma ThreeUpsPerOutage(h: seq<Option<Groups>>, i: nat, j: nat)
    requires Outage(h, i, j)
    ensures UpCommands(Run(h[..j]).log) == UpCommands(Run(h[..i]).log) + 3
  {
    hide Run, UpCommands;
    RetriesAreCommands(h, i, j - 1);
    RunNext(h, j - 1);
    StepUpCommands(Run(h[..j - 1]), h[j - 1]);
    InvHolds(h[..j - 1]);
  }
}
