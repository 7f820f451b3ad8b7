/** Transceiver events: the dictionaries of changes that are returned, and the
    port states they must add up to. */
module Transceivers {
  import opened Wrappers

  const QSFP_CHECK_INTERVAL := 4

  /** A dictionary of changes: port states, and the `'-1'` key it starts with. */
  datatype Changes = Changes(notReady: bool, ports: map<nat, bool>)

  const NONE := Changes(false, map[])

  /** What one turn of the waiting loop meets outside: the server cannot be
      reached; it can, but the port range cannot be read; or each port, from 1 on,
      answers (a failing port answers nothing). */
  datatype Tick = Unreachable | NoPortRange | Answers(presence: seq<Option<bool>>)

  /** The state a check gives a port; a failing port counts as empty. */
  function Present(presence: seq<Option<bool>>, p: nat): bool {
    1 <= p <= |presence| && presence[p - 1] == Some(true)
  }

  function Answered(presence: seq<Option<bool>>): map<nat, bool> {
    map p: nat | 1 <= p <= |presence| :: Present(presence, p)
  }

  function CurrentStates(cur: map<nat, bool>, presence: seq<Option<bool>>): map<nat, bool> {
    cur + Answered(presence)
  }

  predicate Differs(cur: map<nat, bool>, p: nat, state: bool) {
    p in cur ==> cur[p] != state
  }

  function Changed(cur: map<nat, bool>, presence: seq<Option<bool>>): map<nat, bool> {
    map p: nat | 1 <= p <= |presence| && Differs(cur, p, Present(presence, p)) :: Present(presence, p)
  }

  datatype State = State(ready: bool, changes: Changes, cur: map<nat, bool>, interval: nat)

  const START := State(false, Changes(true, map[]), map[], QSFP_CHECK_INTERVAL)

  /** One check for changes. */
  function Checked(s: State, t: Tick): State {
    if !s.ready then s
    else
      match t
      case Answers(presence) => s.(changes := Changes(false, Changed(s.cur, presence)),
                                   cur := CurrentStates(s.cur, presence))
      case _ => s.(changes := NONE)
  }

  /** How a call ends: with a dictionary, with an exception, or not yet. */
  datatype Outcome = Returned(ready: bool, changes: Changes) | Raised | Waiting

  /** One turn of the loop before its tail: the state, and whether it ends the call. */
  function Turn(s: State, t: Tick): (State, Option<Outcome>) {
    if !s.ready then
      if t.Unreachable? then (s, None)
      else
        var n := s.(ready := true, changes := NONE);
        (n, Some(Returned(true, NONE)))
    else if s.interval == 0 then
      var n := Checked(s.(interval := QSFP_CHECK_INTERVAL), t);
      if t.NoPortRange? then (n, Some(Raised))
      else if n.changes != NONE then (n, Some(Returned(true, n.changes)))
      else (n, None)
    else (s, None)
  }

  function Tail(s: State): State {
    s.(interval := if s.interval > 0 then s.interval - 1 else 0)
  }

  /** The waiting loop over what it meets; `left` is the time left in seconds. */
  function Wait(s: State, forever: bool, left: real, ticks: seq<Tick>): (State, Outcome)
    decreases |ticks|
  {
    if !forever && left <= 0.0 then (s, Returned(s.ready, s.changes))
    else if ticks == [] then (s, Waiting)
    else
      var (n, end) := Turn(s, ticks[0]);
      if end.Some? then (n, end.value)
      else Wait(Tail(n), forever, if left == 0.0 then left else left - 1.0, ticks[1..])
  }

  /** One call with a timeout in milliseconds; zero waits for ever. */
  function Event(s: State, timeout: int, ticks: seq<Tick>): (State, Outcome) {
    if timeout < 0 then (s, Returned(false, NONE))
    else Wait(s, timeout == 0, timeout as real / 1000.0, ticks)
  }

  class SfpUtil {
    var ready: bool
    var phyPortDict: Changes
    var phyPortCurState: map<nat, bool>
    var qsfpInterval: nat

    constructor ()
      ensures View() == START
    {
      ready := false;
      phyPortDict := Changes(true, map[]);
      phyPortCurState := map[];
      qsfpInterval := QSFP_CHECK_INTERVAL;
    }

    ghost function View(): State
      reads this
    {
      State(ready, phyPortDict, phyPortCurState, qsfpInterval)
    }

    /** `check_transceiver_change` */
    method CheckTransceiverChange(t: Tick) returns (raised: bool)
      modifies this
      ensures View() == Checked(old(View()), t) && raised == (old(ready) && t.NoPortRange?)
    {
      hide Changed, CurrentStates;
      if !ready {
        return false;
      }
      phyPortDict := NONE;
      if t.Unreachable? {
        return false;
      }
      if t.NoPortRange? {
        return true;
      }
      ghost var cur := phyPortCurState;
      NothingScanned(cur);
      assert t.presence[..0] == [];
      var i := 0;
      while i < |t.presence|
        invariant 0 <= i <= |t.presence|
        invariant ready == old(ready) && qsfpInterval == old(qsfpInterval)
        invariant phyPortDict == Changes(false, Changed(cur, t.presence[..i]))
        invariant phyPortCurState == CurrentStates(cur, t.presence[..i])
      {
        var port := i + 1;
        var sfpState := t.presence[i] == Some(true);
        if port in phyPortCurState {
          if phyPortCurState[port] != sfpState {
            phyPortDict := Changes(phyPortDict.notReady, phyPortDict.ports[port := sfpState]);
          }
        } else {
          phyPortDict := Changes(phyPortDict.notReady, phyPortDict.ports[port := sfpState]);
        }
        phyPortCurState := phyPortCurState[port := sfpState];
        ScanGrows(cur, t.presence, i);
        i := i + 1;
      }
      assert t.presence[..i] == t.presence;
      raised := false;
    }

    /** `get_transceiver_change_event` */
    method GetTransceiverChangeEvent(timeout: int, ticks: seq<Tick>) returns (r: Outcome)
      modifies this
      ensures (View(), r) == Event(old(View()), timeout, ticks)
    {
      if timeout < 0 {
        return Returned(false, NONE);
      }
      var forever, left := timeout == 0, timeout as real / 1000.0;
      var i := 0;
      while forever || left > 0.0
        invariant 0 <= i <= |ticks| && Wait(old(View()), timeout == 0, timeout as real / 1000.0, ticks) ==
          Wait(View(), forever, left, ticks[i..])
        decreases |ticks| - i
      {
        if i == |ticks| {
          return Waiting;
        }
        if !ready {
          if !ticks[i].Unreachable? {
            ready := true;
            phyPortDict := NONE;
            break;
          }
        } else if qsfpInterval == 0 {
          qsfpInterval := QSFP_CHECK_INTERVAL;
          var raised := CheckTransceiverChange(ticks[i]);
          if raised {
            return Raised;
          }
          if phyPortDict != NONE {
            break;
          }
        }
        if left != 0.0 {
          left := left - 1.0;
        }
        if qsfpInterval > 0 {
          qsfpInterval := qsfpInterval - 1;
        }
        assert ticks[i..][1..] == ticks[i + 1..];
        i := i + 1;
      }
      r := Returned(ready, phyPortDict);
    }
  }

  lemma NothingScanned(cur: map<nat, bool>)
    ensures CurrentStates(cur, []) == cur && Changed(cur, []) == map[]
  {
  }

  lemma ScanGrows(cur: map<nat, bool>, presence: seq<Option<bool>>, i: nat)
    requires i < |presence|
    ensures CurrentStates(cur, presence[..i + 1]) ==
      CurrentStates(cur, presence[..i])[i + 1 := presence[i] == Some(true)]
    ensures Changed(cur, presence[..i + 1]) ==
      (if Differs(cur, i + 1, presence[i] == Some(true))
       then Changed(cur, presence[..i])[i + 1 := presence[i] == Some(true)]
       else Changed(cur, presence[..i]))
    ensures i + 1 in CurrentStates(cur, presence[..i]) <==> i + 1 in cur
    ensures i + 1 in cur ==> CurrentStates(cur, presence[..i])[i + 1] == cur[i + 1]
  {
    hide Changed, Differs, Answered;
    AnsweredGrows(presence, i);
    ChangedGrows(cur, presence, i);
    MergeOfUpdate(cur, Answered(presence[..i]), i + 1, presence[i] == Some(true));
  }

  lemma MergeOfUpdate(a: map<nat, bool>, b: map<nat, bool>, k: nat, v: bool)
    ensures a + b[k := v] == (a + b)[k := v]
  {
  }

  lemma AnsweredGrows(presence: seq<Option<bool>>, i: nat)
    requires i < |presence|
    ensures Answered(presence[..i + 1]) == Answered(presence[..i])[i + 1 := presence[i] == Some(true)]
    ensures i + 1 !in Answered(presence[..i])
  {
  }

  lemma ChangedGrows(cur: map<nat, bool>, presence: seq<Option<bool>>, i: nat)
    requires i < |presence|
    ensures Changed(cur, presence[..i + 1]) ==
      (if Differs(cur, i + 1, presence[i] == Some(true))
       then Changed(cur, presence[..i])[i + 1 := presence[i] == Some(true)]
       else Changed(cur, presence[..i]))
  {
  }

  // ---------- histories of calls ----------

  datatype Call = Call(timeout: int, ticks: seq<Tick>)

  function After(calls: seq<Call>): State {
    if calls == [] then START
    else Event(After(calls[..|calls| - 1]), calls[|calls| - 1].timeout, calls[|calls| - 1].ticks).0
  }

  /** All port states returned so far, later ones overriding earlier ones. */
  function Merged(calls: seq<Call>): map<nat, bool> {
    if calls == [] then map[]
    else
      match Event(After(calls[..|calls| - 1]), calls[|calls| - 1].timeout, calls[|calls| - 1].ticks).1
      case Returned(_, changes) => Merged(calls[..|calls| - 1]) + changes.ports
      case _ => Merged(calls[..|calls| - 1])
  }

  /** The dictionary kept for a stale return says only what is current. */
  predicate Stale(s: State) {
    forall p :: p in s.changes.ports ==> p in s.cur && s.cur[p] == s.changes.ports[p]
  }

  /** What the states become by merging what the outcome returned. */
  function WithOutcome(m: map<nat, bool>, r: Outcome): map<nat, bool> {
    if r.Returned? then m + r.changes.ports else m
  }

  lemma ChangesMerge(cur: map<nat, bool>, presence: seq<Option<bool>>)
    ensures cur + Changed(cur, presence) == CurrentStates(cur, presence)
    ensures Changed(cur, presence) == map[] ==> CurrentStates(cur, presence) == cur
  {
    assert Changed(cur, presence) == map[] ==> cur + Changed(cur, presence) == cur;
  }

  lemma TurnKeeps(s: State, t: Tick)
    requires Stale(s)
    ensures Stale(Turn(s, t).0)
    ensures Turn(s, t).0.cur == if Turn(s, t).1.Some? then WithOutcome(s.cur, Turn(s, t).1.value) else s.cur
  {
    hide Changed, CurrentStates;
    assert s.cur + map[] == s.cur;
    if s.ready && s.interval == 0 && t.Answers? {
      ChangesMerge(s.cur, t.presence);
      StaleAfterCheck(s.cur, t.presence);
    }
  }

  lemma StaleAfterCheck(cur: map<nat, bool>, presence: seq<Option<bool>>)
    ensures forall p :: p in Changed(cur, presence) ==>
      p in CurrentStates(cur, presence) && CurrentStates(cur, presence)[p] == Changed(cur, presence)[p]
  {
  }

  lemma {:induction false} WaitKeeps(s: State, forever: bool, left: real, ticks: seq<Tick>)
    requires Stale(s)
    ensures var (n, r) := Wait(s, forever, left, ticks); Stale(n) && n.cur == WithOutcome(s.cur, r)
    decreases |ticks|
  {
    hide Turn;
    if !forever && left <= 0.0 {
      assert s.cur + s.changes.ports == s.cur;
    } else if ticks != [] {
      TurnKeeps(s, ticks[0]);
      var (n, end) := Turn(s, ticks[0]);
      if end.None? {
        WaitKeeps(Tail(n), forever, if left == 0.0 then left else left - 1.0, ticks[1..]);
      }
    }
  }

  /** Over every history of calls, with any answers, failures, exceptions and
      timeouts: merging every dictionary returned so far gives exactly the port
      states, even when a stale dictionary is returned again. */
  lemma {:induction false} MergedIsCurrent(calls: seq<Call>)
    ensures Merged(calls) == After(calls).cur && Stale(After(calls))
  {
    hide Wait;
    if calls != [] {
      var front, c := calls[..|calls| - 1], calls[|calls| - 1];
      MergedIsCurrent(front);
      var s := After(front);
      if c.timeout < 0 {
        assert s.cur + map[] == s.cur;
      } else {
        WaitKeeps(s, c.timeout == 0, c.timeout as real / 1000.0, c.ticks);
      }
    }
  }

  // ---------- when a call looks, and what it answers ----------

  /** A ready call looks at the ports in the second its counter runs out and in every
      fourth after that. */
  predicate Looks(s: State, i: nat) {
    i >= s.interval && (i - s.interval) % 4 == 0
  }

  /** The port is known otherwise, or not yet. */
  predicate IsNew(cur: map<nat, bool>, presence: seq<Option<bool>>, p: nat) {
    1 <= p <= |presence| && (p !in cur || cur[p] != (presence[p - 1] == Some(true)))
  }

  /** What looking finds is worth an answer: a port that changed, or an exception. */
  ghost predicate News(cur: map<nat, bool>, t: Tick) {
    t.NoPortRange? || (t.Answers? && exists p: nat :: IsNew(cur, t.presence, p))
  }

  /** Nothing worth an answer in the first seconds. */
  ghost predicate Quiet(s: State, ticks: seq<Tick>, n: nat) {
    forall j: nat :: j < n && j < |ticks| && Looks(s, j) ==> !News(s.cur, ticks[j])
  }

  /** Exactly the new states. */
  ghost predicate TellsNews(c: Changes, cur: map<nat, bool>, presence: seq<Option<bool>>) {
    !c.notReady && forall p: nat :: (p in c.ports <==> IsNew(cur, presence, p)) &&
                                    (p in c.ports ==> c.ports[p] == (presence[p - 1] == Some(true)))
  }

  lemma NoNewsNoChange(s: State, t: Tick)
    requires s.ready && !News(s.cur, t)
    ensures Checked(s, t) == s.(changes := NONE)
  {
    if t.Answers? {
      forall p: nat
        ensures p !in Changed(s.cur, t.presence)
      {
        assert !IsNew(s.cur, t.presence, p);
      }
      ChangesMerge(s.cur, t.presence);
      assert Changed(s.cur, t.presence) == map[];
    }
  }

  lemma NewsIsTold(s: State, t: Tick)
    requires s.ready && t.Answers? && News(s.cur, t)
    ensures Checked(s, t).changes != NONE && TellsNews(Checked(s, t).changes, s.cur, t.presence)
    ensures Checked(s, t).ready
  {
    var p: nat :| IsNew(s.cur, t.presence, p);
    assert p in Changed(s.cur, t.presence);
  }

  /** One quiet second of a ready call. */
  lemma QuietSecond(s: State, t: Tick)
    requires s.ready && (s.interval == 0 ==> !News(s.cur, t))
    ensures Turn(s, t).1 == None
    ensures Tail(Turn(s, t).0) == if s.interval == 0 then s.(interval := 3, changes := NONE)
                                  else s.(interval := s.interval - 1)
  {
    if s.interval == 0 {
      NoNewsNoChange(s.(interval := QSFP_CHECK_INTERVAL), t);
    }
    hide Checked;
  }

  lemma LooksLater(s: State, n: State, j: nat)
    requires n.interval == if s.interval == 0 then 3 else s.interval - 1
    ensures Looks(n, j) ==> Looks(s, j + 1)
    ensures j >= 1 && Looks(s, j) ==> Looks(n, j - 1)
  {
  }

  lemma QuietLater(s: State, n: State, ticks: seq<Tick>, k: nat)
    requires n.interval == (if s.interval == 0 then 3 else s.interval - 1) && n.cur == s.cur
    requires ticks != [] && k > 0 && Quiet(s, ticks, k)
    ensures Quiet(n, ticks[1..], k - 1)
  {
    hide News;
    forall j: nat | j < k - 1 && j < |ticks[1..]| && Looks(n, j)
      ensures !News(n.cur, ticks[1..][j])
    {
      LooksLater(s, n, j);
      assert ticks[1..][j] == ticks[j + 1];
    }
  }

  /** A ready call answers in the first second in which it looks and finds news, with
      exactly the ports that changed or with the exception, if its time has not run out
      by then. */
  lemma {:induction false} FirstNewsEnds(s: State, forever: bool, left: real, ticks: seq<Tick>, k: nat)
    requires s.ready && k < |ticks| && Looks(s, k) && News(s.cur, ticks[k]) && Quiet(s, ticks, k)
    requires if forever then left == 0.0 else left > k as real
    ensures var r := Wait(s, forever, left, ticks).1;
      if ticks[k].NoPortRange? then r == Raised
      else r.Returned? && r.ready && TellsNews(r.changes, s.cur, ticks[k].presence)
    decreases |ticks|
  {
    hide News, TellsNews, Checked;
    if k == 0 {
      if ticks[0].Answers? {
        NewsIsTold(s.(interval := QSFP_CHECK_INTERVAL), ticks[0]);
      } else {
        ExceptionIsNews(s.cur, ticks[0]);
      }
    } else {
      assert s.interval == 0 ==> !News(s.cur, ticks[0]) by { assert s.interval == 0 ==> Looks(s, 0); }
      QuietSecond(s, ticks[0]);
      var n := Tail(Turn(s, ticks[0]).0);
      hide Turn, Tail;
      LooksLater(s, n, k);
      QuietLater(s, n, ticks, k);
      assert ticks[1..][k - 1] == ticks[k];
      FirstNewsEnds(n, forever, if left == 0.0 then left else left - 1.0, ticks[1..], k - 1);
    }
  }

  lemma ExceptionIsNews(cur: map<nat, bool>, t: Tick)
    requires News(cur, t) && !t.Answers?
    ensures t.NoPortRange?
  {
  }

  /** A ready call that meets no news ends when its time has run out, with no changes if
      it has looked, and with the dictionary of the call before if it has not. */
  lemma {:induction false} QuietEnds(s: State, left: real, ticks: seq<Tick>, n: nat)
    requires s.ready && 0 < n <= |ticks| && Quiet(s, ticks, n) && (n - 1) as real < left <= n as real
    ensures Wait(s, false, left, ticks).1 == Returned(true, if s.interval < n then NONE else s.changes)
    decreases |ticks|
  {
    hide News, Checked;
    assert s.interval == 0 ==> !News(s.cur, ticks[0]) by { assert s.interval == 0 ==> Looks(s, 0); }
    QuietSecond(s, ticks[0]);
    var m := Tail(Turn(s, ticks[0]).0);
    hide Turn, Tail;
    if n > 1 {
      QuietLater(s, m, ticks, n);
      QuietEnds(m, left - 1.0, ticks[1..], n - 1);
    }
  }

  lemma {:induction false} UnreachableSeconds(s: State, forever: bool, left: real, ticks: seq<Tick>, k: nat)
    requires !s.ready && k < |ticks| && !ticks[k].Unreachable? && forall j :: 0 <= j < k ==> ticks[j].Unreachable?
    requires if forever then left == 0.0 else left > k as real
    ensures var (n, r) := Wait(s, forever, left, ticks);
      r == Returned(true, NONE) && n.ready && n.cur == s.cur && n.changes == NONE
    decreases |ticks|
  {
    if k > 0 {
      UnreachableSeconds(Tail(s), forever, if left == 0.0 then left else left - 1.0, ticks[1..], k - 1);
    }
  }

  /** A call in milliseconds; zero waits for ever.  It answers in the first second, of
      those in which it looks and that begin before its time is out, that has news. */
  lemma CallAnswers(s: State, timeout: nat, ticks: seq<Tick>, k: nat)
    requires s.ready && k < |ticks| && Looks(s, k) && News(s.cur, ticks[k]) && Quiet(s, ticks, k)
    requires timeout == 0 || timeout > 1000 * k
    ensures var r := Event(s, timeout, ticks).1;
      if ticks[k].NoPortRange? then r == Raised
      else r.Returned? && r.ready && TellsNews(r.changes, s.cur, ticks[k].presence)
  {
    hide Wait, News, TellsNews, Looks, Quiet;
    assert timeout > 0 ==> timeout as real / 1000.0 > k as real;
    FirstNewsEnds(s, timeout == 0, timeout as real / 1000.0, ticks, k);
  }

  /** Without news it times out after as many seconds as begin before its time is out. */
  lemma CallTimesOut(s: State, timeout: nat, ticks: seq<Tick>, n: nat)
    requires s.ready && 0 < n <= |ticks| && Quiet(s, ticks, n) && 1000 * (n - 1) < timeout <= 1000 * n
    ensures Event(s, timeout, ticks).1 == Returned(true, if s.interval < n then NONE else s.changes)
  {
    hide Wait, Quiet;
    assert (n - 1) as real < timeout as real / 1000.0 <= n as real;
    QuietEnds(s, timeout as real / 1000.0, ticks, n);
  }

  /** Before the first contact it waits for one, and answers that it is ready. */
  lemma CallConnects(s: State, timeout: nat, ticks: seq<Tick>, k: nat)
    requires !s.ready && k < |ticks| && !ticks[k].Unreachable? && forall j :: 0 <= j < k ==> ticks[j].Unreachable?
    requires timeout == 0 || timeout > 1000 * k
    ensures var (n, r) := Event(s, timeout, ticks);
      r == Returned(true, NONE) && n.ready && n.cur == s.cur && n.changes == NONE
  {
    hide Wait;
    assert timeout > 0 ==> timeout as real / 1000.0 > k as real;
    UnreachableSeconds(s, timeout == 0, timeout as real / 1000.0, ticks, k);
  }
}
