/** The fan-in of the health and readiness handlers: a handler starts its checks, each of which
    reports over unbuffered channels, and receives as often as it started checks. It does not look
    at who reports. The program uses two checks per handler; here there are any number. */
module HealthFanIn {
  import opened Runs

  const STATUS_OK: int := 200
  const STATUS_UNAVAILABLE: int := 503

  /** A check calls the service it watches, then offers its verdict on the success or on the error
      channel until it is received or the stop channel is closed. */
  datatype Check =
    | Unborn
    | Calling
    | Offering(ok: bool)
    | Delivered(ok: bool)
    | Stopped

  /** The handler starts the checks, counts receives, writes a status, and on every path runs the
      deferred close of the stop channel last. */
  datatype Handler =
    | Spawning(next: nat)
    | Receiving(received: nat)
    | Closing
    | Returned

  datatype State = State(handler: Handler, checks: seq<Check>, statuses: seq<int>, stopClosed: bool)

  datatype Action =
    | Go                          // start the next check, or enter the receive loop
    | CallEnds(k: nat, ok: bool)  // the watched service answers check k
    | Receive(k: nat)             // rendezvous of the handler with check k
    | TimeOut
    | AllReceived                 // the loop is over
    | CloseStop
    | Stop(k: nat)                // check k sees the stop channel closed

  function Start(n: nat): (s: State)
  {
    State(Spawning(0), seq(n, _ => Unborn), [], false)
  }

  function Fail(s: State): State
  {
    s.(handler := Closing, statuses := s.statuses + [STATUS_UNAVAILABLE])
  }

  function Step(s: State, a: Action): (r: Option<State>)
  {
    match a
    case Go =>
      if !s.handler.Spawning? then None
      else if s.handler.next < |s.checks| then
        Some(s.(handler := Spawning(s.handler.next + 1), checks := s.checks[s.handler.next := Calling]))
      else Some(s.(handler := Receiving(0)))
    case CallEnds(k, ok) =>
      if k < |s.checks| && s.checks[k] == Calling then Some(s.(checks := s.checks[k := Offering(ok)])) else None
    case Receive(k) =>
      if k < |s.checks| && s.checks[k].Offering? && s.handler.Receiving? && s.handler.received < |s.checks| then
        var t := s.(checks := s.checks[k := Delivered(s.checks[k].ok)]);
        Some(if s.checks[k].ok then t.(handler := Receiving(s.handler.received + 1)) else Fail(t))
      else None
    case TimeOut =>
      if s.handler.Receiving? && s.handler.received < |s.checks| then Some(Fail(s)) else None
    case AllReceived =>
      if s.handler.Receiving? && s.handler.received >= |s.checks|
      then Some(s.(handler := Closing, statuses := s.statuses + [STATUS_OK])) else None
    case CloseStop =>
      if s.handler == Closing then Some(s.(handler := Returned, stopClosed := true)) else None
    case Stop(k) =>
      if k < |s.checks| && s.checks[k].Offering? && s.stopClosed then Some(s.(checks := s.checks[k := Stopped])) else None
  }

  ghost predicate Reachable(s: State)
  {
    exists acts :: Exec(Step, Start(|s.checks|), acts) == Some(s)
  }

  // ---------------------------------------------------------------- counting

  function Successes(checks: seq<Check>): (n: nat)
  {
    if checks == [] then 0
    else (if checks[0] == Delivered(true) then 1 else 0) + Successes(checks[1..])
  }

  lemma {:induction false} SuccessesUpdate(checks: seq<Check>, k: nat, c: Check)
    requires k < |checks| && checks[k] != Delivered(true)
    ensures Successes(checks[k := c]) == Successes(checks) + if c == Delivered(true) then 1 else 0
  {
    if k == 0 {
      assert checks[k := c][1..] == checks[1..];
    } else {
      assert checks[k := c][1..] == checks[1..][k - 1 := c];
      SuccessesUpdate(checks[1..], k - 1, c);
    }
  }

  /** As many successes as checks means that every check succeeded. */
  lemma {:induction false} AllSuccesses(checks: seq<Check>)
    ensures Successes(checks) <= |checks|
    ensures Successes(checks) == |checks| <==> forall k :: 0 <= k < |checks| ==> checks[k] == Delivered(true)
  {
    if checks == [] {
    } else {
      AllSuccesses(checks[1..]);
      assert forall k :: 0 < k < |checks| ==> checks[k] == checks[1..][k - 1];
      assert forall k :: 0 <= k < |checks| - 1 ==> checks[1..][k] == checks[k + 1];
    }
  }

  lemma {:induction false} NoSuccesses(checks: seq<Check>)
    requires forall k :: 0 <= k < |checks| ==> checks[k] != Delivered(true)
    ensures Successes(checks) == 0
  {
    if checks == [] {
    } else {
      NoSuccesses(checks[1..]);
    }
  }

  // ---------------------------------------------------------------- every interleaving

  ghost predicate Inv(s: State)
  {
    && (s.stopClosed <==> s.handler == Returned)
    && (forall k :: 0 <= k < |s.checks| && s.checks[k] == Stopped ==> s.stopClosed)
    && (match s.handler
        case Spawning(n) =>
          s.statuses == [] && n <= |s.checks| && Successes(s.checks) == 0
          && (forall k :: 0 <= k < n ==> s.checks[k].Calling? || s.checks[k].Offering?)
          && (forall k :: n <= k < |s.checks| ==> s.checks[k].Unborn?)
        case Receiving(i) =>
          s.statuses == [] && i == Successes(s.checks)
          && (forall k :: 0 <= k < |s.checks| ==> !s.checks[k].Unborn? && s.checks[k] != Delivered(false))
        case _ =>
          && (forall k :: 0 <= k < |s.checks| ==> !s.checks[k].Unborn?)
          && s.statuses == [if Successes(s.checks) == |s.checks| then STATUS_OK else STATUS_UNAVAILABLE])
  }

  lemma InvAfterReceive(s: State, k: nat)
    requires Inv(s) && Step(s, Receive(k)).Some?
    ensures Inv(Step(s, Receive(k)).value)
  {
    var t := Step(s, Receive(k)).value;
    SuccessesUpdate(s.checks, k, Delivered(s.checks[k].ok));
    AllSuccesses(t.checks);
    assert t.checks[k] == Delivered(s.checks[k].ok);
  }

  lemma InvAfterOwnStep(s: State, a: Action)
    requires Inv(s) && Step(s, a).Some? && (a.Go? || a.CallEnds? || a.Stop?)
    ensures Inv(Step(s, a).value)
  {
    match a {
      case Go =>
        if s.handler.next < |s.checks| {
          SuccessesUpdate(s.checks, s.handler.next, Calling);
        }
      case CallEnds(k, ok) => SuccessesUpdate(s.checks, k, Offering(ok));
      case Stop(k) => SuccessesUpdate(s.checks, k, Stopped);
    }
  }

  lemma InvKept(s: State, a: Action)
    requires Inv(s) && Step(s, a).Some?
    ensures Inv(Step(s, a).value)
  {
    if a.Receive? {
      InvAfterReceive(s, a.k);
    } else if a.Go? || a.CallEnds? || a.Stop? {
      InvAfterOwnStep(s, a);
    } else {
      AllSuccesses(s.checks);
    }
  }

  lemma ReachableInv(s: State)
    requires Reachable(s)
    ensures Inv(s)
  {
    var acts :| Exec(Step, Start(|s.checks|), acts) == Some(s);
    NoSuccesses(Start(|s.checks|).checks);
    forall t, a | Inv(t) && Step(t, a).Some? ensures Inv(Step(t, a).value) {
      InvKept(t, a);
    }
    InvariantOfRuns(Step, Inv, Start(|s.checks|), acts);
  }

  // ---------------------------------------------------------------- the guarantees

  /** The handler writes exactly one status before it returns and none before the loop ends; it is
      200 exactly when every one of the n checks delivered a success. */
  lemma OneHonestStatus(s: State)
    requires Reachable(s)
    ensures !(s.handler.Closing? || s.handler.Returned?) ==> s.statuses == []
    ensures s.handler.Closing? || s.handler.Returned? ==>
              s.statuses == [if forall k :: 0 <= k < |s.checks| ==> s.checks[k] == Delivered(true) then 200 else 503]
  {
    ReachableInv(s);
    AllSuccesses(s.checks);
  }

  /** After the handler returned by any path, every check whose call has ended is done or can stop. */
  lemma ChecksAreReleased(s: State, k: nat)
    requires Reachable(s) && s.handler.Returned? && k < |s.checks|
    ensures s.checks[k].Calling? || s.checks[k].Delivered? || s.checks[k].Stopped? || Step(s, Stop(k)).Some?
  {
    ReachableInv(s);
  }

  /** No send completes, and no status is written, after the handler returned. */
  lemma {:induction false} NothingAfterReturn(s: State, acts: seq<Action>)
    requires s.handler.Returned? && Exec(Step, s, acts).Some?
    ensures var t := Exec(Step, s, acts).value;
            && t.handler.Returned? && t.statuses == s.statuses && |t.checks| == |s.checks|
            && forall k :: 0 <= k < |s.checks| && t.checks[k].Delivered? ==> s.checks[k] == t.checks[k]
    decreases |acts|
  {
    if acts == [] {
    } else {
      NothingAfterReturn(Step(s, acts[0]).value, acts[1..]);
    }
  }

  /** The receive loop never waits in vain: unless it is over, some check has not been received, and
      once that check's call has ended the handler can receive it. */
  lemma LoopCanGoOn(s: State) returns (k: nat)
    requires Reachable(s) && s.handler.Receiving?
    ensures Step(s, AllReceived).Some? || (k < |s.checks| && (s.checks[k].Calling? || Step(s, Receive(k)).Some?))
  {
    ReachableInv(s);
    AllSuccesses(s.checks);
    k := 0;
    if Successes(s.checks) < |s.checks| {
      k :| 0 <= k < |s.checks| && s.checks[k] != Delivered(true);
    }
  }

  /** While the loop waits, the select takes whatever comes: the timeout, which ends it with 503, or any
      check that has a verdict to offer; a success is counted, and an error ends it with 503. */
  lemma SelectTakesAnything(s: State, k: nat)
    requires Reachable(s) && s.handler.Receiving? && s.handler.received < |s.checks|
    ensures Step(s, TimeOut) == Some(s.(handler := Closing, statuses := [503]))
    ensures k < |s.checks| && s.checks[k].Offering? ==>
              var t := s.(checks := s.checks[k := Delivered(s.checks[k].ok)]);
              Step(s, Receive(k)) == Some(if s.checks[k].ok then t.(handler := Receiving(s.handler.received + 1))
                                          else t.(handler := Closing, statuses := [503]))
  {
    ReachableInv(s);
    assert s.statuses + [503] == [503];
  }

  // ---------------------------------------------------------------- why a status was written

  /** A verdict that is offered or delivered is the answer the check's call gave, and stays. */
  ghost predicate Says(c: Check, ok: bool)
  {
    c == Offering(ok) || c == Delivered(ok)
  }

  lemma {:induction false} VerdictsAreAnswers(s: State, acts: seq<Action>, k: nat, ok: bool)
    requires Exec(Step, s, acts).Some? && k < |s.checks|
    ensures var t := Exec(Step, s, acts).value;
            && |t.checks| == |s.checks|
            && (Says(t.checks[k], ok) ==> Says(s.checks[k], ok) || CallEnds(k, ok) in acts)
    decreases |acts|
  {
    if acts == [] {
    } else {
      VerdictsAreAnswers(Step(s, acts[0]).value, acts[1..], k, ok);
      assert acts == [acts[0]] + acts[1..];
    }
  }

  lemma {:induction false} DeliveredStays(s: State, acts: seq<Action>, k: nat)
    requires Inv(s) && Exec(Step, s, acts).Some? && k < |s.checks| && s.checks[k].Delivered?
    ensures var t := Exec(Step, s, acts).value; k < |t.checks| && t.checks[k] == s.checks[k]
    decreases |acts|
  {
    if acts == [] {
    } else {
      InvKept(s, acts[0]);
      assert Step(s, acts[0]).value.checks[k] == s.checks[k];
      DeliveredStays(Step(s, acts[0]).value, acts[1..], k);
    }
  }

  lemma {:induction false} NoSecondStatus(s: State, acts: seq<Action>)
    requires Exec(Step, s, acts).Some? && (s.handler.Closing? || s.handler.Returned?)
    ensures Exec(Step, s, acts).value.statuses == s.statuses
    decreases |acts|
  {
    if acts == [] {
    } else {
      NoSecondStatus(Step(s, acts[0]).value, acts[1..]);
    }
  }

  lemma {:induction false} FailureHasCause(s: State, acts: seq<Action>)
    requires Inv(s) && Exec(Step, s, acts).Some? && s.statuses == []
    ensures var t := Exec(Step, s, acts).value;
            STATUS_UNAVAILABLE in t.statuses ==>
              TimeOut in acts || exists k :: 0 <= k < |t.checks| && t.checks[k] == Delivered(false)
    decreases |acts|
  {
    if acts == [] {
    } else {
      var s' := Step(s, acts[0]).value;
      InvKept(s, acts[0]);
      if s'.statuses == [] {
        FailureHasCause(s', acts[1..]);
      } else if acts[0].Receive? {
        DeliveredStays(s', acts[1..], acts[0].k);
      } else if acts[0] == AllReceived {
        NoSecondStatus(s', acts[1..]);
      }
    }
  }

  lemma {:induction false} ChecksKeepTheirNumber(s: State, acts: seq<Action>)
    requires Exec(Step, s, acts).Some?
    ensures |Exec(Step, s, acts).value.checks| == |s.checks|
    decreases |acts|
  {
    if acts == [] {
    } else {
      ChecksKeepTheirNumber(Step(s, acts[0]).value, acts[1..]);
    }
  }

  /** The status in terms of what happened: 200 only if the service behind every one of the n checks
      answered well, and 503 only if one of them did not or the timeout fired. */
  lemma {:induction false} StatusIsExplained(n: nat, acts: seq<Action>)
    requires Exec(Step, Start(n), acts).Some?
    ensures var statuses := Exec(Step, Start(n), acts).value.statuses;
            && (STATUS_OK in statuses ==> forall k: nat :: k < n ==> CallEnds(k, true) in acts)
            && (STATUS_UNAVAILABLE in statuses ==> TimeOut in acts || exists k: nat :: k < n && CallEnds(k, false) in acts)
  {
    var s := Exec(Step, Start(n), acts).value;
    ChecksKeepTheirNumber(Start(n), acts);
    assert Reachable(s);
    OneHonestStatus(s);
    NoSuccesses(Start(n).checks);
    FailureHasCause(Start(n), acts);
    if k :| 0 <= k < |s.checks| && s.checks[k] == Delivered(false) {
      VerdictsAreAnswers(Start(n), acts, k, false);
    }
    forall k: nat | k < n && Says(s.checks[k], true) ensures CallEnds(k, true) in acts {
      VerdictsAreAnswers(Start(n), acts, k, true);
    }
  }

  lemma {:induction false} TimeOutMeansFailure(s: State, acts: seq<Action>)
    requires Inv(s) && Exec(Step, s, acts).Some? && TimeOut in acts
    ensures Exec(Step, s, acts).value.statuses == [STATUS_UNAVAILABLE]
    decreases |acts|
  {
    var s' := Step(s, acts[0]).value;
    InvKept(s, acts[0]);
    if acts[0] == TimeOut {
      NoSecondStatus(s', acts[1..]);
    } else {
      assert acts == [acts[0]] + acts[1..];
      TimeOutMeansFailure(s', acts[1..]);
    }
  }

  lemma {:induction false} NoFurtherAnswer(s: State, acts: seq<Action>, k: nat, ok: bool)
    requires Inv(s) && Exec(Step, s, acts).Some? && k < |s.checks| && !s.checks[k].Unborn? && !s.checks[k].Calling?
    ensures CallEnds(k, ok) !in acts
    decreases |acts|
  {
    if acts == [] {
    } else {
      InvKept(s, acts[0]);
      NoFurtherAnswer(Step(s, acts[0]).value, acts[1..], k, ok);
      assert acts == [acts[0]] + acts[1..];
    }
  }

  /** A service answers a check at most once. */
  lemma {:induction false} AnsweredOnce(s: State, acts: seq<Action>, k: nat, ok: bool)
    requires Inv(s) && Exec(Step, s, acts).Some? && CallEnds(k, ok) in acts
    ensures CallEnds(k, !ok) !in acts
    decreases |acts|
  {
    var a, s' := acts[0], Step(s, acts[0]).value;
    InvKept(s, a);
    assert acts == [a] + acts[1..];
    if a.CallEnds? && a.k == k {
      NoFurtherAnswer(s', acts[1..], k, true);
      NoFurtherAnswer(s', acts[1..], k, false);
    } else {
      AnsweredOnce(s', acts[1..], k, ok);
    }
  }

  /** The exact status of a handler that has returned, from what happened: 200 if every one of the n
      services answered well and the timeout did not fire, and 503 otherwise. */
  lemma {:induction false} StatusOfRun(n: nat, acts: seq<Action>)
    requires Exec(Step, Start(n), acts).Some? && Exec(Step, Start(n), acts).value.handler.Returned?
    ensures Exec(Step, Start(n), acts).value.statuses
            == [if TimeOut !in acts && forall k: nat :: k < n ==> CallEnds(k, true) in acts then 200 else 503]
  {
    var s := Exec(Step, Start(n), acts).value;
    ChecksKeepTheirNumber(Start(n), acts);
    assert Reachable(s);
    OneHonestStatus(s);
    StatusIsExplained(n, acts);
    NoSuccesses(Start(n).checks);
    if TimeOut in acts {
      TimeOutMeansFailure(Start(n), acts);
    } else if s.statuses == [503] {
      var k: nat :| k < n && CallEnds(k, false) in acts;
      AnsweredOnce(Start(n), acts, k, false);
    }
  }

  // ---------------------------------------------------------------- what can happen

  lemma {:induction false} OneMore(s: State, acts: seq<Action>, t: State, a: Action, u: State)
    requires Exec(Step, s, acts) == Some(t) && Step(t, a) == Some(u)
    ensures Exec(Step, s, acts + [a]) == Some(u)
  {
    ExecConcat(Step, s, acts, [a]);
    assert [a][1..] == [];
  }

  /** What the service behind a check does. */
  datatype Answer = Well | Badly | Silent

  /** Exactly the first `j` answers were given in `acts`. */
  ghost predicate Given(acts: seq<Action>, answers: seq<Answer>, j: nat)
  {
    forall k: nat, ok :: CallEnds(k, ok) in acts <==> k < j && k < |answers| && answers[k] == if ok then Well else Badly
  }

  lemma {:induction false} StartChecks(n: nat, j: nat) returns (acts: seq<Action>)
    requires j <= n
    ensures Exec(Step, Start(n), acts) == Some(State(Spawning(j), seq(n, k => if k < j then Calling else Unborn), [], false))
    ensures forall a :: a in acts ==> a == Go
  {
    if j == 0 {
      acts := [];
      assert seq(n, k => if k < j then Calling else Unborn) == Start(n).checks;
    } else {
      acts := StartChecks(n, j - 1);
      var t := Exec(Step, Start(n), acts).value;
      var u := State(Spawning(j), seq(n, k => if k < j then Calling else Unborn), [], false);
      assert t.checks[j - 1 := Calling] == u.checks;
      OneMore(Start(n), acts, t, Go, u);
      acts := acts + [Go];
    }
  }

  /** The checks after the first `j` answers. */
  function Answered(answers: seq<Answer>, j: nat): (r: seq<Check>)
    ensures |r| == |answers|
    ensures forall k :: 0 <= k < |r| ==> r[k] == if k < j && !answers[k].Silent? then Offering(answers[k].Well?) else Calling
  {
    seq(|answers|, k requires 0 <= k < |answers| =>
      if k < j && !answers[k].Silent? then Offering(answers[k].Well?) else Calling)
  }

  lemma {:induction false} GiveAnswers(answers: seq<Answer>, j: nat) returns (acts: seq<Action>)
    requires j <= |answers|
    ensures Exec(Step, Start(|answers|), acts) == Some(State(Receiving(0), Answered(answers, j), [], false))
    ensures Given(acts, answers, j) && TimeOut !in acts
  {
    var s := Start(|answers|);
    var u := State(Receiving(0), Answered(answers, j), [], false);
    if j == 0 {
      acts := StartChecks(|answers|, |answers|);
      var t := Exec(Step, s, acts).value;
      assert t.checks == u.checks;
      OneMore(s, acts, t, Go, u);
      acts := acts + [Go];
    } else {
      acts := GiveAnswers(answers, j - 1);
      var t := Exec(Step, s, acts).value;
      if answers[j - 1] == Silent {
        assert t.checks == u.checks;
      } else {
        var a := CallEnds(j - 1, answers[j - 1].Well?);
        assert t.checks[j - 1 := Offering(a.ok)] == u.checks;
        OneMore(s, acts, t, a, u);
        acts := acts + [a];
      }
    }
  }

  lemma {:induction false} ReceiveAll(answers: seq<Answer>, j: nat) returns (acts: seq<Action>)
    requires j <= |answers| && forall k :: 0 <= k < |answers| ==> answers[k] == Well
    ensures Exec(Step, Start(|answers|), acts)
            == Some(State(Receiving(j), seq(|answers|, k => if k < j then Delivered(true) else Offering(true)), [], false))
    ensures Given(acts, answers, |answers|) && TimeOut !in acts
  {
    var s := Start(|answers|);
    var u := State(Receiving(j), seq(|answers|, k => if k < j then Delivered(true) else Offering(true)), [], false);
    if j == 0 {
      acts := GiveAnswers(answers, |answers|);
      assert Exec(Step, s, acts).value.checks == u.checks;
    } else {
      acts := ReceiveAll(answers, j - 1);
      var t := Exec(Step, s, acts).value;
      assert t.checks[j - 1 := Delivered(true)] == u.checks;
      OneMore(s, acts, t, Receive(j - 1), u);
      acts := acts + [Receive(j - 1)];
    }
  }

  /** The last receive, or the timeout, and the run until there. */
  lemma ToClosing(answers: seq<Answer>) returns (acts: seq<Action>, t: State)
    ensures Exec(Step, Start(|answers|), acts) == Some(t) && t.handler == Closing
    ensures Given(acts, answers, |answers|) && (TimeOut in acts <==> Silent in answers)
  {
    var s := Start(|answers|);
    if Silent in answers {
      acts := GiveAnswers(answers, |answers|);
      var u := Exec(Step, s, acts).value;
      t := Fail(u);
      OneMore(s, acts, u, TimeOut, t);
      acts := acts + [TimeOut];
    } else if k: nat :| k < |answers| && answers[k] == Badly {
      acts := GiveAnswers(answers, |answers|);
      var u := Exec(Step, s, acts).value;
      t := Step(u, Receive(k)).value;
      OneMore(s, acts, u, Receive(k), t);
      acts := acts + [Receive(k)];
    } else {
      forall k | 0 <= k < |answers| ensures answers[k] == Well {
        assert answers[k] in answers;
      }
      acts := ReceiveAll(answers, |answers|);
      var u := Exec(Step, s, acts).value;
      t := Step(u, AllReceived).value;
      OneMore(s, acts, u, AllReceived, t);
      acts := acts + [AllReceived];
    }
  }

  /** Whatever the n services do, each answering well, badly or not at all, the handler can return, with
      200 if all of them answered well and with 503 otherwise. In particular silence leads to 503. */
  lemma EveryRequestIsAnswered(answers: seq<Answer>) returns (acts: seq<Action>)
    ensures Exec(Step, Start(|answers|), acts).Some? && Given(acts, answers, |answers|)
    ensures var t := Exec(Step, Start(|answers|), acts).value;
            && t.handler == Returned
            && t.statuses == [if forall k :: 0 <= k < |answers| ==> answers[k] == Well then 200 else 503]
  {
    var t;
    acts, t := ToClosing(answers);
    var u := t.(handler := Returned, stopClosed := true);
    OneMore(Start(|answers|), acts, t, CloseStop, u);
    acts := acts + [CloseStop];
    StatusOfRun(|answers|, acts);
    forall k: nat | k < |answers| ensures CallEnds(k, true) in acts <==> answers[k] == Well {
    }
    forall k | 0 <= k < |answers| && answers[k] == Silent ensures TimeOut in acts {
      assert answers[k] in answers;
    }
  }

  // ---------------------------------------------------------------- termination

  function CheckRank(c: Check): nat
  {
    match c
    case Unborn => 3
    case Calling => 2
    case Offering(_) => 1
    case _ => 0
  }

  function ChecksRank(checks: seq<Check>): nat
  {
    if checks == [] then 0 else CheckRank(checks[0]) + ChecksRank(checks[1..])
  }

  function HandlerRank(h: Handler): nat
  {
    match h
    case Spawning(_) => 3
    case Receiving(_) => 2
    case Closing => 1
    case Returned => 0
  }

  lemma {:induction false} ChecksRankUpdate(checks: seq<Check>, k: nat, c: Check)
    requires k < |checks|
    ensures ChecksRank(checks[k := c]) == ChecksRank(checks) - CheckRank(checks[k]) + CheckRank(c)
  {
    if k == 0 {
      assert checks[k := c][1..] == checks[1..];
    } else {
      assert checks[k := c][1..] == checks[1..][k - 1 := c];
      ChecksRankUpdate(checks[1..], k - 1, c);
    }
  }

  lemma RankDrops(s: State, a: Action)
    requires Inv(s) && Step(s, a).Some?
    ensures var t := Step(s, a).value;
            HandlerRank(t.handler) + ChecksRank(t.checks) < HandlerRank(s.handler) + ChecksRank(s.checks)
  {
    match a {
      case Go =>
        if s.handler.next < |s.checks| {
          ChecksRankUpdate(s.checks, s.handler.next, Calling);
        }
      case CallEnds(k, ok) => ChecksRankUpdate(s.checks, k, Offering(ok));
      case Receive(k) => ChecksRankUpdate(s.checks, k, Delivered(s.checks[k].ok));
      case Stop(k) => ChecksRankUpdate(s.checks, k, Stopped);
      case _ =>
    }
  }

  lemma {:induction false} RunLength(s: State, acts: seq<Action>)
    requires Inv(s) && Exec(Step, s, acts).Some?
    ensures |acts| <= HandlerRank(s.handler) + ChecksRank(s.checks)
    decreases |acts|
  {
    if acts == [] {
    } else {
      RankDrops(s, acts[0]);
      InvKept(s, acts[0]);
      RunLength(Step(s, acts[0]).value, acts[1..]);
    }
  }

  lemma {:induction false} RankAtStart(checks: seq<Check>)
    requires forall k :: 0 <= k < |checks| ==> checks[k].Unborn?
    ensures ChecksRank(checks) == 3 * |checks|
  {
    if checks == [] {
    } else {
      RankAtStart(checks[1..]);
    }
  }

  lemma StuckMeansReleased(s: State)
    requires Inv(s) && forall a :: Step(s, a) == None
    ensures s.handler.Returned? && forall k :: 0 <= k < |s.checks| ==> s.checks[k].Delivered? || s.checks[k].Stopped?
  {
    assert Step(s, Go) == None && Step(s, TimeOut) == None && Step(s, AllReceived) == None && Step(s, CloseStop) == None;
    forall k | 0 <= k < |s.checks| ensures s.checks[k].Delivered? || s.checks[k].Stopped? {
      assert Step(s, CallEnds(k, true)) == None && Step(s, Stop(k)) == None;
    }
  }

  /** Every interleaving of a handler with n checks ends after at most 3 n + 3 steps, and where it
      ends the handler has returned and every check is done. */
  lemma {:induction false} EveryRunEndsReleased(n: nat, acts: seq<Action>)
    requires Exec(Step, Start(n), acts).Some?
    ensures |acts| <= 3 * n + 3
    ensures var s := Exec(Step, Start(n), acts).value;
            (forall a :: Step(s, a) == None) ==>
              s.handler.Returned? && forall k :: 0 <= k < |s.checks| ==> s.checks[k].Delivered? || s.checks[k].Stopped?
  {
    NoSuccesses(Start(n).checks);
    RankAtStart(Start(n).checks);
    RunLength(Start(n), acts);
    var s := Exec(Step, Start(n), acts).value;
    ChecksKeepTheirNumber(Start(n), acts);
    assert Reachable(s);
    ReachableInv(s);
    if forall a :: Step(s, a) == None {
      StuckMeansReleased(s);
    }
  }
}
