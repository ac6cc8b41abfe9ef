/** What can happen to a push: the lock answers at once, the timer may fire at any time, every failure of
    a body reaches its client, and what another push may take away from it. */
module PushOutcomes {
  import opened Runs
  import opened PushProtocol
  import opened PushLocking
  import opened PushHistory
  import opened PushDirectories
  import opened Permission

  // ---------------------------------------------------------------- the lock

  ghost predicate HeldBy(s: State, repo: string, d: int)
    requires |s.calls| == |s.pushes|
  {
    HoldingAt(s, d) && s.pushes[d].repo == repo
  }

  lemma LockSteps(s: State, c: nat)
    requires |s.calls| == |s.pushes| && c < |s.calls| && s.calls[c] == Call(AtLock, NotStarted, false)
    ensures var refused, ok := Step(s, Action(c, LockRefused)), Step(s, Action(c, LockOk));
            if s.pushes[c].repo in s.locks
            then ok == None && refused == Some(s.(calls := s.calls[c := Call(Returned(AlreadyLocked), NotStarted, false)]))
            else refused == None && ok.Some? && HoldingAt(ok.value, c)
  {
  }

  /** A push at its Lock never waits: it is refused if another one holds its name, and returns at once
      without touching anything; otherwise it becomes the holder. */
  lemma LockAnswersAtOnce(s: State, c: nat)
    requires Consistent(s.pushes) && Reachable(s) && c < |s.calls| && s.calls[c].caller == AtLock
    ensures |s.calls| == |s.pushes|
    ensures var refused, ok := Step(s, Action(c, LockRefused)), Step(s, Action(c, LockOk));
            if exists d :: HeldBy(s, s.pushes[c].repo, d)
            then ok == None && refused == Some(s.(calls := s.calls[c := Call(Returned(AlreadyLocked), NotStarted, false)]))
            else refused == None && ok.Some? && HoldingAt(ok.value, c)
  {
    ReachableCallOk(s, c);
    var repo := s.pushes[c].repo;
    LockedIffOneHolder(s, repo);
    if repo in s.locks {
      var d :| HoldingAt(s, d) && s.pushes[d].repo == repo;
      assert HeldBy(s, repo, d);
    }
    LockSteps(s, c);
  }

  /** Of two pushes of one name, one can be refused while the other serves. */
  lemma SecondIsRefused(pushes: seq<Push>, c: nat, d: nat) returns (t: State)
    requires c < |pushes| && d < |pushes| && c != d && pushes[c].repo == pushes[d].repo
    ensures Leads(Start(pushes), t, false)
    ensures |t.calls| == |pushes| && t.calls[c].worker.AtServe? && t.calls[d].caller == Returned(AlreadyLocked)
  {
    var s := ServingAlone(pushes, c, false);
    LeadsOn(Start(pushes), s, Action(d, LockRefused), false);
    t := Apply(s, Action(d, LockRefused));
  }

  lemma OneStep(s: State, t: State, acts: seq<Action>)
    requires acts != [] && Step(s, acts[0]) == Some(t)
    ensures Exec(Step, s, acts) == Exec(Step, t, acts[1..])
  {
  }

  lemma FourSteps(s: State, t1: State, t2: State, t3: State, t4: State, a1: Action, a2: Action, a3: Action, a4: Action)
    requires Step(s, a1) == Some(t1) && Step(t1, a2) == Some(t2) && Step(t2, a3) == Some(t3) && Step(t3, a4) == Some(t4)
    ensures Exec(Step, s, [a1, a2, a3, a4]) == Some(t4)
  {
    OneStep(s, t1, [a1, a2, a3, a4]);
    assert [a1, a2, a3, a4][1..] == [a2, a3, a4];
    OneStep(t1, t2, [a2, a3, a4]);
    assert [a2, a3, a4][1..] == [a3, a4];
    OneStep(t2, t3, [a3, a4]);
    assert [a3, a4][1..] == [a4];
    OneStep(t3, t4, [a4]);
    assert [a4][1..] == [];
  }

  lemma CallerStep(s: State, c: nat, call: Call, k: Kind)
    requires |s.calls| == |s.pushes| && c < |s.calls| && s.calls[c] == call
    requires At(call, k) && (k == TimeOut || k == CloseDone || k == Unlock || k == StopTimer)
    requires k == Unlock ==> s.pushes[c].repo in s.locks && s.locks[s.pushes[c].repo]
    ensures Step(s, Action(c, k)) == Some(s.(calls := s.calls[c := Local(call, k)],
              locks := if k == Unlock then s.locks - {s.pushes[c].repo} else s.locks))
  {
  }

  lemma TimeOutSteps(s: State, c: nat, w: Worker)
    requires |s.calls| == |s.pushes| && c < |s.calls| && s.calls[c] == Call(AtSelect, w, false)
    requires s.pushes[c].repo in s.locks && s.locks[s.pushes[c].repo]
    ensures Exec(Step, s, [Action(c, TimeOut), Action(c, CloseDone), Action(c, Unlock), Action(c, StopTimer)])
            == Some(s.(calls := s.calls[c := Call(Returned(TimedOut), w, true)], locks := s.locks - {s.pushes[c].repo}))
  {
    var t1 := s.(calls := s.calls[c := Call(AtClose, w, false)]);
    var t2 := s.(calls := s.calls[c := Call(AtUnlock(TimedOut), w, true)]);
    var t3 := s.(calls := s.calls[c := Call(AtStop(TimedOut), w, true)], locks := s.locks - {s.pushes[c].repo});
    var t4 := t3.(calls := s.calls[c := Call(Returned(TimedOut), w, true)]);
    CallerStep(s, c, s.calls[c], TimeOut);
    CallerStep(t1, c, t1.calls[c], CloseDone);
    assert t1.calls[c := t2.calls[c]] == t2.calls;
    CallerStep(t2, c, t2.calls[c], Unlock);
    assert t2.calls[c := t3.calls[c]] == t3.calls;
    CallerStep(t3, c, t3.calls[c], StopTimer);
    assert t3.calls[c := t4.calls[c]] == t4.calls;
    FourSteps(s, t1, t2, t3, t4, Action(c, TimeOut), Action(c, CloseDone), Action(c, Unlock), Action(c, StopTimer));
  }

  lemma HolderIsInTable(s: State, c: nat)
    requires Consistent(s.pushes) && Reachable(s) && HoldingAt(s, c)
    ensures |s.calls| == |s.pushes| && s.pushes[c].repo in s.locks && s.locks[s.pushes[c].repo]
  {
    ReachableInv(s);
  }

  /** The timer may fire while the worker is anywhere. The deferred steps then close the done channel,
      free the lock and return, and leave the worker and everything else alone. */
  lemma TimesOutFromAnywhere(s: State, c: nat)
    requires Consistent(s.pushes) && Reachable(s) && c < |s.calls| && s.calls[c].caller == AtSelect
    ensures |s.calls| == |s.pushes|
    ensures Exec(Step, s, [Action(c, TimeOut), Action(c, CloseDone), Action(c, Unlock), Action(c, StopTimer)])
            == Some(s.(calls := s.calls[c := Call(Returned(TimedOut), s.calls[c].worker, true)],
                       locks := s.locks - {s.pushes[c].repo}))
  {
    ReachableCallOk(s, c);
    HolderIsInTable(s, c);
    TimeOutSteps(s, c, s.calls[c].worker);
  }

  // ---------------------------------------------------------------- every verdict is returned

  lemma SendToEnd(s0: State, s: State, c: nat, r: GoError) returns (t: State)
    requires Leads(s0, s, false) && |s.calls| == |s.pushes| && c < |s.calls|
    requires s.calls[c] == Call(AtSelect, AtSend(r), false)
    ensures t == Put(s, c, Returned(Body(r)), Finished(r)).(locks := t.locks)
    ensures Leads(s0, t, false)
  {
    var t1 := Put(s, c, AtUnlock(Body(r)), Finished(r));
    LeadsOn(s0, s, Action(c, Deliver), false);
    assert t1 == Apply(s, Action(c, Deliver));
    t := ReturnAlone(s0, s, t1, c, r, false);
  }

  lemma RemoveToEnd(s0: State, s: State, c: nat, r: GoError) returns (t: State)
    requires Leads(s0, s, false) && |s.calls| == |s.pushes| && c < |s.calls|
    requires s.calls[c].caller == AtSelect && s.calls[c].worker.AtRemove? && !s.calls[c].doneClosed
    requires s.calls[c].worker.result == r
    ensures t == Put(s, c, Returned(Body(r)), Finished(r)).(dirs := Without(s.dirs, s.pushes[c].path), locks := t.locks)
    ensures Leads(s0, t, false)
  {
    var t1 := Put(s, c, AtSelect, AtSend(r)).(dirs := Without(s.dirs, s.pushes[c].path));
    LeadsOn(s0, s, Action(c, RemoveOk), false);
    assert t1 == Apply(s, Action(c, RemoveOk));
    t := SendToEnd(s0, t1, c, r);
  }

  lemma CreateFailsToEnd(s0: State, s: State, c: nat, e: string) returns (t: State)
    requires Leads(s0, s, false) && |s.calls| == |s.pushes| && c < |s.calls|
    requires s.calls[c].caller == AtSelect && !s.calls[c].doneClosed
    requires s.calls[c].worker.AtCreateUnlock? && s.calls[c].worker.result == Err(e)
    ensures t.calls == s.calls[c := Call(Returned(Body(Err(e))), Finished(Err(e)), false)]
    ensures t.dirs == Without(s.dirs, s.pushes[c].path) && Leads(s0, t, false)
  {
    LeadsOn(s0, s, Action(c, DropCreate), false);
    t := RemoveToEnd(s0, Apply(s, Action(c, DropCreate)), c, Err(e));
  }

  /** What is left when the whole path was made and its end removed: the parents. */
  lemma ParentsStay(p: Path, k: nat)
    requires p != [] && k <= |p|
    ensures Without(Parents(p, k), p) == Parents(p, if k < |p| then k else |p| - 1)
  {
    var kept := if k < |p| then k else |p| - 1;
    forall d ensures d in Without(Parents(p, k), p) <==> d in Parents(p, kept) {
      if d in Parents(p, k) {
        var i :| 1 <= i <= k && d == p[..i];
        assert p <= d <==> i == |p|;
      }
    }
  }

  lemma DeniedRun(pushes: seq<Push>, c: nat, e: string) returns (t: State)
    requires c < |pushes|
    ensures Leads(Start(pushes), t, false) && t.dirs == {}
    ensures |t.calls| == |pushes| && t.calls[c].caller == Returned(Body(Err(e)))
  {
    var s0 := Start(pushes);
    LeadsNowhere(s0, false);
    LeadsOn(s0, s0, Action(c, LockOk), false);
    var s1 := Apply(s0, Action(c, LockOk));
    LeadsOn(s0, s1, Action(c, Spawn), false);
    var s2 := Apply(s1, Action(c, Spawn));
    LeadsOn(s0, s2, Action(c, Deny(e)), false);
    t := SendToEnd(s0, Apply(s2, Action(c, Deny(e))), c, Err(e));
  }

  lemma CreateFailsRun(pushes: seq<Push>, c: nat, k: Kind) returns (t: State)
    requires c < |pushes| && pushes[c].path != []
    requires k.StatError? || (k.MkdirFail? && k.upTo < |pushes[c].path|)
    ensures Leads(Start(pushes), t, false)
    ensures t.dirs == Parents(pushes[c].path, if k.MkdirFail? then k.upTo else 0)
    ensures |t.calls| == |pushes| && t.calls[c].caller == Returned(Body(Err(k.e)))
  {
    var s0, p := Start(pushes), pushes[c].path;
    LeadsNowhere(s0, false);
    var s := SoloToStat(s0, s0, c, false);
    if k.MkdirFail? {
      LeadsOn(s0, s, Action(c, StatAbsent), false);
      s := Apply(s, Action(c, StatAbsent));
    }
    LeadsOn(s0, s, Action(c, k), false);
    s := Apply(s, Action(c, k));
    t := CreateFailsToEnd(s0, s, c, k.e);
    assert Parents(p, 0) == {} && {} + Parents(p, if k.MkdirFail? then k.upTo else 0) == s.dirs;
    ParentsStay(p, if k.MkdirFail? then k.upTo else 0);
  }

  lemma InitFailsRun(pushes: seq<Push>, c: nat, e: string) returns (t: State)
    requires c < |pushes| && pushes[c].path != []
    ensures Leads(Start(pushes), t, false) && t.dirs == Parents(pushes[c].path, |pushes[c].path| - 1)
    ensures |t.calls| == |pushes| && t.calls[c].caller == Returned(Body(Err(e)))
  {
    var s0, p := Start(pushes), pushes[c].path;
    LeadsNowhere(s0, false);
    var s := SoloToStat(s0, s0, c, false);
    var s1 := StatToInit(s0, s, c, false);
    LeadsOn(s0, s1, Action(c, InitFail(e)), false);
    var s2 := Put(s1, c, AtSelect, AtCreateUnlock(true, Err(e)));
    assert s2 == Apply(s1, Action(c, InitFail(e)));
    t := CreateFailsToEnd(s0, s2, c, e);
    assert {} + Parents(p, |p|) == Parents(p, |p|);
    ParentsStay(p, |p|);
  }

  lemma ServedRun(pushes: seq<Push>, c: nat, r: GoError) returns (t: State)
    requires c < |pushes| && pushes[c].path != []
    ensures Leads(Start(pushes), t, false) && t.dirs == Parents(pushes[c].path, |pushes[c].path| - 1)
    ensures |t.calls| == |pushes| && t.calls[c].caller == Returned(Body(r))
  {
    var p := pushes[c].path;
    var s := ServingAlone(pushes, c, false);
    LeadsOn(Start(pushes), s, Action(c, ServeEnd(r)), false);
    s := Apply(s, Action(c, ServeEnd(r)));
    assert s.dirs == Parents(p, |p|);
    t := RemoveToEnd(Start(pushes), s, c, r);
    ParentsStay(p, |p|);
  }

  /** How many components of its path a push leaves behind when `k` decides it. */
  function LeftBy(k: Kind, length: nat): nat
    requires length > 0
  {
    match k
    case MkdirFail(upTo, _) => upTo
    case InitFail(_) => length - 1
    case ServeEnd(_) => length - 1
    case _ => 0
  }

  /** Whatever decides a push, its client is told exactly that: there is a run in which the permission
      is denied, the directory cannot be looked up, made or initialised, or serving ends, with any error,
      and the call returns that error. The directory is gone then, and only parents made on the way stay. */
  lemma EveryVerdictIsReturned(pushes: seq<Push>, c: nat, k: Kind) returns (t: State)
    requires c < |pushes| && pushes[c].path != []
    requires k.Deny? || k.StatError? || (k.MkdirFail? && k.upTo < |pushes[c].path|) || k.InitFail? || k.ServeEnd?
    ensures Leads(Start(pushes), t, false)
    ensures |t.calls| == |pushes|
    ensures t.calls[c].caller == Returned(Body(if k.ServeEnd? then k.r else Err(k.e)))
    ensures t.dirs == Parents(pushes[c].path, LeftBy(k, |pushes[c].path|))
  {
    match k {
      case Deny(e) => t := DeniedRun(pushes, c, e);
      case InitFail(e) => t := InitFailsRun(pushes, c, e);
      case ServeEnd(r) => t := ServedRun(pushes, c, r);
      case _ => t := CreateFailsRun(pushes, c, k);
    }
  }

  lemma LookupSteps(s: State, c: nat)
    requires |s.calls| == |s.pushes| && c < |s.calls| && s.calls[c].worker.AtStat?
    ensures var found, absent := Step(s, Action(c, StatFound)), Step(s, Action(c, StatAbsent));
            if s.pushes[c].path in s.dirs
            then absent == None && found == Some(s.(calls := s.calls[c := s.calls[c].(worker := AtCreateUnlock(false, Nil))]))
            else found == None && absent == Some(s.(calls := s.calls[c := s.calls[c].(worker := AtMkdir)]))
  {
  }

  /** A directory that is there is used as it is, and only one that is not there is made. */
  lemma LookupIsHonest(s: State, c: nat)
    requires Consistent(s.pushes) && Reachable(s) && c < |s.calls| && s.calls[c].worker.AtStat?
    ensures |s.calls| == |s.pushes|
    ensures var found, absent := Step(s, Action(c, StatFound)), Step(s, Action(c, StatAbsent));
            if s.pushes[c].path in s.dirs
            then absent == None && found == Some(s.(calls := s.calls[c := s.calls[c].(worker := AtCreateUnlock(false, Nil))]))
            else found == None && absent == Some(s.(calls := s.calls[c := s.calls[c].(worker := AtMkdir)]))
  {
    ReachableCallOk(s, c);
    LookupSteps(s, c);
  }

  lemma RemovalSteps(s: State, c: nat)
    requires |s.calls| == |s.pushes| && c < |s.calls| && s.calls[c].worker.AtRemove?
    ensures Step(s, Action(c, RemoveFail)).Some? && Step(s, Action(c, RemoveOk)).Some?
    ensures Step(s, Action(c, RemoveFail)).value == Step(s, Action(c, RemoveOk)).value.(dirs := s.dirs)
  {
  }

  /** Nobody is told when a removal fails: the call goes on as if it had succeeded, and the directories
      stay. */
  lemma FailedRemovalIsSilent(s: State, c: nat)
    requires Consistent(s.pushes) && Reachable(s) && c < |s.calls| && s.calls[c].worker.AtRemove?
    ensures Step(s, Action(c, RemoveFail)).Some? && Step(s, Action(c, RemoveOk)).Some?
    ensures Step(s, Action(c, RemoveFail)).value == Step(s, Action(c, RemoveOk)).value.(dirs := s.dirs)
  {
    ReachableCallOk(s, c);
    RemovalSteps(s, c);
  }

  // ---------------------------------------------------------------- what another push takes away

  lemma FoundToServe(s0: State, s: State, c: nat) returns (t: State)
    requires Leads(s0, s, false) && |s.calls| == |s.pushes| && c < |s.calls|
    requires s.calls[c] == Call(AtSelect, AtStat, false) && s.pushes[c].path in s.dirs
    ensures t == Put(s, c, AtSelect, AtServe(false)).(creating := None)
    ensures Leads(s0, t, false)
  {
    LeadsOn(s0, s, Action(c, StatFound), false);
    var t1 := Put(s, c, AtSelect, AtCreateUnlock(false, Nil));
    assert t1 == Apply(s, Action(c, StatFound));
    LeadsOn(s0, t1, Action(c, DropCreate), false);
    t := Put(s, c, AtSelect, AtServe(false)).(creating := None);
    assert t == Apply(t1, Action(c, DropCreate));
  }

  lemma BothServe(pushes: seq<Push>, c: nat, d: nat) returns (t: State)
    requires c < |pushes| && d < |pushes| && pushes[c].repo != pushes[d].repo && pushes[c].path != []
    ensures Leads(Start(pushes), t, false) && t.pushes == pushes && |t.calls| == |pushes|
    ensures t.calls[c] == Call(AtSelect, AtServe(true), false)
    ensures t.calls[d] == Call(AtSelect, AtServe(pushes[d].path !in Parents(pushes[c].path, |pushes[c].path|)), false)
  {
    var s := ServingAlone(pushes, c, false);
    var s1 := SoloToStat(Start(pushes), s, d, false);
    if pushes[d].path in s1.dirs {
      t := FoundToServe(Start(pushes), s1, d);
    } else {
      t := StatToServe(Start(pushes), s1, d, false);
    }
  }

  /** A push whose directory is, or lies below, that of a push of another name can lose it while it
      serves: a run without timeouts leads to a state in which the other push has ended well and taken
      the directory along. If the two directories are the same, the push never made it itself. */
  lemma LosesDirectory(pushes: seq<Push>, c: nat, d: nat) returns (t: State)
    requires c < |pushes| && d < |pushes| && pushes[c].repo != pushes[d].repo
    requires pushes[c].path != [] && pushes[c].path <= pushes[d].path
    ensures Leads(Start(pushes), t, false) && |t.calls| == |pushes|
    ensures t.calls[c].caller == Returned(Body(Nil))
    ensures t.calls[d].worker == AtServe(pushes[c].path != pushes[d].path) && pushes[d].path !in t.dirs
  {
    var p := pushes[c].path;
    var s := BothServe(pushes, c, d);
    t := ServeToEnd(Start(pushes), s, c, false);
    assert p[..|p|] == p;
    assert pushes[d].path in Parents(p, |p|) <==> pushes[d].path == p;
  }

  // ---------------------------------------------------------------- permission

  const NO_PERMISSION: string := "user has no permission to build the app"

  ghost predicate FollowsCheck(a: Action, pushes: seq<Push>, apps: seq<seq<string>>)
  {
    a.c < |pushes| && a.c < |apps| ==>
      && (a.kind.Permit? ==> MayBuild(apps[a.c], pushes[a.c].repo))
      && (a.kind.Deny? ==> !MayBuild(apps[a.c], pushes[a.c].repo) && a.kind.e == NO_PERMISSION)
  }

  /** The run decides permissions as the server does, where `apps[c]` are the applications of the user
      who makes push `c`. */
  ghost predicate Governed(acts: seq<Action>, pushes: seq<Push>, apps: seq<seq<string>>)
  {
    |apps| == |pushes| && forall i :: 0 <= i < |acts| ==> FollowsCheck(acts[i], pushes, apps)
  }

  lemma {:induction false} VerdictHasStep(acts: seq<Action>, c: nat, r: GoError) returns (i: nat)
    requires r in Verdicts(acts, c)
    ensures i < |acts| && acts[i].c == c && Verdict(acts[i].kind) == Some(r)
  {
    if acts[0].c == c && Verdict(acts[0].kind) == Some(r) {
      i := 0;
    } else {
      i := VerdictHasStep(acts[1..], c, r);
      i := i + 1;
    }
  }

  lemma {:induction false} ReceiveIsPermitted(pushes: seq<Push>, apps: seq<seq<string>>, acts: seq<Action>, i: nat)
    requires Exec(Step, Start(pushes), acts).Some? && Governed(acts, pushes, apps)
    requires i < |acts| && OfReceive(acts[i].kind) && acts[i].c < |pushes|
    ensures MayBuild(apps[acts[i].c], pushes[acts[i].c].repo) && Action(acts[i].c, Permit) in acts
  {
    NoReceiveWithoutPermission(pushes, acts, i);
    var j :| 0 <= j < i && acts[j] == Action(acts[i].c, Permit);
    assert FollowsCheck(acts[j], pushes, apps);
  }

  /** What a push returned, with the permission check as the server makes it: if the check fails for the
      repository and the user's applications, the one error is that there is no permission and no step
      of a receive was made for this push; if it passes, the push was served or failed for another
      reason, but was not denied. */
  lemma {:induction false} AnsweredByPermission(pushes: seq<Push>, apps: seq<seq<string>>, acts: seq<Action>,
                                                s: State, c: nat)
    requires Consistent(pushes) && Exec(Step, Start(pushes), acts) == Some(s) && Governed(acts, pushes, apps)
    requires c < |pushes| && c < |s.calls| && s.calls[c].caller.Returned? && s.calls[c].caller.outcome.Body?
    ensures MayBuild(apps[c], pushes[c].repo) ==> Action(c, Permit) in acts && forall e :: Action(c, Deny(e)) !in acts
    ensures !MayBuild(apps[c], pushes[c].repo) ==>
              && s.calls[c].caller.outcome.result == Err(NO_PERMISSION)
              && forall i :: 0 <= i < |acts| && acts[i].c == c ==> !OfReceive(acts[i].kind)
  {
    var r := s.calls[c].caller.outcome.result;
    OutcomeIsExplained(pushes, acts, s, c);
    var i := VerdictHasStep(acts, c, r);
    assert FollowsCheck(acts[i], pushes, apps);
    if OfReceive(acts[i].kind) {
      ReceiveIsPermitted(pushes, apps, acts, i);
    }
    forall j | 0 <= j < |acts| && acts[j].c == c && OfReceive(acts[j].kind) ensures MayBuild(apps[c], pushes[c].repo) {
      ReceiveIsPermitted(pushes, apps, acts, j);
    }
    forall e | Action(c, Deny(e)) in acts ensures !MayBuild(apps[c], pushes[c].repo) {
      var j :| 0 <= j < |acts| && acts[j] == Action(c, Deny(e));
      assert FollowsCheck(acts[j], pushes, apps);
    }
  }

  lemma AnswerSteps(s: State, c: nat, e: string)
    requires |s.calls| == |s.pushes| && c < |s.calls| && s.calls[c].worker.AtReply?
    ensures Step(s, Action(c, Permit)).Some? && Step(s, Action(c, Deny(e))).Some?
    ensures Step(s, Action(c, Deny(e))).value == s.(calls := s.calls[c := s.calls[c].(worker := AtSend(Err(e)))])
  {
  }

  /** A body that is about to decide can decide either way, whatever else is going on. */
  lemma EitherAnswerIsPossible(s: State, c: nat, e: string)
    requires Consistent(s.pushes) && Reachable(s) && c < |s.calls| && s.calls[c].worker.AtReply?
    ensures Step(s, Action(c, Permit)).Some? && Step(s, Action(c, Deny(e))).Some?
    ensures Step(s, Action(c, Deny(e))).value == s.(calls := s.calls[c := s.calls[c].(worker := AtSend(Err(e)))])
  {
    ReachableCallOk(s, c);
    AnswerSteps(s, c, e);
  }
}
