/** What holds in every reachable state of the push protocol, timeouts included. */
module PushLocking {
  import opened Runs
  import opened RepoLock
  import opened PushProtocol

  // ---------------------------------------------------------------- one call on its own

  ghost predicate CalledBack(call: Call, o: Outcome)
  {
    match o
    case AlreadyLocked => call.worker.NotStarted? && !call.doneClosed
    case TimedOut => !call.worker.NotStarted? && call.doneClosed
    case Body(r) => call.worker == Finished(r) && !call.doneClosed
  }

  /** How caller, worker and done channel of one call fit together. */
  ghost predicate CallOk(call: Call)
  {
    match call.caller
    case AtLock | AtSpawn => call.worker.NotStarted? && !call.doneClosed
    case AtSelect | AtClose => Running(call.worker) && !call.doneClosed
    case AtUnlock(o) => CalledBack(call, o) && o != AlreadyLocked
    case AtStop(o) => CalledBack(call, o) && o != AlreadyLocked
    case Returned(o) => CalledBack(call, o)
  }

  lemma CallOkKept(call: Call, k: Kind)
    requires CallOk(call) && At(call, k)
    ensures CallOk(Local(call, k))
  {
  }

  // ---------------------------------------------------------------- the shared state

  ghost predicate HoldingAt(s: State, c: int)
  {
    0 <= c < |s.calls| && Holding(s.calls[c])
  }

  /** A name is in the table, with value `true`, exactly while one and only one call holds it. */
  ghost predicate LocksMatchHolders(s: State)
    requires |s.calls| == |s.pushes|
  {
    && (forall r :: r in s.locks ==> s.locks[r] && exists c :: HoldingAt(s, c) && s.pushes[c].repo == r)
    && (forall c :: HoldingAt(s, c) ==> s.pushes[c].repo in s.locks)
    && (forall c, d :: HoldingAt(s, c) && HoldingAt(s, d) && s.pushes[c].repo == s.pushes[d].repo ==> c == d)
  }

  /** The creation mutex is held exactly by the worker inside createRepo. */
  ghost predicate CreateMatchesWorker(s: State)
  {
    forall c: nat :: c < |s.calls| ==> (InCreate(s.calls[c].worker) <==> s.creating == Some(c))
  }

  ghost predicate Inv(s: State)
  {
    && WellFormed(s)
    && (forall c :: 0 <= c < |s.calls| ==> CallOk(s.calls[c]))
    && LocksMatchHolders(s)
    && CreateMatchesWorker(s)
    && (s.creating.Some? ==> s.creating.value < |s.calls|)
  }

  /** Which steps begin and end the holding of the lock. */
  lemma HoldingChange(call: Call, k: Kind)
    requires CallOk(call) && At(call, k)
    ensures Holding(Local(call, k)) == ((Holding(call) && k != Unlock) || k == LockOk)
    ensures k == LockOk ==> !Holding(call)
    ensures k == Unlock ==> Holding(call)
    ensures InCreate(Local(call, k).worker) == ((InCreate(call.worker) && k != DropCreate) || k == TakeCreate)
    ensures k == DropCreate ==> InCreate(call.worker)
  {
  }

  lemma LocksFrame(s: State, t: State, c: nat, call: Call)
    requires |s.calls| == |s.pushes| && LocksMatchHolders(s) && c < |s.calls|
    requires Holding(call) == Holding(s.calls[c])
    requires t.pushes == s.pushes && t.locks == s.locks && t.calls == s.calls[c := call]
    ensures LocksMatchHolders(t)
  {
    assert forall d :: HoldingAt(t, d) == HoldingAt(s, d);
  }

  lemma LocksAfterLock(s: State, t: State, c: nat, call: Call)
    requires |s.calls| == |s.pushes| && LocksMatchHolders(s) && c < |s.calls|
    requires !Holding(s.calls[c]) && Holding(call) && s.pushes[c].repo !in s.locks
    requires t.pushes == s.pushes && t.locks == Acquired(s.locks, s.pushes[c].repo) && t.calls == s.calls[c := call]
    ensures LocksMatchHolders(t)
  {
    assert forall d :: HoldingAt(t, d) <==> HoldingAt(s, d) || d == c;
  }

  lemma LocksAfterUnlock(s: State, t: State, c: nat, call: Call)
    requires |s.calls| == |s.pushes| && LocksMatchHolders(s) && c < |s.calls|
    requires Holding(s.calls[c]) && !Holding(call)
    requires t.pushes == s.pushes && t.locks == Released(s.locks, s.pushes[c].repo) && t.calls == s.calls[c := call]
    ensures LocksMatchHolders(t)
  {
    assert HoldingAt(s, c);
    assert forall d :: HoldingAt(t, d) <==> HoldingAt(s, d) && d != c;
  }

  lemma InvKept(s: State, a: Action)
    requires Inv(s) && Enabled(s, a)
    ensures Inv(Apply(s, a))
  {
    var t, call := Apply(s, a), Local(s.calls[a.c], a.kind);
    CallOkKept(s.calls[a.c], a.kind);
    HoldingChange(s.calls[a.c], a.kind);
    if a.kind == LockOk {
      LocksAfterLock(s, t, a.c, call);
    } else if a.kind == Unlock {
      LocksAfterUnlock(s, t, a.c, call);
    } else {
      LocksFrame(s, t, a.c, call);
    }
  }

  ghost predicate Consistent(pushes: seq<Push>)
  {
    WellFormed(Start(pushes))
  }

  lemma {:induction false} InvOfRuns(pushes: seq<Push>, acts: seq<Action>)
    requires Consistent(pushes)
    ensures Exec(Step, Start(pushes), acts).Some? ==> Inv(Exec(Step, Start(pushes), acts).value)
  {
    assert Inv(Start(pushes));
    forall t, a | Inv(t) && Step(t, a).Some? ensures Inv(Step(t, a).value) {
      InvKept(t, a);
    }
    InvariantOfRuns(Step, Inv, Start(pushes), acts);
  }

  lemma ReachableInv(s: State)
    requires Consistent(s.pushes) && Reachable(s)
    ensures Inv(s)
  {
    var acts :| Exec(Step, Start(s.pushes), acts) == Some(s);
    InvOfRuns(s.pushes, acts);
  }

  lemma ReachableCallOk(s: State, c: nat)
    requires Consistent(s.pushes) && Reachable(s) && c < |s.calls|
    ensures |s.calls| == |s.pushes| && CallOk(s.calls[c])
  {
    ReachableInv(s);
  }

  // ---------------------------------------------------------------- the guarantees

  /** A repository is locked exactly when one, and only one, call for it is between its successful
      Lock and its deferred Unlock. */
  lemma LockedIffOneHolder(s: State, repo: string)
    requires Consistent(s.pushes) && Reachable(s)
    ensures |s.calls| == |s.pushes|
    ensures repo in s.locks <==> exists c :: HoldingAt(s, c) && s.pushes[c].repo == repo
    ensures forall c, d :: HoldingAt(s, c) && HoldingAt(s, d) && s.pushes[c].repo == repo == s.pushes[d].repo ==> c == d
  {
    ReachableInv(s);
  }

  /** The deferred Unlock always finds its entry, and after it the table is what it would be
      without this call: no other call's entry is touched. */
  lemma UnlockReleasesOwnLock(s: State, c: nat)
    requires Consistent(s.pushes) && Reachable(s) && Enabled(s, Action(c, Unlock))
    ensures s.pushes[c].repo in s.locks
    ensures s.pushes[c].repo !in Apply(s, Action(c, Unlock)).locks
    ensures forall d :: HoldingAt(s, d) && d != c ==>
              |s.calls| == |s.pushes| && s.pushes[d].repo in Apply(s, Action(c, Unlock)).locks
  {
    ReachableInv(s);
    assert HoldingAt(s, c);
  }

  /** Two bodies for one repository overlap only when at most one belongs to a call that has not
      timed out. */
  lemma OneLiveBodyPerRepo(s: State, c: nat, d: nat)
    requires Consistent(s.pushes) && Reachable(s) && c < |s.calls| && d < |s.calls| && c != d
    ensures |s.calls| == |s.pushes|
    ensures s.pushes[c].repo == s.pushes[d].repo && Running(s.calls[c].worker) && Running(s.calls[d].worker)
            ==> HasTimedOut(s.calls[c].caller) || HasTimedOut(s.calls[d].caller)
  {
    ReachableInv(s);
    assert CallOk(s.calls[c]) && CallOk(s.calls[d]);
    assert HoldingAt(s, c) == Holding(s.calls[c]) && HoldingAt(s, d) == Holding(s.calls[d]);
  }

  /** Nobody is stranded and nothing is invented: a refused call never ran its body; a call that got
      its body's result returns exactly that result; after a timeout the worker is still in its body,
      or has an enabled step, or is finished. */
  lemma ReturnedCalls(s: State, c: nat)
    requires Consistent(s.pushes) && Reachable(s) && c < |s.calls| && s.calls[c].caller.Returned?
    ensures var call := s.calls[c];
            match call.caller.outcome
            case AlreadyLocked => call.worker.NotStarted?
            case Body(r) => call.worker == Finished(r)
            case TimedOut => call.worker.Finished? || InBody(call.worker) || Enabled(s, Action(c, SeeDone))
  {
    ReachableCallOk(s, c);
  }

  /** The done channel is closed before a timed-out call gives up the lock. */
  lemma DoneClosedBeforeRelease(s: State, c: nat)
    requires Consistent(s.pushes) && Reachable(s) && c < |s.calls|
    requires HasTimedOut(s.calls[c].caller) && !s.calls[c].caller.AtClose?
    ensures s.calls[c].doneClosed
  {
    ReachableCallOk(s, c);
  }

  // ---------------------------------------------------------------- progress

  /** Removals succeed; whether locks may time out is given by `timeouts`. */
  predicate Allowed(a: Action, timeouts: bool)
  {
    a.kind != RemoveFail && (a.kind == TimeOut ==> timeouts)
  }

  /** The step a call can take by itself, unless it waits for the creation mutex. */
  function OwnStep(s: State, c: nat): (k: Kind)
    requires |s.calls| == |s.pushes| && c < |s.calls| && CallOk(s.calls[c]) && InFlight(s.calls[c])
    requires s.calls[c].worker.AtCreateLock? ==> s.creating == None
    ensures Enabled(s, Action(c, k)) && Allowed(Action(c, k), false)
  {
    var call := s.calls[c];
    match call.worker
    case AtReply => Permit
    case AtCreateLock => TakeCreate
    case AtStat => if s.pushes[c].path in s.dirs then StatFound else StatAbsent
    case AtMkdir => MkdirOk
    case AtInit => InitOk
    case AtCreateUnlock(_, _) => DropCreate
    case AtServe(_) => ServeEnd(Nil)
    case AtRemove(_, _) => RemoveOk
    case AtSend(_) =>
      (match call.caller
       case AtSelect => Deliver
       case AtClose => CloseDone
       case _ => SeeDone)
    case _ =>
      match call.caller
      case AtSpawn => Spawn
      case AtUnlock(_) => Unlock
      case _ => StopTimer
  }

  /** No deadlock: whenever a push is in flight, it or the push that is inside createRepo has a step. */
  lemma InFlightCanMove(s: State, c: nat) returns (a: Action)
    requires Consistent(s.pushes) && Reachable(s) && c < |s.calls| && InFlight(s.calls[c])
    ensures Enabled(s, a) && Allowed(a, false)
    ensures a.c == c || s.creating == Some(a.c)
  {
    ReachableInv(s);
    if s.calls[c].worker.AtCreateLock? && s.creating.Some? {
      var h := s.creating.value;
      assert InCreate(s.calls[h].worker);
      a := Action(h, OwnStep(s, h));
    } else {
      a := Action(c, OwnStep(s, c));
    }
  }

  function CallerRank(c: Caller): nat
  {
    match c
    case AtLock => 6
    case AtSpawn => 5
    case AtSelect => 4
    case AtClose => 3
    case AtUnlock(_) => 2
    case AtStop(_) => 1
    case Returned(_) => 0
  }

  function WorkerRank(w: Worker): nat
  {
    match w
    case NotStarted => 10
    case AtReply => 9
    case AtCreateLock => 8
    case AtStat => 7
    case AtMkdir => 6
    case AtInit => 5
    case AtCreateUnlock(_, _) => 4
    case AtServe(_) => 3
    case AtRemove(_, _) => 2
    case AtSend(_) => 1
    case Finished(_) => 0
  }

  /** Steps the calls can still take, at most. */
  function Budget(calls: seq<Call>): nat
  {
    if calls == [] then 0
    else CallerRank(calls[0].caller) + WorkerRank(calls[0].worker) + Budget(calls[1..])
  }

  lemma {:induction false} BudgetUpdate(calls: seq<Call>, c: nat, call: Call)
    requires c < |calls|
    requires CallerRank(call.caller) + WorkerRank(call.worker)
             < CallerRank(calls[c].caller) + WorkerRank(calls[c].worker)
    ensures Budget(calls[c := call]) < Budget(calls)
  {
    if c == 0 {
      assert calls[c := call][1..] == calls[1..];
    } else {
      assert calls[c := call][1..] == calls[1..][c - 1 := call];
      BudgetUpdate(calls[1..], c - 1, call);
    }
  }

  lemma RankDrops(call: Call, k: Kind)
    requires CallOk(call) && At(call, k)
    ensures var call' := Local(call, k);
            CallerRank(call'.caller) + WorkerRank(call'.worker) < CallerRank(call.caller) + WorkerRank(call.worker)
  {
  }

  lemma {:induction false} BudgetOfRun(s: State, acts: seq<Action>)
    requires Inv(s)
    ensures Exec(Step, s, acts).Some? ==> |acts| + Budget(Exec(Step, s, acts).value.calls) <= Budget(s.calls)
    decreases |acts|
  {
    if acts == [] {
    } else if Enabled(s, acts[0]) {
      RankDrops(s.calls[acts[0].c], acts[0].kind);
      InvKept(s, acts[0]);
      BudgetUpdate(s.calls, acts[0].c, Local(s.calls[acts[0].c], acts[0].kind));
      BudgetOfRun(Apply(s, acts[0]), acts[1..]);
    }
  }

  lemma {:induction false} BudgetAtStart(calls: seq<Call>)
    requires forall c :: 0 <= c < |calls| ==> calls[c] == Call(AtLock, NotStarted, false)
    ensures Budget(calls) == 16 * |calls|
  {
    if calls == [] {
    } else {
      BudgetAtStart(calls[1..]);
    }
  }

  /** Every run is finite: no interleaving of n pushes takes more than 16 n steps. */
  lemma {:induction false} RunsAreBounded(pushes: seq<Push>, acts: seq<Action>)
    requires Consistent(pushes) && Exec(Step, Start(pushes), acts).Some?
    ensures |acts| <= 16 * |pushes|
  {
    InvOfRuns(pushes, []);
    BudgetOfRun(Start(pushes), acts);
    BudgetAtStart(Start(pushes).calls);
  }

  /** A run that cannot go on has answered every push: all callers returned, no worker left, no
      lock held, and the creation mutex free. */
  lemma StuckMeansDone(s: State)
    requires Consistent(s.pushes) && Reachable(s)
    requires forall a :: Allowed(a, false) ==> !Enabled(s, a)
    ensures forall c :: 0 <= c < |s.calls| ==> s.calls[c].caller.Returned? && !Running(s.calls[c].worker)
    ensures s.locks == map[] && s.creating == None
  {
    ReachableInv(s);
    forall c: nat | c < |s.calls| ensures s.calls[c].caller.Returned? && !Running(s.calls[c].worker) {
      if InFlight(s.calls[c]) {
        var a := InFlightCanMove(s, c);
        assert false;
      }
      assert !Enabled(s, Action(c, LockOk)) && !Enabled(s, Action(c, LockRefused));
    }
    assert forall c :: !HoldingAt(s, c);
  }
}
