/** The repository directories over whole runs of concurrent pushes: when every receive works in a
    directory of its own, freshly made, and nothing is left behind. */
module PushDirectories {
  import opened Runs
  import opened PushProtocol
  import opened PushLocking

  /** The worker has made its directory and has not yet removed it. */
  predicate Owns(w: Worker)
  {
    w.AtInit? || ((w.AtCreateUnlock? || w.AtServe? || w.AtRemove?) && w.made)
  }

  /** What a push may rely on: the directory is absent when a receive looks for it, is there from its
      making to the receive's own deferred removal, every receive that serves git made its directory
      itself, and no directory remains once no push is in flight. */
  ghost predicate Tidy(s: State)
    requires |s.calls| == |s.pushes|
  {
    && (forall c :: 0 <= c < |s.calls| && s.calls[c].worker.AtStat? ==> s.pushes[c].path !in s.dirs)
    && (forall c :: 0 <= c < |s.calls| && Owns(s.calls[c].worker) ==> s.pushes[c].path in s.dirs)
    && (forall c :: 0 <= c < |s.calls| && s.calls[c].worker.AtServe? ==> s.calls[c].worker.made)
    && ((forall c :: 0 <= c < |s.calls| ==> !InFlight(s.calls[c])) ==> s.dirs == {})
  }

  /** Every directory is directly below the git home, and different names have different ones. */
  ghost predicate Separate(pushes: seq<Push>)
  {
    && (forall c :: 0 <= c < |pushes| ==> |pushes[c].path| == 1)
    && (forall c, d :: 0 <= c < |pushes| && 0 <= d < |pushes| && pushes[c].path == pushes[d].path
          ==> pushes[c].repo == pushes[d].repo)
  }

  /** No two pushes work in the same directory. */
  ghost predicate Alone(pushes: seq<Push>)
  {
    && (forall c :: 0 <= c < |pushes| ==> |pushes[c].path| == 1)
    && (forall c, d :: 0 <= c < |pushes| && 0 <= d < |pushes| && c != d ==> pushes[c].path != pushes[d].path)
  }

  ghost predicate AllAllowed(acts: seq<Action>, timeouts: bool)
  {
    forall i :: 0 <= i < |acts| ==> Allowed(acts[i], timeouts)
  }

  // ---------------------------------------------------------------- separate names are tidy

  ghost predicate OwnsAt(s: State, c: int)
  {
    0 <= c < |s.calls| && Owns(s.calls[c].worker)
  }

  ghost predicate DirsMatchOwners(s: State)
    requires |s.calls| == |s.pushes|
  {
    && (forall c :: OwnsAt(s, c) ==> s.pushes[c].path in s.dirs)
    && (forall d :: d in s.dirs ==> exists c :: OwnsAt(s, c) && s.pushes[c].path == d)
  }

  ghost predicate ServesOwnDir(call: Call)
  {
    && (call.worker.AtServe? ==> call.worker.made)
    && (call.worker.AtCreateUnlock? && call.worker.result == Nil ==> call.worker.made)
  }

  ghost predicate DirInv(s: State, timeouts: bool)
  {
    && Inv(s) && Separate(s.pushes)
    && (if timeouts then Alone(s.pushes)
        else forall c :: 0 <= c < |s.calls| ==> !HasTimedOut(s.calls[c].caller))
    && (forall c :: 0 <= c < |s.calls| ==> ServesOwnDir(s.calls[c]))
    && DirsMatchOwners(s)
  }

  /** Two running receives never share a directory. */
  lemma RunningApart(s: State, c: nat, d: nat, timeouts: bool)
    requires DirInv(s, timeouts) && c < |s.calls| && d < |s.calls|
    requires Running(s.calls[c].worker) && Running(s.calls[d].worker) && s.pushes[c].path == s.pushes[d].path
    ensures c == d
  {
  }

  lemma AbsentUnlessOwned(s: State, c: nat, timeouts: bool)
    requires DirInv(s, timeouts) && c < |s.calls| && Running(s.calls[c].worker) && !Owns(s.calls[c].worker)
    ensures s.pushes[c].path !in s.dirs
  {
    if s.pushes[c].path in s.dirs {
      var d :| OwnsAt(s, d) && s.pushes[d].path == s.pushes[c].path;
      RunningApart(s, c, d, timeouts);
    }
  }

  lemma OwnsChange(call: Call, k: Kind)
    requires CallOk(call) && At(call, k) && k != RemoveFail
    ensures Owns(Local(call, k).worker) == ((Owns(call.worker) && k != RemoveOk) || k == MkdirOk)
    ensures HasTimedOut(Local(call, k).caller) ==> HasTimedOut(call.caller) || k == TimeOut
    ensures ServesOwnDir(call) && k != StatFound ==> ServesOwnDir(Local(call, k))
  {
  }

  lemma DirsFrame(s: State, t: State, c: nat, call: Call)
    requires |s.calls| == |s.pushes| && DirsMatchOwners(s) && c < |s.calls|
    requires Owns(call.worker) == Owns(s.calls[c].worker)
    requires t.pushes == s.pushes && t.dirs == s.dirs && t.calls == s.calls[c := call]
    ensures DirsMatchOwners(t)
  {
  }

  lemma DirsAfterMkdir(s: State, t: State, c: nat, call: Call)
    requires |s.calls| == |s.pushes| && DirsMatchOwners(s) && c < |s.calls|
    requires Owns(call.worker)
    requires t.pushes == s.pushes && t.dirs == s.dirs + {s.pushes[c].path} && t.calls == s.calls[c := call]
    ensures DirsMatchOwners(t)
  {
  }

  lemma DirsAfterRemove(s: State, t: State, c: nat, call: Call, timeouts: bool)
    requires DirInv(s, timeouts) && c < |s.calls|
    requires Running(s.calls[c].worker) && !Owns(call.worker)
    requires t.pushes == s.pushes && t.dirs == s.dirs - {s.pushes[c].path} && t.calls == s.calls[c := call]
    ensures DirsMatchOwners(t)
  {
    assert forall d :: OwnsAt(t, d) <==> OwnsAt(s, d) && d != c;
    forall d | OwnsAt(t, d) ensures t.pushes[d].path in t.dirs {
      if t.pushes[d].path == s.pushes[c].path {
        RunningApart(s, c, d, timeouts);
      }
    }
  }

  lemma SingleComponent(s: State, c: nat, timeouts: bool)
    requires DirInv(s, timeouts) && c < |s.pushes|
    ensures var p := s.pushes[c].path;
            Parents(p, 0) == {} && Parents(p, 1) == {p} && Without(s.dirs, p) == s.dirs - {p}
  {
    var p := s.pushes[c].path;
    assert p[..1] == p;
    assert forall d :: d in s.dirs ==> |d| == 1;
    assert forall d :: d in s.dirs && p <= d ==> d == p;
  }

  lemma DirInvKept(s: State, a: Action, timeouts: bool)
    requires DirInv(s, timeouts) && Enabled(s, a) && Allowed(a, timeouts)
    ensures DirInv(Apply(s, a), timeouts)
  {
    var t, call := Apply(s, a), Local(s.calls[a.c], a.kind);
    InvKept(s, a);
    assert CallOk(s.calls[a.c]) && ServesOwnDir(s.calls[a.c]);
    OwnsChange(s.calls[a.c], a.kind);
    SingleComponent(s, a.c, timeouts);
    if a.kind == StatFound {
      AbsentUnlessOwned(s, a.c, timeouts);
    } else if a.kind == MkdirOk {
      DirsAfterMkdir(s, t, a.c, call);
    } else if a.kind == RemoveOk {
      DirsAfterRemove(s, t, a.c, call, timeouts);
    } else {
      assert t.dirs == s.dirs + {};
      DirsFrame(s, t, a.c, call);
    }
  }

  lemma {:induction false} DirInvOfRuns(s: State, acts: seq<Action>, timeouts: bool)
    requires DirInv(s, timeouts) && AllAllowed(acts, timeouts)
    ensures Exec(Step, s, acts).Some? ==> DirInv(Exec(Step, s, acts).value, timeouts)
    decreases |acts|
  {
    if acts == [] {
    } else if Enabled(s, acts[0]) {
      DirInvKept(s, acts[0], timeouts);
      DirInvOfRuns(Apply(s, acts[0]), acts[1..], timeouts);
    }
  }

  lemma DirInvIsTidy(s: State, timeouts: bool)
    requires DirInv(s, timeouts)
    ensures Tidy(s)
  {
    forall c | 0 <= c < |s.calls| && s.calls[c].worker.AtStat? ensures s.pushes[c].path !in s.dirs {
      AbsentUnlessOwned(s, c, timeouts);
    }
    assert forall c :: OwnsAt(s, c) ==> InFlight(s.calls[c]);
    assert forall c :: 0 <= c < |s.calls| && Owns(s.calls[c].worker) ==> OwnsAt(s, c);
    assert forall c :: 0 <= c < |s.calls| ==> ServesOwnDir(s.calls[c]);
  }

  ghost predicate AlwaysTidy(pushes: seq<Push>, timeouts: bool)
  {
    forall acts :: AllAllowed(acts, timeouts) && Exec(Step, Start(pushes), acts).Some? ==>
      var s := Exec(Step, Start(pushes), acts).value;
      |s.calls| == |s.pushes| && Tidy(s)
  }

  lemma SeparateIsTidy(pushes: seq<Push>, timeouts: bool)
    requires Consistent(pushes) && if timeouts then Alone(pushes) else Separate(pushes)
    ensures AlwaysTidy(pushes, timeouts)
  {
    forall acts | AllAllowed(acts, timeouts) && Exec(Step, Start(pushes), acts).Some?
      ensures var s := Exec(Step, Start(pushes), acts).value; |s.calls| == |s.pushes| && Tidy(s)
    {
      InvOfRuns(pushes, []);
      DirInvOfRuns(Start(pushes), acts, timeouts);
      DirInvIsTidy(Exec(Step, Start(pushes), acts).value, timeouts);
    }
  }

  // ---------------------------------------------------------------- and only they are

  /** An allowed run leads from `s` to `t`. */
  ghost predicate Leads(s: State, t: State, timeouts: bool)
  {
    exists acts :: AllAllowed(acts, timeouts) && Exec(Step, s, acts) == Some(t)
  }

  lemma LeadsNowhere(s: State, timeouts: bool)
    ensures Leads(s, s, timeouts)
  {
    assert AllAllowed([], timeouts) && Exec(Step, s, []) == Some(s);
  }

  lemma LeadsOn(s: State, t: State, a: Action, timeouts: bool)
    requires Leads(s, t, timeouts) && Enabled(t, a) && Allowed(a, timeouts)
    ensures Leads(s, Apply(t, a), timeouts)
  {
    var acts :| AllAllowed(acts, timeouts) && Exec(Step, s, acts) == Some(t);
    ExecConcat(Step, s, acts, [a]);
    assert [a][1..] == [];
    assert Exec(Step, t, [a]) == Some(Apply(t, a));
    assert AllAllowed(acts + [a], timeouts);
  }

  /** The state in which call `c` of `s` is at the given program counters. */
  function Put(s: State, c: nat, caller: Caller, worker: Worker): (t: State)
    requires c < |s.calls|
  {
    s.(calls := s.calls[c := Call(caller, worker, false)])
  }

  lemma SoloReplies(s0: State, s: State, t1: State, c: nat, timeouts: bool) returns (t: State)
    requires |s.calls| == |s.pushes| && c < |s.calls| && s.creating == None
    requires t1 == Put(s, c, AtSelect, AtReply).(locks := t1.locks) && Leads(s0, t1, timeouts)
    ensures t == Put(s, c, AtSelect, AtStat).(locks := t1.locks, creating := Some(c))
    ensures Leads(s0, t, timeouts)
  {
    var t2 := Put(s, c, AtSelect, AtCreateLock).(locks := t1.locks);
    LeadsOn(s0, t1, Action(c, Permit), timeouts);
    assert t2 == Apply(t1, Action(c, Permit));
    t := Put(s, c, AtSelect, AtStat).(locks := t1.locks, creating := Some(c));
    LeadsOn(s0, t2, Action(c, TakeCreate), timeouts);
    assert t == Apply(t2, Action(c, TakeCreate));
  }

  lemma SoloSpawned(s0: State, s: State, t0: State, c: nat, timeouts: bool) returns (t: State)
    requires |s.calls| == |s.pushes| && c < |s.calls| && s.creating == None
    requires t0 == Put(s, c, AtSpawn, NotStarted).(locks := t0.locks) && Leads(s0, t0, timeouts)
    ensures t == Put(s, c, AtSelect, AtStat).(locks := t0.locks, creating := Some(c))
    ensures Leads(s0, t, timeouts)
  {
    var t1 := Put(s, c, AtSelect, AtReply).(locks := t0.locks);
    LeadsOn(s0, t0, Action(c, Spawn), timeouts);
    assert t1 == Apply(t0, Action(c, Spawn));
    t := SoloReplies(s0, s, t1, c, timeouts);
  }

  /** One push that gets the lock and the creation mutex, until it looks for its directory. */
  lemma SoloToStat(s0: State, s: State, c: nat, timeouts: bool) returns (t: State)
    requires Leads(s0, s, timeouts) && |s.calls| == |s.pushes| && c < |s.calls|
    requires s.calls[c] == Call(AtLock, NotStarted, false) && s.pushes[c].repo !in s.locks && s.creating == None
    ensures t == Put(s, c, AtSelect, AtStat).(locks := s.locks[s.pushes[c].repo := true], creating := Some(c))
    ensures Leads(s0, t, timeouts)
  {
    LeadsOn(s0, s, Action(c, LockOk), timeouts);
    t := Put(s, c, AtSpawn, NotStarted).(locks := s.locks[s.pushes[c].repo := true]);
    assert t == Apply(s, Action(c, LockOk));
    t := SoloSpawned(s0, s, t, c, timeouts);
  }

  lemma InitToServe(s0: State, s: State, t2: State, c: nat, timeouts: bool) returns (t: State)
    requires Leads(s0, t2, timeouts) && |s.calls| == |s.pushes| && c < |s.calls|
    requires t2 == Put(s, c, AtSelect, AtInit).(dirs := t2.dirs)
    ensures t == Put(s, c, AtSelect, AtServe(true)).(creating := None, dirs := t2.dirs)
    ensures Leads(s0, t, timeouts)
  {
    var t3 := Put(s, c, AtSelect, AtCreateUnlock(true, Nil)).(dirs := t2.dirs);
    LeadsOn(s0, t2, Action(c, InitOk), timeouts);
    assert t3 == Apply(t2, Action(c, InitOk));
    t := Put(s, c, AtSelect, AtServe(true)).(creating := None, dirs := t2.dirs);
    LeadsOn(s0, t3, Action(c, DropCreate), timeouts);
    assert t == Apply(t3, Action(c, DropCreate));
  }

  lemma StatToInit(s0: State, s: State, c: nat, timeouts: bool) returns (t: State)
    requires Leads(s0, s, timeouts) && |s.calls| == |s.pushes| && c < |s.calls|
    requires s.calls[c] == Call(AtSelect, AtStat, false) && s.pushes[c].path !in s.dirs
    ensures t == Put(s, c, AtSelect, AtInit).(dirs := s.dirs + Parents(s.pushes[c].path, |s.pushes[c].path|))
    ensures Leads(s0, t, timeouts)
  {
    var t1 := Put(s, c, AtSelect, AtMkdir);
    LeadsOn(s0, s, Action(c, StatAbsent), timeouts);
    assert t1 == Apply(s, Action(c, StatAbsent));
    t := Put(s, c, AtSelect, AtInit).(dirs := s.dirs + Parents(s.pushes[c].path, |s.pushes[c].path|));
    LeadsOn(s0, t1, Action(c, MkdirOk), timeouts);
    assert t == Apply(t1, Action(c, MkdirOk));
  }

  lemma StatToServe(s0: State, s: State, c: nat, timeouts: bool) returns (t: State)
    requires Leads(s0, s, timeouts) && |s.calls| == |s.pushes| && c < |s.calls|
    requires s.calls[c] == Call(AtSelect, AtStat, false) && s.pushes[c].path !in s.dirs
    ensures t == Put(s, c, AtSelect, AtServe(true)).(creating := None,
                     dirs := s.dirs + Parents(s.pushes[c].path, |s.pushes[c].path|))
    ensures Leads(s0, t, timeouts)
  {
    var t1 := StatToInit(s0, s, c, timeouts);
    t := InitToServe(s0, s, t1, c, timeouts);
  }

  lemma ReturnAlone(s0: State, s: State, t3: State, c: nat, r: GoError, timeouts: bool) returns (t: State)
    requires Leads(s0, t3, timeouts) && |s.calls| == |s.pushes| && c < |s.calls|
    requires t3 == Put(s, c, AtUnlock(Body(r)), Finished(r)).(dirs := t3.dirs)
    ensures t == Put(s, c, Returned(Body(r)), Finished(r)).(dirs := t3.dirs, locks := t.locks)
    ensures Leads(s0, t, timeouts)
  {
    var locks := RepoLock.Released(t3.locks, s.pushes[c].repo);
    var t4 := Put(s, c, AtStop(Body(r)), Finished(r)).(dirs := t3.dirs, locks := locks);
    LeadsOn(s0, t3, Action(c, Unlock), timeouts);
    assert t4 == Apply(t3, Action(c, Unlock));
    t := Put(s, c, Returned(Body(r)), Finished(r)).(dirs := t3.dirs, locks := locks);
    LeadsOn(s0, t4, Action(c, StopTimer), timeouts);
    assert t == Apply(t4, Action(c, StopTimer));
  }

  lemma ServeToEnd(s0: State, s: State, c: nat, timeouts: bool) returns (t: State)
    requires Leads(s0, s, timeouts) && |s.calls| == |s.pushes| && c < |s.calls|
    requires s.calls[c] == Call(AtSelect, AtServe(true), false)
    ensures t == Put(s, c, Returned(Body(Nil)), Finished(Nil)).(dirs := Without(s.dirs, s.pushes[c].path), locks := t.locks)
    ensures Leads(s0, t, timeouts)
  {
    var left := Without(s.dirs, s.pushes[c].path);
    var t1 := Put(s, c, AtSelect, AtRemove(true, Nil));
    LeadsOn(s0, s, Action(c, ServeEnd(Nil)), timeouts);
    assert t1 == Apply(s, Action(c, ServeEnd(Nil)));
    var t2 := Put(s, c, AtSelect, AtSend(Nil)).(dirs := left);
    LeadsOn(s0, t1, Action(c, RemoveOk), timeouts);
    assert t2 == Apply(t1, Action(c, RemoveOk));
    var t3 := Put(s, c, AtUnlock(Body(Nil)), Finished(Nil)).(dirs := left);
    LeadsOn(s0, t2, Action(c, Deliver), timeouts);
    assert t3 == Apply(t2, Action(c, Deliver));
    t := ReturnAlone(s0, s, t3, c, Nil, timeouts);
  }

  /** One push from the start until it serves git. */
  lemma ServingAlone(pushes: seq<Push>, c: nat, timeouts: bool) returns (t: State)
    requires c < |pushes|
    ensures Leads(Start(pushes), t, timeouts)
    ensures t == Put(Start(pushes), c, AtSelect, AtServe(true)).(
                   locks := map[pushes[c].repo := true],
                   dirs := {} + Parents(pushes[c].path, |pushes[c].path|))
  {
    LeadsNowhere(Start(pushes), timeouts);
    var s := SoloToStat(Start(pushes), Start(pushes), c, timeouts);
    t := StatToServe(Start(pushes), s, c, timeouts);
  }

  /** A name with several path components leaves its parent directories behind: a run leads to a state
      in which nothing is in flight and the first component is there. */
  lemma NestedLeavesParents(pushes: seq<Push>, c: nat, timeouts: bool) returns (t: State)
    requires c < |pushes| && |pushes[c].path| > 1
    ensures Leads(Start(pushes), t, timeouts) && pushes[c].path[..1] in t.dirs
    ensures forall d :: 0 <= d < |t.calls| ==> !InFlight(t.calls[d])
    ensures !AlwaysTidy(pushes, timeouts)
  {
    var s := ServingAlone(pushes, c, timeouts);
    t := ServeToEnd(Start(pushes), s, c, timeouts);
    var p := pushes[c].path;
    assert p[..1] in Parents(p, |p|) && !(p <= p[..1]);
    assert p[..1] in t.dirs;
    assert forall d :: 0 <= d < |t.calls| ==> !InFlight(t.calls[d]);
    assert !Tidy(t);
  }

  /** Receive `d` is about to look for a directory in which receive `c` is serving git. */
  ghost predicate FindsInUse(t: State, c: nat, d: nat)
  {
    && c < |t.calls| && d < |t.calls| && d < |t.pushes|
    && t.calls[c].worker.AtServe? && t.calls[d].worker.AtStat? && t.pushes[d].path in t.dirs
  }

  /** Two names with one directory: the second receive finds it in use. */
  lemma SharedIsNotFresh(pushes: seq<Push>, c: nat, d: nat, timeouts: bool) returns (t: State)
    requires c < |pushes| && d < |pushes|
    requires pushes[c].path == pushes[d].path != [] && pushes[c].repo != pushes[d].repo
    ensures Leads(Start(pushes), t, timeouts) && t.pushes == pushes && FindsInUse(t, c, d)
    ensures !AlwaysTidy(pushes, timeouts)
  {
    var s := ServingAlone(pushes, c, timeouts);
    t := SoloToStat(Start(pushes), s, d, timeouts);
    var p := pushes[d].path;
    assert p[..|p|] == p && p in Parents(p, |p|);
    assert t.calls[d].worker.AtStat? && p in t.dirs;
    assert !Tidy(t);
  }

  /** A call that waits for its body times out, and gives up the lock. */
  lemma TimeOutAlone(s0: State, s: State, c: nat) returns (t: State)
    requires Leads(s0, s, true) && |s.calls| == |s.pushes| && c < |s.calls| && s.calls[c].caller == AtSelect
    ensures t == s.(calls := s.calls[c := Call(AtStop(TimedOut), s.calls[c].worker, true)],
                    locks := RepoLock.Released(s.locks, s.pushes[c].repo))
    ensures Leads(s0, t, true)
  {
    var s1 := Apply(s, Action(c, TimeOut));
    LeadsOn(s0, s, Action(c, TimeOut), true);
    var s2 := Apply(s1, Action(c, CloseDone));
    LeadsOn(s0, s1, Action(c, CloseDone), true);
    t := Apply(s2, Action(c, Unlock));
    LeadsOn(s0, s2, Action(c, Unlock), true);
  }

  /** Two pushes of one name: when the first times out, the second gets the lock and finds the
      directory that the first, still running, works in. */
  lemma TimeoutIsNotFresh(pushes: seq<Push>, c: nat, d: nat) returns (t: State)
    requires c < |pushes| && d < |pushes| && c != d
    requires pushes[c] == pushes[d] && pushes[c].path != []
    ensures Leads(Start(pushes), t, true) && t.pushes == pushes && FindsInUse(t, c, d)
    ensures !AlwaysTidy(pushes, true)
  {
    var s := ServingAlone(pushes, c, true);
    var s3 := TimeOutAlone(Start(pushes), s, c);
    t := SoloToStat(Start(pushes), s3, d, true);
    var p := pushes[d].path;
    assert p[..|p|] == p && p in Parents(p, |p|);
    assert t.calls[d].worker.AtStat? && p in t.dirs;
    assert !Tidy(t);
  }

  lemma NotSeparateNotTidy(pushes: seq<Push>, timeouts: bool)
    requires Consistent(pushes) && !Separate(pushes)
    ensures !AlwaysTidy(pushes, timeouts)
  {
    if c :| 0 <= c < |pushes| && |pushes[c].path| != 1 {
      assert Start(pushes).pushes[c].path != [];
      var _ := NestedLeavesParents(pushes, c, timeouts);
    } else {
      var c, d :| 0 <= c < |pushes| && 0 <= d < |pushes| && pushes[c].path == pushes[d].path
                  && pushes[c].repo != pushes[d].repo;
      assert Start(pushes).pushes[c].path != [];
      var _ := SharedIsNotFresh(pushes, c, d, timeouts);
    }
  }

  /** As long as no lock times out, concurrent pushes are tidy for exactly those names whose
      directories are separate. */
  lemma TidyExactlyWhenSeparate(pushes: seq<Push>)
    requires Consistent(pushes)
    ensures AlwaysTidy(pushes, false) <==> Separate(pushes)
  {
    if Separate(pushes) {
      SeparateIsTidy(pushes, false);
    } else {
      NotSeparateNotTidy(pushes, false);
    }
  }

  /** When locks may time out, they are tidy for exactly those pushes of which no two share a
      directory: two pushes to one repository are then no longer kept apart. */
  lemma TidyDespiteTimeoutsExactlyWhenAlone(pushes: seq<Push>)
    requires Consistent(pushes)
    ensures AlwaysTidy(pushes, true) <==> Alone(pushes)
  {
    if Alone(pushes) {
      SeparateIsTidy(pushes, true);
    } else if !Separate(pushes) {
      NotSeparateNotTidy(pushes, true);
    } else {
      var c, d :| 0 <= c < |pushes| && 0 <= d < |pushes| && c != d && pushes[c].path == pushes[d].path;
      assert Start(pushes).pushes[c].path != [];
      var _ := TimeoutIsNotFresh(pushes, c, d);
    }
  }

  lemma {:induction false} PushesStay(s: State, acts: seq<Action>)
    requires Exec(Step, s, acts).Some?
    ensures Exec(Step, s, acts).value.pushes == s.pushes
    decreases |acts|
  {
    if acts == [] {
    } else {
      PushesStay(Apply(s, acts[0]), acts[1..]);
    }
  }

  /** A run without timeouts and failing removals that cannot go on has told every push that it was
      refused or what its body returned, and has left no lock and no directory. */
  lemma {:induction false} CompletedRunsLeaveNothing(pushes: seq<Push>, acts: seq<Action>, s: State)
    requires Consistent(pushes) && Separate(pushes) && AllAllowed(acts, false)
    requires Exec(Step, Start(pushes), acts) == Some(s) && forall a :: Allowed(a, false) ==> !Enabled(s, a)
    ensures s.dirs == {} && s.locks == map[]
    ensures forall c :: 0 <= c < |s.calls| ==> s.calls[c].caller.Returned? && s.calls[c].caller.outcome != TimedOut
  {
    InvOfRuns(pushes, []);
    DirInvOfRuns(Start(pushes), acts, false);
    DirInvIsTidy(s, false);
    PushesStay(Start(pushes), acts);
    assert Reachable(s);
    StuckMeansDone(s);
    assert forall c :: 0 <= c < |s.calls| ==> !HasTimedOut(s.calls[c].caller);
  }
}
