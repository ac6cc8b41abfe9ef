/** What a push is told follows from what happened to it: the result of every call is determined by the
    one step of its run that decided it. */
module PushHistory {
  import opened Runs
  import opened PushProtocol
  import opened PushLocking

  /** The result of the body that a step decides: permission refused, directory not made, or the end of
      serving git. */
  function Verdict(k: Kind): Option<GoError>
  {
    match k
    case Deny(e) => Some(Err(e))
    case StatError(e) => Some(Err(e))
    case MkdirFail(_, e) => Some(Err(e))
    case InitFail(e) => Some(Err(e))
    case ServeEnd(r) => Some(r)
    case _ => None
  }

  /** The result a worker carries, once it is decided. */
  function Decided(w: Worker): Option<GoError>
  {
    match w
    case AtCreateUnlock(_, r) => if r == Nil then None else Some(r)
    case AtRemove(_, r) => Some(r)
    case AtSend(r) => Some(r)
    case Finished(r) => Some(r)
    case _ => None
  }

  lemma VerdictsAreKept(call: Call, k: Kind)
    requires CallOk(call) && At(call, k)
    ensures Verdict(k).Some? ==> Decided(call.worker) == None && Decided(Local(call, k).worker) == Verdict(k)
    ensures Verdict(k).None? ==> Decided(Local(call, k).worker) == Decided(call.worker)
    ensures HasTimedOut(Local(call, k).caller) <==> HasTimedOut(call.caller) || k == TimeOut
    ensures Local(call, k).caller == Returned(AlreadyLocked) <==> call.caller == Returned(AlreadyLocked) || k == LockRefused
  {
  }

  /** The verdicts on call `c` in `acts`, in order. */
  function Verdicts(acts: seq<Action>, c: nat): seq<GoError>
  {
    if acts == [] then []
    else
      (if acts[0].c == c && Verdict(acts[0].kind).Some? then [Verdict(acts[0].kind).value] else [])
      + Verdicts(acts[1..], c)
  }

  lemma {:induction false} HistoryOfRun(s: State, acts: seq<Action>, c: nat)
    requires Inv(s) && c < |s.calls| && Exec(Step, s, acts).Some?
    ensures var t := Exec(Step, s, acts).value;
            && c < |t.calls|
            && (if Decided(s.calls[c].worker).Some?
                then Verdicts(acts, c) == [] && Decided(t.calls[c].worker) == Decided(s.calls[c].worker)
                else Verdicts(acts, c) == match Decided(t.calls[c].worker) { case None => [] case Some(r) => [r] })
            && (HasTimedOut(t.calls[c].caller) <==> HasTimedOut(s.calls[c].caller) || Action(c, TimeOut) in acts)
            && (t.calls[c].caller == Returned(AlreadyLocked)
                <==> s.calls[c].caller == Returned(AlreadyLocked) || Action(c, LockRefused) in acts)
    decreases |acts|
  {
    if acts == [] {
    } else {
      var a, s' := acts[0], Apply(s, acts[0]);
      InvKept(s, a);
      assert CallOk(s.calls[a.c]);
      VerdictsAreKept(s.calls[a.c], a.kind);
      HistoryOfRun(s', acts[1..], c);
      assert acts == [a] + acts[1..];
    }
  }

  lemma {:induction false} CallsStay(s: State, acts: seq<Action>)
    requires Exec(Step, s, acts).Some?
    ensures |Exec(Step, s, acts).value.calls| == |s.calls|
    decreases |acts|
  {
    if acts == [] {
    } else {
      CallsStay(Apply(s, acts[0]), acts[1..]);
    }
  }

  /** The outcome of every call, from its run: refused exactly if its Lock was, timed out exactly if its
      timer fired, and otherwise the verdict of the one step of its body that decided it. */
  lemma {:induction false} OutcomeIsExplained(pushes: seq<Push>, acts: seq<Action>, s: State, c: nat)
    requires Consistent(pushes) && Exec(Step, Start(pushes), acts) == Some(s)
    requires c < |s.calls| && s.calls[c].caller.Returned?
    ensures match s.calls[c].caller.outcome
            case AlreadyLocked =>
              Action(c, LockRefused) in acts && Verdicts(acts, c) == [] && Action(c, TimeOut) !in acts
            case TimedOut => Action(c, TimeOut) in acts && Action(c, LockRefused) !in acts
            case Body(r) => Verdicts(acts, c) == [r] && Action(c, TimeOut) !in acts && Action(c, LockRefused) !in acts
  {
    InvOfRuns(pushes, []);
    InvOfRuns(pushes, acts);
    CallsStay(Start(pushes), acts);
    HistoryOfRun(Start(pushes), acts, c);
    assert CallOk(s.calls[c]);
  }

  /** The body ended well exactly if serving git did. */
  lemma {:induction false} NilMeansServed(acts: seq<Action>, c: nat)
    ensures Nil in Verdicts(acts, c) <==> Action(c, ServeEnd(Nil)) in acts
  {
    if acts == [] {
    } else {
      NilMeansServed(acts[1..], c);
      assert acts == [acts[0]] + acts[1..];
    }
  }

  /** The steps of a body with which it replies to its request. */
  ghost predicate Replied(acts: seq<Action>, c: nat)
  {
    exists i :: 0 <= i < |acts| && acts[i].c == c && (acts[i].kind.Permit? || acts[i].kind.Deny?)
  }

  predicate PastReply(w: Worker)
  {
    !w.NotStarted? && !w.AtReply?
  }

  lemma RepliedFirst(a: Action, rest: seq<Action>, c: nat)
    ensures Replied([a] + rest, c) <==> (a.c == c && (a.kind.Permit? || a.kind.Deny?)) || Replied(rest, c)
  {
    var acts := [a] + rest;
    assert acts[0] == a && forall i :: 0 <= i < |rest| ==> rest[i] == acts[i + 1];
    assert forall i :: 0 < i < |acts| ==> acts[i] == rest[i - 1];
  }

  lemma {:induction false} RepliedIsPastReply(s: State, acts: seq<Action>, c: nat)
    requires Inv(s) && c < |s.calls| && Exec(Step, s, acts).Some?
    ensures var t := Exec(Step, s, acts).value;
            c < |t.calls| && (PastReply(t.calls[c].worker) <==> PastReply(s.calls[c].worker) || Replied(acts, c))
    decreases |acts|
  {
    if acts == [] {
    } else {
      var a, rest := acts[0], acts[1..];
      InvKept(s, a);
      assert CallOk(s.calls[a.c]);
      RepliedIsPastReply(Apply(s, a), rest, c);
      RepliedFirst(a, rest, c);
      assert acts == [a] + rest;
    }
  }

  /** A call that has returned and whose worker does not run takes no further step. */
  lemma {:induction false} NothingMore(s: State, acts: seq<Action>, c: nat)
    requires c < |s.calls| && s.calls[c].caller.Returned? && !Running(s.calls[c].worker) && Exec(Step, s, acts).Some?
    ensures forall i :: 0 <= i < |acts| ==> acts[i].c != c
    decreases |acts|
  {
    if acts == [] {
    } else {
      assert Enabled(s, acts[0]) && acts[0].c != c;
      NothingMore(Apply(s, acts[0]), acts[1..], c);
      assert acts == [acts[0]] + acts[1..];
    }
  }

  // ---------------------------------------------------------------- permission comes first

  /** The steps of a receive, all of them after the permission check. */
  predicate OfReceive(k: Kind)
  {
    k.TakeCreate? || k.StatFound? || k.StatAbsent? || k.StatError? || k.MkdirOk? || k.MkdirFail? || k.InitOk?
    || k.InitFail? || k.DropCreate? || k.ServeEnd? || k.RemoveOk? || k.RemoveFail?
  }

  predicate InReceive(w: Worker)
  {
    !(w.NotStarted? || w.AtReply? || w.AtSend? || w.Finished?)
  }

  lemma {:induction false} ReceiveFollowsPermit(s: State, acts: seq<Action>, c: nat)
    requires c < |s.calls| && Exec(Step, s, acts).Some?
    ensures var t := Exec(Step, s, acts).value;
            c < |t.calls| && (InReceive(t.calls[c].worker) ==> InReceive(s.calls[c].worker) || Action(c, Permit) in acts)
    decreases |acts|
  {
    if acts == [] {
    } else {
      ReceiveFollowsPermit(Apply(s, acts[0]), acts[1..], c);
      assert acts == [acts[0]] + acts[1..];
    }
  }

  /** No directory is looked for, made, served or removed for a push before its permission check
      passed; so a denied push never touches one. */
  lemma {:induction false} NoReceiveWithoutPermission(pushes: seq<Push>, acts: seq<Action>, i: nat)
    requires Exec(Step, Start(pushes), acts).Some? && i < |acts| && OfReceive(acts[i].kind)
    ensures Action(acts[i].c, Permit) in acts[..i]
  {
    ExecConcat(Step, Start(pushes), acts[..i], acts[i..]);
    assert acts == acts[..i] + acts[i..];
    var s := Exec(Step, Start(pushes), acts[..i]).value;
    assert Enabled(s, acts[i]);
    CallsStay(Start(pushes), acts[..i]);
    ReceiveFollowsPermit(Start(pushes), acts[..i], acts[i].c);
  }
}
