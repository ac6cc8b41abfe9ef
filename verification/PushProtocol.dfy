/** Concurrent git pushes as a transition system.

    Every push is one call of the lock wrapper. It has a caller (the goroutine that answers the SSH
    channel) and a worker (the goroutine that runs the guarded body: reply, permission check, create
    the repository directory, serve git, remove the directory). Shared between all pushes are the
    lock table, the mutex around directory creation, and the directories below the git home. */
module PushProtocol {
  import opened Runs
  import opened RepoLock

  datatype GoError = Nil | Err(msg: string)

  /** What a call of the lock wrapper returns. */
  datatype Outcome = AlreadyLocked | TimedOut | Body(result: GoError)

  /** A directory, as its path components below the git home. */
  type Path = seq<string>

  /** One push: the name it locks and the directory it works in. */
  datatype Push = Push(repo: string, path: Path)

  /** Where the caller is. The deferred steps run last-in first-out: on a timeout the done channel is
      closed, then the lock is released, then the timer is stopped. */
  datatype Caller =
    | AtLock
    | AtSpawn
    | AtSelect
    | AtClose
    | AtUnlock(outcome: Outcome)
    | AtStop(outcome: Outcome)
    | Returned(outcome: Outcome)

  /** Where the worker is. `made` records whether this receive itself made the directory. */
  datatype Worker =
    | NotStarted
    | AtReply
    | AtCreateLock
    | AtStat
    | AtMkdir
    | AtInit
    | AtCreateUnlock(made: bool, result: GoError)
    | AtServe(made: bool)
    | AtRemove(made: bool, result: GoError)
    | AtSend(result: GoError)
    | Finished(result: GoError)

  datatype Call = Call(caller: Caller, worker: Worker, doneClosed: bool)

  datatype State = State(
    pushes: seq<Push>,
    calls: seq<Call>,
    locks: Table,
    creating: Option<nat>,
    dirs: set<Path>)

  datatype Kind =
    // caller
    | LockOk | LockRefused | Spawn | TimeOut | CloseDone | Unlock | StopTimer
    // worker
    | Permit | Deny(e: string)
    | TakeCreate | StatFound | StatAbsent | StatError(e: string)
    | MkdirOk | MkdirFail(upTo: nat, e: string) | InitOk | InitFail(e: string) | DropCreate
    | ServeEnd(r: GoError) | RemoveOk | RemoveFail
    // both at once, over the unbuffered result channel; or the worker alone, once doneCh is closed
    | Deliver | SeeDone

  datatype Action = Action(c: nat, kind: Kind)

  ghost predicate WellFormed(s: State)
  {
    && |s.calls| == |s.pushes|
    // the directory is a function of the name, and is below the git home
    && (forall c, d :: 0 <= c < |s.pushes| && 0 <= d < |s.pushes| && s.pushes[c].repo == s.pushes[d].repo
          ==> s.pushes[c].path == s.pushes[d].path)
    && (forall c :: 0 <= c < |s.pushes| ==> s.pushes[c].path != [])
  }

  function Start(pushes: seq<Push>): (s: State)
  {
    State(pushes, seq(|pushes|, _ => Call(AtLock, NotStarted, false)), map[], None, {})
  }

  // ---------------------------------------------------------------- one call on its own

  /** The program counters at which a kind of step can be taken. */
  predicate At(call: Call, k: Kind)
  {
    match k
    case LockOk | LockRefused => call.caller == AtLock
    case Spawn => call.caller == AtSpawn
    case TimeOut => call.caller == AtSelect
    case CloseDone => call.caller == AtClose
    case Unlock => call.caller.AtUnlock?
    case StopTimer => call.caller.AtStop?
    case Permit | Deny(_) => call.worker == AtReply
    case TakeCreate => call.worker == AtCreateLock
    case StatFound | StatAbsent | StatError(_) => call.worker == AtStat
    case MkdirOk | MkdirFail(_, _) => call.worker == AtMkdir
    case InitOk | InitFail(_) => call.worker == AtInit
    case DropCreate => call.worker.AtCreateUnlock?
    case ServeEnd(_) => call.worker.AtServe?
    case RemoveOk | RemoveFail => call.worker.AtRemove?
    case Deliver => call.caller == AtSelect && call.worker.AtSend?
    case SeeDone => call.worker.AtSend? && call.doneClosed
  }

  function Local(call: Call, k: Kind): (r: Call)
    requires At(call, k)
  {
    match k
    case LockOk => call.(caller := AtSpawn)
    case LockRefused => call.(caller := Returned(AlreadyLocked))
    case Spawn => call.(caller := AtSelect, worker := AtReply)
    case TimeOut => call.(caller := AtClose)
    case CloseDone => call.(caller := AtUnlock(TimedOut), doneClosed := true)
    case Unlock => call.(caller := AtStop(call.caller.outcome))
    case StopTimer => call.(caller := Returned(call.caller.outcome))
    case Permit => call.(worker := AtCreateLock)
    case Deny(e) => call.(worker := AtSend(Err(e)))
    case TakeCreate => call.(worker := AtStat)
    case StatFound => call.(worker := AtCreateUnlock(false, Nil))
    case StatAbsent => call.(worker := AtMkdir)
    case StatError(e) => call.(worker := AtCreateUnlock(false, Err(e)))
    case MkdirOk => call.(worker := AtInit)
    case MkdirFail(_, e) => call.(worker := AtCreateUnlock(false, Err(e)))
    case InitOk => call.(worker := AtCreateUnlock(true, Nil))
    case InitFail(e) => call.(worker := AtCreateUnlock(true, Err(e)))
    case DropCreate =>
      var w := call.worker;
      call.(worker := if w.result == Nil then AtServe(w.made) else AtRemove(w.made, w.result))
    case ServeEnd(r) => call.(worker := AtRemove(call.worker.made, r))
    case RemoveOk | RemoveFail => call.(worker := AtSend(call.worker.result))
    case Deliver => call.(caller := AtUnlock(Body(call.worker.result)), worker := Finished(call.worker.result))
    case SeeDone => call.(worker := Finished(call.worker.result))
  }

  // ---------------------------------------------------------------- the shared state

  /** The directories that making the first `k` components of `p` adds. */
  function Parents(p: Path, k: nat): set<Path>
    requires k <= |p|
  {
    set i | 1 <= i <= k :: p[..i]
  }

  function Without(dirs: set<Path>, p: Path): set<Path>
  {
    set d | d in dirs && !(p <= d)
  }

  predicate Enabled(s: State, a: Action)
  {
    && a.c < |s.calls| && a.c < |s.pushes|
    && At(s.calls[a.c], a.kind)
    && match a.kind
       case LockOk => s.pushes[a.c].repo !in s.locks
       case LockRefused => s.pushes[a.c].repo in s.locks
       case TakeCreate => s.creating == None
       case StatFound => s.pushes[a.c].path in s.dirs
       case StatAbsent => s.pushes[a.c].path !in s.dirs
       case MkdirFail(k, _) => k < |s.pushes[a.c].path|
       case _ => true
  }

  function Apply(s: State, a: Action): (t: State)
    requires Enabled(s, a)
  {
    var p := s.pushes[a.c];
    s.(calls := s.calls[a.c := Local(s.calls[a.c], a.kind)],
       locks := if a.kind == LockOk then Acquired(s.locks, p.repo)
                else if a.kind == Unlock then Released(s.locks, p.repo)
                else s.locks,
       creating := if a.kind == TakeCreate then Some(a.c)
                   else if a.kind == DropCreate then None
                   else s.creating,
       dirs := match a.kind
               case MkdirOk => s.dirs + Parents(p.path, |p.path|)
               case MkdirFail(k, _) => s.dirs + Parents(p.path, k)
               case RemoveOk => Without(s.dirs, p.path)
               case _ => s.dirs)
  }

  function Step(s: State, a: Action): (r: Option<State>)
  {
    if Enabled(s, a) then Some(Apply(s, a)) else None
  }

  /** `s` can be reached from the start by some interleaving. */
  ghost predicate Reachable(s: State)
  {
    exists acts :: Exec(Step, Start(s.pushes), acts) == Some(s)
  }

  // ---------------------------------------------------------------- vocabulary

  /** Between a successful Lock and the deferred Unlock. */
  predicate Holding(call: Call)
  {
    call.caller.AtSpawn? || call.caller.AtSelect? || call.caller.AtClose? || call.caller.AtUnlock?
  }

  /** The worker runs its body or waits to hand over the result. */
  predicate Running(w: Worker)
  {
    !w.NotStarted? && !w.Finished?
  }

  predicate InBody(w: Worker)
  {
    Running(w) && !w.AtSend?
  }

  predicate HasTimedOut(caller: Caller)
  {
    caller.AtClose? || ((caller.AtUnlock? || caller.AtStop? || caller.Returned?) && caller.outcome == TimedOut)
  }

  predicate InFlight(call: Call)
  {
    !(call.caller.AtLock? || call.caller.Returned?) || Running(call.worker)
  }

  predicate InCreate(w: Worker)
  {
    w.AtStat? || w.AtMkdir? || w.AtInit? || w.AtCreateUnlock?
  }
}
