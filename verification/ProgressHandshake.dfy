/** The progress printer and its owner: the owner polls, then sends on `quit`, then waits for `quit` to
    be closed; the printer prints at every tick until it receives from `quit`, which it then closes. */
module ProgressHandshake {
  import opened Runs

  datatype Owner = Polling | Sending | AwaitingClose | Done
  datatype Printer = Waiting | Printing | Closing | Gone

  datatype State = State(owner: Owner, printer: Printer, closes: nat, printed: nat)

  datatype Action = PollEnds | Tick | Print | Rendezvous | Close | SeeClosed

  const START: State := State(Polling, Waiting, 0, 0)

  /** A rendezvous needs both sides: the owner at its send and the printer at its select. Closing a
      closed channel would panic; the step is nevertheless always enabled, and counted. */
  function Step(s: State, a: Action): (r: Option<State>)
  {
    match a
    case PollEnds => if s.owner == Polling then Some(s.(owner := Sending)) else None
    case Tick => if s.printer == Waiting then Some(s.(printer := Printing)) else None
    case Print => if s.printer == Printing then Some(s.(printer := Waiting, printed := s.printed + 1)) else None
    case Rendezvous =>
      if s.owner == Sending && s.printer == Waiting && s.closes == 0
      then Some(s.(owner := AwaitingClose, printer := Closing)) else None
    case Close => if s.printer == Closing then Some(s.(printer := Gone, closes := s.closes + 1)) else None
    case SeeClosed => if s.owner == AwaitingClose && s.closes > 0 then Some(s.(owner := Done)) else None
  }

  ghost predicate Reachable(s: State)
  {
    exists acts :: Exec(Step, START, acts) == Some(s)
  }

  ghost predicate Inv(s: State)
  {
    && s.closes == (if s.printer == Gone then 1 else 0)
    && ((s.owner == AwaitingClose || s.owner == Done) <==> (s.printer == Closing || s.printer == Gone))
    && (s.owner == Done ==> s.printer == Gone)
  }

  lemma ReachableInv(s: State)
    requires Reachable(s)
    ensures Inv(s)
  {
    var acts :| Exec(Step, START, acts) == Some(s);
    assert Inv(START);
    InvariantOfRuns(Step, Inv, START, acts);
  }

  /** In every interleaving `quit` is closed at most once, and exactly once by the time the owner is
      done; then nothing can happen any more, so nothing is printed. */
  lemma ClosedOnceAndSilent(s: State)
    requires Reachable(s)
    ensures s.closes <= 1
    ensures s.owner == Done ==> s.closes == 1 && forall a :: Step(s, a) == None
  {
    ReachableInv(s);
  }

  /** What is left to do for a state from which the owner's wait can end. */
  function Remaining(s: State): (acts: seq<Action>)
  {
    (if s.owner == Polling then [PollEnds] else [])
    + (if s.printer == Printing then [Print] else [])
    + (if s.owner == Polling || s.owner == Sending then [Rendezvous] else [])
    + (if s.printer != Gone then [Close] else [])
    + (if s.owner != Done then [SeeClosed] else [])
  }

  lemma {:induction false} RemainingWorks(s: State)
    requires Inv(s)
    ensures Exec(Step, s, Remaining(s)).Some? && Exec(Step, s, Remaining(s)).value.owner == Done
    decreases |Remaining(s)|
  {
    var acts := Remaining(s);
    if acts == [] {
    } else {
      var t := Step(s, acts[0]).value;
      assert Remaining(t) == acts[1..];
      RemainingWorks(t);
    }
  }

  /** No deadlock in any interleaving: wherever it has led, at most five further steps end it, and
      until the owner is done some step other than a tick is possible. */
  lemma CanAlwaysFinish(s: State) returns (acts: seq<Action>)
    requires Reachable(s)
    ensures |acts| <= 5 && Exec(Step, s, acts).Some? && Exec(Step, s, acts).value.owner == Done
    ensures s.owner != Done ==> exists a :: a != Tick && Step(s, a).Some?
  {
    ReachableInv(s);
    acts := Remaining(s);
    RemainingWorks(s);
    if s.owner != Done {
      assert acts[0] != Tick && Step(s, acts[0]).Some?;
    }
  }

  /** How often the message was printed in a run. */
  function Prints(acts: seq<Action>): nat
  {
    if acts == [] then 0 else Prints(acts[..|acts| - 1]) + if acts[|acts| - 1] == Print then 1 else 0
  }

  lemma {:induction false} OneMore(acts: seq<Action>, s: State, a: Action, t: State)
    requires Exec(Step, START, acts) == Some(s) && Step(s, a) == Some(t)
    ensures Exec(Step, START, acts + [a]) == Some(t) && Prints(acts + [a]) == Prints(acts) + if a == Print then 1 else 0
  {
    ExecConcat(Step, START, acts, [a]);
    assert [a][1..] == [];
    assert (acts + [a])[..|acts|] == acts;
  }

  /** While the owner polls, the message can be printed any number of times. */
  lemma {:induction false} PrintsWhilePolling(n: nat) returns (acts: seq<Action>)
    ensures Exec(Step, START, acts) == Some(State(Polling, Waiting, 0, n)) && Prints(acts) == n
  {
    if n == 0 {
      acts := [];
    } else {
      acts := PrintsWhilePolling(n - 1);
      OneMore(acts, State(Polling, Waiting, 0, n - 1), Tick, State(Polling, Printing, 0, n - 1));
      acts := acts + [Tick];
      OneMore(acts, State(Polling, Printing, 0, n - 1), Print, State(Polling, Waiting, 0, n));
      acts := acts + [Print];
    }
  }
}
