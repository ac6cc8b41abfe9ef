/** Finite runs of a labelled transition system. A system is given by its step function:
    `step(s, a)` is the state after action `a` in state `s`, or `None` when `a` is not enabled. */
module Runs {

  datatype Option<+T> = None | Some(value: T)

  /** The state after performing `acts` in order, or `None` if one of them is not enabled. */
  function Exec<S, A>(step: (S, A) -> Option<S>, s: S, acts: seq<A>): (r: Option<S>)
    decreases |acts|
  {
    if acts == [] then Some(s)
    else
      match step(s, acts[0])
      case None => None
      case Some(t) => Exec(step, t, acts[1..])
  }

  /** Runs compose. */
  lemma {:induction false} ExecConcat<S, A>(step: (S, A) -> Option<S>, s: S, xs: seq<A>, ys: seq<A>)
    ensures Exec(step, s, xs + ys) ==
            match Exec(step, s, xs) { case None => None case Some(t) => Exec(step, t, ys) }
    decreases |xs|
  {
    if xs == [] {
      assert xs + ys == ys;
    } else {
      assert (xs + ys)[1..] == xs[1..] + ys;
      match step(s, xs[0]) {
        case None =>
        case Some(t) => ExecConcat(step, t, xs[1..], ys);
      }
    }
  }

  /** What every step from a state satisfying `inv` keeps holds at the end of every run. */
  lemma {:induction false} InvariantOfRuns<S(!new), A(!new)>(
      step: (S, A) -> Option<S>, inv: S -> bool, s: S, acts: seq<A>)
    requires inv(s)
    requires forall t, a :: inv(t) && step(t, a).Some? ==> inv(step(t, a).value)
    ensures Exec(step, s, acts).Some? ==> inv(Exec(step, s, acts).value)
    decreases |acts|
  {
    if acts == [] {
    } else if step(s, acts[0]).Some? {
      InvariantOfRuns(step, inv, step(s, acts[0]).value, acts[1..]);
    }
  }
}
