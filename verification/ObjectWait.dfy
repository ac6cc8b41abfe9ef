/** Polling the object store until an object shows up. */
module ObjectWait {
  import opened Runs

  /** The answer of the store to a stat call. */
  datatype Stat = Found | PathNotFound | OtherError(msg: string)

  datatype Existence = Existence(present: bool, error: Option<string>)

  function ObjectExists(stat: Stat): (r: Existence)
    ensures r.present <==> stat.Found?
    ensures r.error == if stat.OtherError? then Some(stat.msg) else None
  {
    match stat
    case Found => Existence(true, None)
    case PathNotFound => Existence(false, None)
    case OtherError(m) => Existence(false, Some(m))
  }

  /** What wakes the waiting loop, and when. */
  datatype Wake = Tick(at: int) | Timeout(at: int)

  /** The wake-ups of one wait: ticks until the timer fires. */
  ghost predicate Wakes(wakes: seq<Wake>)
  {
    && |wakes| > 0 && wakes[|wakes| - 1].Timeout?
    && (forall i :: 0 <= i < |wakes| - 1 ==> wakes[i].Tick?)
  }

  /** The time of the k-th check: at once, then at every wake-up. */
  function CheckTime(wakes: seq<Wake>, k: nat): int
    requires k <= |wakes|
  {
    if k == 0 then 0 else wakes[k - 1].at
  }

  /** The wait makes checks until the first that finds the object, and fails only after the check at
      the timeout failed too. */
  ghost predicate WaitEnds(stats: seq<Stat>, wakes: seq<Wake>, found: bool, checks: nat)
    requires |stats| == |wakes| + 1
  {
    && 1 <= checks <= |wakes| + 1
    && (forall k :: 0 <= k < checks - 1 ==> !stats[k].Found?)
    && (found <==> stats[checks - 1].Found?)
    && (!found ==> checks == |wakes| + 1)
  }

  /** `stats[k]` is the store's answer to the k-th check. */
  method WaitForObject(stats: seq<Stat>, wakes: seq<Wake>) returns (found: bool, checks: nat)
    requires Wakes(wakes) && |stats| == |wakes| + 1
    ensures WaitEnds(stats, wakes, found, checks)
  {
    checks := 1;
    if ObjectExists(stats[0]) == Existence(true, None) {
      return true, checks;
    }
    var i := 0;
    while true
      invariant i == checks - 1 && 0 <= i < |wakes|
      invariant forall k :: 0 <= k < checks ==> !stats[k].Found?
      decreases |wakes| - i
    {
      var r := ObjectExists(stats[checks]);
      checks := checks + 1;
      match wakes[i] {
        case Tick(_) =>
          if r.error.None? && r.present {
            return true, checks;
          }
        case Timeout(_) =>
          if r.error.None? && r.present {
            return true, checks;
          }
          return false, checks;
      }
      i := i + 1;
    }
  }

  // ---------------------------------------------------------------- against the clock

  /** Existence never ends once it has begun. */
  ghost predicate Monotone(present: int -> bool)
  {
    forall t, u :: t <= u && present(t) ==> present(u)
  }

  /** The store answers truthfully: it finds the object at a check exactly when it is there. */
  ghost predicate Truthful(stats: seq<Stat>, wakes: seq<Wake>, present: int -> bool)
  {
    |stats| == |wakes| + 1
    && forall k :: 0 <= k < |stats| ==> stats[k] == if present(CheckTime(wakes, k)) then Found else PathNotFound
  }

  /** Wake-ups in order of time. */
  ghost predicate Ordered(wakes: seq<Wake>)
  {
    && (forall i :: 0 <= i < |wakes| ==> 0 <= wakes[i].at)
    && (forall i, j :: 0 <= i < j < |wakes| ==> wakes[i].at <= wakes[j].at)
  }

  /** With checks that take no time, tick number i is at (i + 1) times the period; no tick is missed
      before the timeout, and none comes after it. */
  ghost predicate Instantaneous(wakes: seq<Wake>, tick: int, timeout: int)
  {
    var last := |wakes| - 1;
    && Wakes(wakes) && wakes[last].at == timeout
    && (forall i :: 0 <= i < last ==> wakes[i].at == (i + 1) * tick)
    && last * tick <= timeout <= (last + 1) * tick
  }

  /** With a truthful store and an object that stays, the wait succeeds exactly when the object is
      there at the last check, the one at the timeout. */
  lemma FoundIffPresentAtTimeout(stats: seq<Stat>, wakes: seq<Wake>, present: int -> bool, found: bool, checks: nat)
    requires Wakes(wakes) && Ordered(wakes) && Monotone(present) && Truthful(stats, wakes, present)
    requires WaitEnds(stats, wakes, found, checks)
    ensures found <==> present(wakes[|wakes| - 1].at)
  {
  }

  lemma MulMonotone(a: int, b: int, tick: int)
    requires a <= b && 0 <= tick
    ensures a * tick <= b * tick
  {
  }

  lemma InstantaneousIsOrdered(wakes: seq<Wake>, tick: int, timeout: int)
    requires tick > 0 && timeout >= 0 && Instantaneous(wakes, tick, timeout)
    ensures Ordered(wakes)
  {
    var last := |wakes| - 1;
    forall i, j | 0 <= i < j < |wakes| ensures wakes[i].at <= wakes[j].at {
      MulMonotone(i + 1, j + 1, tick);
      MulMonotone(i + 1, last, tick);
    }
    forall i | 0 <= i < |wakes| ensures 0 <= wakes[i].at {
      MulMonotone(0, i + 1, tick);
    }
  }

  lemma TicksBeforeTimeout(ticks: int, tick: int, timeout: int)
    requires tick > 0 && ticks * tick <= timeout
    ensures ticks <= timeout / tick
  {
    assert timeout == (timeout / tick) * tick + timeout % tick;
    if ticks > timeout / tick {
      MulMonotone(timeout / tick + 1, ticks, tick);
    }
  }

  /** On the clock: nil exactly when the object exists by the timeout, after at most
      2 + timeout / tick stat calls. */
  lemma WaitOnTheClock(stats: seq<Stat>, wakes: seq<Wake>, tick: int, timeout: int, present: int -> bool,
                       found: bool, checks: nat)
    requires tick > 0 && timeout >= 0 && Instantaneous(wakes, tick, timeout)
    requires Monotone(present) && Truthful(stats, wakes, present) && WaitEnds(stats, wakes, found, checks)
    ensures found <==> present(timeout)
    ensures checks <= 2 + timeout / tick
  {
    InstantaneousIsOrdered(wakes, tick, timeout);
    FoundIffPresentAtTimeout(stats, wakes, present, found, checks);
    TicksBeforeTimeout(|wakes| - 1, tick, timeout);
  }
}
