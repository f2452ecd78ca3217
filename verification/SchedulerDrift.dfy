/** The scheduler's drift arithmetic: late steps build up drift, spare time pays
    it back, and drift beyond a limit is given up. */
module SchedulerDrift {

  /** Wall-clock time spent, drift still owed, and drift given up so far. */
  datatype Account = Account(elapsed: int, drift: int, givenUp: int)

  const Begin := Account(0, 0, 0)

  /** One step that took `duration`, followed by an exact pause if there is time. */
  function Step(a: Account, duration: nat, interval: nat, maxDrift: nat): Account
  {
    if duration + a.drift < interval then
      Account(a.elapsed + duration + (interval - duration - a.drift), 0, a.givenUp)
    else
      var owed := a.drift + duration - interval;
      if owed > maxDrift then Account(a.elapsed + duration, 0, a.givenUp + owed)
      else Account(a.elapsed + duration, owed, a.givenUp)
  }

  function Run(durations: seq<nat>, interval: nat, maxDrift: nat): Account
  {
    if durations == [] then Begin
    else Step(Run(durations[..|durations| - 1], interval, maxDrift), durations[|durations| - 1], interval, maxDrift)
  }

  /** After n steps, the time spent is n intervals plus the drift owed plus all
      drift given up, and the drift owed stays within its limit. */
  lemma {:induction false} DriftAccounts(durations: seq<nat>, interval: nat, maxDrift: nat)
    ensures var a := Run(durations, interval, maxDrift);
            && a.elapsed == |durations| * interval + a.drift + a.givenUp
            && 0 <= a.drift <= maxDrift && 0 <= a.givenUp
  {
    if durations != [] {
      var n := |durations| - 1;
      DriftAccounts(durations[..n], interval, maxDrift);
      assert |durations| * interval == n * interval + interval;
    }
  }

  /** Drift is given up exactly when it exceeds the limit, all of it; drift within the
      limit is kept; spare time pays drift back and is paused away. */
  lemma {:induction false} DriftIsKept(a: Account, duration: nat, interval: nat, maxDrift: nat)
    ensures var b, owed := Step(a, duration, interval, maxDrift), a.drift + duration - interval;
            && (b.givenUp == a.givenUp <==> owed <= maxDrift || owed == 0)
            && (owed < 0 ==> b.drift == 0 && b.elapsed == a.elapsed + duration - owed)
            && (0 <= owed ==> b.elapsed == a.elapsed + duration)
            && (0 <= owed <= maxDrift ==> b.drift == owed)
            && (owed > maxDrift ==> b.drift == 0 && b.givenUp == a.givenUp + owed)
  {
  }

  class Scheduler {
    const interval: nat
    const maxDrift: nat
    var drift: int

    constructor (interval: nat, maxDrift: nat)
      ensures this.interval == interval && this.maxDrift == maxDrift && drift == 0
    {
      this.interval, this.maxDrift, drift := interval, maxDrift, 0;
    }

    /** Update the drift after a step and say how long to pause. */
    method CalculateTimeDriftAndMaybePause(duration: nat) returns (pause: nat)
      requires 0 <= drift
      modifies this`drift
      ensures forall before: Account :: before.drift == old(drift) ==>
                var after := Step(before, duration, interval, maxDrift);
                after.drift == drift && after.elapsed == before.elapsed + duration + pause
      ensures var owed := old(drift) + duration - interval;
              && pause == (if owed < 0 then -owed else 0)
              && drift == if 0 <= owed <= maxDrift then owed else 0
      ensures 0 <= drift <= maxDrift
    {
      pause := 0;
      if duration + drift < interval {
        pause := interval - duration - drift;
        drift := 0;
      } else {
        drift := drift + duration - interval;
        if drift > maxDrift {
          drift := 0;
        }
      }
    }
  }
}
