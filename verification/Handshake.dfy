/** The interrupt/pause handshake of a service, as interleaved atomic steps of
    the pausing thread and any number of calls to `interrupt`. */
module Handshake {

  /** The service thread: `SawClear` has read the flag as clear and still holds
      the lock; `Blocked` waits on the condition; `Reacquiring` was woken. */
  datatype PauserAt = Away | Locking | Holding | SawClear | Blocked | Reacquiring | Leaving

  /** One call to `interrupt`. */
  datatype CallerAt = Entering | Won | Stopped | HasLock | Notified | Returned(won: bool)

  datatype Owner = Nobody | ThePauser | Caller(id: nat)

  datatype State = State(
    interrupted: bool,
    lock: Owner,
    pauser: PauserAt,
    callers: map<nat, CallerAt>,
    stops: nat)

  const Start := State(false, Nobody, Away, map[], 0)

  datatype Step =
    | CallPause        // pause() is called
    | PauserLock
    | PauserRead       // if (!interrupted_)
    | PauserWait       // release the lock and block, in one step
    | PauserWake       // the timeout passes, or a spurious wake-up
    | PauserRelock
    | PauserUnlock
    | CallInterrupt(id: nat)
    | Exchange(id: nat)
    | RunStop(id: nat)
    | CallerLock(id: nat)
    | Notify(id: nat)
    | CallerUnlock(id: nat)

  predicate At(s: State, id: nat, at: CallerAt) { id in s.callers && s.callers[id] == at }

  predicate Enabled(s: State, step: Step)
  {
    match step
    case CallPause => s.pauser.Away?
    case PauserLock => s.pauser.Locking? && s.lock.Nobody?
    case PauserRead => s.pauser.Holding?
    case PauserWait => s.pauser.SawClear?
    case PauserWake => s.pauser.Blocked?
    case PauserRelock => s.pauser.Reacquiring? && s.lock.Nobody?
    case PauserUnlock => s.pauser.Leaving?
    case CallInterrupt(id) => id !in s.callers
    case Exchange(id) => At(s, id, Entering)
    case RunStop(id) => At(s, id, Won)
    case CallerLock(id) => At(s, id, Stopped) && s.lock.Nobody?
    case Notify(id) => At(s, id, HasLock)
    case CallerUnlock(id) => At(s, id, Notified)
  }

  function Next(s: State, step: Step): State
    requires Enabled(s, step)
  {
    match step
    case CallPause => s.(pauser := Locking)
    case PauserLock => s.(pauser := Holding, lock := ThePauser)
    case PauserRead => s.(pauser := if s.interrupted then Leaving else SawClear)
    case PauserWait => s.(pauser := Blocked, lock := Nobody)
    case PauserWake => s.(pauser := Reacquiring)
    case PauserRelock => s.(pauser := Leaving, lock := ThePauser)
    case PauserUnlock => s.(pauser := Away, lock := Nobody)
    case CallInterrupt(id) => s.(callers := s.callers[id := Entering])
    case Exchange(id) =>
      if s.interrupted then s.(callers := s.callers[id := Returned(false)])
      else s.(interrupted := true, callers := s.callers[id := Won])
    case RunStop(id) => s.(callers := s.callers[id := Stopped], stops := s.stops + 1)
    case CallerLock(id) => s.(callers := s.callers[id := HasLock], lock := Caller(id))
    case Notify(id) =>
      s.(callers := s.callers[id := Notified], pauser := if s.pauser.Blocked? then Reacquiring else s.pauser)
    case CallerUnlock(id) => s.(callers := s.callers[id := Returned(true)], lock := Nobody)
  }

  // ---------------------------------------------------------------- invariant

  predicate IsWinner(at: CallerAt) { !at.Entering? && at != Returned(false) }

  /** Before the notification. */
  predicate WillNotify(at: CallerAt) { at.Won? || at.Stopped? || at.HasLock? }

  /** The flag is set exactly when some call has won the exchange, and that call
      is the only winner. */
  ghost predicate OneWinner(s: State)
  {
    && (s.interrupted <==> exists id :: id in s.callers && IsWinner(s.callers[id]))
    && (forall a, b :: a in s.callers && b in s.callers && IsWinner(s.callers[a]) && IsWinner(s.callers[b]) ==> a == b)
  }

  /** Who holds the lock. */
  ghost predicate LockOwned(s: State)
  {
    && (s.lock.ThePauser? <==> s.pauser.Holding? || s.pauser.SawClear? || s.pauser.Leaving?)
    && (s.lock.Caller? ==> s.lock.id in s.callers)
    && (forall id :: id in s.callers ==>
         (s.lock == Caller(id) <==> s.callers[id].HasLock? || s.callers[id].Notified?))
  }

  /** A pause that went to wait before the flag was set will still be notified. */
  ghost predicate WakeUpComing(s: State)
  {
    s.pauser.SawClear? || s.pauser.Blocked? ==>
      forall id :: id in s.callers && IsWinner(s.callers[id]) ==> WillNotify(s.callers[id])
  }

  ghost predicate StoppedOnce(s: State)
  {
    && (!s.interrupted ==> s.stops == 0)
    && (forall id :: id in s.callers && IsWinner(s.callers[id]) ==> s.stops == if s.callers[id].Won? then 0 else 1)
  }

  ghost predicate Inv(s: State)
  {
    OneWinner(s) && LockOwned(s) && WakeUpComing(s) && StoppedOnce(s)
  }

  lemma {:induction false} StepKeepsWinner(s: State, step: Step)
    requires Inv(s) && Enabled(s, step)
    ensures OneWinner(Next(s, step))
  {
    var t := Next(s, step);
    if s.interrupted {
      var w :| w in s.callers && IsWinner(s.callers[w]);
      assert w in t.callers && IsWinner(t.callers[w]);
    }
    if step.Exchange? { assert step.id in t.callers; }
  }

  lemma {:induction false} StepKeepsLock(s: State, step: Step)
    requires Inv(s) && Enabled(s, step)
    ensures LockOwned(Next(s, step))
  {
  }

  lemma {:induction false} StepKeepsWakeUp(s: State, step: Step)
    requires Inv(s) && Enabled(s, step)
    ensures WakeUpComing(Next(s, step))
  {
  }

  lemma {:induction false} StepKeepsStops(s: State, step: Step)
    requires Inv(s) && Enabled(s, step)
    ensures StoppedOnce(Next(s, step))
  {
  }

  /** Every step of every interleaving keeps the invariant. */
  lemma {:induction false} StepKeepsInv(s: State, step: Step)
    requires Inv(s) && Enabled(s, step)
    ensures Inv(Next(s, step))
  {
    StepKeepsWinner(s, step);
    StepKeepsLock(s, step);
    StepKeepsWakeUp(s, step);
    StepKeepsStops(s, step);
  }

  // --------------------------------------------------------------------- runs

  predicate Possible(s: State, steps: seq<Step>)
    decreases |steps|
  {
    steps == [] || (Enabled(s, steps[0]) && Possible(Next(s, steps[0]), steps[1..]))
  }

  function After(s: State, steps: seq<Step>): State
    requires Possible(s, steps)
    decreases |steps|
  {
    if steps == [] then s else After(Next(s, steps[0]), steps[1..])
  }

  lemma {:induction false} RunsKeepInv(s: State, steps: seq<Step>)
    requires Inv(s) && Possible(s, steps)
    ensures Inv(After(s, steps))
    decreases |steps|
  {
    if steps != [] {
      StepKeepsInv(s, steps[0]);
      RunsKeepInv(Next(s, steps[0]), steps[1..]);
    }
  }

  lemma {:induction false} ReturnedStaysReturned(s: State, steps: seq<Step>, id: nat)
    requires Possible(s, steps) && At(s, id, Returned(true))
    ensures At(After(s, steps), id, Returned(true))
    decreases |steps|
  {
    if steps != [] { ReturnedStaysReturned(Next(s, steps[0]), steps[1..], id); }
  }

  /** No lost wake-up. In every interleaving, once the interrupt that won has
      returned, the flag is set, `stop` has run exactly once, and from then on no
      pause, earlier or later, is waiting or about to wait. */
  lemma {:induction false} NoLostWakeUp(steps: seq<Step>, more: seq<Step>, id: nat)
    requires Possible(Start, steps) && At(After(Start, steps), id, Returned(true))
    requires Possible(After(Start, steps), more)
    ensures var s := After(After(Start, steps), more);
            s.interrupted && s.stops == 1 && !s.pauser.Blocked? && !s.pauser.SawClear?
  {
    RunsKeepInv(Start, steps);
    RunsKeepInv(After(Start, steps), more);
    ReturnedStaysReturned(After(Start, steps), more, id);
    var s := After(After(Start, steps), more);
    assert id in s.callers && IsWinner(s.callers[id]);
  }

  /** At most one call ever runs `stop`, whatever the number of calls. */
  lemma {:induction false} StopsAtMostOnce(steps: seq<Step>)
    requires Possible(Start, steps)
    ensures After(Start, steps).stops <= 1
  {
    RunsKeepInv(Start, steps);
    var s := After(Start, steps);
    if s.interrupted {
      var w :| w in s.callers && IsWinner(s.callers[w]);
    }
  }

  /** A pause does not return early: it leaves only when it reads the flag as set, or
      after it waited and was woken by its timeout or by the winning interrupt. */
  lemma {:induction false} PauseWaits(s: State, step: Step)
    requires Enabled(s, step)
    ensures var t := Next(s, step);
            && (t.pauser.Leaving? && !s.pauser.Leaving? ==>
                 (step.PauserRead? && s.interrupted) || s.pauser.Reacquiring?)
            && (t.pauser.Reacquiring? && !s.pauser.Reacquiring? ==>
                 s.pauser.Blocked? && (step.PauserWake? || step.Notify?))
            && (step.PauserRead? && !s.interrupted ==> t.pauser.SawClear?)
            && (step.PauserWait? ==> t.pauser.Blocked? && t.lock.Nobody?)
            && (t.pauser.Away? && !s.pauser.Away? ==> s.pauser.Leaving?)
  {
  }

  /** Until some call wins, every pause that takes the lock waits. */
  lemma {:induction false} UninterruptedPauseWaits(steps: seq<Step>)
    requires Possible(Start, steps) && After(Start, steps).pauser.Holding?
    requires forall id :: id in After(Start, steps).callers ==> !IsWinner(After(Start, steps).callers[id])
    ensures var s := After(Start, steps);
            && Next(s, PauserRead).pauser.SawClear?
            && var waiting := Next(Next(s, PauserRead), PauserWait);
               && waiting.pauser.Blocked? && waiting.lock.Nobody? && !Enabled(waiting, PauserUnlock)
               && Enabled(waiting, PauserWake) && Enabled(Next(waiting, PauserWake), PauserRelock)
  {
    RunsKeepInv(Start, steps);
  }
}
