/** The schedule's crash protocol: a mark names the executing query on disk, the
    process may die at any step, and the next process holds the culprit back. */
module ScheduleDenylist {
  import opened Basics
  import opened Text
  import opened DenylistFormat

  const DENY_SECONDS: nat := 86400

  datatype Disk = Disk(executing: string, failed: string)

  /** `Booting`: the mark has been read and cleared, the denylist not yet saved. */
  datatype Process = Down | Booting(denylist: Denylist, culprit: string) | Up(denylist: Denylist)

  datatype State = State(disk: Disk, process: Process, clock: nat)

  /** `exempt`: the denylist is not enforced for this query. `launch`: the query
      is due, so the scheduler starts it when it is offered. */
  datatype Event =
    | Tick(time: nat)
    | Boot
    | FinishBoot(watchdog: bool)
    | Offer(name: string, exempt: bool, launch: bool)
    | Finish(limitHit: bool)
    | Crash

  const Fresh := State(Disk("", ""), Down, 0)

  // -------------------------------------------------------------- transitions

  predicate Enabled(s: State, e: Event)
  {
    match e
    case Tick(t) => s.clock <= t && t + DENY_SECONDS < I63
    case Boot => s.process.Down?
    case FinishBoot(_) => s.process.Booting?
    case Offer(_, _, _) => s.process.Up?
    case Finish(_) => s.process.Up?
    case Crash => true
  }

  predicate Expired(until: nat, exempt: bool, now: nat) { now > until || exempt }

  /** Whether the schedule hands this query to its caller. */
  predicate Admits(d: Denylist, name: string, exempt: bool, now: nat)
  {
    name in d ==> Expired(d[name], exempt, now)
  }

  ghost function Next(s: State, e: Event): State
    requires Enabled(s, e)
  {
    match e
    case Tick(t) => s.(clock := t)
    case Boot =>
      var d := Restore(s.disk.failed, s.clock);
      if s.disk.executing == "" then s.(process := Up(d))
      else s.(disk := s.disk.(executing := ""), process := Booting(d, s.disk.executing))
    case FinishBoot(watchdog) =>
      if watchdog then
        var d := s.process.denylist[s.process.culprit := s.clock + DENY_SECONDS];
        s.(disk := s.disk.(failed := Saved(d)), process := Up(d))
      else s.(process := Up(s.process.denylist))
    case Offer(name, exempt, launch) =>
      var d := s.process.denylist;
      if !Admits(d, name, exempt, s.clock) then s
      else
        var s1 := if name in d
                  then s.(process := Up(d - {name}), disk := s.disk.(failed := Saved(d - {name})))
                  else s;
        if launch then s1.(disk := s1.disk.(executing := name)) else s1
    case Finish(limitHit) => if limitHit then s else s.(disk := s.disk.(executing := ""))
    case Crash => s.(process := Down)
  }

  /** The step starts an execution of `q`. */
  predicate Starts(s: State, e: Event, q: string)
    requires Enabled(s, e)
  {
    e.Offer? && e.launch && e.name == q && Admits(s.process.denylist, q, e.exempt, s.clock)
  }

  // ---------------------------------------------------------------- invariant

  /** A name put on the denylist is one the stored form can carry. Names that are
      only offered or executed may be anything. */
  predicate CleanStep(s: State, e: Event)
    requires Enabled(s, e)
  {
    e == FinishBoot(true) ==> Clean(s.process.culprit)
  }

  predicate CleanList(d: Denylist) { forall n :: n in d ==> Clean(n) && d[n] < I63 }

  ghost predicate Stores(content: string, d: Denylist) { CleanList(d) && content == Saved(d) }

  ghost predicate Good(s: State)
  {
    && (exists d :: Stores(s.disk.failed, d))
    && (!s.process.Down? ==> CleanList(s.process.denylist))
    && s.clock + DENY_SECONDS < I63
  }

  lemma {:induction false} FreshIsGood()
    ensures Good(Fresh)
  {
    assert Saved(map[]) == "";
    assert Stores("", map[]);
  }

  lemma {:induction false} RestoreKeepsClean(content: string, d: Denylist, now: nat)
    requires Stores(content, d)
    ensures Restore(content, now) == Pending(d, now) && CleanList(Restore(content, now))
  {
    CleanNamesRestore(d, now);
  }

  /** The list the disk stores after a step, given the one it stored before. */
  function StoredAfter(s: State, e: Event, d: Denylist): Denylist
    requires Enabled(s, e)
  {
    match e
    case FinishBoot(watchdog) =>
      if watchdog then s.process.denylist[s.process.culprit := s.clock + DENY_SECONDS] else d
    case Offer(name, exempt, _) =>
      var l := s.process.denylist;
      if name in l && Admits(l, name, exempt, s.clock) then l - {name} else d
    case _ => d
  }

  lemma {:induction false} StepStores(s: State, e: Event, d: Denylist)
    requires Good(s) && Enabled(s, e) && CleanStep(s, e) && Stores(s.disk.failed, d)
    ensures Stores(Next(s, e).disk.failed, StoredAfter(s, e, d))
  {
  }

  lemma {:induction false} StepKeepsGood(s: State, e: Event)
    requires Good(s) && Enabled(s, e) && CleanStep(s, e)
    ensures Good(Next(s, e))
  {
    hide Stores, CleanList, Saved, Restore, Clean, Admits;
    var d :| Stores(s.disk.failed, d);
    StepStores(s, e, d);
    StepKeepsMemoryClean(s, e, d);
  }

  lemma {:induction false} StepKeepsMemoryClean(s: State, e: Event, d: Denylist)
    requires Good(s) && Enabled(s, e) && CleanStep(s, e) && Stores(s.disk.failed, d)
    ensures !Next(s, e).process.Down? ==> CleanList(Next(s, e).process.denylist)
  {
    if e.Boot? { RestoreKeepsClean(s.disk.failed, d, s.clock); }
  }

  predicate Denies(d: Denylist, q: string, until: nat) { q in d && until <= d[q] }

  /** The list on disk denies `q` at least until `until`. */
  ghost predicate StoredDenies(content: string, q: string, until: nat)
  {
    exists d :: Stores(content, d) && Denies(d, q, until)
  }

  /** While the clock is before `until`, memory and disk both hold `q` back. */
  ghost predicate Held(s: State, q: string, until: nat)
  {
    && until <= s.clock + DENY_SECONDS
    && (s.clock < until ==>
         && StoredDenies(s.disk.failed, q, until)
         && (!s.process.Down? ==> Denies(s.process.denylist, q, until)))
  }

  /** Every step before `until` keeps holding `q` back and does not start it. */
  lemma {:induction false} StepKeepsHeld(s: State, e: Event, q: string, until: nat)
    requires Good(s) && Held(s, q, until) && Enabled(s, e) && CleanStep(s, e)
    requires e.Offer? && e.name == q ==> !e.exempt
    ensures Held(Next(s, e), q, until)
    ensures Starts(s, e, q) ==> until <= s.clock
  {
    hide Stores, CleanList, Saved, Restore, Clean, Good;
    if s.clock < until {
      var d :| Stores(s.disk.failed, d) && Denies(d, q, until);
      StepStores(s, e, d);
      StepDenies(s, e, q, until, d);
    }
  }

  lemma {:induction false} StepDenies(s: State, e: Event, q: string, until: nat, d: Denylist)
    requires Enabled(s, e) && s.clock < until <= s.clock + DENY_SECONDS
    requires e.Offer? && e.name == q ==> !e.exempt
    requires Stores(s.disk.failed, d) && Denies(d, q, until)
    requires !s.process.Down? ==> Denies(s.process.denylist, q, until)
    ensures Denies(StoredAfter(s, e, d), q, until)
    ensures !Next(s, e).process.Down? ==> Denies(Next(s, e).process.denylist, q, until)
    ensures !Starts(s, e, q)
  {
    if e.Boot? { RestoreKeepsClean(s.disk.failed, d, s.clock); }
  }

  // --------------------------------------------------------------------- runs

  ghost predicate Possible(s: State, es: seq<Event>)
    decreases |es|
  {
    es == [] || (Enabled(s, es[0]) && CleanStep(s, es[0]) && Possible(Next(s, es[0]), es[1..]))
  }

  /** In this run every start of `q` happens at or after `until`. */
  ghost predicate StartsOnlyFrom(s: State, es: seq<Event>, q: string, until: nat)
    requires Possible(s, es)
    decreases |es|
  {
    es == [] || ((Starts(s, es[0], q) ==> until <= s.clock) && StartsOnlyFrom(Next(s, es[0]), es[1..], q, until))
  }

  /** The denylist is enforced for `q` throughout. */
  predicate Enforced(es: seq<Event>, q: string)
  {
    forall i :: 0 <= i < |es| && es[i].Offer? && es[i].name == q ==> !es[i].exempt
  }

  lemma {:induction false} HeldRuns(s: State, es: seq<Event>, q: string, until: nat)
    requires Good(s) && Held(s, q, until) && Possible(s, es) && Enforced(es, q)
    ensures StartsOnlyFrom(s, es, q, until)
    decreases |es|
  {
    if es != [] {
      StepKeepsGood(s, es[0]);
      StepKeepsHeld(s, es[0], q, until);
      HeldRuns(Next(s, es[0]), es[1..], q, until);
    }
  }

  /** No run from here, through any crashes and restarts, starts `q` before `until`. */
  ghost predicate NeverStartsBefore(s: State, q: string, until: nat)
  {
    forall es :: Possible(s, es) && Enforced(es, q) ==> StartsOnlyFrom(s, es, q, until)
  }

  lemma {:induction false} HeldNeverStarts(s: State, q: string, until: nat)
    requires Good(s) && Held(s, q, until)
    ensures NeverStartsBefore(s, q, until)
  {
    forall es | Possible(s, es) && Enforced(es, q) ensures StartsOnlyFrom(s, es, q, until) {
      HeldRuns(s, es, q, until);
    }
  }

  /** Once a restart with the watchdog on has put the culprit on the denylist, no
      continuation, through any further crashes and restarts, starts it earlier
      than a day after that restart. */
  lemma {:induction false} CulpritIsHeldBack(s: State)
    requires Good(s) && s.process.Booting? && Clean(s.process.culprit)
    ensures NeverStartsBefore(Next(s, FinishBoot(true)), s.process.culprit, s.clock + DENY_SECONDS)
  {
    hide NeverStartsBefore, Saved, CleanList;
    var q, s1 := s.process.culprit, Next(s, FinishBoot(true));
    StepKeepsGood(s, FinishBoot(true));
    var d := OnDisk(s);
    StepStores(s, FinishBoot(true), d);
    assert Stores(s1.disk.failed, s1.process.denylist) && Denies(s1.process.denylist, q, s.clock + DENY_SECONDS);
    HeldNeverStarts(s1, q, s.clock + DENY_SECONDS);
  }

  // ------------------------------------------- exactly when a culprit is held

  /** An early start after a step is one before it. */
  lemma {:induction false} EarlyStartBefore(s: State, e: Event, q: string, until: nat)
    requires Enabled(s, e) && CleanStep(s, e) && !e.Offer? && !NeverStartsBefore(Next(s, e), q, until)
    ensures !NeverStartsBefore(s, q, until)
  {
    var es :| Possible(Next(s, e), es) && Enforced(es, q) && !StartsOnlyFrom(Next(s, e), es, q, until);
    var all := [e] + es;
    assert all[1..] == es;
    assert Possible(s, all) && Enforced(all, q) && !StartsOnlyFrom(s, all, q, until);
  }

  /** A start now is an early start. */
  lemma {:induction false} StartNow(s: State, q: string, until: nat)
    requires Enabled(s, Offer(q, false, true)) && Starts(s, Offer(q, false, true), q) && s.clock < until
    ensures !NeverStartsBefore(s, q, until)
  {
    var es := [Offer(q, false, true)];
    assert es[1..] == [] && Starts(s, es[0], q);
    assert Possible(s, es) && Enforced(es, q);
    assert !StartsOnlyFrom(s, es, q, until);
  }

  /** A process that comes up in the very second an entry expires forgets it. */
  lemma {:induction false} DownForgets(s: State, q: string, until: nat, d: Denylist)
    requires Good(s) && s.process.Down? && s.disk.executing == "" && Stores(s.disk.failed, d) && !Denies(d, q, until)
    requires s.clock < until && until + DENY_SECONDS < I63
    ensures !NeverStartsBefore(s, q, until)
  {
    var t := if q in d && s.clock <= d[q] then d[q] else s.clock;
    var s1 := Next(s, Tick(t));
    var s2 := Next(s1, Boot);
    RestoreKeepsClean(s.disk.failed, d, t);
    StartNow(s2, q, until);
    EarlyStartBefore(s1, Boot, q, until);
    EarlyStartBefore(s, Tick(t), q, until);
  }

  /** The culprit of a crash is held back for a day if and only if the restart runs
      to its end with the watchdog on and the stored form can carry its name, or
      the list on disk already holds it that long. `e` is what becomes of the
      restart: it finishes, with or without the watchdog, or the process dies again
      before it does. */
  lemma {:induction false} CulpritHeldIff(s: State, later: nat, e: Event)
    requires Good(s) && s.process.Down? && s.disk.executing != "" && (e.FinishBoot? || e.Crash?)
    requires s.clock <= later && later + 2 * DENY_SECONDS < I63
    ensures var boot := Next(Next(s, Boot), Tick(later));
            var q, until := s.disk.executing, later + DENY_SECONDS;
            && Enabled(boot, e)
            && (NeverStartsBefore(Next(boot, e), q, until) <==>
                 (e == FinishBoot(true) && Clean(q)) || StoredDenies(s.disk.failed, q, until))
  {
    hide NeverStartsBefore, Stores, Next, Good, Clean;
    BootGoesOn(s, later, e);
    var q, until, boot := s.disk.executing, later + DENY_SECONDS, Next(Next(s, Boot), Tick(later));
    if e == FinishBoot(true) {
      if Clean(q) {
        CulpritIsHeldBack(boot);
      } else {
        UncleanIsForgotten(boot);
        StoredAreClean(s.disk.failed, q, until);
      }
    } else if StoredDenies(s.disk.failed, q, until) {
      AlreadyHeld(s, later, e);
    } else {
      var d := OnDisk(s);
      NotHeld(Next(boot, e), q, until, d);
    }
  }

  lemma {:induction false} StoredAreClean(content: string, q: string, until: nat)
    ensures StoredDenies(content, q, until) ==> Clean(q)
  {
  }

  /** A denylisted name that the stored form cannot carry is gone at the next
      restart, and that process starts the query at once. */
  lemma {:induction false} UncleanIsForgotten(s: State)
    requires s.process.Booting? && s.disk.executing == "" && s.process.culprit != "" && !Clean(s.process.culprit)
    ensures !NeverStartsBefore(Next(s, FinishBoot(true)), s.process.culprit, s.clock + DENY_SECONDS)
  {
    hide NeverStartsBefore, Restore, Saved;
    var q, until := s.process.culprit, s.clock + DENY_SECONDS;
    var s1 := Next(s, FinishBoot(true));
    var s2 := Next(s1, Crash);
    var s3 := Next(s2, Boot);
    RestoredNames(s1.disk.failed, s1.clock);
    StartNow(s3, q, until);
    EarlyStartBefore(s2, Boot, q, until);
    EarlyStartBefore(s1, Crash, q, until);
  }

  /** Such a mark is reached: any name can be executing when the process dies. */
  lemma {:induction false} AnyMarkIsReached(q: string)
    requires q != ""
    ensures var es := [Boot, Offer(q, false, true), Crash];
            Possible(Fresh, es) && After(Fresh, es).process.Down? && After(Fresh, es).disk.executing == q
  {
    hide Restore, Possible, After;
    var es := [Boot, Offer(q, false, true), Crash];
    FreshStores();
    RestoreKeepsClean("", map[], 0);
    var s1 := Next(Fresh, Boot);
    var s2 := Next(s1, Offer(q, false, true));
    var s3 := Next(s2, Crash);
    assert es[1..] == [Offer(q, false, true), Crash] && es[1..][1..] == [Crash] && es[1..][1..][1..] == [];
    NoEvents(s3);
    PlayStep(s2, es[1..][1..], s3);
    PlayStep(s1, es[1..], s2);
    PlayStep(Fresh, es, s1);
  }

  lemma {:induction false} FreshStores()
    ensures Stores("", map[])
  {
    assert Saved(map[]) == "";
  }

  ghost function OnDisk(s: State): (d: Denylist)
    requires Good(s)
    ensures Stores(s.disk.failed, d)
  {
    var d :| Stores(s.disk.failed, d);
    d
  }

  /** The steps of a restart that finds a mark, and what they leave alone. */
  lemma {:induction false} BootGoesOn(s: State, later: nat, e: Event)
    requires Good(s) && s.process.Down? && s.disk.executing != "" && (e.FinishBoot? || e.Crash?)
    requires s.clock <= later && later + DENY_SECONDS < I63
    ensures Enabled(s, Boot) && Enabled(Next(s, Boot), Tick(later))
    ensures var boot := Next(Next(s, Boot), Tick(later));
            && Enabled(boot, e) && Good(boot)
            && boot.process.Booting? && boot.process.culprit == s.disk.executing && boot.clock == later
            && boot.disk.executing == ""
            && (e != FinishBoot(true) ==>
                 var t := Next(boot, e);
                 && Good(t) && !t.process.Booting? && t.clock == later
                 && t.disk.executing == "" && t.disk.failed == s.disk.failed)
  {
    hide Stores, Saved, Restore, CleanList, Clean;
    StepKeepsGood(s, Boot);
    StepKeepsGood(Next(s, Boot), Tick(later));
    if e != FinishBoot(true) { StepKeepsGood(Next(Next(s, Boot), Tick(later)), e); }
  }

  lemma {:induction false} AlreadyHeld(s: State, later: nat, e: Event)
    requires Good(s) && s.process.Down? && s.disk.executing != "" && (e == FinishBoot(false) || e.Crash?)
    requires s.clock <= later && later + DENY_SECONDS < I63
    requires StoredDenies(s.disk.failed, s.disk.executing, later + DENY_SECONDS)
    ensures NeverStartsBefore(Next(Next(Next(s, Boot), Tick(later)), e), s.disk.executing, later + DENY_SECONDS)
  {
    var q, until, boot := s.disk.executing, later + DENY_SECONDS, Next(Next(s, Boot), Tick(later));
    var d :| Stores(s.disk.failed, d) && Denies(d, q, until);
    RestoreKeepsClean(s.disk.failed, d, s.clock);
    HeldNeverStarts(Next(boot, e), q, until);
  }

  lemma {:induction false} NotHeld(s: State, q: string, until: nat, d: Denylist)
    requires Good(s) && !s.process.Booting? && s.disk.executing == ""
    requires Stores(s.disk.failed, d) && !Denies(d, q, until)
    requires s.clock < until && until + DENY_SECONDS < I63
    ensures !NeverStartsBefore(s, q, until)
  {
    hide NeverStartsBefore, Stores;
    if s.process.Down? {
      DownForgets(s, q, until, d);
    } else {
      StepKeepsGood(s, Crash);
      DownForgets(Next(s, Crash), q, until, d);
      EarlyStartBefore(s, Crash, q, until);
    }
  }

  /** A query cut off by a crash is the culprit the next process finds, however
      long it takes to come up. */
  lemma {:induction false} CrashNamesCulprit(s: State, later: nat)
    requires s.disk.executing != "" && s.clock <= later && later + DENY_SECONDS < I63
    ensures var down := Next(Next(s, Crash), Tick(later));
            var up := Next(down, Boot);
            Enabled(down, Boot) && up.process.Booting? && up.process.culprit == s.disk.executing && up.clock == later
  {
  }

  ghost function After(s: State, es: seq<Event>): State
    requires Possible(s, es)
    decreases |es|
  {
    if es == [] then s else After(Next(s, es[0]), es[1..])
  }

  lemma {:induction false} RunsKeepGood(s: State, es: seq<Event>)
    requires Good(s) && Possible(s, es)
    ensures Good(After(s, es))
    decreases |es|
  {
    if es != [] {
      StepKeepsGood(s, es[0]);
      RunsKeepGood(Next(s, es[0]), es[1..]);
    }
  }

  /** `start` launches a query and the process dies at time `died`. */
  ghost function CutOff(start: Event, died: nat): seq<Event>
  {
    [start, Tick(died), Crash]
  }

  lemma {:induction false} CutOffLeavesMark(s: State, start: Event, died: nat)
    requires Good(s) && Enabled(s, start) && start.Offer? && Starts(s, start, start.name)
    requires s.clock <= died && died + DENY_SECONDS < I63
    ensures Possible(s, CutOff(start, died))
    ensures var down := After(s, CutOff(start, died));
            Good(down) && down.process.Down? && down.disk.executing == start.name && down.clock == died
  {
    hide Restore, Saved, Possible, After;
    var es := CutOff(start, died);
    var s1 := Next(s, start);
    var s2 := Next(s1, Tick(died));
    var s3 := Next(s2, Crash);
    StepKeepsGood(s, start);
    StepKeepsGood(s1, Tick(died));
    StepKeepsGood(s2, Crash);
    NoEvents(s3);
    PlayStep(s2, es[2..], s3);
    PlayStep(s1, es[1..], s2);
    PlayStep(s, es, s1);
  }

  lemma {:induction false} NoEvents(s: State)
    ensures Possible(s, []) && After(s, []) == s
  {
  }

  lemma {:induction false} PlayStep(s: State, es: seq<Event>, next: State)
    requires es != [] && Enabled(s, es[0]) && CleanStep(s, es[0])
    requires next == Next(s, es[0]) && Possible(next, es[1..])
    ensures Possible(s, es) && After(s, es) == After(next, es[1..])
  {
  }

  /** The scheduled crash protocol, end to end. In any run from a fresh database in
      which every name that gets denylisted is clean, if the process dies while
      executing a query the schedule started, and the next one comes up with the
      watchdog on, then no continuation, through any further crashes and restarts
      and with the denylist enforced for the query, starts it strictly before the
      restart plus one day, if and only if the query's own name is clean or the
      list on disk already held it that long. */
  lemma {:induction false} CutOffQueryIsHeldBack(before: seq<Event>, start: Event, died: nat, back: nat)
    requires Possible(Fresh, before)
    requires var s := After(Fresh, before);
             && Enabled(s, start) && start.Offer? && start.name != "" && Starts(s, start, start.name)
             && s.clock <= died <= back && back + 2 * DENY_SECONDS < I63
    ensures var s, q, until := After(Fresh, before), start.name, back + 86400;
            && Possible(s, CutOff(start, died))
            && var down := After(s, CutOff(start, died));
               && Enabled(down, Boot) && Enabled(Next(down, Boot), Tick(back))
               && var boot := Next(Next(down, Boot), Tick(back));
                  && Enabled(boot, FinishBoot(true))
                  && (NeverStartsBefore(Next(boot, FinishBoot(true)), q, until) <==>
                       Clean(q) || StoredDenies(down.disk.failed, q, until))
  {
    hide Possible, After, Next, NeverStartsBefore, Good, Clean, StoredDenies;
    FreshIsGood();
    RunsKeepGood(Fresh, before);
    var s := After(Fresh, before);
    CutOffLeavesMark(s, start, died);
    var down := After(s, CutOff(start, died));
    BootGoesOn(down, back, FinishBoot(true));
    CulpritHeldIff(down, back, FinishBoot(true));
  }

  /** The two writes of a restart are not one step. When the process dies between
      clearing the mark and saving the denylist, the one after it starts the
      culprit at once, unless the list on disk already held it. */
  lemma {:induction false} CrashDuringBootForgets(s: State)
    requires Good(s) && s.process.Down? && s.disk.executing != ""
    ensures var again := Next(Next(Next(s, Boot), Crash), Boot);
            && again.process.Up?
            && (Starts(again, Offer(s.disk.executing, false, true), s.disk.executing) <==>
                 s.disk.executing !in Restore(s.disk.failed, s.clock))
  {
    var d :| Stores(s.disk.failed, d);
    RestoreKeepsClean(s.disk.failed, d, s.clock);
  }

  /** In the second an entry expires, a process that comes up has dropped it and
      starts the query, while one that was up already still refuses it. */
  lemma {:induction false} ExpirySecondDiffers(q: string, until: nat)
    requires Clean(q) && until + DENY_SECONDS < I63
    ensures var d := map[q := until];
            var booted := Next(State(Disk("", Saved(d)), Down, until), Boot);
            var up := State(Disk("", Saved(d)), Up(d), until);
            && Good(booted) && booted.process.Up? && Starts(booted, Offer(q, false, true), q)
            && Good(up) && !Starts(up, Offer(q, false, true), q)
  {
    var d: Denylist := map[q := until];
    assert Stores(Saved(d), d);
    RestoreKeepsClean(Saved(d), d, until);
  }

  /** A running process starts a listed query if and only if its time is past or the
      denylist is not enforced for it, and then takes it off both lists; an unlisted
      query always. */
  lemma {:induction false} ListedStartsIff(s: State, q: string, exempt: bool)
    requires Good(s) && s.process.Up?
    ensures var d, e := s.process.denylist, Offer(q, exempt, true);
            && (Starts(s, e, q) <==> q !in d || exempt || s.clock > d[q])
            && (Starts(s, e, q) ==> Next(s, e).process == Up(d - {q}) && Next(s, e).disk.executing == q)
            && (Starts(s, e, q) && q in d ==> Stores(Next(s, e).disk.failed, d - {q}))
            && (!Starts(s, e, q) ==> Next(s, e) == s)
            && Next(s, Offer(q, exempt, false)).disk.executing == s.disk.executing
  {
    var d := s.process.denylist;
    if q !in d { assert d - {q} == d; }
  }

  /** A query that finishes clears its mark, unless a resource limit was hit; nothing
      else changes. */
  lemma {:induction false} FinishClearsMark(s: State, limitHit: bool)
    requires s.process.Up?
    ensures Next(s, Finish(limitHit)) ==
              State(Disk(if limitHit then s.disk.executing else "", s.disk.failed), s.process, s.clock)
  {
  }

  // ----------------------------------------------------------- implementation

  class Schedule {
    // the database keys
    var executing: string
    var failed: string
    var timestamps: map<string, nat>
    // memory
    var denylist: Denylist

    ghost function OnDisk(): Disk
      reads this
    {
      Disk(executing, failed)
    }

    /** A new process: restore, then deal with a query that was executing. */
    constructor (executing: string, failed: string, watchdog: bool, now: nat)
      ensures var s := State(Disk(executing, failed), Down, now);
              var booted := Next(s, Boot);
              State(OnDisk(), Up(denylist), now) ==
                if booted.process.Booting? then Next(booted, FinishBoot(watchdog)) else booted
    {
      hide Restore, Saved;
      this.executing, this.failed := executing, failed;
      denylist, timestamps := map[], map[];
      new;
      RestoreDenylist(now);
      if executing != "" {
        this.executing := "";
        if watchdog {
          denylist := denylist[executing := now + DENY_SECONDS];
          SaveDenylist();
        }
      }
    }

    method RestoreDenylist(now: nat)
      modifies this`denylist
      ensures denylist == Restore(failed, now)
    {
      denylist := map[];
      var tokens := Tokens(failed);
      if |tokens| == 0 || |tokens| % 2 != 0 {
        return;
      }
      for i := 0 to |tokens| / 2
        invariant denylist == Pairs(tokens[..2 * i], now)
      {
        ghost var front := tokens[..2 * (i + 1)];
        assert front[..|front| - 2] == tokens[..2 * i];
        var expire := LeadingNumber(tokens[2 * i + 1]);
        if expire > 0 && now < expire {
          denylist := denylist[tokens[2 * i] := expire];
        }
      }
      assert tokens[..|tokens|] == tokens;
    }

    static method EncodeList(names: seq<string>, d: Denylist) returns (content: string)
      requires forall n :: n in names ==> n in d
      ensures content == Encode(names, d)
    {
      content := "";
      for i := 0 to |names|
        invariant content == Encode(names[..i], d)
      {
        assert names[..i + 1][..i] == names[..i];
        if content != "" {
          content := content + ":";
        }
        content := content + names[i] + ":" + ToString(d[names[i]]);
      }
      assert names[..|names|] == names;
    }

    method SaveDenylist()
      modifies this`failed
      ensures failed == Saved(denylist)
    {
      var names := OrderedKeys(denylist.Keys);
      failed := EncodeList(names, denylist);
    }

    /** One query of the schedule, as offered to a caller; one that wants denylisted
        queries too is called for every query. */
    method OfferQuery(name: string, exempt: bool, wantsDenylisted: bool, now: nat) returns (call: bool)
      modifies this`denylist, this`failed
      ensures call <==> wantsDenylisted || name !in old(denylist) || exempt || now > old(denylist)[name]
      ensures if name in old(denylist) && (exempt || now > old(denylist)[name])
              then denylist == old(denylist) - {name} && failed == Saved(denylist)
              else denylist == old(denylist) && failed == old(failed)
      ensures State(OnDisk(), Up(denylist), now) ==
                Next(State(old(OnDisk()), Up(old(denylist)), now), Offer(name, exempt, false))
    {
      if name in denylist {
        if now > denylist[name] || exempt {
          denylist := denylist - {name};
          SaveDenylist();
        } else if !wantsDenylisted {
          return false;
        }
      }
      return true;
    }

    /** Mark the query as executing. On a query just admitted this completes the
        launching step of the protocol. */
    method RecordQueryStart(name: string, now: nat)
      modifies this`executing, this`timestamps
      ensures executing == name && timestamps == old(timestamps)[name := now]
      ensures name !in denylist ==> forall exempt ::
                State(OnDisk(), Up(denylist), now) ==
                  Next(State(old(OnDisk()), Up(denylist), now), Offer(name, exempt, true))
    {
      executing := name;
      timestamps := timestamps[name := now];
    }

    method RecordQueryPerformance(limitHit: bool)
      modifies this`executing
      ensures executing == if limitHit then old(executing) else ""
      ensures OnDisk() == Next(State(old(OnDisk()), Up(denylist), 0), Finish(limitHit)).disk
    {
      if !limitHit {
        executing := "";
      }
    }
  }
}
