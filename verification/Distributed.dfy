/** Distributed queries: requests wait in the database, a running mark guards
    each execution, and results stay in memory until they are written. */
module Distributed {
  import opened Basics
  import opened Text

  datatype Request = Request(id: string, query: string)

  datatype QueryResult = Denied(request: Request) | Ran(request: Request, output: string)

  /** Where the single worker thread is. */
  datatype Phase =
    | Down
    | Idle
    | Taking(queue: seq<string>)
    | Popped(request: Request, queue: seq<string>)
    | Executing(request: Request, queue: seq<string>)

  /** `pending` and `running` are in the database; a query's mark is kept under
      its text, which stands for its hash. `popped` and `written` only record
      what has happened so far. */
  datatype State = State(
    pending: map<string, string>,
    running: map<string, nat>,
    results: seq<QueryResult>,
    phase: Phase,
    clock: nat,
    popped: multiset<Request>,
    written: multiset<Request>)

  datatype Event =
    | Tick(time: nat)
    | Accept(id: string, query: string)
    | BeginRun(keys: seq<string>)
    | Pop
    | Check
    | Complete(output: string)
    | Flush(ok: bool)
    | Cleanup
    | Crash
    | Restart

  // -------------------------------------------------------------- transitions

  predicate MarkExpired(ts: nat, duration: nat, now: nat) { now > ts + duration }

  /** Marked as running, and the mark has not expired. */
  predicate IsDenied(running: map<string, nat>, query: string, duration: nat, now: nat)
  {
    query in running && !MarkExpired(running[query], duration, now)
  }

  function Mark(running: map<string, nat>, query: string, now: nat): map<string, nat>
  {
    if query in running then running else running[query := now]
  }

  function Unexpired(running: map<string, nat>, duration: nat, now: nat): map<string, nat>
  {
    map q | q in running && !MarkExpired(running[q], duration, now) :: running[q]
  }

  ghost predicate Enabled(s: State, e: Event)
  {
    match e
    case Tick(t) => s.clock <= t
    case Accept(id, query) => s.phase.Idle? && id != "" && query != ""
    case BeginRun(keys) => s.phase.Idle? && Lists(keys, s.pending.Keys)
    case Pop => s.phase.Taking? && s.phase.queue != []
    case Check => s.phase.Popped?
    case Complete(_) => s.phase.Executing?
    case Flush(_) => s.phase.Taking? && s.phase.queue == []
    case Cleanup => s.phase.Idle?
    case Crash => !s.phase.Down?
    case Restart => s.phase.Down?
  }

  ghost function Next(s: State, e: Event, duration: nat): State
    requires Enabled(s, e)
  {
    match e
    case Tick(t) => s.(clock := t)
    case Accept(id, query) => s.(pending := s.pending[id := query])
    case BeginRun(keys) => s.(phase := Taking(keys))
    case Pop =>
      var id := s.phase.queue[0];
      var r := Request(id, if id in s.pending then s.pending[id] else "");
      s.(pending := s.pending - {id}, phase := Popped(r, s.phase.queue[1..]), popped := s.popped + multiset{r})
    case Check =>
      var r := s.phase.request;
      if IsDenied(s.running, r.query, duration, s.clock)
      then s.(results := s.results + [Denied(r)], phase := Taking(s.phase.queue))
      else s.(running := Mark(s.running, r.query, s.clock), phase := Executing(r, s.phase.queue))
    case Complete(output) =>
      var r := s.phase.request;
      s.(running := s.running - {r.query}, results := s.results + [Ran(r, output)], phase := Taking(s.phase.queue))
    case Flush(ok) =>
      if ok then s.(phase := Idle, results := [], written := s.written + Requests(s.results))
      else s.(phase := Idle)
    case Cleanup => s.(running := Unexpired(s.running, duration, s.clock))
    case Crash => s.(phase := Down, results := [])
    case Restart => s.(phase := Idle)
  }

  /** The step starts executing a query with this text. */
  predicate Starts(s: State, e: Event, duration: nat, query: string)
  {
    e.Check? && s.phase.Popped? && s.phase.request.query == query
    && !IsDenied(s.running, query, duration, s.clock)
  }

  function Requests(rs: seq<QueryResult>): multiset<Request>
  {
    if rs == [] then multiset{} else Requests(rs[..|rs| - 1]) + multiset{rs[|rs| - 1].request}
  }

  ghost predicate Possible(s: State, es: seq<Event>, duration: nat)
    decreases |es|
  {
    es == [] || (Enabled(s, es[0]) && Possible(Next(s, es[0], duration), es[1..], duration))
  }

  ghost function After(s: State, es: seq<Event>, duration: nat): State
    requires Possible(s, es, duration)
    decreases |es|
  {
    if es == [] then s else After(Next(s, es[0], duration), es[1..], duration)
  }

  // ----------------------------------------------------------- crash protocol

  /** The mark of a query that nobody is executing. */
  ghost predicate Marked(s: State, query: string, ts: nat)
  {
    && query in s.running && s.running[query] == ts
    && !(s.phase.Executing? && s.phase.request.query == query)
  }

  ghost predicate StartsOnlyAfter(s: State, es: seq<Event>, duration: nat, query: string, limit: nat)
    requires Possible(s, es, duration)
    decreases |es|
  {
    es == [] ||
    ((Starts(s, es[0], duration, query) ==> s.clock > limit)
     && StartsOnlyAfter(Next(s, es[0], duration), es[1..], duration, query, limit))
  }

  lemma {:induction false} StepKeepsMark(s: State, e: Event, duration: nat, query: string, ts: nat)
    requires Enabled(s, e) && Marked(s, query, ts) && s.clock <= ts + duration
    ensures Marked(Next(s, e, duration), query, ts) && !Starts(s, e, duration, query)
  {
  }

  lemma {:induction false} LateStarts(s: State, es: seq<Event>, duration: nat, query: string, limit: nat)
    requires Possible(s, es, duration) && s.clock > limit
    ensures StartsOnlyAfter(s, es, duration, query, limit)
    decreases |es|
  {
    if es != [] { LateStarts(Next(s, es[0], duration), es[1..], duration, query, limit); }
  }

  /** A mark nobody is working on holds its query back, through any crashes,
      restarts and cleanups, until the clock passes the mark plus the duration. */
  lemma {:induction false} MarkHoldsBack(s: State, es: seq<Event>, duration: nat, query: string, ts: nat)
    requires Possible(s, es, duration) && Marked(s, query, ts)
    ensures StartsOnlyAfter(s, es, duration, query, ts + duration)
    decreases |es|
  {
    if s.clock > ts + duration {
      LateStarts(s, es, duration, query, ts + duration);
    } else if es != [] {
      StepKeepsMark(s, es[0], duration, query, ts);
      MarkHoldsBack(Next(s, es[0], duration), es[1..], duration, query, ts);
    }
  }

  /** Crash protocol: a query that starts with a fresh mark at time `s.clock` and
      whose process dies before it finishes is not executed again, in any
      continuation, until the clock exceeds that time plus the duration. */
  lemma {:induction false} CrashedQueryIsHeldBack(s: State, died: nat, es: seq<Event>, duration: nat)
    requires Enabled(s, Check) && s.phase.request.query !in s.running && s.clock <= died
    ensures var running := Next(Next(s, Check, duration), Tick(died), duration);
            running.phase == Executing(s.phase.request, s.phase.queue)
    ensures var down := Next(Next(Next(s, Check, duration), Tick(died), duration), Crash, duration);
            Possible(down, es, duration) ==>
              StartsOnlyAfter(down, es, duration, s.phase.request.query, s.clock + duration)
  {
    var down := Next(Next(Next(s, Check, duration), Tick(died), duration), Crash, duration);
    if Possible(down, es, duration) {
      MarkHoldsBack(down, es, duration, s.phase.request.query, s.clock);
    }
  }

  /** An expired mark is not renewed when its query runs again, so a crash in
      that second execution is held back exactly while the old mark still is:
      not at all. */
  lemma {:induction false} StaleMarkIsNotRenewed(s: State, duration: nat, later: nat)
    requires Enabled(s, Check) && s.phase.request.query in s.running && s.clock <= later
    requires MarkExpired(s.running[s.phase.request.query], duration, s.clock)
    ensures var q := s.phase.request.query;
            var crashed := Next(Next(Next(s, Check, duration), Crash, duration), Tick(later), duration);
            && Next(s, Check, duration).phase.Executing?
            && crashed.running[q] == s.running[q]
            && !IsDenied(crashed.running, q, duration, later)
  {
  }

  /** A crash loses memory and nothing in the database; a restart changes neither. */
  lemma {:induction false} CrashKeepsDatabase(s: State, duration: nat)
    requires !s.phase.Down?
    ensures var down := Next(s, Crash, duration);
            && down.pending == s.pending && down.running == s.running && down.clock == s.clock
            && down.results == [] && down.phase == Down
            && Next(down, Restart, duration) == down.(phase := Idle)
  {
  }

  // ------------------------------------------------------------- conservation

  function InHand(p: Phase): multiset<Request>
  {
    if p.Popped? || p.Executing? then multiset{p.request} else multiset{}
  }

  function Queue(p: Phase): seq<string>
  {
    if p.Taking? || p.Popped? || p.Executing? then p.queue else []
  }

  /** Every popped request is in exactly one place. */
  ghost predicate Accounted(s: State)
  {
    s.popped == s.written + Requests(s.results) + InHand(s.phase)
  }

  /** While requests are being taken, the pending ones are exactly those queued. */
  ghost predicate QueueIsPending(s: State)
  {
    var q := Queue(s.phase);
    s.phase.Taking? || s.phase.Popped? || s.phase.Executing? ==>
      && (forall id :: id in s.pending <==> id in q)
      && (forall i, j :: 0 <= i < j < |q| ==> q[i] != q[j])
  }

  ghost predicate Conserved(s: State) { Accounted(s) && QueueIsPending(s) }

  lemma {:induction false} RequestsSnoc(rs: seq<QueryResult>, r: QueryResult)
    ensures Requests(rs + [r]) == Requests(rs) + multiset{r.request}
  {
    assert (rs + [r])[..|rs|] == rs;
  }

  lemma {:induction false} DistinctKeys(keys: seq<string>)
    requires Ascending(keys)
    ensures forall i, j :: 0 <= i < j < |keys| ==> keys[i] != keys[j]
  {
    forall i, j | 0 <= i < j < |keys| ensures keys[i] != keys[j] { BeforeIrreflexive(keys[i]); }
  }

  lemma {:induction false} Regroup(w: multiset<Request>, r: multiset<Request>, x: multiset<Request>)
    ensures w + r + x == w + (r + x) + multiset{}
    ensures w + r + multiset{} == (w + r) + multiset{} + multiset{}
    ensures (w + r + multiset{}) + x == w + r + x
  {
  }

  lemma {:induction false} PopAccounts(s: State, e: Event, duration: nat)
    requires Accounted(s) && Enabled(s, e) && e.Pop?
    ensures Accounted(Next(s, e, duration))
  {
    Regroup(s.written, Requests(s.results), multiset{Next(s, e, duration).phase.request});
  }

  lemma {:induction false} CheckAccounts(s: State, e: Event, duration: nat)
    requires Accounted(s) && Enabled(s, e) && e.Check?
    ensures Accounted(Next(s, e, duration))
  {
    hide Requests, IsDenied, Mark;
    RequestsSnoc(s.results, Denied(s.phase.request));
    Regroup(s.written, Requests(s.results), multiset{s.phase.request});
  }

  lemma {:induction false} CompleteAccounts(s: State, e: Event, duration: nat)
    requires Accounted(s) && Enabled(s, e) && e.Complete?
    ensures Accounted(Next(s, e, duration))
  {
    hide Requests;
    RequestsSnoc(s.results, Ran(s.phase.request, e.output));
    Regroup(s.written, Requests(s.results), multiset{s.phase.request});
  }

  lemma {:induction false} FlushAccounts(s: State, e: Event, duration: nat)
    requires Accounted(s) && Enabled(s, e) && e.Flush?
    ensures Accounted(Next(s, e, duration))
  {
    Regroup(s.written, Requests(s.results), multiset{});
  }

  lemma {:induction false} StepAccounts(s: State, e: Event, duration: nat)
    requires Accounted(s) && Enabled(s, e) && !e.Crash?
    ensures Accounted(Next(s, e, duration))
  {
    if e.Pop? {
      PopAccounts(s, e, duration);
    } else if e.Check? {
      CheckAccounts(s, e, duration);
    } else if e.Complete? {
      CompleteAccounts(s, e, duration);
    } else if e.Flush? {
      FlushAccounts(s, e, duration);
    }
  }

  lemma {:induction false} StepKeepsQueue(s: State, e: Event, duration: nat)
    requires QueueIsPending(s) && Enabled(s, e) && !e.Crash?
    ensures QueueIsPending(Next(s, e, duration))
  {
    if e.BeginRun? {
      DistinctKeys(e.keys);
    } else if e.Pop? {
      var q := s.phase.queue;
      forall id ensures id in q <==> id == q[0] || id in q[1..] {
        assert q == [q[0]] + q[1..];
      }
    }
  }

  lemma {:induction false} StepConserves(s: State, e: Event, duration: nat)
    requires Conserved(s) && Enabled(s, e) && !e.Crash?
    ensures Conserved(Next(s, e, duration))
  {
    StepAccounts(s, e, duration);
    StepKeepsQueue(s, e, duration);
  }

  /** Result conservation: in every crash-free run from a conserving state, each
      request popped from the pending set is, counted once, written, waiting in
      the results, or being worked on; and when a run of the queue returns
      nothing is pending. */
  lemma {:induction false} RunsConserve(s: State, es: seq<Event>, duration: nat)
    requires Conserved(s) && Possible(s, es, duration)
    requires forall i :: 0 <= i < |es| ==> !es[i].Crash?
    ensures Conserved(After(s, es, duration))
    ensures var t := After(s, es, duration);
            t.phase.Taking? && t.phase.queue == [] ==> t.pending == map[] && t.popped == t.written + Requests(t.results)
    decreases |es|
  {
    if es != [] {
      StepConserves(s, es[0], duration);
      RunsConserve(Next(s, es[0], duration), es[1..], duration);
    }
  }

  /** A process that has just come up, on any database. */
  function NewService(pending: map<string, string>, running: map<string, nat>, clock: nat): State
  {
    State(pending, running, [], Idle, clock, multiset{}, multiset{})
  }

  /** Conservation in every crash-free run of a process, from its start on. */
  lemma {:induction false} ServiceConserves(pending: map<string, string>, running: map<string, nat>, clock: nat,
                                            es: seq<Event>, duration: nat)
    requires Possible(NewService(pending, running, clock), es, duration)
    requires forall i :: 0 <= i < |es| ==> !es[i].Crash?
    ensures Conserved(After(NewService(pending, running, clock), es, duration))
  {
    assert Conserved(NewService(pending, running, clock));
    RunsConserve(NewService(pending, running, clock), es, duration);
  }

  /** Results leave memory only by a successful write, all together. */
  lemma {:induction false} ResultsStayUntilWritten(s: State, e: Event, duration: nat)
    requires Enabled(s, e) && !e.Crash?
    ensures var t := Next(s, e, duration);
            if e == Flush(true) then t.results == [] && t.written == s.written + Requests(s.results)
            else s.results <= t.results && |t.results| <= |s.results| + 1 && t.written == s.written
  {
  }

  // ----------------------------------------------------------- implementation

  /** One request as `runQueries` treats it: the marks after it and its result. */
  function Treat(running: map<string, nat>, r: Request, duration: nat, now: nat, output: string)
    : (map<string, nat>, QueryResult)
  {
    if IsDenied(running, r.query, duration, now) then (running, Denied(r))
    else (Mark(running, r.query, now) - {r.query}, Ran(r, output))
  }

  /** All requests of a key scan in turn, with the clock and the query's output
      at each of them. */
  function TreatAll(pending: map<string, string>, running: map<string, nat>, keys: seq<string>, duration: nat,
                    times: seq<nat>, outputs: seq<string>): (map<string, nat>, seq<QueryResult>)
    requires |times| == |outputs| == |keys| && forall k :: k in keys ==> k in pending
  {
    if keys == [] then (running, [])
    else
      var n := |keys| - 1;
      var (marks, done) := TreatAll(pending, running, keys[..n], duration, times[..n], outputs[..n]);
      var (marks', result) := Treat(marks, Request(keys[n], pending[keys[n]]), duration, times[n], outputs[n]);
      (marks', done + [result])
  }

  lemma {:induction false} TreatAllStep(pending: map<string, string>, running: map<string, nat>, keys: seq<string>,
                                        duration: nat, times: seq<nat>, outputs: seq<string>, i: nat)
    requires |times| == |outputs| == |keys| && (forall k :: k in keys ==> k in pending) && i < |keys|
    ensures var (marks, done) := TreatAll(pending, running, keys[..i], duration, times[..i], outputs[..i]);
            var (marks', result) := Treat(marks, Request(keys[i], pending[keys[i]]), duration, times[i], outputs[i]);
            TreatAll(pending, running, keys[..i + 1], duration, times[..i + 1], outputs[..i + 1]) ==
              (marks', done + [result])
  {
    assert keys[..i + 1][..i] == keys[..i];
    assert times[..i + 1][..i] == times[..i] && outputs[..i + 1][..i] == outputs[..i];
  }

  lemma {:induction false} NothingTreated(pending: map<string, string>, running: map<string, nat>, duration: nat)
    ensures TreatAll(pending, running, [], duration, [], []) == (running, [])
  {
  }

  /** Every pending request gets exactly one result, in key order. */
  lemma {:induction false} EachAnsweredOnce(pending: map<string, string>, running: map<string, nat>, keys: seq<string>,
                                            duration: nat, times: seq<nat>, outputs: seq<string>)
    requires |times| == |outputs| == |keys| && forall k :: k in keys ==> k in pending
    ensures var done := TreatAll(pending, running, keys, duration, times, outputs).1;
            |done| == |keys| && forall i :: 0 <= i < |keys| ==> done[i].request == Request(keys[i], pending[keys[i]])
  {
    if keys != [] {
      var n := |keys| - 1;
      EachAnsweredOnce(pending, running, keys[..n], duration, times[..n], outputs[..n]);
    }
  }

  /** The marks once all requests are treated: those of before, save the ones of
      queries that were executed because their mark had expired. */
  lemma {:induction false} MarksAre(pending: map<string, string>, running: map<string, nat>, keys: seq<string>,
                                    duration: nat, times: seq<nat>, outputs: seq<string>, q: string)
    requires |times| == |outputs| == |keys| && forall k :: k in keys ==> k in pending
    ensures var marks := TreatAll(pending, running, keys, duration, times, outputs).0;
            && (q in marks ==> q in running && marks[q] == running[q])
            && (q in marks <==>
                 q in running
                 && forall j :: 0 <= j < |keys| && pending[keys[j]] == q ==> times[j] <= running[q] + duration)
  {
    if keys != [] {
      var n := |keys| - 1;
      assert forall j :: 0 <= j < n ==> keys[..n][j] == keys[j] && times[..n][j] == times[j];
      MarksAre(pending, running, keys[..n], duration, times[..n], outputs[..n], q);
    }
  }

  /** What every request is answered: with the clock not going backwards, a refusal
      exactly when its query was marked before the loop and the mark has not expired,
      and otherwise what the query returned. */
  lemma {:induction false} AnswersAre(pending: map<string, string>, running: map<string, nat>, keys: seq<string>,
                                      duration: nat, times: seq<nat>, outputs: seq<string>)
    requires |times| == |outputs| == |keys| && Nondecreasing(times) && forall k :: k in keys ==> k in pending
    ensures var done := TreatAll(pending, running, keys, duration, times, outputs).1;
            && |done| == |keys|
            && forall i :: 0 <= i < |keys| ==>
                 var q := pending[keys[i]];
                 done[i] == if q in running && times[i] <= running[q] + duration
                            then Denied(Request(keys[i], q)) else Ran(Request(keys[i], q), outputs[i])
  {
    if keys != [] {
      var n := |keys| - 1;
      assert forall j :: 0 <= j < n ==> keys[..n][j] == keys[j] && times[..n][j] == times[j];
      hide TreatAll;
      AnswersAre(pending, running, keys[..n], duration, times[..n], outputs[..n]);
      LastAnswerIs(pending, running, keys, duration, times, outputs);
    }
  }

  lemma {:induction false} LastAnswerIs(pending: map<string, string>, running: map<string, nat>, keys: seq<string>,
                                        duration: nat, times: seq<nat>, outputs: seq<string>)
    requires |times| == |outputs| == |keys| && Nondecreasing(times) && forall k :: k in keys ==> k in pending
    requires keys != []
    ensures var n := |keys| - 1;
            var q := pending[keys[n]];
            TreatAll(pending, running, keys, duration, times, outputs).1 ==
              TreatAll(pending, running, keys[..n], duration, times[..n], outputs[..n]).1 +
              [if q in running && times[n] <= running[q] + duration
               then Denied(Request(keys[n], q)) else Ran(Request(keys[n], q), outputs[n])]
  {
    var n := |keys| - 1;
    var q := pending[keys[n]];
    MarksAre(pending, running, keys[..n], duration, times[..n], outputs[..n], q);
    if q in running && times[n] <= running[q] + duration {
      forall j | 0 <= j < n && pending[keys[..n][j]] == q ensures times[..n][j] <= running[q] + duration {
        assert times[j] <= times[n];
      }
    }
  }

  /** Cleaning up removes exactly the marks whose time is past, and nothing else. */
  lemma {:induction false} CleanupRemovesExpired(s: State, duration: nat)
    requires s.phase.Idle?
    ensures var s1 := Next(s, Cleanup, duration);
            && s1 == s.(running := s1.running)
            && (forall q :: q in s1.running <==> q in s.running && s.clock <= s.running[q] + duration)
            && (forall q :: q in s1.running ==> s1.running[q] == s.running[q])
  {
  }

  lemma {:induction false} AfterConcat(s: State, a: seq<Event>, b: seq<Event>, duration: nat)
    requires Possible(s, a, duration) && Possible(After(s, a, duration), b, duration)
    ensures Possible(s, a + b, duration) && After(s, a + b, duration) == After(After(s, a, duration), b, duration)
    decreases |a|
  {
    if a == [] {
      assert a + b == b;
    } else {
      AfterConcat(Next(s, a[0], duration), a[1..], b, duration);
      assert (a + b)[0] == a[0] && (a + b)[1..] == a[1..] + b;
    }
  }

  lemma {:induction false} PlayStep(s: State, es: seq<Event>, duration: nat)
    requires es != [] && Enabled(s, es[0]) && Possible(Next(s, es[0], duration), es[1..], duration)
    ensures Possible(s, es, duration) && After(s, es, duration) == After(Next(s, es[0], duration), es[1..], duration)
  {
  }

  predicate CrashFree(es: seq<Event>) { forall i :: 0 <= i < |es| ==> !es[i].Crash? }

  lemma {:induction false} CrashFreeConcat(a: seq<Event>, b: seq<Event>)
    requires CrashFree(a) && CrashFree(b)
    ensures CrashFree(a + b)
  {
  }

  /** The protocol steps of one request whose check happens at time `now`. */
  ghost function Moves(s: State, duration: nat, now: nat, output: string): seq<Event>
    requires s.phase.Taking? && s.phase.queue != [] && s.phase.queue[0] in s.pending
  {
    var query := s.pending[s.phase.queue[0]];
    [Pop, Tick(now), Check] + if IsDenied(s.running, query, duration, now) then [] else [Complete(output)]
  }

  lemma {:induction false} MovesTreat(s: State, duration: nat, now: nat, output: string)
    requires s.phase.Taking? && s.phase.queue != [] && s.phase.queue[0] in s.pending && s.clock <= now
    ensures var es := Moves(s, duration, now, output);
            && Possible(s, es, duration) && CrashFree(es)
            && var t := After(s, es, duration);
               var r := Request(s.phase.queue[0], s.pending[s.phase.queue[0]]);
               var (marks, result) := Treat(s.running, r, duration, now, output);
               && t.pending == s.pending - {r.id} && t.running == marks && t.results == s.results + [result]
               && t.phase == Taking(s.phase.queue[1..]) && t.clock == now
  {
    hide Possible, After;
    var es := Moves(s, duration, now, output);
    var s1 := Next(s, Pop, duration);
    var s2 := Next(s1, Tick(now), duration);
    var s3 := Next(s2, Check, duration);
    assert es[0] == Pop && es[1..][0] == Tick(now) && es[2..][0] == Check;
    assert es[1..][1..] == es[2..] && es[2..][1..] == es[3..];
    if |es| == 4 {
      assert es[3..] == [Complete(output)] && es[3..][1..] == [];
      NoEvents(Next(s3, Complete(output), duration), duration);
      PlayStep(s3, es[3..], duration);
    } else {
      assert es[3..] == [];
      NoEvents(s3, duration);
    }
    PlayStep(s2, es[2..], duration);
    PlayStep(s1, es[1..], duration);
    PlayStep(s, es, duration);
  }

  lemma {:induction false} NoEvents(s: State, duration: nat)
    ensures Possible(s, [], duration) && After(s, [], duration) == s
  {
  }

  predicate Nondecreasing(times: seq<nat>)
  {
    forall i, j :: 0 <= i <= j < |times| ==> times[i] <= times[j]
  }

  /** State `t` is `s` after the first `n` requests of the loop. */
  ghost predicate Treated(s: State, t: State, keys: seq<string>, times: seq<nat>, outputs: seq<string>,
                          duration: nat, n: nat)
    requires n <= |keys| == |times| == |outputs| && forall k :: k in keys ==> k in s.pending
  {
    var (marks, done) := TreatAll(s.pending, s.running, keys[..n], duration, times[..n], outputs[..n]);
    && t.pending == s.pending - ToSet(keys[..n]) && t.running == marks && t.results == s.results + done
    && t.phase == Taking(keys[n..]) && t.clock == if n == 0 then s.clock else times[n - 1]
  }

  lemma {:induction false} TreatNext(s: State, t: State, keys: seq<string>, times: seq<nat>, outputs: seq<string>,
                                     duration: nat, n: nat)
    requires n < |keys| == |times| == |outputs| && (forall k :: k in keys ==> k in s.pending) && keys[n] !in keys[..n]
    requires Treated(s, t, keys, times, outputs, duration, n) && Nondecreasing(times) && s.clock <= times[n]
    ensures t.phase.Taking? && t.phase.queue != [] && t.phase.queue[0] in t.pending
    ensures var es := Moves(t, duration, times[n], outputs[n]);
            && Possible(t, es, duration) && CrashFree(es)
            && Treated(s, After(t, es, duration), keys, times, outputs, duration, n + 1)
  {
    hide Treat, Possible, After, TreatAll, Moves;
    assert keys[n] in keys;
    assert t.phase.queue[0] == keys[n] && t.phase.queue[1..] == keys[n + 1..];
    MovesTreat(t, duration, times[n], outputs[n]);
    TreatAllStep(s.pending, s.running, keys, duration, times, outputs, n);
    assert keys[..n + 1] == keys[..n] + [keys[n]];
  }

  /** The loop of `runQueries` is a crash-free run of the protocol, so what is
      proved of every run of the protocol holds of the loop. */
  lemma {:induction false} LoopIsARun(s: State, keys: seq<string>, times: seq<nat>, outputs: seq<string>,
                                      duration: nat, n: nat)
    returns (es: seq<Event>)
    requires s.phase == Taking(keys) && QueueIsPending(s) && n <= |keys| == |times| == |outputs|
    requires Nondecreasing(times) && forall i :: 0 <= i < n ==> s.clock <= times[i]
    ensures Possible(s, es, duration) && CrashFree(es)
    ensures forall k :: k in keys ==> k in s.pending
    ensures Treated(s, After(s, es, duration), keys, times, outputs, duration, n)
  {
    hide Possible, After, TreatAll, Moves, Treated, CrashFree;
    if n == 0 {
      es := [];
      NoSteps(s, keys, times, outputs, duration);
    } else {
      var front := LoopIsARun(s, keys, times, outputs, duration, n - 1);
      var mid := After(s, front, duration);
      assert keys[n - 1] !in keys[..n - 1] by { assert Queue(s.phase) == keys; }
      TreatNext(s, mid, keys, times, outputs, duration, n - 1);
      var more := Moves(mid, duration, times[n - 1], outputs[n - 1]);
      AfterConcat(s, front, more, duration);
      CrashFreeConcat(front, more);
      es := front + more;
    }
  }

  lemma {:induction false} NoSteps(s: State, keys: seq<string>, times: seq<nat>, outputs: seq<string>, duration: nat)
    requires s.phase == Taking(keys) && |keys| == |times| == |outputs| && forall k :: k in keys ==> k in s.pending
    ensures Possible(s, [], duration) && CrashFree([])
    ensures Treated(s, After(s, [], duration), keys, times, outputs, duration, 0)
  {
  }

  // ------------------------------------------- exactly when a crash is held back

  /** No run from here executes the query until the clock has passed `limit`. */
  ghost predicate NeverStartsUntil(s: State, duration: nat, query: string, limit: nat)
  {
    forall es :: Possible(s, es, duration) ==> StartsOnlyAfter(s, es, duration, query, limit)
  }

  /** An early start later in a run is one of the whole run. */
  lemma {:induction false} EarlyLater(s: State, es: seq<Event>, duration: nat, query: string, limit: nat)
    requires Possible(s, es, duration) && !NeverStartsUntil(After(s, es, duration), duration, query, limit)
    ensures !NeverStartsUntil(s, duration, query, limit)
    decreases |es|
  {
    if es != [] {
      EarlyLater(Next(s, es[0], duration), es[1..], duration, query, limit);
      EarlyNext(s, es[0], duration, query, limit);
    }
  }

  lemma {:induction false} EarlyNext(s: State, e: Event, duration: nat, query: string, limit: nat)
    requires Enabled(s, e) && !NeverStartsUntil(Next(s, e, duration), duration, query, limit)
    ensures !NeverStartsUntil(s, duration, query, limit)
  {
    var s1 := Next(s, e, duration);
    var es :| Possible(s1, es, duration) && !StartsOnlyAfter(s1, es, duration, query, limit);
    var all := [e] + es;
    assert all[1..] == es;
    assert Possible(s, all, duration);
    assert !StartsOnlyAfter(s, all, duration, query, limit);
  }

  lemma {:induction false} StartNow(s: State, duration: nat, query: string, limit: nat)
    requires Enabled(s, Check) && Starts(s, Check, duration, query) && s.clock <= limit
    ensures !NeverStartsUntil(s, duration, query, limit)
  {
    var es := [Check];
    assert es[1..] == [];
    assert Possible(s, es, duration);
    assert !StartsOnlyAfter(s, es, duration, query, limit);
  }

  /** Treating other requests at one moment does not bring an expired mark back. */
  lemma {:induction false} StaysExpired(pending: map<string, string>, running: map<string, nat>, keys: seq<string>,
                                        duration: nat, times: seq<nat>, outputs: seq<string>, query: string, now: nat)
    requires |times| == |outputs| == |keys| && (forall k :: k in keys ==> k in pending)
    requires (forall i :: 0 <= i < |times| ==> times[i] == now) && !IsDenied(running, query, duration, now)
    ensures !IsDenied(TreatAll(pending, running, keys, duration, times, outputs).0, query, duration, now)
  {
    if keys != [] {
      var n := |keys| - 1;
      StaysExpired(pending, running, keys[..n], duration, times[..n], outputs[..n], query, now);
    }
  }

  /** A request for the query, wherever it stands in the queue, is executed. */
  lemma {:induction false} QueuedIsStarted(s: State, keys: seq<string>, n: nat, duration: nat,
                                           query: string, limit: nat)
    requires s.phase == Taking(keys) && QueueIsPending(s) && n < |keys| && keys[n] in s.pending
    requires s.pending[keys[n]] == query && !IsDenied(s.running, query, duration, s.clock) && s.clock <= limit
    ensures !NeverStartsUntil(s, duration, query, limit)
  {
    hide NeverStartsUntil, Possible, After, TreatAll;
    var times, outputs := seq(|keys|, _ => s.clock), seq(|keys|, _ => "");
    var es := LoopIsARun(s, keys, times, outputs, duration, n);
    var t := After(s, es, duration);
    StaysExpired(s.pending, s.running, keys[..n], duration, times[..n], outputs[..n], query, s.clock);
    assert keys[n] !in keys[..n] by { assert Queue(s.phase) == keys; }
    assert t.phase.queue[0] == keys[n];
    StartNow(Next(t, Pop, duration), duration, query, limit);
    EarlyNext(t, Pop, duration, query, limit);
    EarlyLater(s, es, duration, query, limit);
  }

  /** After a restart a query without an unexpired mark can be asked for again. */
  lemma {:induction false} AskedAgain(s: State, duration: nat, query: string, limit: nat)
    requires s.phase.Down? && query != "" && !IsDenied(s.running, query, duration, s.clock) && s.clock <= limit
    ensures !NeverStartsUntil(s, duration, query, limit)
  {
    hide NeverStartsUntil;
    var id := "a";
    var s1 := Next(s, Restart, duration);
    var s2 := Next(s1, Accept(id, query), duration);
    var keys := Ordered(s2.pending.Keys);
    var s3 := Next(s2, BeginRun(keys), duration);
    DistinctKeys(keys);
    assert id in keys;
    var n :| 0 <= n < |keys| && keys[n] == id;
    QueuedIsStarted(s3, keys, n, duration, query, limit);
    EarlyNext(s2, BeginRun(keys), duration, query, limit);
    EarlyNext(s1, Accept(id, query), duration, query, limit);
    EarlyNext(s, Restart, duration, query, limit);
  }

  /** A query that is executed and whose process dies is held back for the duration
      if and only if its mark was fresh, or the process lived that long. */
  lemma {:induction false} HeldBackIffFresh(s: State, died: nat, duration: nat)
    requires Enabled(s, Check) && s.phase.request.query != "" && s.clock <= died
    requires Starts(s, Check, duration, s.phase.request.query)
    ensures var down := Next(Next(Next(s, Check, duration), Tick(died), duration), Crash, duration);
            NeverStartsUntil(down, duration, s.phase.request.query, s.clock + duration) <==>
              s.phase.request.query !in s.running || died > s.clock + duration
  {
    var q, limit := s.phase.request.query, s.clock + duration;
    var down := Next(Next(Next(s, Check, duration), Tick(died), duration), Crash, duration);
    if q !in s.running {
      forall es | Possible(down, es, duration) ensures StartsOnlyAfter(down, es, duration, q, limit) {
        MarkHoldsBack(down, es, duration, q, s.clock);
      }
    } else if died > limit {
      forall es | Possible(down, es, duration) ensures StartsOnlyAfter(down, es, duration, q, limit) {
        LateStarts(down, es, duration, q, limit);
      }
    } else {
      AskedAgain(down, duration, q, limit);
    }
  }

  class Service {
    const duration: nat
    var pending: map<string, string>
    var running: map<string, nat>
    var results: seq<QueryResult>

    constructor (duration: nat, pending: map<string, string>, running: map<string, nat>)
      ensures this.duration == duration && this.pending == pending && this.running == running && results == []
    {
      this.duration, this.pending, this.running, results := duration, pending, running, [];
    }

    method PopRequest(id: string) returns (r: Request)
      modifies this`pending
      ensures r == Request(id, if id in old(pending) then old(pending)[id] else "")
      ensures pending == old(pending) - {id}
    {
      r := Request(id, if id in pending then pending[id] else "");
      pending := pending - {id};
    }

    method CheckAndSetAsRunning(query: string, now: nat) returns (denylisted: bool)
      modifies this`running
      ensures denylisted <==> query in old(running) && now <= old(running)[query] + duration
      ensures running == if query in old(running) then old(running) else old(running)[query := now]
    {
      if query in running {
        return !MarkExpired(running[query], duration, now);
      }
      running := running[query := now];
      return false;
    }

    /** Execute, or refuse, one popped request. */
    method RunOne(r: Request, now: nat, output: string)
      modifies this`running, this`results
      ensures if r.query in old(running) && now <= old(running)[r.query] + duration
              then running == old(running) && results == old(results) + [Denied(r)]
              else running == old(running) - {r.query} && results == old(results) + [Ran(r, output)]
      ensures var (marks, result) := Treat(old(running), r, duration, now, output);
              running == marks && results == old(results) + [result]
    {
      var denylisted := CheckAndSetAsRunning(r.query, now);
      if denylisted {
        results := results + [Denied(r)];
        return;
      }
      running := running - {r.query};
      results := results + [Ran(r, output)];
    }

    /** Send everything; keep it all when the write fails. */
    method FlushCompleted(writeOk: bool) returns (sent: seq<QueryResult>)
      modifies this`results
      ensures sent + results == old(results)
      ensures if writeOk then results == [] else sent == []
    {
      sent := [];
      if results == [] {
        return;
      }
      if writeOk {
        sent := results;
        results := [];
      }
    }

    method GetPendingQueries() returns (keys: seq<string>)
      ensures Lists(keys, pending.Keys) && |keys| == |pending|
    {
      keys := OrderedKeys(pending.Keys);
      ListingLength(keys, pending.Keys);
    }

    /** The loop over the scanned keys. */
    method RunKeys(keys: seq<string>, times: seq<nat>, outputs: seq<string>)
      requires |times| == |outputs| == |keys| && Ascending(keys) && forall k :: k in keys ==> k in pending
      modifies this
      ensures pending == old(pending) - ToSet(keys)
      ensures var (marks, done) := TreatAll(old(pending), old(running), keys, duration, times, outputs);
              running == marks && results == old(results) + done
    {
      hide Treat, TreatAll, Before, ToSet;
      DistinctKeys(keys);
      MinusNothing(pending);
      NothingTreated(pending, running, duration);
      for i := 0 to |keys|
        invariant pending == old(pending) - ToSet(keys[..i])
        invariant var (marks, done) :=
                    TreatAll(old(pending), old(running), keys[..i], duration, times[..i], outputs[..i]);
                  running == marks && results == old(results) + done
      {
        assert keys[i] in keys && keys[i] !in keys[..i];
        StillThere(old(pending), keys[..i], keys[i]);
        var r := PopRequest(keys[i]);
        RunOne(r, times[i], outputs[i]);
        TreatAllStep(old(pending), old(running), keys, duration, times, outputs, i);
        MinusSnoc(old(pending), keys[..i], keys[i]);
        SeqAssoc(old(results), TreatAll(old(pending), old(running), keys[..i], duration, times[..i], outputs[..i]).1,
                 [results[|results| - 1]]);
        assert keys[..i + 1] == keys[..i] + [keys[i]];
      }
      assert keys[..|keys|] == keys && times[..|keys|] == times && outputs[..|keys|] == outputs;
    }

    /** Run every pending query in key order, then flush. */
    method RunQueries(times: seq<nat>, outputs: seq<string>, writeOk: bool)
      returns (keys: seq<string>, sent: seq<QueryResult>)
      requires |times| == |outputs| == |pending|
      modifies this
      ensures Lists(keys, old(pending).Keys) && |keys| == |times|
      ensures pending == map[]
      ensures var (marks, done) := TreatAll(old(pending), old(running), keys, duration, times, outputs);
              && running == marks
              && sent + results == old(results) + done
              && (if writeOk then results == [] else sent == [])
    {
      keys := GetPendingQueries();
      RunKeys(keys, times, outputs);
      assert ToSet(keys) == old(pending).Keys;
      sent := FlushCompleted(writeOk);
    }

    method CleanupExpiredRunningQueries(now: nat)
      modifies this`running
      ensures running == Unexpired(old(running), duration, now)
      ensures forall q :: q in running <==> q in old(running) && now <= old(running)[q] + duration
    {
      var keys := OrderedKeys(running.Keys);
      for i := 0 to |keys|
        invariant forall q :: q in running <==>
                    q in old(running) && (q in keys[..i] ==> !MarkExpired(old(running)[q], duration, now))
        invariant forall q :: q in running ==> running[q] == old(running)[q]
      {
        if keys[i] in running && MarkExpired(running[keys[i]], duration, now) {
          running := running - {keys[i]};
        }
      }
    }
  }

  lemma {:induction false} ListingLength(ks: seq<string>, keys: set<string>)
    requires Lists(ks, keys)
    ensures |ks| == |keys|
  {
    if ks != [] {
      var n := |ks| - 1;
      DistinctKeys(ks);
      assert ks[n] in ks;
      forall k ensures k in ks[..n] <==> k in keys - {ks[n]} {
        if k in keys - {ks[n]} { assert k in ks; }
        if k in ks[..n] { assert k in ks; }
      }
      ListingLength(ks[..n], keys - {ks[n]});
    } else {
      assert keys == {};
    }
  }
}
