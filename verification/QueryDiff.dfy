/** Differential results of scheduled queries: what is stored between runs, what
    is logged, and how a consumer rebuilds the current result from the log. */
module QueryDiff {

  datatype Row = Row(columns: map<string, string>)

  /** The stored keys of all scheduled queries, by query name. */
  datatype Db = Db(
    results: map<string, multiset<Row>>,
    epochs: map<string, nat>,
    counters: map<string, nat>,
    sqls: map<string, string>)

  const NoResults := Db(map[], map[], map[], map[])

  /** One execution of a scheduled query. */
  datatype QueryRun = QueryRun(name: string, sql: string, epoch: nat, rows: seq<Row>)

  /** A logged differential. */
  datatype Item = Item(name: string, epoch: nat, counter: nat, added: multiset<Row>, removed: multiset<Row>)

  // ----------------------------------------------------------- specification

  function PreviousEpoch(db: Db, name: string): nat
  {
    if name in db.epochs then db.epochs[name] else 0
  }

  predicate NewEpoch(db: Db, run: QueryRun)
  {
    run.name !in db.results || PreviousEpoch(db, run.name) != run.epoch
  }

  function NextCounter(db: Db, name: string, reset: bool): nat
  {
    if reset then 0 else if name in db.counters then db.counters[name] + 1 else 0
  }

  /** The query text is saved on its first run, and when it changes within an epoch. */
  predicate SavesSql(db: Db, run: QueryRun)
  {
    run.name !in db.results || (PreviousEpoch(db, run.name) == run.epoch && PreviousSql(db, run.name) != run.sql)
  }

  function PreviousSql(db: Db, name: string): string
  {
    if name in db.sqls then db.sqls[name] else ""
  }

  function SaveSql(db: Db, run: QueryRun): Db
  {
    if SavesSql(db, run)
    then db.(sqls := db.sqls[run.name := run.sql])
    else db
  }

  function Added(db: Db, run: QueryRun): multiset<Row>
  {
    if NewEpoch(db, run) then multiset(run.rows) else multiset(run.rows) - db.results[run.name]
  }

  function Removed(db: Db, run: QueryRun): multiset<Row>
  {
    if NewEpoch(db, run) then multiset{} else db.results[run.name] - multiset(run.rows)
  }

  predicate Changes(db: Db, run: QueryRun)
  {
    NewEpoch(db, run) || Added(db, run) != multiset{} || Removed(db, run) != multiset{}
  }

  function StoreRun(db: Db, run: QueryRun): Db
  {
    var db1 := SaveSql(db, run);
    if Changes(db, run) then
      db1.(results := db.results[run.name := multiset(run.rows)],
           epochs := db.epochs[run.name := run.epoch],
           counters := db.counters[run.name := NextCounter(db, run.name, NewEpoch(db, run))])
    else db1
  }

  /** What a run logs: its differential, and an empty one only at a reset. */
  function Emit(db: Db, run: QueryRun, reportRemoved: bool): seq<Item>
  {
    var counter := if Changes(db, run) then NextCounter(db, run.name, NewEpoch(db, run)) else 1;
    var added, removed := Added(db, run), if reportRemoved then Removed(db, run) else multiset{};
    if added == multiset{} && removed == multiset{} && counter != 0 then []
    else [Item(run.name, run.epoch, counter, added, removed)]
  }

  // ----------------------------------------------------------------- consumer

  type View = map<string, multiset<Row>>

  function Seen(view: View, name: string): multiset<Row>
  {
    if name in view then view[name] else multiset{}
  }

  function Replay(view: View, item: Item): View
  {
    view[item.name := if item.counter == 0 then item.added
                      else Seen(view, item.name) - item.removed + item.added]
  }

  function ReplayAll(log: seq<Item>): View
  {
    if log == [] then map[] else Replay(ReplayAll(log[..|log| - 1]), log[|log| - 1])
  }

  // --------------------------------------------------------------------- runs

  function DbAfter(runs: seq<QueryRun>): Db
  {
    if runs == [] then NoResults else StoreRun(DbAfter(runs[..|runs| - 1]), runs[|runs| - 1])
  }

  function LogOf(runs: seq<QueryRun>): seq<Item>
  {
    if runs == [] then []
    else
      var n := |runs| - 1;
      LogOf(runs[..n]) + Emit(DbAfter(runs[..n]), runs[n], true)
  }

  /** The most recent result of every query. */
  function Current(runs: seq<QueryRun>): View
  {
    if runs == [] then map[]
    else
      var n := |runs| - 1;
      Current(runs[..n])[runs[n].name := multiset(runs[n].rows)]
  }

  /** The last epoch and counter logged for every query. */
  function Sent(log: seq<Item>): map<string, (nat, nat)>
  {
    if log == [] then map[]
    else
      var n := |log| - 1;
      Sent(log[..n])[log[n].name := (log[n].epoch, log[n].counter)]
  }

  /** The database holds what was last logged. */
  ghost predicate InStep(db: Db, view: View, sent: map<string, (nat, nat)>)
  {
    && db.results == view
    && db.epochs.Keys == db.counters.Keys == db.results.Keys == sent.Keys
    && forall name :: name in sent ==> sent[name] == (db.epochs[name], db.counters[name])
  }

  /** Subtracting what was removed and adding what was added. */
  lemma {:induction false} Patch(was: multiset<Row>, now: multiset<Row>)
    ensures was - (was - now) + (now - was) == now
    ensures was - now == multiset{} && now - was == multiset{} ==> was == now
    ensures was <= now ==> was + (now - was) == now
  {
    if was - now == multiset{} && now - was == multiset{} {
      forall r ensures was[r] == now[r] { assert (was - now)[r] == 0 && (now - was)[r] == 0; }
    }
  }

  lemma {:induction false} ResetReplays(db: Db, run: QueryRun, view: View)
    requires NewEpoch(db, run)
    ensures Emit(db, run, true) == [Item(run.name, run.epoch, 0, multiset(run.rows), multiset{})]
    ensures ViewAfter(view, Emit(db, run, true)) == view[run.name := multiset(run.rows)]
  {
  }

  lemma {:induction false} DifferenceReplays(db: Db, run: QueryRun, view: View)
    requires db.results == view && !NewEpoch(db, run) && Changes(db, run) && run.name in db.counters
    ensures |Emit(db, run, true)| == 1
    ensures ViewAfter(view, Emit(db, run, true)) == view[run.name := multiset(run.rows)]
  {
    var was, now := view[run.name], multiset(run.rows);
    assert Emit(db, run, true) == [Item(run.name, run.epoch, db.counters[run.name] + 1, now - was, was - now)];
    Patch(was, now);
  }

  lemma {:induction false} NoChangeReplays(db: Db, run: QueryRun)
    requires !Changes(db, run)
    ensures Emit(db, run, true) == []
    ensures run.name in db.results && db.results[run.name] == multiset(run.rows)
  {
    Patch(db.results[run.name], multiset(run.rows));
  }

  lemma {:induction false} EmitReplays(db: Db, run: QueryRun, view: View)
    requires db.results == view && (run.name in db.results ==> run.name in db.counters)
    ensures |Emit(db, run, true)| <= 1
    ensures ViewAfter(view, Emit(db, run, true)) == view[run.name := multiset(run.rows)]
    ensures StoreRun(db, run).results == view[run.name := multiset(run.rows)]
  {
    if NewEpoch(db, run) {
      ResetReplays(db, run, view);
    } else if Changes(db, run) {
      DifferenceReplays(db, run, view);
    } else {
      NoChangeReplays(db, run);
      assert view[run.name := view[run.name]] == view;
    }
  }

  lemma {:induction false} EmitKeepsStep(db: Db, run: QueryRun, view: View, sent: map<string, (nat, nat)>)
    requires InStep(db, view, sent)
    ensures var items := Emit(db, run, true);
            var view1 := ViewAfter(view, items);
            var sent1 := if items == [] then sent else sent[run.name := (items[0].epoch, items[0].counter)];
            InStep(StoreRun(db, run), view1, sent1)
  {
    hide Emit, StoreRun, Changes, ViewAfter;
    EmitReplays(db, run, view);
    StoredShape(db, run);
    EmittedShape(db, run);
  }

  lemma {:induction false} StoredShape(db: Db, run: QueryRun)
    ensures var db1 := StoreRun(db, run);
            if Changes(db, run) then
              && db1.results == db.results[run.name := multiset(run.rows)]
              && db1.epochs == db.epochs[run.name := run.epoch]
              && db1.counters == db.counters[run.name := NextCounter(db, run.name, NewEpoch(db, run))]
            else
              db1.results == db.results && db1.epochs == db.epochs && db1.counters == db.counters
  {
    hide Changes, NextCounter, NewEpoch;
  }

  lemma {:induction false} EmittedShape(db: Db, run: QueryRun)
    ensures if Changes(db, run) then
              && |Emit(db, run, true)| == 1
              && Emit(db, run, true)[0].epoch == run.epoch
              && Emit(db, run, true)[0].counter == NextCounter(db, run.name, NewEpoch(db, run))
            else Emit(db, run, true) == []
  {
    hide Added, Removed;
  }

  lemma {:induction false} ReplaySnoc(log: seq<Item>, items: seq<Item>)
    requires |items| <= 1
    ensures ReplayAll(log + items) == ViewAfter(ReplayAll(log), items)
    ensures Sent(log + items) ==
              if items == [] then Sent(log) else Sent(log)[items[0].name := (items[0].epoch, items[0].counter)]
  {
    if items == [] {
      assert log + items == log;
    } else {
      assert (log + items)[..|log + items| - 1] == log;
    }
  }

  lemma {:induction false} RunsInStep(runs: seq<QueryRun>)
    ensures InStep(DbAfter(runs), ReplayAll(LogOf(runs)), Sent(LogOf(runs)))
    ensures ReplayAll(LogOf(runs)) == Current(runs)
  {
    if runs != [] {
      var n := |runs| - 1;
      var front, run := runs[..n], runs[n];
      RunsInStep(front);
      var db, log := DbAfter(front), LogOf(front);
      EmitReplays(db, run, ReplayAll(log));
      EmitKeepsStep(db, run, ReplayAll(log), Sent(log));
      ReplaySnoc(log, Emit(db, run, true));
    }
  }

  /** Differential replay: after any sequence of results, epochs and query texts of
      any number of queries, a consumer of the log alone holds every query's
      current result, which is also what the database stores. */
  lemma {:induction false} ReplayRebuildsResults(runs: seq<QueryRun>)
    ensures ReplayAll(LogOf(runs)) == Current(runs) == DbAfter(runs).results
  {
    RunsInStep(runs);
  }

  /** Counters count 0, 1, 2, ... within an epoch, without a gap, and restart at 0
      exactly on the first run of a query and on a change of its epoch. */
  ghost predicate CountsUp(log: seq<Item>)
  {
    forall i :: 0 <= i < |log| ==>
      var prior := Sent(log[..i]);
      var it := log[i];
      if it.name in prior && prior[it.name].0 == it.epoch
      then it.counter == prior[it.name].1 + 1
      else it.counter == 0
  }

  lemma {:induction false} CountersHaveNoGap(runs: seq<QueryRun>)
    ensures CountsUp(LogOf(runs))
  {
    if runs != [] {
      var n := |runs| - 1;
      CountersHaveNoGap(runs[..n]);
      RunsInStep(runs[..n]);
      var log, items := LogOf(runs[..n]), Emit(DbAfter(runs[..n]), runs[n], true);
      var all := LogOf(runs);
      assert all == log + items;
      forall i | 0 <= i < |all|
        ensures var prior := Sent(all[..i]);
                var it := all[i];
                if it.name in prior && prior[it.name].0 == it.epoch
                then it.counter == prior[it.name].1 + 1
                else it.counter == 0
      {
        if i < |log| {
          assert all[..i] == log[..i] && all[i] == log[i];
        } else {
          assert all[..i] == log;
        }
      }
    }
  }

  /** After a run the stored query text is the one that ran, except exactly when
      a known query changed its text and its epoch in the same run. */
  lemma {:induction false} SqlIsCurrent(db: Db, run: QueryRun)
    requires run.name in db.results ==> run.name in db.sqls
    ensures run.name in StoreRun(db, run).sqls
    ensures StoreRun(db, run).sqls[run.name] == run.sql <==>
              run.name !in db.results || PreviousEpoch(db, run.name) == run.epoch || db.sqls[run.name] == run.sql
  {
  }

  /** A known query without a stored text counts as one with an empty text. */
  lemma {:induction false} MissingTextIsEmpty(db: Db, run: QueryRun)
    requires run.name in db.results && run.name !in db.sqls && PreviousEpoch(db, run.name) == run.epoch
    ensures run.name in StoreRun(db, run).sqls <==> run.sql != ""
  {
  }

  function ViewAfter(view: View, items: seq<Item>): View
    requires |items| <= 1
  {
    if items == [] then view else Replay(view, items[0])
  }

  /** Without reporting removed rows the consumer follows a run exactly when the
      run resets the stream or loses no row. */
  lemma {:induction false} ReplayWithoutRemovals(db: Db, run: QueryRun, view: View)
    requires db.results == view && (run.name in db.results ==> run.name in db.counters)
    ensures (ViewAfter(view, Emit(db, run, false)) == view[run.name := multiset(run.rows)]) <==>
            (NewEpoch(db, run) || db.results[run.name] <= multiset(run.rows))
  {
    if !NewEpoch(db, run) {
      var was, now := db.results[run.name], multiset(run.rows);
      var items := Emit(db, run, false);
      assert items == [] || items == [Item(run.name, run.epoch, db.counters[run.name] + 1, now - was, multiset{})];
      var after := ViewAfter(view, items)[run.name];
      PatchWithoutRemovals(was, now);
      assert after == was + (now - was);
      assert ViewAfter(view, items) == view[run.name := after];
    }
  }

  lemma {:induction false} PatchWithoutRemovals(was: multiset<Row>, now: multiset<Row>)
    ensures was - multiset{} == was
    ensures now - was == multiset{} ==> was + (now - was) == was
    ensures was + (now - was) == now <==> was <= now
  {
    if !(was <= now) {
      var r :| r in was && was[r] > now[r];
      assert (was + (now - was))[r] > now[r];
    }
  }

  /** Without reported removals a run logs something if and only if it resets the
      stream or adds a row, or a stored result that has no counter yet changes; what
      it logs is what it would log otherwise, removed rows aside. */
  lemma {:induction false} EmitWithoutRemovals(db: Db, run: QueryRun)
    ensures var items, full := Emit(db, run, false), Emit(db, run, true);
            && (items != [] <==> run.name !in db.results || PreviousEpoch(db, run.name) != run.epoch
                                 || !(multiset(run.rows) <= db.results[run.name])
                                 || (run.name !in db.counters && multiset(run.rows) != db.results[run.name]))
            && (items != [] ==> |items| == |full| == 1 && items[0] == full[0].(removed := multiset{}))
  {
    if NewEpoch(db, run) {
      ResetReplays(db, run, map[]);
    } else {
      var was, now := db.results[run.name], multiset(run.rows);
      Uncovered(was, now);
      Uncovered(now, was);
      EmitsDifference(db, run);
    }
  }

  lemma {:induction false} Uncovered(was: multiset<Row>, now: multiset<Row>)
    ensures now - was == multiset{} <==> now <= was
  {
    if now - was == multiset{} {
      forall r | r in now ensures now[r] <= was[r] { assert (now - was)[r] == 0; }
    } else {
      var r :| r in now - was;
    }
  }

  /** The log of runs each with its own choice of reporting removed rows. */
  function LogWith(runs: seq<QueryRun>, report: seq<bool>): seq<Item>
    requires |report| == |runs|
  {
    if runs == [] then []
    else
      var n := |runs| - 1;
      LogWith(runs[..n], report[..n]) + Emit(DbAfter(runs[..n]), runs[n], report[n])
  }

  /** Within an epoch logged counters ascend; otherwise they start at 0. */
  ghost predicate Ascends(log: seq<Item>)
  {
    forall i :: 0 <= i < |log| ==> AscendsAt(Sent(log[..i]), log[i])
  }

  predicate AscendsAt(prior: map<string, (nat, nat)>, it: Item)
  {
    if it.name in prior && prior[it.name].0 == it.epoch then it.counter > prior[it.name].1 else it.counter == 0
  }

  /** What was last logged, in any mix, has the stored epoch and a counter not above
      the stored one. */
  ghost predicate Behind(db: Db, sent: map<string, (nat, nat)>)
  {
    && sent.Keys == db.results.Keys == db.epochs.Keys == db.counters.Keys
    && forall name :: name in sent ==> sent[name].0 == db.epochs[name] && sent[name].1 <= db.counters[name]
  }

  lemma {:induction false} StepStaysBehind(db: Db, run: QueryRun, report: bool, sent: map<string, (nat, nat)>)
    requires Behind(db, sent)
    ensures var items := Emit(db, run, report);
            && |items| <= 1
            && (items != [] ==> items[0].name == run.name && AscendsAt(sent, items[0]))
            && Behind(StoreRun(db, run),
                      if items == [] then sent else sent[run.name := (items[0].epoch, items[0].counter)])
  {
    hide Emit, StoreRun, Changes;
    StoredShape(db, run);
    LoggedShape(db, run, report);
    var items, db1 := Emit(db, run, report), StoreRun(db, run);
    if items == [] {
      SilentStaysBehind(db, db1, run, sent);
    } else {
      LoggedStaysBehind(db, db1, run, sent, items[0]);
    }
  }

  lemma {:induction false} SilentStaysBehind(db: Db, db1: Db, run: QueryRun, sent: map<string, (nat, nat)>)
    requires Behind(db, sent) && run.name in db.results && db.epochs[run.name] == run.epoch
    requires || (db1.results == db.results && db1.epochs == db.epochs && db1.counters == db.counters)
             || (&& db1.results == db.results[run.name := multiset(run.rows)]
                 && db1.epochs == db.epochs[run.name := run.epoch]
                 && db1.counters == db.counters[run.name := db.counters[run.name] + 1])
    ensures Behind(db1, sent)
  {
    assert db1.epochs == db.epochs;
    assert db1.results.Keys == db.results.Keys && db1.counters.Keys == db.counters.Keys;
  }

  lemma {:induction false} LoggedStaysBehind(db: Db, db1: Db, run: QueryRun, sent: map<string, (nat, nat)>, it: Item)
    requires Behind(db, sent) && it.name == run.name && it.epoch == run.epoch
    requires it.counter == NextCounter(db, run.name, NewEpoch(db, run))
    requires db1.results == db.results[run.name := multiset(run.rows)]
    requires db1.epochs == db.epochs[run.name := run.epoch] && db1.counters == db.counters[run.name := it.counter]
    ensures AscendsAt(sent, it) && Behind(db1, sent[run.name := (it.epoch, it.counter)])
  {
  }

  /** Name, epoch and counter of what a run logs. */
  lemma {:induction false} LoggedShape(db: Db, run: QueryRun, report: bool)
    ensures var items := Emit(db, run, report);
            && |items| <= 1
            && (NewEpoch(db, run) ==> items != [])
            && (items != [] ==>
                 && Changes(db, run) && items[0].name == run.name && items[0].epoch == run.epoch
                 && items[0].counter == NextCounter(db, run.name, NewEpoch(db, run)))
  {
    hide Added, Removed;
    if !Changes(db, run) { assert Added(db, run) == multiset{} && Removed(db, run) == multiset{}; }
  }

  lemma {:induction false} NothingSent()
    ensures Ascends([]) && Behind(NoResults, Sent([]))
  {
  }

  lemma {:induction false} SentSnoc(log: seq<Item>, items: seq<Item>)
    requires |items| <= 1
    ensures Sent(log + items) ==
              if items == [] then Sent(log) else Sent(log)[items[0].name := (items[0].epoch, items[0].counter)]
  {
    ReplaySnoc(log, items);
  }

  /** With any mix of reporting and not reporting removed rows, the counters logged for
      a query strictly ascend within an epoch, and restart at 0 on its first run and
      on a change of epoch. */
  lemma {:induction false} CountersAscend(runs: seq<QueryRun>, report: seq<bool>)
    requires |report| == |runs|
    ensures Ascends(LogWith(runs, report))
    ensures Behind(DbAfter(runs), Sent(LogWith(runs, report)))
  {
    hide Emit, StoreRun, AscendsAt, Ascends, Behind, Sent;
    NothingSent();
    if runs != [] {
      var n := |runs| - 1;
      var db, log := DbAfter(runs[..n]), LogWith(runs[..n], report[..n]);
      var items := Emit(db, runs[n], report[n]);
      CountersAscend(runs[..n], report[..n]);
      StepStaysBehind(db, runs[n], report[n], Sent(log));
      SentSnoc(log, items);
      AscendsSnoc(log, items);
    }
  }

  lemma {:induction false} AscendsSnoc(log: seq<Item>, items: seq<Item>)
    requires Ascends(log) && |items| <= 1 && (items != [] ==> AscendsAt(Sent(log), items[0]))
    ensures Ascends(log + items)
  {
    hide Sent, AscendsAt;
    var all := log + items;
    forall i | 0 <= i < |all| ensures AscendsAt(Sent(all[..i]), all[i]) {
      if i < |log| {
        assert all[..i] == log[..i] && all[i] == log[i];
      } else {
        assert all[..i] == log;
      }
    }
  }

  /** A run leaves what is stored for other queries alone. */
  lemma {:induction false} OthersUntouched(db: Db, run: QueryRun, name: string)
    requires name != run.name
    ensures var db1 := StoreRun(db, run);
            && (name in db1.results <==> name in db.results) && (name in db1.epochs <==> name in db.epochs)
            && (name in db1.counters <==> name in db.counters) && (name in db1.sqls <==> name in db.sqls)
            && (name in db.results ==> db1.results[name] == db.results[name])
            && (name in db.epochs ==> db1.epochs[name] == db.epochs[name])
            && (name in db.counters ==> db1.counters[name] == db.counters[name])
            && (name in db.sqls ==> db1.sqls[name] == db.sqls[name])
  {
    hide Changes, SavesSql, NextCounter;
  }

  // --------------------------------------------------- crashes inside a run

  /** The database after the first `k` writes of a run: query text, result, epoch,
      counter. The run has not logged anything yet. */
  function Torn(db: Db, run: QueryRun, k: nat): Db
  {
    var changes, name := Changes(db, run), run.name;
    var db1 := if k >= 1 then SaveSql(db, run) else db;
    var db2 := if k >= 2 && changes then db1.(results := db.results[name := multiset(run.rows)]) else db1;
    var db3 := if k >= 3 && changes then db2.(epochs := db.epochs[name := run.epoch]) else db2;
    if k >= 4 && changes then db3.(counters := db.counters[name := NextCounter(db, name, NewEpoch(db, run))]) else db3
  }

  lemma {:induction false} TornEnds(db: Db, run: QueryRun)
    ensures Torn(db, run, 0) == db && Torn(db, run, 4) == StoreRun(db, run)
  {
  }

  /** A consumer that holds `seen` while the database holds `stored` follows a
      differential to `now`: where it differs from the database, it has too few
      rows and the new result has none. */
  ghost predicate Reconciles(seen: multiset<Row>, stored: multiset<Row>, now: multiset<Row>)
  {
    forall r :: seen[r] == stored[r] || (now[r] == 0 && seen[r] <= stored[r])
  }

  lemma {:induction false} ReconcilesIff(seen: multiset<Row>, stored: multiset<Row>, now: multiset<Row>)
    ensures seen - (stored - now) + (now - stored) == now <==> Reconciles(seen, stored, now)
    ensures stored == now ==> (Reconciles(seen, stored, now) <==> seen == now)
    ensures now - stored == now <==> stored !! now
  {
    var after := seen - (stored - now) + (now - stored);
    forall r ensures after[r] == now[r] <==> seen[r] == stored[r] || (now[r] == 0 && seen[r] <= stored[r]) {}
    if stored !! now {
      forall r ensures (now - stored)[r] == now[r] { assert stored[r] == 0 || now[r] == 0; }
    } else {
      var r :| r in stored && r in now;
      assert (now - stored)[r] < now[r];
    }
  }

  /** Whether a consumer with any view follows a run on any database: exactly on a
      reset, or when it reconciles. Without a stored counter the differential is
      taken for a reset, and must be the whole result. */
  lemma {:induction false} FollowsIff(db: Db, run: QueryRun, view: View)
    ensures var seen, now := Seen(view, run.name), multiset(run.rows);
            Seen(ViewAfter(view, Emit(db, run, true)), run.name) == now <==>
              NewEpoch(db, run) ||
              var stored := db.results[run.name];
              if run.name in db.counters then Reconciles(seen, stored, now)
              else if stored == now then seen == now else stored !! now
  {
    hide Reconciles, Emit, ViewAfter, Seen;
    if NewEpoch(db, run) {
      SeenAfter(view, Item(run.name, run.epoch, 0, multiset(run.rows), multiset{}));
      ResetReplays(db, run, view);
    } else {
      var seen, stored, now := Seen(view, run.name), db.results[run.name], multiset(run.rows);
      EmitsDifference(db, run);
      SeenAfter(view, Item(run.name, run.epoch, NextCounter(db, run.name, false), now - stored, stored - now));
      ReconcilesIff(seen, stored, now);
    }
  }

  lemma {:induction false} SeenAfter(view: View, item: Item)
    ensures Seen(ViewAfter(view, [item]), item.name) ==
              if item.counter == 0 then item.added else Seen(view, item.name) - item.removed + item.added
    ensures ViewAfter(view, []) == view
  {
  }

  /** Within an epoch a run logs the difference, when there is one. */
  lemma {:induction false} EmitsDifference(db: Db, run: QueryRun)
    requires !NewEpoch(db, run)
    ensures var stored, now := db.results[run.name], multiset(run.rows);
            Emit(db, run, true) ==
              if stored == now then []
              else [Item(run.name, run.epoch, NextCounter(db, run.name, false), now - stored, stored - now)]
  {
    hide NextCounter;
    var stored, now := db.results[run.name], multiset(run.rows);
    assert now - now == multiset{};
    Patch(stored, now);
  }

  /** A process that dies inside a run, before it logs. The consumer follows the next
      run of that query if and only if the result was not yet written, or did not
      change, or the next run resets the stream, or the consumer reconciles. */
  lemma {:induction false} CrashKeepsReplayIff(db: Db, run: QueryRun, view: View, k: nat, next: QueryRun)
    requires db.results == view && db.counters.Keys == db.results.Keys && k <= 4 && next.name == run.name
    ensures var seen, stored, now := Seen(view, run.name), multiset(run.rows), multiset(next.rows);
            var torn := Torn(db, run, k);
            Seen(ViewAfter(view, Emit(torn, next, true)), run.name) == now <==>
              || k <= 1 || !Changes(db, run) || NewEpoch(torn, next)
              || if run.name in torn.counters then Reconciles(seen, stored, now)
                 else if stored == now then seen == now else stored !! now
  {
    hide Emit, ViewAfter, NewEpoch, SavesSql;
    FollowsIff(Torn(db, run, k), next, view);
    if k <= 1 || !Changes(db, run) { StillInStep(db, run, view, k, next); }
  }

  /** A first result that was written without its epoch counts as one of epoch 0. */
  lemma {:induction false} FirstResultWithoutEpoch(db: Db, run: QueryRun, next: QueryRun)
    requires run.name !in db.results && run.name !in db.epochs && next.name == run.name
    ensures NewEpoch(Torn(db, run, 2), next) <==> next.epoch != 0
    ensures NewEpoch(Torn(db, run, 3), next) <==> next.epoch != run.epoch
  {
  }

  lemma {:induction false} StillInStep(db: Db, run: QueryRun, view: View, k: nat, next: QueryRun)
    requires db.results == view && db.counters.Keys == db.results.Keys && next.name == run.name
    requires k <= 1 || !Changes(db, run)
    ensures var torn := Torn(db, run, k);
            && torn.results == view && torn.counters == db.counters
            && (NewEpoch(torn, next) || (run.name in torn.counters && Seen(view, run.name) == torn.results[run.name]))
  {
    hide Changes, SavesSql;
  }

  /** A change stored and not logged is lost: repeating the run logs nothing. */
  lemma {:induction false} CrashBeforeLogLoses(db: Db, run: QueryRun, view: View)
    requires db.results == view && db.counters.Keys == db.results.Keys && !NewEpoch(db, run) && Changes(db, run)
    ensures Emit(Torn(db, run, 4), run, true) == [] && Seen(view, run.name) != multiset(run.rows)
  {
    hide Emit;
    TornEnds(db, run);
    StoredShape(db, run);
    EmitsDifference(Torn(db, run, 4), run);
    assert multiset(run.rows) - multiset(run.rows) == multiset{};
  }

  // ----------------------------------------------------------- implementation

  lemma {:induction false} DiffStep(was: multiset<Row>, seen: multiset<Row>, r: Row)
    ensures r in was - seen ==>
              && was - (seen + multiset{r}) == was - seen - multiset{r}
              && seen + multiset{r} - was == seen - was
    ensures r !in was - seen ==>
              && was - (seen + multiset{r}) == was - seen
              && seen + multiset{r} - was == seen - was + multiset{r}
  {
  }

  /** The row-by-row comparison of the stored and the current result. */
  method Diff(previous: multiset<Row>, current: seq<Row>) returns (added: seq<Row>, removed: seq<Row>)
    ensures multiset(added) == multiset(current) - previous
    ensures multiset(removed) == previous - multiset(current)
  {
    var left := previous;
    added := [];
    for i := 0 to |current|
      invariant left == previous - multiset(current[..i])
      invariant multiset(added) == multiset(current[..i]) - previous
    {
      assert current[..i + 1] == current[..i] + [current[i]];
      DiffStep(previous, multiset(current[..i]), current[i]);
      if current[i] in left {
        left := left - multiset{current[i]};
      } else {
        added := added + [current[i]];
      }
    }
    assert current[..|current|] == current;
    removed := Drain(left);
  }

  method Drain(bag: multiset<Row>) returns (rows: seq<Row>)
    ensures multiset(rows) == bag
  {
    rows := [];
    var left := bag;
    while left != multiset{}
      invariant multiset(rows) + left == bag
      decreases left
    {
      var r :| r in left;
      rows := rows + [r];
      left := left - multiset{r};
    }
  }

  class QueryStore {
    var results: map<string, multiset<Row>>
    var epochs: map<string, nat>
    var counters: map<string, nat>
    var sqls: map<string, string>

    ghost function Contents(): Db
      reads this
    {
      Db(results, epochs, counters, sqls)
    }

    constructor ()
      ensures Contents() == NoResults
    {
      results, epochs, counters, sqls := map[], map[], map[], map[];
    }

    /** Decide whether the run starts a new epoch; remember its query text. */
    method GetQueryStatus(run: QueryRun) returns (newEpoch: bool, newSql: bool)
      modifies this`sqls
      ensures newEpoch <==> NewEpoch(old(Contents()), run)
      ensures newSql <==> run.name !in old(results) || (!newEpoch && PreviousSql(old(Contents()), run.name) != run.sql)
      ensures Contents() == SaveSql(old(Contents()), run)
    {
      newEpoch, newSql := false, false;
      if run.name !in results {
        newEpoch, newSql := true, true;
        sqls := sqls[run.name := run.sql];
      } else if (if run.name in epochs then epochs[run.name] else 0) != run.epoch {
        newEpoch := true;
      } else if (if run.name in sqls then sqls[run.name] else "") != run.sql {
        newSql := true;
        sqls := sqls[run.name := run.sql];
      }
    }

    method IncrementCounter(name: string, reset: bool, hasAllRecords: bool) returns (counter: nat)
      modifies this`counters
      ensures counter == if reset && !hasAllRecords then 1 else NextCounter(old(Contents()), name, reset)
      ensures counters == old(counters)[name := counter]
    {
      counter := if reset then (if hasAllRecords then 0 else 1) else if name in counters then counters[name] + 1 else 0;
      counters := counters[name := counter];
    }

    method AddNewResults(run: QueryRun, initial: nat) returns (counter: nat, added: seq<Row>, removed: seq<Row>)
      modifies this
      ensures Contents() == StoreRun(old(Contents()), run)
      ensures multiset(added) == Added(old(Contents()), run) && multiset(removed) == Removed(old(Contents()), run)
      ensures counter == if Changes(old(Contents()), run)
                         then NextCounter(old(Contents()), run.name, NewEpoch(old(Contents()), run)) else initial
    {
      hide SavesSql, SaveSql, NextCounter;
      ghost var db := Contents();
      counter := initial;
      var newEpoch, _ := GetQueryStatus(run);
      SameButText(db, run);
      if newEpoch {
        added, removed := run.rows, [];
      } else {
        added, removed := Diff(results[run.name], run.rows);
      }
      EmptyBag(added);
      EmptyBag(removed);
      var update := newEpoch || added != [] || removed != [];
      assert update <==> Changes(db, run);
      CounterAlone(db, Contents(), run.name, newEpoch);
      if update {
        results := results[run.name := multiset(run.rows)];
        assert Contents() == Torn(db, run, 2);
        epochs := epochs[run.name := run.epoch];
        assert Contents() == Torn(db, run, 3);
        counter := IncrementCounter(run.name, newEpoch, true);
      }
    }

    /** The differential branch of `launchQuery`. */
    method LaunchQuery(run: QueryRun, reportRemoved: bool) returns (log: seq<Item>)
      modifies this
      ensures Contents() == StoreRun(old(Contents()), run)
      ensures log == Emit(old(Contents()), run, reportRemoved)
    {
      var counter, added, removed := AddNewResults(run, 1);
      if !reportRemoved {
        removed := [];
      }
      EmptyBag(added);
      EmptyBag(removed);
      if added == [] && removed == [] && counter != 0 {
        return [];
      }
      return [Item(run.name, run.epoch, counter, multiset(added), multiset(removed))];
    }
  }

  lemma {:induction false} SameButText(db: Db, run: QueryRun)
    ensures var db1 := SaveSql(db, run);
            db1.results == db.results && db1.epochs == db.epochs && db1.counters == db.counters
  {
  }

  lemma {:induction false} CounterAlone(db: Db, db1: Db, name: string, reset: bool)
    requires db1.counters == db.counters
    ensures forall r, e, q :: NextCounter(Db(r, e, db1.counters, q), name, reset) == NextCounter(db, name, reset)
  {
  }

  lemma {:induction false} EmptyBag(s: seq<Row>)
    ensures s == [] <==> multiset(s) == multiset{}
  {
    if s != [] { assert s[0] in multiset(s); }
  }
}
