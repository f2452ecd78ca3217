/** Runs of an event subscriber: any interleaving of batches, queries, schedule
    changes and restarts, together with the history of every event ever stored
    and of every row each query has been given. */
module EventRuns {
  import opened Basics
  import opened Text
  import opened EventIndex
  import opened EventStore

  datatype Op =
    | Batch(data: seq<string>, custom: nat, now: nat)
    | Table(query: string, constraints: seq<Constraint>, now: nat)
    | ResetQueryCount(count: nat)
    | SetMinExpiry(expiry: nat)
    | NewProcess(scan: seq<string>, now: nat)

  datatype World = World(store: Store, hist: Rows, delivered: map<string, seq<Row>>)

  const Start := World(Empty, map[], map[])

  function Delivered(w: World, q: string): seq<Row>
  {
    if q in w.delivered then w.delivered[q] else []
  }

  /** An optimised query run: a named scheduled query without a time constraint. */
  predicate Optimized(cfg: Config, op: Op)
  {
    op.Table? && op.constraints == [] && cfg.optimize && op.query != ""
  }

  /** What the environment guarantees of a step: ids fit their padded keys, and a
      new process sees the stored keys in key order. */
  ghost predicate Enabled(s: Store, op: Op)
  {
    match op
    case Batch(data, _, _) => s.lastId + |data| < ID_LIMIT
    case NewProcess(scan, _) => Lists(scan, KeysOf(s.db))
    case _ => true
  }

  /** Event times do not decrease from one batch to the next. */
  ghost predicate InOrder(w: World, op: Op)
  {
    op.Batch? ==> forall id :: id in w.hist ==> w.hist[id].time <= EventTime(op.custom, op.now)
  }

  // ---------------------------------------------- soundness, in any time order

  /** Index and rows agree, and every stored id has been generated. */
  ghost predicate Sound(s: Store)
  {
    && Agrees(s.index, s.db)
    && s.lastId < ID_LIMIT
    && (forall id :: id in s.db ==> 1 <= id <= s.lastId)
  }

  /** The amortised limit on the number of buckets. */
  predicate Bounded(s: Store, cfg: Config)
  {
    cfg.eventsMax > 0 ==> |s.index| <= cfg.eventsMax + s.eventCount % EVENTS_CHECKPOINT
  }

  ghost function StepStore(s: Store, cfg: Config, op: Op): Store
    requires SortedByTime(s.index) && Enabled(s, op)
  {
    match op
    case Batch(data, custom, now) => AddBatch(s, cfg, data, custom, now)
    case Table(q, cs, now) => GenTable(s, cfg, q, cs, now).0
    case ResetQueryCount(n) => s.(queries := map[], queryCount := n)
    case SetMinExpiry(n) => s.(minExpiration := n)
    case NewProcess(scan, now) =>
      ListedKeysAreNumerals(s.db, scan);
      Restart(s, cfg, scan, now)
  }

  lemma {:induction false} EvictSound(s: Store, n: nat)
    requires Agrees(s.index, s.db) && n <= |s.index|
    ensures Agrees(Evict(s, n).index, Evict(s, n).db)
    ensures forall id :: id in Evict(s, n).db ==> id in s.db && Evict(s, n).db[id] == s.db[id]
    ensures |Evict(s, n).index| == |s.index| - n
  {
    DropKeepsAgreement(s.index, s.db, n);
  }

  lemma {:induction false} AppendSound(s: Store, data: seq<string>, t: nat)
    requires Agrees(s.index, s.db) && data != []
    requires forall id :: id in s.db ==> 1 <= id <= s.lastId
    ensures var s1 := Append(s, data, t);
            && Agrees(s1.index, s1.db)
            && |s1.index| <= |s.index| + 1
            && forall id :: id in s1.db ==> 1 <= id <= s1.lastId
  {
    var ids := NewIds(s.lastId, |data|);
    AddKeepsAgreement(s.index, s.db, t, ids, NewRows(s.lastId, t, data));
    assert |AddToIndex(s.index, t, ids)| <= |s.index| + 1;
  }

  lemma {:induction false} AddBatchSound(s: Store, cfg: Config, data: seq<string>, custom: nat, now: nat)
    requires Sound(s) && s.lastId + |data| < ID_LIMIT
    ensures Sound(AddBatch(s, cfg, data, custom, now))
    ensures Bounded(s, cfg) ==> Bounded(AddBatch(s, cfg, data, custom, now), cfg)
  {
    if data != [] {
      var t := EventTime(custom, now);
      AppendSound(s, data, t);
      var s1 := Append(s, data, t);
      if s.eventCount % EVENTS_CHECKPOINT + |data| >= EVENTS_CHECKPOINT {
        var s2 := RemoveOverflow(s1, cfg.eventsMax);
        EvictSound(s1, OverflowCount(s1.index, cfg.eventsMax));
        EvictSound(s2, ExpireCount(s2.index, MinExpiry(s, cfg), now));
      } else {
        CountWithinCheckpoint(s.eventCount, |data|);
      }
    }
  }

  lemma {:induction false} CountWithinCheckpoint(c: nat, n: nat)
    requires c % EVENTS_CHECKPOINT + n < EVENTS_CHECKPOINT
    ensures (c + n) % EVENTS_CHECKPOINT == c % EVENTS_CHECKPOINT + n
  {
    CheckpointIsCrossing(c, n);
  }

  /** Rebuilding gives back the index and a last id at or above every stored one. */
  lemma {:induction false} RebuildSound(s: Store, scan: seq<string>)
    requires Sound(s) && Lists(scan, KeysOf(s.db))
    ensures forall k :: k in scan ==> AllDigits(k) && Value(k) in s.db
    ensures Rebuild(Forget(s), scan).index == s.index
    ensures Sound(Rebuild(Forget(s), scan))
  {
    ListedKeysAreNumerals(s.db, scan);
    RebuildIsIdentity(s.index, s.db, scan);
    forall id | id in s.db ensures id <= GreatestId(scan) {
      assert ToIndex(id) in scan;
    }
    assert GreatestId(scan) == 1 || exists k :: k in scan && Value(k) == GreatestId(scan);
  }

  lemma {:induction false} RestartSound(s: Store, cfg: Config, scan: seq<string>, now: nat)
    requires Sound(s) && Lists(scan, KeysOf(s.db))
    ensures forall k :: k in scan ==> AllDigits(k) && Value(k) in s.db
    ensures Sound(Restart(s, cfg, scan, now))
    ensures Bounded(Restart(s, cfg, scan, now), cfg)
  {
    RebuildSound(s, scan);
    var s1 := Rebuild(Forget(s), scan);
    var s2 := Expire(s1, MinExpiry(s1, cfg), now);
    EvictSound(s1, ExpireCount(s1.index, MinExpiry(s1, cfg), now));
    EvictSound(s2, OverflowCount(s2.index, cfg.eventsMax));
  }

  lemma {:induction false} TableSound(s: Store, cfg: Config, q: string, cs: seq<Constraint>, now: nat)
    requires Sound(s)
    ensures Sound(GenTable(s, cfg, q, cs, now).0)
    ensures Bounded(s, cfg) ==> Bounded(GenTable(s, cfg, q, cs, now).0, cfg)
  {
    var (start, stop) := Bounds(cs, 0, 0);
    var s1 := ScanFor(s, cs == [] && cfg.optimize, q, start, stop).0;
    ExpireAfterQuerySound(s1, cfg, now);
  }

  lemma {:induction false} ExpireAfterQuerySound(s: Store, cfg: Config, now: nat)
    requires Sound(s)
    ensures Sound(ExpireAfterQuery(s, cfg, now))
    ensures Bounded(s, cfg) ==> Bounded(ExpireAfterQuery(s, cfg, now), cfg)
  {
    EvictSound(s, ExpireCount(s.index, MinExpiry(s, cfg), ExpireTime(s.queries, s.queryCount, now)));
  }

  /** Every step keeps index and rows in agreement and the index within bounds,
      whatever the order of event times. */
  lemma {:induction false} StepKeepsSound(s: Store, cfg: Config, op: Op)
    requires Sound(s) && Enabled(s, op)
    ensures Sound(StepStore(s, cfg, op))
    ensures op.NewProcess? || Bounded(s, cfg) ==> Bounded(StepStore(s, cfg, op), cfg)
  {
    match op
    case Batch(data, custom, now) => AddBatchSound(s, cfg, data, custom, now);
    case Table(q, cs, now) => TableSound(s, cfg, q, cs, now);
    case ResetQueryCount(_) =>
    case SetMinExpiry(_) =>
    case NewProcess(scan, now) => RestartSound(s, cfg, scan, now);
  }

  // --------------------------------------------- invariant of in-order runs

  /** Every event ever stored: ids and times ascend together. */
  ghost predicate HistoryInOrder(hist: Rows)
  {
    && (forall id :: id in hist ==> hist[id].eid == id)
    && (forall a, b :: a in hist && b in hist && a < b ==> hist[a].time <= hist[b].time)
  }

  /** The stored rows are the newest part of the history, and never nothing of it. */
  ghost predicate StoresNewest(db: Rows, hist: Rows)
  {
    && (forall id :: id in db ==> id in hist && hist[id] == db[id])
    && (forall a, b :: a in db && b in hist && a < b ==> b in db)
    && (hist != map[] ==> db != map[])
  }

  /** Rows given to a query come in id order, as stored, none above `upto`; and
      every event still stored up to there has been given. */
  ghost predicate Gives(given: seq<Row>, db: Rows, hist: Rows, upto: nat)
  {
    && (forall i, j :: 0 <= i < j < |given| ==> given[i].eid < given[j].eid)
    && (forall r :: r in given ==> r.eid in hist && hist[r.eid] == r && r.eid <= upto)
    && (forall id :: id in db && id <= upto ==> db[id] in given)
  }

  /** A query's saved position is an event of the history, and the query has
      been given what is stored up to it. */
  ghost predicate Tracks(w: World, q: string)
  {
    if q in w.store.cursors then
      var c := w.store.cursors[q];
      && c.eid in w.hist && w.hist[c.eid].time == c.time
      && Gives(Delivered(w, q), w.store.db, w.hist, c.eid)
    else
      Delivered(w, q) == []
  }

  /** A recorded position lies before the query's saved one. */
  ghost predicate RecordsBehind(s: Store, q: string)
  {
    q in s.queries && s.queries[q] > 0 ==> q in s.cursors && s.queries[q] < s.cursors[q].time
  }

  ghost predicate Inv(w: World)
  {
    && Sound(w.store)
    && HistoryInOrder(w.hist)
    && (forall id :: id in w.hist ==> 1 <= id <= w.store.lastId)
    && StoresNewest(w.store.db, w.hist)
    && (forall q :: Tracks(w, q))
    && (forall q :: RecordsBehind(w.store, q))
  }

  ghost function Step(w: World, cfg: Config, op: Op): World
    requires SortedByTime(w.store.index) && Enabled(w.store, op)
  {
    World(
      StepStore(w.store, cfg, op),
      if op.Batch? then w.hist + NewRows(w.store.lastId, EventTime(op.custom, op.now), op.data) else w.hist,
      if Optimized(cfg, op)
      then w.delivered[op.query := Delivered(w, op.query) + GenTable(w.store, cfg, op.query, [], op.now).1]
      else w.delivered)
  }

  // ------------------------------------------------------ steps keep invariant

  /** Dropping old buckets but the newest. */
  lemma {:induction false} EvictInv(w: World, n: nat)
    requires Inv(w) && (n == 0 || n < |w.store.index|)
    ensures Inv(w.(store := Evict(w.store, n)))
  {
    var s := w.store;
    var w1 := w.(store := Evict(s, n));
    EvictSound(s, n);
    EvictKeepsNewest(s, w.hist, n);
    forall q ensures Tracks(w1, q) { assert Tracks(w, q); }
    forall q ensures RecordsBehind(w1.store, q) { assert RecordsBehind(s, q); }
  }

  lemma {:induction false} EvictKeepsNewest(s: Store, hist: Rows, n: nat)
    requires Agrees(s.index, s.db) && (n == 0 || n < |s.index|)
    requires HistoryInOrder(hist) && StoresNewest(s.db, hist)
    ensures StoresNewest(Evict(s, n).db, hist)
  {
    var left := Evict(s, n).db;
    forall a, b | a in left && b in hist && a < b ensures b in left {
      DroppedIds(s.index, s.db, n, a);
      DroppedIds(s.index, s.db, n, b);
    }
    if n > 0 {
      var id := s.index[n].ids[0];
      assert id in s.index[n].ids && s.index[n - 1].time < s.index[n].time;
      DroppedIds(s.index, s.db, n, id);
      assert id in left;
    } else {
      assert IdsIn(s.index[..0]) == {};
    }
  }

  function AppendWorld(w: World, data: seq<string>, t: nat): World
    requires SortedByTime(w.store.index)
  {
    World(Append(w.store, data, t), w.hist + NewRows(w.store.lastId, t, data), w.delivered)
  }

  lemma {:induction false} AppendInv(w: World, data: seq<string>, t: nat)
    requires Inv(w) && data != [] && w.store.lastId + |data| < ID_LIMIT
    requires forall id :: id in w.hist ==> w.hist[id].time <= t
    ensures Inv(AppendWorld(w, data, t))
  {
    var w1 := AppendWorld(w, data, t);
    AppendSound(w.store, data, t);
    AppendHistory(w.store.db, w.hist, w.store.lastId, data, t);
    forall q ensures Tracks(w1, q) { AppendTracks(w, data, t, q); }
    forall q ensures RecordsBehind(w1.store, q) { assert RecordsBehind(w.store, q); }
  }

  lemma {:induction false} AppendHistory(db: Rows, hist: Rows, last: nat, data: seq<string>, t: nat)
    requires HistoryInOrder(hist) && StoresNewest(db, hist) && data != []
    requires forall id :: id in hist ==> 1 <= id <= last && hist[id].time <= t
    ensures var more := NewRows(last, t, data);
            && HistoryInOrder(hist + more)
            && (forall id :: id in hist + more ==> 1 <= id <= last + |data|)
            && StoresNewest(db + more, hist + more)
  {
    var more := NewRows(last, t, data);
    assert last + 1 in more.Keys by { assert last + 1 in NewIds(last, |data|); }
    GrowHistory(db, hist, more, last, t);
  }

  lemma {:induction false} GrowHistory(db: Rows, hist: Rows, more: Rows, last: nat, t: nat)
    requires HistoryInOrder(hist) && StoresNewest(db, hist) && last + 1 in more
    requires forall id :: id in hist ==> id <= last && hist[id].time <= t
    requires forall id :: id in more ==> id > last && more[id].time == t && more[id].eid == id
    ensures HistoryInOrder(hist + more) && StoresNewest(db + more, hist + more)
  {
    assert last + 1 in db + more;
  }

  lemma {:induction false} AppendTracks(w: World, data: seq<string>, t: nat, q: string)
    requires Inv(w)
    ensures Tracks(AppendWorld(w, data, t), q)
  {
    assert Tracks(w, q);
  }

  // ------------------------------------------------------------ optimised scan

  /** The last id of the newest bucket is the greatest stored id. */
  lemma {:induction false} NewestIsGreatest(w: World)
    requires Inv(w) && w.store.index != []
    ensures var b := w.store.index[|w.store.index| - 1];
            var id := b.ids[|b.ids| - 1];
            && id in w.store.db && w.store.db[id].time == b.time
            && (forall k :: k in w.store.db ==> k <= id && w.store.db[k].time <= b.time)
  {
    hide Tracks, RecordsBehind, Indexed, HistoryInOrder, StoresNewest;
    var x, db := w.store.index, w.store.db;
    var b := x[|x| - 1];
    var id := b.ids[|b.ids| - 1];
    assert id in b.ids;
    forall k | k in db ensures k <= id && db[k].time <= b.time {
      NotAfterNewest(x, db, k);
      if db[k].time == b.time {
        SameBucket(x, db, |x| - 1, k);
        LastIsGreatest(b.ids, k);
      } else {
        EarlierIsSmaller(db, w.hist, k, id);
      }
    }
  }

  lemma {:induction false} NotAfterNewest(x: Index, db: Rows, k: nat)
    requires Agrees(x, db) && k in db
    ensures x != [] && db[k].time <= x[|x| - 1].time
  {
    assert Indexed(x, k, db[k].time);
  }

  lemma {:induction false} LastIsGreatest(ids: seq<nat>, k: nat)
    requires Increasing(ids) && k in ids
    ensures k <= ids[|ids| - 1]
  {
  }

  lemma {:induction false} EarlierIsSmaller(db: Rows, hist: Rows, a: nat, b: nat)
    requires HistoryInOrder(hist) && StoresNewest(db, hist) && a in db && b in db && db[a].time < db[b].time
    ensures a < b
  {
  }

  /** A saved position never lies after the newest stored event. */
  lemma {:induction false} CursorBehindNewest(w: World, q: string, id: nat)
    requires Inv(w) && q in w.store.cursors
    requires id in w.store.db && forall k :: k in w.store.db ==> k <= id
    ensures w.store.cursors[q].eid <= id && w.store.cursors[q].time <= w.store.db[id].time
  {
    assert Tracks(w, q);
  }

  /** Nothing above the saved id lies before the scan's start. */
  lemma {:induction false} ScanStartsEarlyEnough(w: World, q: string, r: Row)
    requires HistoryInOrder(w.hist) && StoresNewest(w.store.db, w.hist) && Tracks(w, q)
    ensures var c := ReadCursor(w.store, q);
            Wanted(w.store.db, CursorStart(c), 0, c.eid, r) <==>
              r.eid in w.store.db && w.store.db[r.eid] == r && r.eid > c.eid
  {
  }

  lemma {:induction false} IndexEmptyIffNoHistory(w: World)
    requires Inv(w)
    ensures w.store.index == [] <==> w.hist == map[]
    ensures w.store.index == [] ==> w.store.db == map[]
  {
    if w.store.index == [] {
      assert forall id :: id in w.store.db ==> Indexed(w.store.index, id, w.store.db[id].time);
    } else {
      NewestIsGreatest(w);
    }
  }

  /** An optimised run yields exactly the stored events after the query's saved
      position, in id order ... */
  lemma {:induction false} OptimizedRows(w: World, q: string)
    requires Inv(w)
    ensures var rows := ScanFor(w.store, true, q, 0, 0).1;
            && (forall r :: r in rows <==>
                 r.eid in w.store.db && w.store.db[r.eid] == r && r.eid > ReadCursor(w.store, q).eid)
            && (forall i, j :: 0 <= i < j < |rows| ==> rows[i].eid < rows[j].eid)
  {
    var s, c := w.store, ReadCursor(w.store, q);
    var rows := ScanFor(s, true, q, 0, 0).1;
    ScanRefinesFilter(s.index, s.db, CursorStart(c), 0, c.eid);
    assert Tracks(w, q);
    forall r ensures r in rows <==> r.eid in s.db && s.db[r.eid] == r && r.eid > c.eid {
      ScanStartsEarlyEnough(w, q, r);
    }
    RowsInIdOrder(rows, w.hist);
  }

  lemma {:induction false} RowsInIdOrder(rows: seq<Row>, hist: Rows)
    requires HistoryInOrder(hist) && TimeThenId(rows)
    requires forall r :: r in rows ==> r.eid in hist && hist[r.eid] == r
    ensures forall i, j :: 0 <= i < j < |rows| ==> rows[i].eid < rows[j].eid
  {
    forall i, j | 0 <= i < j < |rows| ensures rows[i].eid < rows[j].eid {
      assert rows[i] in rows && rows[j] in rows;
    }
  }

  /** ... and moves the position to the newest stored event. */
  lemma {:induction false} OptimizedCursor(w: World, q: string)
    requires Inv(w) && q != "" && w.store.index != []
    ensures var s1 := ScanFor(w.store, true, q, 0, 0).0;
            && q in s1.cursors
            && s1.cursors == w.store.cursors[q := s1.cursors[q]]
            && s1.cursors[q].eid in w.store.db
            && w.store.db[s1.cursors[q].eid].time == s1.cursors[q].time
            && (forall k :: k in w.store.db ==> k <= s1.cursors[q].eid)
            && (q in w.store.cursors ==>
                 w.store.cursors[q].time <= s1.cursors[q].time && w.store.cursors[q].eid <= s1.cursors[q].eid)
  {
    var s := w.store;
    NewestIsGreatest(w);
    var b := s.index[|s.index| - 1];
    if q in s.cursors { CursorBehindNewest(w, q, b.ids[|b.ids| - 1]); }
    assert InRange(b.time, CursorStart(ReadCursor(s, q)), 0);
  }

  /** Appending all stored rows above the old position, up to the new one. */
  lemma {:induction false} GivesMore(prior: seq<Row>, rows: seq<Row>, db: Rows, hist: Rows, lo: nat, hi: nat)
    requires Gives(prior, db, hist, lo) && lo <= hi
    requires forall id :: id in db ==> id in hist && hist[id] == db[id] && db[id].eid == id && id <= hi
    requires forall r :: r in rows <==> r.eid in db && db[r.eid] == r && r.eid > lo
    requires forall i, j :: 0 <= i < j < |rows| ==> rows[i].eid < rows[j].eid
    ensures Gives(prior + rows, db, hist, hi)
  {
    var given := prior + rows;
    assert forall r :: r in given <==> r in prior || r in rows;
    forall i, j | 0 <= i < j < |given| ensures given[i].eid < given[j].eid {
      if i < |prior| <= j { assert given[i] in prior && given[j] in rows; }
    }
  }

  /** The world after the scan of an optimised run, before any expiry. */
  function ScannedWorld(w: World, q: string): World
  {
    var (s1, rows) := ScanFor(w.store, true, q, 0, 0);
    World(s1, w.hist, w.delivered[q := Delivered(w, q) + rows])
  }

  lemma {:induction false} OptimizedTracks(w: World, q: string, p: string)
    requires Inv(w) && q != ""
    ensures Tracks(ScannedWorld(w, q), p)
  {
    assert Tracks(w, p);
    if p == q {
      OptimizedGives(w, q);
    } else if w.store.index != [] {
      OptimizedCursor(w, q);
    }
  }

  lemma {:induction false} OptimizedGives(w: World, q: string)
    requires Inv(w) && q != ""
    ensures Tracks(ScannedWorld(w, q), q)
  {
    var (s1, rows) := ScanFor(w.store, true, q, 0, 0);
    assert Tracks(w, q);
    OptimizedRows(w, q);
    if w.store.index == [] {
      IndexEmptyIffNoHistory(w);
      assert rows == [] && s1.cursors == w.store.cursors;
    } else {
      OptimizedCursor(w, q);
      GivesMore(Delivered(w, q), rows, w.store.db, w.hist, ReadCursor(w.store, q).eid, s1.cursors[q].eid);
    }
  }

  lemma {:induction false} OptimizedRecords(w: World, q: string, p: string)
    requires Inv(w) && q != ""
    ensures RecordsBehind(ScannedWorld(w, q).store, p)
  {
    assert RecordsBehind(w.store, p) && Tracks(w, p);
    if w.store.index == [] {
      IndexEmptyIffNoHistory(w);
    } else {
      OptimizedCursor(w, q);
    }
  }

  lemma {:induction false} OptimizedInv(w: World, q: string)
    requires Inv(w) && q != ""
    ensures Inv(ScannedWorld(w, q))
  {
    forall p ensures Tracks(ScannedWorld(w, q), p) { OptimizedTracks(w, q, p); }
    forall p ensures RecordsBehind(ScannedWorld(w, q).store, p) { OptimizedRecords(w, q, p); }
  }

  lemma {:induction false} UnnamedScanInv(w: World, optimized: bool, q: string, start: nat, stop: nat)
    requires Inv(w) && (!optimized || q == "")
    ensures Inv(w.(store := ScanFor(w.store, optimized, q, start, stop).0))
  {
    var w1 := w.(store := ScanFor(w.store, optimized, q, start, stop).0);
    forall p ensures Tracks(w1, p) { assert Tracks(w, p); }
    forall p ensures RecordsBehind(w1.store, p) { assert RecordsBehind(w.store, p); }
  }

  lemma {:induction false} RestartInv(w: World, cfg: Config, scan: seq<string>, now: nat)
    requires Inv(w) && Lists(scan, KeysOf(w.store.db))
    ensures forall k :: k in scan ==> AllDigits(k) && Value(k) in w.store.db
    ensures Inv(w.(store := Restart(w.store, cfg, scan, now)))
  {
    RebuildInv(w, scan);
    var s1 := Rebuild(Forget(w.store), scan);
    var w1 := w.(store := s1);
    var n := ExpireCount(s1.index, MinExpiry(s1, cfg), now);
    EvictInv(w1, n);
    var w2 := w1.(store := Evict(s1, n));
    EvictInv(w2, OverflowCount(w2.store.index, cfg.eventsMax));
  }

  /** Rebuilding the index and the last id from the stored keys. */
  lemma {:induction false} RebuildInv(w: World, scan: seq<string>)
    requires Inv(w) && Lists(scan, KeysOf(w.store.db))
    ensures forall k :: k in scan ==> AllDigits(k) && Value(k) in w.store.db
    ensures Inv(w.(store := Rebuild(Forget(w.store), scan)))
  {
    RebuildSound(w.store, scan);
    var s1 := Rebuild(Forget(w.store), scan);
    forall id | id in w.hist ensures id <= s1.lastId { GreatestCoversHistory(w, s1.lastId, id); }
    forall p ensures Tracks(w.(store := s1), p) { RebuildTracks(w, scan, p); }
  }

  lemma {:induction false} RebuildTracks(w: World, scan: seq<string>, p: string)
    requires Inv(w) && forall k :: k in scan ==> AllDigits(k) && Value(k) in w.store.db
    ensures Tracks(w.(store := Rebuild(Forget(w.store), scan)), p)
  {
    assert Tracks(w, p);
  }

  /** The newest bucket is always kept, so the stored ids tell the last id. */
  lemma {:induction false} GreatestCoversHistory(w: World, m: nat, id: nat)
    requires Inv(w) && id in w.hist && forall k :: k in w.store.db ==> k <= m
    ensures id <= m
  {
    var k :| k in w.store.db;
  }

  /** Every step of an in-order run keeps the invariant. */
  lemma {:induction false} StepKeepsInv(w: World, cfg: Config, op: Op)
    requires Inv(w) && Enabled(w.store, op) && InOrder(w, op)
    ensures Inv(Step(w, cfg, op))
  {
    match op
    case Batch(data, custom, now) => BatchInv(w, cfg, op);
    case Table(q, cs, now) => TableInv(w, cfg, op);
    case ResetQueryCount(_) =>
      var w1 := Step(w, cfg, op);
      forall p ensures Tracks(w1, p) { assert Tracks(w, p); }
    case SetMinExpiry(_) =>
      var w1 := Step(w, cfg, op);
      forall p ensures Tracks(w1, p) { assert Tracks(w, p); }
      forall p ensures RecordsBehind(w1.store, p) { assert RecordsBehind(w.store, p); }
    case NewProcess(scan, now) => RestartInv(w, cfg, scan, now);
  }

  lemma {:induction false} BatchInv(w: World, cfg: Config, op: Op)
    requires op.Batch? && Inv(w) && Enabled(w.store, op) && InOrder(w, op)
    ensures Inv(Step(w, cfg, op))
  {
    hide Tracks, RecordsBehind, HistoryInOrder, StoresNewest;
    var t := EventTime(op.custom, op.now);
    var w0 := Step(w, cfg, op);
    if op.data == [] {
      assert w.hist + NewRows(w.store.lastId, t, op.data) == w.hist;
      assert w0 == w;
    } else {
      AppendInv(w, op.data, t);
      var w1 := AppendWorld(w, op.data, t);
      var n := OverflowCount(w1.store.index, cfg.eventsMax);
      EvictInv(w1, n);
      var w2 := w1.(store := Evict(w1.store, n));
      EvictInv(w2, ExpireCount(w2.store.index, MinExpiry(w.store, cfg), op.now));
    }
  }

  lemma {:induction false} TableInv(w: World, cfg: Config, op: Op)
    requires op.Table? && Inv(w)
    ensures Inv(Step(w, cfg, op))
  {
    if Optimized(cfg, op) {
      OptimizedInv(w, op.query);
      ExpireInv(ScannedWorld(w, op.query), cfg, op.now);
    } else {
      var (start, stop) := Bounds(op.constraints, 0, 0);
      var optimized := op.constraints == [] && cfg.optimize;
      UnnamedScanInv(w, optimized, op.query, start, stop);
      ExpireInv(w.(store := ScanFor(w.store, optimized, op.query, start, stop).0), cfg, op.now);
    }
  }

  lemma {:induction false} ExpireInv(w: World, cfg: Config, now: nat)
    requires Inv(w)
    ensures Inv(w.(store := ExpireAfterQuery(w.store, cfg, now)))
  {
    var s := w.store;
    EvictInv(w, ExpireCount(s.index, MinExpiry(s, cfg), ExpireTime(s.queries, s.queryCount, now)));
  }

  // --------------------------------------------------------------------- runs

  /** One step, allowed by the environment. The index is an ordered map. */
  ghost predicate StepsTo(w: World, cfg: Config, op: Op, w1: World)
  {
    SortedByTime(w.store.index) && Enabled(w.store, op) && w1 == Step(w, cfg, op)
  }

  /** `ws` are the worlds passed by the operations `ops` from an empty database, each
      under its configuration, which only a new process can change. */
  ghost predicate Execution(cfgs: seq<Config>, ops: seq<Op>, ws: seq<World>)
  {
    && |cfgs| == |ops| && |ws| == |ops| + 1 && ws[0] == Start
    && (forall i :: 0 <= i < |ops| ==> StepsTo(ws[i], cfgs[i], ops[i], ws[i + 1]))
    && (forall i :: 0 < i < |ops| && !ops[i].NewProcess? ==> cfgs[i] == cfgs[i - 1])
  }

  /** In every world of every execution, whatever the order of event times, index
      and rows agree, every stored id has been generated, and the index is within
      the amortised limit. */
  lemma {:induction false} ExecutionIsSound(cfgs: seq<Config>, ops: seq<Op>, ws: seq<World>, i: nat)
    requires Execution(cfgs, ops, ws) && i < |ws|
    ensures Sound(ws[i].store)
    ensures i > 0 ==> Bounded(ws[i].store, cfgs[i - 1])
  {
    hide Step, StepStore;
    if i == 0 {
      StartIsSound();
    } else {
      ExecutionIsSound(cfgs, ops, ws, i - 1);
      if i == 1 { StartIsBounded(cfgs[0]); }
      assert StepsTo(ws[i - 1], cfgs[i - 1], ops[i - 1], ws[i]);
      StepIsSound(ws[i - 1], cfgs[i - 1], ops[i - 1]);
    }
  }

  lemma {:induction false} StartIsSound()
    ensures Sound(Start.store) && Inv(Start)
  {
  }

  lemma {:induction false} StartIsBounded(cfg: Config)
    ensures Bounded(Start.store, cfg)
  {
  }

  lemma {:induction false} StepIsSound(w: World, cfg: Config, op: Op)
    requires Sound(w.store) && Enabled(w.store, op) && (op.NewProcess? || Bounded(w.store, cfg))
    ensures Sound(Step(w, cfg, op).store) && Bounded(Step(w, cfg, op).store, cfg)
  {
    StepKeepsSound(w.store, cfg, op);
  }

  lemma {:induction false} ExecutionExtends(cfgs: seq<Config>, ops: seq<Op>, ws: seq<World>,
                                            cfg: Config, op: Op, w: World)
    requires Execution(cfgs, ops, ws) && StepsTo(ws[|ops|], cfg, op, w)
    requires ops == [] || op.NewProcess? || cfg == cfgs[|ops| - 1]
    ensures Execution(cfgs + [cfg], ops + [op], ws + [w])
  {
    hide StepsTo;
    var cfgs1, ops1, ws1 := cfgs + [cfg], ops + [op], ws + [w];
    forall i | 0 <= i < |ops1| ensures StepsTo(ws1[i], cfgs1[i], ops1[i], ws1[i + 1]) {
      if i < |ops| { assert StepsTo(ws[i], cfgs[i], ops[i], ws[i + 1]); }
    }
    forall i | 0 < i < |ops1| && !ops1[i].NewProcess? ensures cfgs1[i] == cfgs1[i - 1] {
      if i < |ops| { assert ops[i] == ops1[i]; }
    }
  }

  /** An execution goes on with any operation the environment allows. */
  lemma {:induction false} ExecutionGoesOn(cfgs: seq<Config>, ops: seq<Op>, ws: seq<World>, cfg: Config, op: Op)
    requires Execution(cfgs, ops, ws) && Enabled(ws[|ops|].store, op)
    requires ops == [] || op.NewProcess? || cfg == cfgs[|ops| - 1]
    ensures exists w :: Execution(cfgs + [cfg], ops + [op], ws + [w])
  {
    hide Step, Enabled;
    ExecutionIsSound(cfgs, ops, ws, |ops|);
    ExecutionExtends(cfgs, ops, ws, cfg, op, Step(ws[|ops|], cfg, op));
  }

  /** The clean-up of `addBatch` fires exactly when the running row count crosses
      a multiple of 256 ... */
  lemma {:induction false} CheckpointIsCrossing(count: nat, rows: nat)
    ensures count % EVENTS_CHECKPOINT + rows >= EVENTS_CHECKPOINT <==>
              count / EVENTS_CHECKPOINT < (count + rows) / EVENTS_CHECKPOINT
  {
    var q, r := count / EVENTS_CHECKPOINT, count % EVENTS_CHECKPOINT;
    assert count + rows == EVENTS_CHECKPOINT * q + (r + rows);
  }

  /** ... so in every execution, in whatever time order, the index never holds
      more than the maximum number of buckets plus 255. */
  lemma {:induction false} IndexStaysBounded(cfgs: seq<Config>, ops: seq<Op>, ws: seq<World>, i: nat)
    requires Execution(cfgs, ops, ws) && 0 < i < |ws| && cfgs[i - 1].eventsMax > 0
    ensures |ws[i].store.index| <= cfgs[i - 1].eventsMax + 255
  {
    hide Sound, StepsTo;
    ExecutionIsSound(cfgs, ops, ws, i);
    assert ws[i].store.eventCount % EVENTS_CHECKPOINT <= EVENTS_CHECKPOINT - 1;
  }

  /** In every execution, in whatever time order, index and stored rows agree, and
      a restart would rebuild the very same index. */
  lemma {:induction false} IndexAlwaysAgrees(cfgs: seq<Config>, ops: seq<Op>, ws: seq<World>, i: nat, scan: seq<string>)
    requires Execution(cfgs, ops, ws) && i < |ws| && Lists(scan, KeysOf(ws[i].store.db))
    ensures var s := ws[i].store;
            && Agrees(s.index, s.db)
            && (forall k :: k in scan ==> AllDigits(k) && Value(k) in s.db)
            && BuildIndex(s.db, scan) == s.index
  {
    ExecutionIsSound(cfgs, ops, ws, i);
    RebuildSound(ws[i].store, scan);
  }

  /** An execution whose event times never decrease. */
  ghost predicate InOrderExecution(cfgs: seq<Config>, ops: seq<Op>, ws: seq<World>)
  {
    Execution(cfgs, ops, ws) && forall i :: 0 <= i < |ops| ==> InOrder(ws[i], ops[i])
  }

  lemma {:induction false} ReachableInv(cfgs: seq<Config>, ops: seq<Op>, ws: seq<World>, i: nat)
    requires InOrderExecution(cfgs, ops, ws) && i < |ws|
    ensures Inv(ws[i])
  {
    hide Step, Inv;
    if i == 0 {
      StartIsSound();
    } else {
      ReachableInv(cfgs, ops, ws, i - 1);
      assert StepsTo(ws[i - 1], cfgs[i - 1], ops[i - 1], ws[i]);
      StepKeepsInv(ws[i - 1], cfgs[i - 1], ops[i - 1]);
    }
  }

  /** No query is ever given an event twice, and only events that were stored. */
  ghost predicate GivenOnce(w: World, q: string)
  {
    var given := Delivered(w, q);
    && (forall i, j :: 0 <= i < j < |given| ==> given[i].eid < given[j].eid)
    && (forall r :: r in given ==> r.eid in w.hist && w.hist[r.eid] == r)
  }

  /** Exactly-once delivery. In every in-order execution, across evictions and
      restarts, no query is ever given an event twice ... */
  lemma {:induction false} NeverTwice(cfgs: seq<Config>, ops: seq<Op>, ws: seq<World>, i: nat, q: string)
    requires InOrderExecution(cfgs, ops, ws) && i < |ws|
    ensures GivenOnce(ws[i], q)
  {
    hide InOrderExecution;
    ReachableInv(cfgs, ops, ws, i);
    assert Tracks(ws[i], q);
  }

  /** ... and an optimised run of a query gives it exactly the events still stored
      that it was not given before. */
  lemma {:induction false} ExactlyOnce(cfgs: seq<Config>, ops: seq<Op>, ws: seq<World>, i: nat)
    requires InOrderExecution(cfgs, ops, ws) && i < |ops| && Optimized(cfgs[i], ops[i])
    ensures var q, db := ops[i].query, ws[i].store.db;
            exists rows ::
              && Delivered(ws[i + 1], q) == Delivered(ws[i], q) + rows
              && (forall id :: id in db ==> (db[id] in rows <==> db[id] !in Delivered(ws[i], q)))
              && (forall r :: r in rows ==> r.eid in db && db[r.eid] == r)
              && GivenOnce(ws[i + 1], q)
  {
    var w, op := ws[i], ops[i];
    ReachableInv(cfgs, ops, ws, i);
    NeverTwice(cfgs, ops, ws, i + 1, op.query);
    FreshRowsOnly(w, op.query);
    assert StepsTo(w, cfgs[i], op, ws[i + 1]);
    var rows := ScanFor(w.store, true, op.query, 0, 0).1;
    assert Delivered(ws[i + 1], op.query) == Delivered(w, op.query) + rows;
  }

  lemma {:induction false} FreshRowsOnly(w: World, q: string)
    requires Inv(w) && q != ""
    ensures var rows := ScanFor(w.store, true, q, 0, 0).1;
            && (forall id :: id in w.store.db ==> (w.store.db[id] in rows <==> w.store.db[id] !in Delivered(w, q)))
            && (forall r :: r in rows ==> r.eid in w.store.db && w.store.db[r.eid] == r)
  {
    OptimizedRows(w, q);
    assert Tracks(w, q);
  }

  /** No step rewrites history. */
  lemma {:induction false} HistoryGrows(cfgs: seq<Config>, ops: seq<Op>, ws: seq<World>, i: nat, j: nat, id: nat)
    requires InOrderExecution(cfgs, ops, ws) && i <= j < |ws| && id in ws[i].hist
    ensures id in ws[j].hist && ws[j].hist[id] == ws[i].hist[id]
  {
    hide Step, Inv;
    if i < j {
      HistoryGrows(cfgs, ops, ws, i, j - 1, id);
      ReachableInv(cfgs, ops, ws, j - 1);
      assert StepsTo(ws[j - 1], cfgs[j - 1], ops[j - 1], ws[j]);
      StepGrowsHistory(ws[j - 1], cfgs[j - 1], ops[j - 1], id);
    }
  }

  lemma {:induction false} StepGrowsHistory(w: World, cfg: Config, op: Op, id: nat)
    requires Inv(w) && Enabled(w.store, op) && id in w.hist
    ensures var w1 := Step(w, cfg, op); id in w1.hist && w1.hist[id] == w.hist[id]
  {
    hide StepStore, Enabled;
  }

  /** Stored ids are never reused, even across restarts: at every later time the
      id counter is at or above every id stored before and every saved position,
      so the ids of the next batch are new, and every event keeps its id. */
  lemma {:induction false} IdsNeverReused(cfgs: seq<Config>, ops: seq<Op>, ws: seq<World>, i: nat, j: nat, id: nat)
    requires InOrderExecution(cfgs, ops, ws) && i <= j < |ws| && id in ws[i].hist
    ensures id <= ws[j].store.lastId
    ensures forall q :: q in ws[j].store.cursors ==> ws[j].store.cursors[q].eid <= ws[j].store.lastId
    ensures j < |ops| && ops[j].Batch? ==> id !in NewIds(ws[j].store.lastId, |ops[j].data|)
    ensures id in ws[j].hist && ws[j].hist[id] == ws[i].hist[id]
  {
    HistoryGrows(cfgs, ops, ws, i, j, id);
    hide InOrderExecution;
    ReachableInv(cfgs, ops, ws, j);
    forall q | q in ws[j].store.cursors ensures ws[j].store.cursors[q].eid <= ws[j].store.lastId {
      assert Tracks(ws[j], q);
    }
  }

  /** The oldest recorded position is 0 or not below the expiry window. */
  ghost predicate PastWindow(s: Store, cfg: Config)
  {
    s.queries.Values != {} && (Least(s.queries.Values) == 0 || MinExpiry(s, cfg) <= Least(s.queries.Values))
  }

  /** Every removed row is among those given. */
  ghost predicate LosesNothing(before: Rows, after: Rows, given: seq<Row>)
  {
    forall id :: id in before && id !in after ==> before[id] in given
  }

  /** The query's saved position has passed this bucket. */
  predicate HasPassed(s: Store, p: string, b: Bucket)
  {
    p in s.cursors && b.ids != [] && b.ids[|b.ids| - 1] <= s.cursors[p].eid
  }

  /** How many buckets the expiry at the end of a query drops. */
  function QueryExpiryCount(x: Index, s: Store, cfg: Config, now: nat): (n: nat)
    requires SortedByTime(x)
    ensures n == 0 || n < |x|
  {
    if |s.queries| < s.queryCount then 0
    else ExpireCount(x, MinExpiry(s, cfg), ExpireTime(s.queries, s.queryCount, now))
  }

  /** Times and window fit a signed number. */
  predicate InSignedRange(x: Index, s: Store, cfg: Config)
  {
    (forall i :: 0 <= i < |x| ==> x[i].time < I63) && MinExpiry(s, cfg) < I63
  }

  /** Query-driven expiry loses nothing: in every in-order execution, what the
      expiry at the end of a query removes has already been given to a tracked
      query, if and only if nothing is dropped or the query has passed the last
      dropped bucket. In the signed range this means: the oldest recorded position
      is 0 or not below the expiry window, or not every query has run yet, or there
      are fewer than two buckets, or the query has passed all but the newest. */
  lemma {:induction false} QueryExpiryLosesNothing(cfgs: seq<Config>, ops: seq<Op>, ws: seq<World>, i: nat, p: string)
    requires InOrderExecution(cfgs, ops, ws) && i < |ops| && ops[i].Table?
    requires ws[i + 1].store.queryCount > 0 && p in ws[i + 1].store.queries
    ensures SortedByTime(ws[i].store.index)
    ensures var x, s1 := ws[i].store.index, ws[i + 1].store;
            var n := QueryExpiryCount(x, s1, cfgs[i], ops[i].now);
            LosesNothing(ws[i].store.db, s1.db, Delivered(ws[i + 1], p)) <==> n == 0 || HasPassed(s1, p, x[n - 1])
    ensures var x, s1 := ws[i].store.index, ws[i + 1].store;
            InSignedRange(x, s1, cfgs[i]) ==>
              (LosesNothing(ws[i].store.db, s1.db, Delivered(ws[i + 1], p)) <==>
                PastWindow(s1, cfgs[i]) || |s1.queries| < s1.queryCount || |x| <= 1 || HasPassed(s1, p, x[|x| - 2]))
  {
    hide Step, Inv, PastWindow, HasPassed, QueryExpiryCount, LosesNothing, Delivered, InSignedRange;
    ReachableInv(cfgs, ops, ws, i);
    assert StepsTo(ws[i], cfgs[i], ops[i], ws[i + 1]);
    StepLosesNothing(ws[i], cfgs[i], ops[i], p);
    if InSignedRange(ws[i].store.index, ws[i + 1].store, cfgs[i]) {
      SignedExpiryCount(ws[i].store.index, ws[i + 1].store, cfgs[i], ops[i].now, p);
    }
  }

  /** The count of a query-driven expiry that is not past its window. */
  lemma {:induction false} SignedExpiryCount(x: Index, s: Store, cfg: Config, now: nat, p: string)
    requires SortedByTime(x) && InSignedRange(x, s, cfg) && s.queryCount > 0 && p in s.queries
    ensures PastWindow(s, cfg) ||
            QueryExpiryCount(x, s, cfg, now) == if |s.queries| < s.queryCount || x == [] then 0 else |x| - 1
  {
    assert s.queries[p] in s.queries.Values;
    if !PastWindow(s, cfg) && |s.queries| >= s.queryCount {
      WrappedExpiryDropsAll(x, s, cfg, now);
    }
  }

  lemma {:induction false} StepLosesNothing(w: World, cfg: Config, op: Op, p: string)
    requires op.Table? && Inv(w)
    requires Step(w, cfg, op).store.queryCount > 0 && p in Step(w, cfg, op).store.queries
    ensures var x, w1 := w.store.index, Step(w, cfg, op);
            var n := QueryExpiryCount(x, w1.store, cfg, op.now);
            && (LosesNothing(w.store.db, w1.store.db, Delivered(w1, p)) <==> n == 0 || HasPassed(w1.store, p, x[n - 1]))
            && (PastWindow(w1.store, cfg) ==> LosesNothing(w.store.db, w1.store.db, Delivered(w1, p)))
  {
    hide Step, Tracks, RecordsBehind, HistoryInOrder, StoresNewest, Delivered, LosesNothing;
    hide QueryExpiryCount, ExpireAfterQuery, PastWindow, HasPassed, BeforeExpiry;
    var w2 := BeforeExpiry(w, cfg, op);
    BeforeExpiryInv(w, cfg, op);
    SameAfterExpiry(w2.store, cfg, op.now, p, w.store.index);
    ExpiryLosesNothingIff(w2, cfg, op.now, p);
    SameDelivered(w2, Step(w, cfg, op), p);
  }

  /** A stored row has been given to a query if and only if it is not after the
      query's saved position. */
  lemma {:induction false} GivenIff(w: World, p: string, id: nat)
    requires Inv(w) && id in w.store.db
    ensures w.store.db[id] in Delivered(w, p) <==> p in w.store.cursors && id <= w.store.cursors[p].eid
  {
    assert Tracks(w, p);
  }

  /** The last id of the last dropped bucket is the greatest one dropped. */
  lemma {:induction false} GreatestDropped(w: World, n: nat)
    requires Inv(w) && 0 < n < |w.store.index|
    ensures var b := w.store.index[n - 1];
            && b.ids != [] && b.ids[|b.ids| - 1] in w.store.db && b.ids[|b.ids| - 1] in IdsIn(w.store.index[..n])
            && forall id :: id in IdsIn(w.store.index[..n]) ==> id in w.store.db && id <= b.ids[|b.ids| - 1]
  {
    hide Tracks, RecordsBehind, Indexed, IdsIn, HistoryInOrder, StoresNewest;
    var x, db := w.store.index, w.store.db;
    var b := x[n - 1];
    var last := b.ids[|b.ids| - 1];
    assert last in b.ids;
    DroppedIds(x, db, n, last);
    forall id | id in IdsIn(x[..n]) ensures id in db && id <= last {
      DroppedIds(x, db, n, id);
      if db[id].time == b.time {
        SameBucket(x, db, n - 1, id);
        LastIsGreatest(b.ids, id);
      } else {
        EarlierIsSmaller(db, w.hist, id, last);
      }
    }
  }

  lemma {:induction false} ExpiryLosesNothingIff(w: World, cfg: Config, now: nat, p: string)
    requires Inv(w) && w.store.queryCount > 0 && p in w.store.queries
    ensures var x, s := w.store.index, w.store;
            var n := QueryExpiryCount(x, s, cfg, now);
            var left := ExpireAfterQuery(s, cfg, now).db;
            && (LosesNothing(s.db, left, Delivered(w, p)) <==> n == 0 || HasPassed(s, p, x[n - 1]))
            && (PastWindow(s, cfg) ==> LosesNothing(s.db, left, Delivered(w, p)))
  {
    hide Tracks, RecordsBehind, Indexed, IdsIn, HistoryInOrder, StoresNewest, Delivered, ExpireCount;
    var s := w.store;
    var n, left := QueryExpiryCount(s.index, s, cfg, now), ExpireAfterQuery(s, cfg, now).db;
    if PastWindow(s, cfg) {
      forall id | id in s.db && id !in left ensures s.db[id] in Delivered(w, p) {
        ExpiredWereGiven(w, cfg, now, id, p);
      }
    }
    LeftAfterQuery(s, cfg, now);
    if n > 0 {
      GreatestDropped(w, n);
      var b := s.index[n - 1];
      GivenIff(w, p, b.ids[|b.ids| - 1]);
      forall id | id in IdsIn(s.index[..n])
        ensures s.db[id] in Delivered(w, p) <==> p in s.cursors && id <= s.cursors[p].eid
      {
        GivenIff(w, p, id);
      }
    }
  }

  lemma {:induction false} LeftAfterQuery(s: Store, cfg: Config, now: nat)
    requires SortedByTime(s.index)
    ensures var n := QueryExpiryCount(s.index, s, cfg, now);
            && ExpireAfterQuery(s, cfg, now).db == s.db - IdsIn(s.index[..n])
            && (n == 0 ==> ExpireAfterQuery(s, cfg, now).db == s.db)
  {
    DropNothing(s);
  }

  /** Below the window the subtraction wraps: with times and window in the signed
      range, every bucket but the newest is dropped. */
  lemma {:induction false} WrappedExpiryDropsAll(x: Index, s: Store, cfg: Config, now: nat)
    requires SortedByTime(x) && (forall i :: 0 <= i < |x| ==> x[i].time < I63) && MinExpiry(s, cfg) < I63
    requires 0 < s.queryCount <= |s.queries| && s.queries.Values != {} && !PastWindow(s, cfg)
    ensures QueryExpiryCount(x, s, cfg, now) == if x == [] then 0 else |x| - 1
  {
    var oldest, expiry := Least(s.queries.Values), MinExpiry(s, cfg);
    WrapsHigh(oldest, expiry);
    UpperBoundWhole(x, WrapSub(oldest, expiry));
  }

  /** An expiry changes only rows and index. */
  lemma {:induction false} SameAfterExpiry(s: Store, cfg: Config, now: nat, p: string, x: Index)
    requires SortedByTime(s.index) && SortedByTime(x)
    ensures var s1 := ExpireAfterQuery(s, cfg, now);
            && s1.queries == s.queries && s1.queryCount == s.queryCount
            && QueryExpiryCount(x, s1, cfg, now) == QueryExpiryCount(x, s, cfg, now)
            && (PastWindow(s1, cfg) <==> PastWindow(s, cfg))
            && forall b :: HasPassed(s1, p, b) <==> HasPassed(s, p, b)
  {
    assert MinExpiry(ExpireAfterQuery(s, cfg, now), cfg) == MinExpiry(s, cfg);
  }

  lemma {:induction false} SameDelivered(w: World, w1: World, p: string)
    requires w.delivered == w1.delivered
    ensures Delivered(w, p) == Delivered(w1, p)
  {
  }

  /** The world after the scan of a query and before its expiry. */
  ghost function BeforeExpiry(w: World, cfg: Config, op: Op): World
    requires op.Table?
  {
    if Optimized(cfg, op) then ScannedWorld(w, op.query)
    else
      var (start, stop) := Bounds(op.constraints, 0, 0);
      w.(store := ScanFor(w.store, op.constraints == [] && cfg.optimize, op.query, start, stop).0)
  }

  lemma {:induction false} BeforeExpiryInv(w: World, cfg: Config, op: Op)
    requires op.Table? && Inv(w)
    ensures Inv(BeforeExpiry(w, cfg, op)) && BeforeExpiry(w, cfg, op).store.db == w.store.db
    ensures BeforeExpiry(w, cfg, op).store.index == w.store.index
    ensures var w2 := BeforeExpiry(w, cfg, op);
            Step(w, cfg, op) == w2.(store := ExpireAfterQuery(w2.store, cfg, op.now))
  {
    if Optimized(cfg, op) {
      OptimizedInv(w, op.query);
    } else {
      var (start, stop) := Bounds(op.constraints, 0, 0);
      UnnamedScanInv(w, op.constraints == [] && cfg.optimize, op.query, start, stop);
    }
  }

  lemma {:induction false} ExpiredWereGiven(w: World, cfg: Config, now: nat, id: nat, p: string)
    requires Inv(w) && w.store.queryCount > 0 && p in w.store.queries && PastWindow(w.store, cfg)
    requires id in w.store.db && id !in ExpireAfterQuery(w.store, cfg, now).db
    ensures w.store.db[id] in Delivered(w, p)
  {
    var s := w.store;
    var oldest := ExpireTime(s.queries, s.queryCount, now);
    var n := ExpireCount(s.index, MinExpiry(s, cfg), oldest);
    DroppedIds(s.index, s.db, n, id);
    assert n > 0 && s.db[id].time <= oldest - MinExpiry(s, cfg) < oldest;
    assert oldest <= s.queries[p] by { assert s.queries[p] in s.queries.Values; }
    assert RecordsBehind(s, p) && Tracks(w, p);
    var c := s.cursors[p];
    assert w.hist[id].time < c.time;
    assert id <= c.eid;
  }
}
