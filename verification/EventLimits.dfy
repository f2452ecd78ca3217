/** Where the guarantees of an event subscriber end: executions that break them
    once a hypothesis is dropped, the exact conditions that decide, and crashes
    in the middle of an operation. */
module EventLimits {
  import opened Basics
  import opened Text
  import opened EventIndex
  import opened EventStore
  import opened EventRuns

  // ----------------------------------------------------------- single steps

  lemma {:induction false} BatchSteps(w: World, cfg: Config, data: seq<string>, custom: nat, now: nat)
    requires SortedByTime(w.store.index) && w.store.lastId + |data| < ID_LIMIT
    ensures StepsTo(w, cfg, Batch(data, custom, now),
                    World(AddBatch(w.store, cfg, data, custom, now),
                          w.hist + NewRows(w.store.lastId, EventTime(custom, now), data), w.delivered))
  {
    hide AddBatch, GenTable, Restart, NewRows;
  }

  lemma {:induction false} RestartSteps(w: World, cfg: Config, scan: seq<string>, now: nat)
    requires SortedByTime(w.store.index) && Lists(scan, KeysOf(w.store.db))
    ensures forall k :: k in scan ==> AllDigits(k) && Value(k) in w.store.db
    ensures StepsTo(w, cfg, NewProcess(scan, now), w.(store := Restart(w.store, cfg, scan, now)))
  {
    hide AddBatch, GenTable, Restart, NewRows;
    ListedKeysAreNumerals(w.store.db, scan);
  }

  lemma {:induction false} QuerySteps(w: World, cfg: Config, q: string, now: nat)
    requires SortedByTime(w.store.index) && cfg.optimize && q != ""
    ensures var w1 := ScannedWorld(w, q);
            StepsTo(w, cfg, Table(q, [], now), w1.(store := ExpireAfterQuery(w1.store, cfg, now)))
  {
    hide AddBatch, Restart, NewRows, ScanFor, ExpireAfterQuery;
    assert Bounds([], 0, 0) == (0, 0);
  }

  lemma {:induction false} AddLast(x: Index, t: nat, ids: seq<nat>)
    requires SortedByTime(x) && forall i :: 0 <= i < |x| ==> x[i].time < t
    ensures AddToIndex(x, t, ids) == x + [Bucket(t, ids)]
  {
    var p := LowerBound(x, t);
    if x != [] { UpperBoundWhole(x, t - 1); }
    assert x[..p] == x && x[p..] == [];
  }

  lemma {:induction false} AddFirst(x: Index, t: nat, ids: seq<nat>)
    requires SortedByTime(x) && forall i :: 0 <= i < |x| ==> t < x[i].time
    ensures AddToIndex(x, t, ids) == [Bucket(t, ids)] + x
  {
    var p := LowerBound(x, t);
    assert x == [] || t <= x[0].time;
    assert x[..p] == [] && x[p..] == x;
  }

  /** The world after storing one row that does not reach a checkpoint. */
  function WithRow(w: World, d: string, t: nat): World
    requires SortedByTime(w.store.index)
  {
    var s, id := w.store, w.store.lastId + 1;
    World(s.(db := s.db[id := Row(t, id, d)], index := AddToIndex(s.index, t, [id]),
             lastId := id, eventCount := s.eventCount + 1),
          w.hist[id := Row(t, id, d)], w.delivered)
  }

  lemma {:induction false} OneRow(w: World, cfg: Config, d: string, t: nat)
    requires SortedByTime(w.store.index) && t > 0 && w.store.eventCount < 200 && w.store.lastId < 200
    ensures StepsTo(w, cfg, Batch([d], t, 0), WithRow(w, d, t))
  {
    hide Expire, RemoveOverflow, AddToIndex, StepsTo;
    var last := w.store.lastId;
    BatchSteps(w, cfg, [d], t, 0);
    assert NewIds(last, 1) == [last + 1];
    assert [d][..0] == [];
    assert NewRows(last, t, [d]) == map[last + 1 := Row(t, last + 1, d)];
    assert w.store.db + NewRows(last, t, [d]) == w.store.db[last + 1 := Row(t, last + 1, d)];
    assert w.hist + NewRows(last, t, [d]) == w.hist[last + 1 := Row(t, last + 1, d)];
  }

  /** An optimised query run that expires nothing. */
  lemma {:induction false} OneQuery(w: World, cfg: Config, q: string)
    requires SortedByTime(w.store.index) && cfg.optimize && q != ""
    requires QueryExpiryCount(w.store.index, ScannedWorld(w, q).store, cfg, 0) == 0
    ensures StepsTo(w, cfg, Table(q, [], 0), ScannedWorld(w, q))
  {
    hide ScannedWorld, StepsTo;
    var w1 := ScannedWorld(w, q);
    QuerySteps(w, cfg, q, 0);
    DropNothing(w1.store);
    assert ExpireAfterQuery(w1.store, cfg, 0) == w1.store by { IndexUnchanged(w, q); }
  }

  lemma {:induction false} IndexUnchanged(w: World, q: string)
    ensures ScannedWorld(w, q).store.index == w.store.index
  {
  }

  lemma {:induction false} AboveOne(id: nat, last: nat)
    ensures Above([id], last) == if id > last then [id] else []
  {
    assert [id][..0] == [];
  }

  lemma {:induction false} SelectSnoc(x: Index, b: Bucket, start: nat, last: nat)
    ensures Select(x + [b], start, 0, last) ==
              Select(x, start, 0, last) + if start <= b.time then Above(b.ids, last) else []
    ensures start <= b.time && b.ids != [] ==> EndOfScan(x + [b], start, 0) == Reached(b.time, b.ids[|b.ids| - 1])
  {
    assert (x + [b])[..|x|] == x;
  }

  lemma {:induction false} FetchSnoc(db: Rows, ids: seq<nat>, id: nat)
    ensures Fetch(db, ids + [id]) == Fetch(db, ids) + if id in db then [db[id]] else []
  {
    assert (ids + [id])[..|ids|] == ids;
  }

  // ------------------------------------------------- when an id is remembered

  /** An eviction followed by a rebuild remembers the last id exactly when it is 1,
      or still stored with an event later than the last evicted bucket. */
  lemma {:induction false} EvictionRemembersLastId(s: Store, n: nat, scan: seq<string>)
    requires Sound(s) && (n == 0 || n < |s.index|)
    requires Lists(scan, KeysOf(Evict(s, n).db))
    ensures forall k :: k in scan ==> AllDigits(k) && Value(k) in Evict(s, n).db
    ensures Rebuild(Forget(Evict(s, n)), scan).lastId == s.lastId <==>
              s.lastId == 1 || (s.lastId in s.db && (n == 0 || s.index[n - 1].time < s.db[s.lastId].time))
  {
    var left := Evict(s, n).db;
    ListedKeysAreNumerals(left, scan);
    DroppedIds(s.index, s.db, n, s.lastId);
    EvictSound(s, n);
    if s.lastId in left {
      assert ToIndex(s.lastId) in scan;
    }
  }

  // ------------------------------------------------ an id given to two events

  const RowA := Row(100, 1, "a")
  const RowB := Row(50, 2, "b")
  const RowC := Row(200, 2, "c")

  const Reversed1 := World(
    Store(map[1 := RowA], map[], [Bucket(100, [1])], 1, 1, map[], 0, 0), map[1 := RowA], map[])

  const Reversed2 := World(
    Store(map[1 := RowA, 2 := RowB], map[], [Bucket(50, [2]), Bucket(100, [1])], 2, 2, map[], 0, 0),
    map[1 := RowA, 2 := RowB], map[])

  /** After a restart of each, with the id counter `last`. */
  function Kept(last: nat): World
  {
    World(Store(map[1 := RowA], map[], [Bucket(100, [1])], last, 0, map[], 0, 0), Reversed2.hist, map[])
  }

  const Hourly := Config(3600, 0, true)

  lemma {:induction false} ReversedBatches()
    ensures StepsTo(Start, Hourly, Batch(["a"], 100, 0), Reversed1)
    ensures StepsTo(Reversed1, Hourly, Batch(["b"], 50, 0), Reversed2)
    ensures Sound(Reversed1.store) && Sound(Reversed2.store)
  {
    hide StepsTo, AddToIndex, Sound, Step;
    OneRow(Start, Hourly, "a", 100);
    AddLast([], 100, [1]);
    assert WithRow(Start, "a", 100) == Reversed1;
    StartIsSound();
    NextSound(Start, Hourly, Batch(["a"], 100, 0), Reversed1);
    OneRow(Reversed1, Hourly, "b", 50);
    AddFirst(Reversed1.store.index, 50, [2]);
    assert WithRow(Reversed1, "b", 50) == Reversed2;
    NextSound(Reversed1, Hourly, Batch(["b"], 50, 0), Reversed2);
  }

  /** What a rebuild gives, with the greatest stored id `m`. */
  lemma {:induction false} RebuiltStore(s: Store, scan: seq<string>, m: nat)
    requires Sound(s) && Lists(scan, KeysOf(s.db)) && m in s.db && forall id :: id in s.db ==> id <= m
    ensures forall k :: k in scan ==> AllDigits(k) && Value(k) in s.db
    ensures Rebuild(Forget(s), scan) == Store(s.db, s.cursors, s.index, m, 0, map[], 0, 0)
  {
    RebuildSound(s, scan);
    ListedKeysAreNumerals(s.db, scan);
    assert ToIndex(m) in scan;
  }

  lemma {:induction false} ReversedExpires(s: Store)
    requires s.db == Reversed2.store.db && s.index == Reversed2.store.index
    ensures SortedByTime(s.index)
    ensures Expire(s, 3600, 10_000) == s.(db := map[1 := RowA], index := [Bucket(100, [1])])
  {
    var x := s.index;
    UpperBoundWhole(x, 6400);
    var b := Bucket(50, [2]);
    assert x[..1] == [b] && x[1..] == [Bucket(100, [1])];
    assert IdsIn([b]) == {2} by {
      assert [b][0] == b && 2 in b.ids;
      assert forall id :: id in IdsIn([b]) ==> id == 2;
    }
    assert s.db - {2} == map[1 := RowA];
  }

  /** The first restart expires the later id, which has the earlier time. */
  lemma {:induction false} FirstRestart(scan: seq<string>)
    requires Lists(scan, KeysOf(Reversed2.store.db)) && Sound(Reversed2.store)
    ensures StepsTo(Reversed2, Hourly, NewProcess(scan, 10_000), Kept(2))
  {
    hide Expire, StepsTo, Rebuild, Lists, Sound;
    var s := Reversed2.store;
    RestartSteps(Reversed2, Hourly, scan, 10_000);
    RebuiltStore(s, scan, 2);
    var s1 := Rebuild(Forget(s), scan);
    ReversedExpires(s1);
    DropNothing(Kept(2).store);
    assert MinExpiry(s1, Hourly) == 3600;
    assert RemoveOverflow(Kept(2).store, 0) == Kept(2).store;
  }

  /** The second one no longer knows it. */
  lemma {:induction false} SecondRestart(scan: seq<string>)
    requires Lists(scan, KeysOf(Kept(2).store.db)) && Sound(Kept(2).store)
    ensures StepsTo(Kept(2), Hourly, NewProcess(scan, 10_000), Kept(1))
  {
    hide Expire, StepsTo, Rebuild, Lists, Sound;
    var s := Kept(2).store;
    RestartSteps(Kept(2), Hourly, scan, 10_000);
    RebuiltStore(s, scan, 1);
    var s1 := Rebuild(Forget(s), scan);
    KeptStays(s1);
    DropNothing(s1);
    assert MinExpiry(s1, Hourly) == 3600;
    assert RemoveOverflow(s1, 0) == s1;
  }

  lemma {:induction false} KeptStays(s: Store)
    requires s.index == [Bucket(100, [1])]
    ensures Expire(s, 3600, 10_000) == s
  {
    UpperBoundWhole(s.index, 6400);
    DropNothing(s);
  }

  /** Without nondecreasing event times an id can name two events: in this
      execution id 2 is the event "b" at first and the event "c" at the end. */
  lemma {:induction false} OutOfOrderReusesId() returns (ops: seq<Op>, ws: seq<World>)
    ensures Execution([Hourly, Hourly, Hourly, Hourly, Hourly], ops, ws) && |ops| == 5
    ensures ops[0] == Batch(["a"], 100, 0) && ops[1] == Batch(["b"], 50, 0)
    ensures ops[2].NewProcess? && ops[3].NewProcess? && ops[2].now == ops[3].now == 10_000
    ensures ops[4] == Batch(["c"], 200, 0)
    ensures 2 in ws[2].hist && ws[2].hist[2] == RowB
    ensures 2 in ws[5].hist && ws[5].hist[2] == RowC
  {
    hide StepsTo, Execution, Step, Sound, WithRow, Lists, Ordered;
    ReversedBatches();
    var scan2 := Listing(Reversed2.store.db);
    FirstRestart(scan2);
    NextSound(Reversed2, Hourly, NewProcess(scan2, 10_000), Kept(2));
    var scan1 := Listing(Kept(2).store.db);
    SecondRestart(scan1);
    var last := LastBatch();
    ops := [Batch(["a"], 100, 0), Batch(["b"], 50, 0), NewProcess(scan2, 10_000), NewProcess(scan1, 10_000),
            Batch(["c"], 200, 0)];
    ws := [Start, Reversed1, Reversed2, Kept(2), Kept(1), last];
    FiveSteps(Hourly, ops, ws);
  }

  lemma {:induction false} Listing(db: Rows) returns (scan: seq<string>)
    ensures Lists(scan, KeysOf(db))
  {
    scan := Ordered(KeysOf(db));
  }

  lemma {:induction false} LastBatch() returns (last: World)
    ensures StepsTo(Kept(1), Hourly, Batch(["c"], 200, 0), last) && 2 in last.hist && last.hist[2] == RowC
  {
    last := WithRow(Kept(1), "c", 200);
    OneRow(Kept(1), Hourly, "c", 200);
  }

  lemma {:induction false} FiveSteps(cfg: Config, ops: seq<Op>, ws: seq<World>)
    requires |ops| == 5 && |ws| == 6 && ws[0] == Start
    requires StepsTo(ws[0], cfg, ops[0], ws[1]) && StepsTo(ws[1], cfg, ops[1], ws[2])
    requires StepsTo(ws[2], cfg, ops[2], ws[3]) && StepsTo(ws[3], cfg, ops[3], ws[4])
    requires StepsTo(ws[4], cfg, ops[4], ws[5])
    ensures Execution([cfg, cfg, cfg, cfg, cfg], ops, ws)
  {
    hide StepsTo;
  }

  lemma {:induction false} NextSound(w: World, cfg: Config, op: Op, w1: World)
    requires Sound(w.store) && StepsTo(w, cfg, op, w1)
    ensures Sound(w1.store)
  {
    StepKeepsSound(w.store, cfg, op);
  }

  // --------------------------------------------------- a row given twice

  /** In any time order, an optimised run yields a stored row if and only if its id
      is above the saved one and its time at most one second before the saved one. */
  lemma {:induction false} OptimizedYieldsIff(s: Store, q: string, r: Row)
    requires Agrees(s.index, s.db)
    ensures r in ScanFor(s, true, q, 0, 0).1 <==>
              && r.eid in s.db && s.db[r.eid] == r
              && r.eid > ReadCursor(s, q).eid && ReadCursor(s, q).time <= r.time + 1
  {
    var c := ReadCursor(s, q);
    ScanRefinesFilter(s.index, s.db, CursorStart(c), 0, c.eid);
    assert Wanted(s.db, CursorStart(c), 0, c.eid, r) <==>
             r.eid in s.db && s.db[r.eid] == r && r.eid > c.eid && CursorStart(c) <= r.time;
  }

  /** A time as it is read back: 0 when it does not fit a signed number. */
  function ReadTime(t: nat): nat { if t < I63 then t else 0 }

  /** Two runs with nothing stored in between both yield a row if and only if its id
      is above the saved one and above the last one of the newest bucket, and its
      time at most one second before the saved one and before that bucket. With
      ids and times ascending together there is no such row. */
  lemma {:induction false} RepeatsIff(s: Store, q: string, r: Row)
    requires Agrees(s.index, s.db) && q != "" && s.index != []
    ensures var c, b := ReadCursor(s, q), s.index[|s.index| - 1];
            var (s1, rows) := ScanFor(s, true, q, 0, 0);
            r in rows && r in ScanFor(s1, true, q, 0, 0).1 <==>
              && r.eid in s.db && s.db[r.eid] == r
              && r.eid > c.eid && r.eid > b.ids[|b.ids| - 1]
              && c.time <= r.time + 1 && ReadTime(b.time) <= r.time + 1
  {
    hide ScanFor, Indexed;
    var s1 := ScanFor(s, true, q, 0, 0).0;
    PositionAfterRun(s, q);
    OptimizedYieldsIff(s, q, r);
    OptimizedYieldsIff(s1, q, r);
    if r.eid in s.db { NotAfterNewest(s.index, s.db, r.eid); }
  }

  /** Unless the saved time is past the newest bucket, a run saves the last id of
      that bucket. */
  lemma {:induction false} PositionAfterRun(s: Store, q: string)
    requires Agrees(s.index, s.db) && q != "" && s.index != []
    ensures var b, s1 := s.index[|s.index| - 1], ScanFor(s, true, q, 0, 0).0;
            && s1.db == s.db && s1.index == s.index
            && (ReadCursor(s, q).time <= b.time + 1 ==>
                 ReadCursor(s1, q) == Cursor(ReadTime(b.time), b.ids[|b.ids| - 1]))
  {
    hide Select, Fetch, Indexed;
  }

  const Late := Row(99, 2, "b")

  const Swapped := World(
    Store(map[1 := RowA, 2 := Late], map[], [Bucket(99, [2]), Bucket(100, [1])], 2, 2, map[], 0, 0),
    map[1 := RowA, 2 := Late], map[])

  const Forever := Config(0, 0, true)

  /** The world after runs of the query "q" that recorded `position`. */
  function Read(position: nat, given: seq<Row>): World
  {
    World(Swapped.store.(cursors := map["q" := Cursor(100, 1)], queries := map["q" := position]),
          Swapped.hist, map["q" := given])
  }

  lemma {:induction false} SwappedBatches()
    ensures StepsTo(Start, Forever, Batch(["a"], 100, 0), Reversed1)
    ensures StepsTo(Reversed1, Forever, Batch(["b"], 99, 0), Swapped)
  {
    hide StepsTo, AddToIndex;
    OneRow(Start, Forever, "a", 100);
    AddLast([], 100, [1]);
    assert WithRow(Start, "a", 100) == Reversed1;
    OneRow(Reversed1, Forever, "b", 99);
    AddFirst(Reversed1.store.index, 99, [2]);
    assert WithRow(Reversed1, "b", 99) == Swapped;
  }

  lemma {:induction false} SelectSwapped(start: nat, last: nat)
    requires start <= 99 && last <= 1
    ensures var x := Swapped.store.index;
            && Select(x, start, 0, last) == [2] + (if last == 0 then [1] else [])
            && EndOfScan(x, start, 0) == Reached(100, 1)
  {
    var x, b1, b2 := Swapped.store.index, Bucket(99, [2]), Bucket(100, [1]);
    assert x == ([] + [b1]) + [b2];
    SelectSnoc([], b1, start, last);
    SelectSnoc([] + [b1], b2, start, last);
    AboveOne(2, last);
    AboveOne(1, last);
  }

  lemma {:induction false} FetchSwapped()
    ensures Fetch(Swapped.store.db, [2]) == [Late] && Fetch(Swapped.store.db, [2, 1]) == [Late, RowA]
  {
    assert [2, 1] == [2] + [1] && [2] == [] + [2];
    FetchSnoc(Swapped.store.db, [], 2);
    FetchSnoc(Swapped.store.db, [2], 1);
  }

  /** The world a scan makes, from its bounds, ids and end. */
  lemma {:induction false} ScanGives(w: World, q: string, ids: seq<nat>, end: ScanEnd)
    requires q != "" && end.Reached?
    requires var c := ReadCursor(w.store, q);
             && Select(w.store.index, CursorStart(c), 0, c.eid) == ids
             && EndOfScan(w.store.index, CursorStart(c), 0) == end
    ensures ScannedWorld(w, q) ==
              World(w.store.(cursors := w.store.cursors[q := Cursor(end.time, end.id)],
                             queries := w.store.queries[q := CursorStart(ReadCursor(w.store, q))]),
                    w.hist, w.delivered[q := Delivered(w, q) + Fetch(w.store.db, ids)])
  {
    hide Select, EndOfScan, Fetch, ReadCursor;
  }

  lemma {:induction false} SwappedFirst()
    ensures ScannedWorld(Swapped, "q") == Read(0, [Late, RowA])
  {
    hide Select, EndOfScan, Fetch, ScannedWorld;
    SelectSwapped(0, 0);
    FetchSwapped();
    assert [2] + [1] == [2, 1] && [] + [Late, RowA] == [Late, RowA];
    ScanGives(Swapped, "q", [2, 1], Reached(100, 1));
    assert Swapped.delivered["q" := [Late, RowA]] == map["q" := [Late, RowA]];
  }

  lemma {:induction false} SwappedAgain()
    ensures ScannedWorld(Read(0, [Late, RowA]), "q") == Read(99, [Late, RowA, Late])
  {
    hide Select, EndOfScan, Fetch, ScannedWorld;
    var w := Read(0, [Late, RowA]);
    assert ReadCursor(w.store, "q") == Cursor(100, 1);
    SelectSwapped(99, 1);
    FetchSwapped();
    assert [2] + [] == [2] && [Late, RowA] + [Late] == [Late, RowA, Late];
    ScanGives(w, "q", [2], Reached(100, 1));
    assert w.delivered["q" := [Late, RowA, Late]] == map["q" := [Late, RowA, Late]];
    assert w.store.cursors["q" := Cursor(100, 1)] == w.store.cursors;
    assert w.store.queries["q" := 99] == map["q" := 99];
  }

  lemma {:induction false} SwappedRuns()
    ensures StepsTo(Swapped, Forever, Table("q", [], 0), Read(0, [Late, RowA]))
    ensures StepsTo(Read(0, [Late, RowA]), Forever, Table("q", [], 0), Read(99, [Late, RowA, Late]))
  {
    hide StepsTo, ScannedWorld;
    SwappedFirst();
    OneQuery(Swapped, Forever, "q");
    SwappedAgain();
    OneQuery(Read(0, [Late, RowA]), Forever, "q");
  }

  /** Without nondecreasing event times a row can be given twice: in this execution
      two runs of one query with nothing in between both yield the event "b". */
  lemma {:induction false} OutOfOrderGivesTwice() returns (ops: seq<Op>, ws: seq<World>)
    ensures Execution([Forever, Forever, Forever, Forever], ops, ws) && |ops| == 4
    ensures ops == [Batch(["a"], 100, 0), Batch(["b"], 99, 0), Table("q", [], 0), Table("q", [], 0)]
    ensures Delivered(ws[4], "q") == [Late, RowA, Late] && !GivenOnce(ws[4], "q")
  {
    hide StepsTo;
    SwappedBatches();
    SwappedRuns();
    ops := [Batch(["a"], 100, 0), Batch(["b"], 99, 0), Table("q", [], 0), Table("q", [], 0)];
    ws := [Start, Reversed1, Swapped, Read(0, [Late, RowA]), Read(99, [Late, RowA, Late])];
    var given := Delivered(ws[4], "q");
    assert given[0].eid == 2 && given[1].eid == 1;
  }

  // ------------------------------------------ expiry below its own window

  const Short := Config(5, 0, true)
  const First := Row(2, 1, "a")

  /** One query is scheduled. */
  const Scheduled := World(Empty.(queryCount := 1), map[], map[])

  const OneEvent := World(
    Store(map[1 := First], map[], [Bucket(2, [1])], 1, 1, map[], 1, 0), map[1 := First], map[])

  /** The query "p" has been given the event and recorded `position`. */
  function Followed(position: nat): World
  {
    World(OneEvent.store.(cursors := map["p" := Cursor(2, 1)], queries := map["p" := position]),
          OneEvent.hist, map["p" := [First]])
  }

  lemma {:induction false} OneScheduled()
    ensures StepsTo(Start, Short, ResetQueryCount(1), Scheduled)
    ensures StepsTo(Scheduled, Short, Batch(["a"], 2, 0), OneEvent)
  {
    hide AddBatch, GenTable, Restart, AddToIndex;
    OneRow(Scheduled, Short, "a", 2);
    AddLast([], 2, [1]);
    assert WithRow(Scheduled, "a", 2) == OneEvent;
  }

  lemma {:induction false} SelectFirst(start: nat, last: nat)
    requires start <= 2
    ensures var x := OneEvent.store.index;
            && Select(x, start, 0, last) == (if last == 0 then [1] else [])
            && EndOfScan(x, start, 0) == Reached(2, 1)
  {
    assert OneEvent.store.index == [] + [Bucket(2, [1])];
    SelectSnoc([], Bucket(2, [1]), start, last);
    AboveOne(1, last);
  }

  lemma {:induction false} FollowedScans()
    ensures ScannedWorld(OneEvent, "p") == Followed(0)
    ensures ScannedWorld(Followed(0), "p") == Followed(1)
  {
    hide Select, EndOfScan, ScannedWorld;
    SelectFirst(0, 0);
    SelectFirst(1, 1);
    FetchSnoc(OneEvent.store.db, [], 1);
    assert [] + [1] == [1] && [] + [First] == [First] && [First] + [] == [First];
    ScanGives(OneEvent, "p", [1], Reached(2, 1));
    assert OneEvent.delivered["p" := [First]] == map["p" := [First]];
    var w := Followed(0);
    assert ReadCursor(w.store, "p") == Cursor(2, 1);
    ScanGives(w, "p", [], Reached(2, 1));
    assert w.delivered["p" := [First]] == w.delivered;
    assert w.store.cursors["p" := Cursor(2, 1)] == w.store.cursors;
    assert w.store.queries["p" := 1] == map["p" := 1];
  }

  lemma {:induction false} PositionOf(p: string, position: nat)
    ensures map[p := position].Values == {position} && Least({position}) == position
  {
    assert p in map[p := position];
  }

  lemma {:induction false} FollowedRuns()
    ensures StepsTo(OneEvent, Short, Table("p", [], 0), Followed(0))
    ensures StepsTo(Followed(0), Short, Table("p", [], 0), Followed(1))
  {
    hide StepsTo, ScannedWorld;
    FollowedScans();
    PositionOf("p", 0);
    PositionOf("p", 1);
    OneQuery(OneEvent, Short, "p");
    WrappedExpiryDropsAll(OneEvent.store.index, Followed(1).store, Short, 0);
    OneQuery(Followed(0), Short, "p");
  }

  /** Two more events, which "p" has not been given. */
  ghost function Behind(n: nat): World
    requires n <= 1
    ensures Behind(n).store.index == [Bucket(2, [1]), Bucket(3, [2])] + if n == 0 then [] else [Bucket(4, [3])]
    ensures Behind(n).store.queries == map["p" := 1] && Behind(n).store.cursors == map["p" := Cursor(2, 1)]
    ensures Behind(n).store.queryCount == 1 && Behind(n).store.minExpiration == 0
    ensures Behind(n).store.lastId == 2 + n && Behind(n).store.eventCount == 2 + n
    ensures forall id :: id in Behind(n).hist ==> Behind(n).hist[id].time <= 3 + n
  {
    if n == 0 then AddLast(Followed(1).store.index, 3, [2]); WithRow(Followed(1), "b", 3)
    else AddLast(Behind(0).store.index, 4, [3]); WithRow(Behind(0), "c", 4)
  }

  lemma {:induction false} BehindBatches()
    ensures StepsTo(Followed(1), Short, Batch(["b"], 3, 0), Behind(0))
    ensures StepsTo(Behind(0), Short, Batch(["c"], 4, 0), Behind(1))
  {
    hide StepsTo, WithRow;
    OneRow(Followed(1), Short, "b", 3);
    OneRow(Behind(0), Short, "c", 4);
  }

  const At9 := Constraint(EqualTo, 9)

  /** Any other query, constrained to another time, triggers the expiry. */
  lemma {:induction false} OtherQuery(w: World, cfg: Config)
    requires SortedByTime(w.store.index)
    ensures StepsTo(w, cfg, Table("", [At9], 0), w.(store := ExpireAfterQuery(w.store, cfg, 0)))
  {
    hide AddBatch, Restart, ExpireAfterQuery;
  }

  lemma {:induction false} SevenSteps(cfg: Config, ops: seq<Op>, ws: seq<World>)
    requires |ops| == 7 && |ws| == 8 && ws[0] == Start
    requires StepsTo(ws[0], cfg, ops[0], ws[1]) && StepsTo(ws[1], cfg, ops[1], ws[2])
    requires StepsTo(ws[2], cfg, ops[2], ws[3]) && StepsTo(ws[3], cfg, ops[3], ws[4])
    requires StepsTo(ws[4], cfg, ops[4], ws[5]) && StepsTo(ws[5], cfg, ops[5], ws[6])
    requires StepsTo(ws[6], cfg, ops[6], ws[7])
    requires InOrder(ws[1], ops[1]) && InOrder(ws[4], ops[4]) && InOrder(ws[5], ops[5])
    requires !ops[0].Batch? && !ops[2].Batch? && !ops[3].Batch? && !ops[6].Batch?
    ensures InOrderExecution(seq(7, _ => cfg), ops, ws)
  {
    hide StepsTo;
  }

  /** A window larger than the clock loses events: in this execution, with times in
      order, the expiry at the end of another query removes the event "b", which
      the tracked query "p" has not been given. */
  lemma {:induction false} WrappedExpiryLosesEvent() returns (ops: seq<Op>, ws: seq<World>)
    ensures InOrderExecution(seq(7, _ => Short), ops, ws) && |ops| == 7
    ensures ops == [ResetQueryCount(1), Batch(["a"], 2, 0), Table("p", [], 0), Table("p", [], 0),
                    Batch(["b"], 3, 0), Batch(["c"], 4, 0), Table("", [At9], 0)]
    ensures ws[7].store.queryCount == 1 && "p" in ws[7].store.queries
    ensures !LosesNothing(ws[6].store.db, ws[7].store.db, Delivered(ws[7], "p"))
  {
    hide StepsTo, InOrderExecution, LosesNothing, Delivered, Behind;
    hide ExpireAfterQuery, QueryExpiryCount, PastWindow, HasPassed;
    OneScheduled();
    FollowedRuns();
    BehindBatches();
    var w := Behind(1);
    OtherQuery(w, Short);
    ops := [ResetQueryCount(1), Batch(["a"], 2, 0), Table("p", [], 0), Table("p", [], 0),
            Batch(["b"], 3, 0), Batch(["c"], 4, 0), Table("", [At9], 0)];
    ws := [Start, Scheduled, OneEvent, Followed(0), Followed(1), Behind(0), w,
           w.(store := ExpireAfterQuery(w.store, Short, 0))];
    SevenSteps(Short, ops, ws);
    BehindIsLost();
    QueryExpiryLosesNothing(seq(7, _ => Short), ops, ws, 6, "p");
  }

  lemma {:induction false} BehindIsLost()
    ensures var x, s1 := Behind(1).store.index, ExpireAfterQuery(Behind(1).store, Short, 0);
            && s1.queryCount == 1 && "p" in s1.queries && !PastWindow(s1, Short)
            && QueryExpiryCount(x, s1, Short, 0) == 2 && !HasPassed(s1, "p", x[1])
  {
    hide Behind, ExpireAfterQuery, QueryExpiryCount, PastWindow, HasPassed;
    var s, x := Behind(1).store, Behind(1).store.index;
    assert x == [Bucket(2, [1]), Bucket(3, [2]), Bucket(4, [3])];
    SameAfterExpiry(s, Short, 0, "p", x);
    BelowWindow(s, x);
  }

  lemma {:induction false} BelowWindow(s: Store, x: Index)
    requires x == [Bucket(2, [1]), Bucket(3, [2]), Bucket(4, [3])]
    requires s.queries == map["p" := 1] && s.cursors == map["p" := Cursor(2, 1)]
    requires s.queryCount == 1 && s.minExpiration == 0
    ensures !PastWindow(s, Short) && QueryExpiryCount(x, s, Short, 0) == 2 && !HasPassed(s, "p", x[1])
  {
    hide QueryExpiryCount;
    PositionOf("p", 1);
    WrappedExpiryDropsAll(x, s, Short, 0);
  }

  // --------------------------------------------- crashes inside an operation

  /** The ids of these buckets in the order in which an eviction deletes them. */
  function FlatIds(x: Index): seq<nat>
  {
    if x == [] then [] else FlatIds(x[..|x| - 1]) + x[|x| - 1].ids
  }

  /** With ids and times ascending together, rows are deleted in id order. */
  lemma {:induction false} DeletedInOrder(x: Index, db: Rows, hist: Rows, n: nat)
    requires Agrees(x, db) && HistoryInOrder(hist) && StoresNewest(db, hist) && n <= |x|
    ensures Increasing(FlatIds(x[..n]))
    ensures forall id :: id in FlatIds(x[..n]) <==> id in db && n > 0 && db[id].time <= x[n - 1].time
  {
    if n > 0 {
      var front, ids := FlatIds(x[..n - 1]), x[n - 1].ids;
      assert x[..n][..n - 1] == x[..n - 1];
      DeletedInOrder(x, db, hist, n - 1);
      assert forall id :: id in FlatIds(x[..n]) <==> id in front || id in ids;
      forall id ensures id in FlatIds(x[..n]) <==> id in db && db[id].time <= x[n - 1].time {
        InBuckets(x, db, n, id);
      }
      forall a, b | a in front && b in ids ensures a < b {
        EarlierIsSmaller(db, hist, a, b);
      }
      IncreasingConcat(front, ids);
    }
  }

  lemma {:induction false} InBuckets(x: Index, db: Rows, n: nat, id: nat)
    requires Agrees(x, db) && 0 < n <= |x|
    ensures (id in db && n > 1 && db[id].time <= x[n - 2].time) || id in x[n - 1].ids <==>
              id in db && db[id].time <= x[n - 1].time
  {
    DroppedIds(x, db, n, id);
    DroppedIds(x, db, n - 1, id);
    if id in db && db[id].time == x[n - 1].time { SameBucket(x, db, n - 1, id); }
    if id in db { assert Indexed(x, id, db[id].time); }
  }

  lemma {:induction false} IncreasingConcat(a: seq<nat>, b: seq<nat>)
    requires Increasing(a) && Increasing(b) && forall i, j :: i in a && j in b ==> i < j
    ensures Increasing(a + b)
  {
    var c := a + b;
    forall i, j | 0 <= i < j < |c| ensures c[i] < c[j] {
      if i < |a| <= j { assert c[i] in a && c[j] in b; }
    }
  }

  /** The rows left when the process dies after deleting `k` rows of an eviction. */
  function LeftAfter(s: Store, n: nat, k: nat): Rows
    requires n <= |s.index| && k <= |FlatIds(s.index[..n])|
  {
    s.db - ToSet(FlatIds(s.index[..n])[..k])
  }

  lemma {:induction false} PartKeepsNewest(s: Store, hist: Rows, n: nat, k: nat)
    requires Agrees(s.index, s.db) && HistoryInOrder(hist) && StoresNewest(s.db, hist)
    requires (n == 0 || n < |s.index|) && k <= |FlatIds(s.index[..n])|
    ensures StoresNewest(LeftAfter(s, n, k), hist)
  {
    hide FlatIds;
    var flat, left := FlatIds(s.index[..n]), LeftAfter(s, n, k);
    DeletedInOrder(s.index, s.db, hist, n);
    forall a, b | a in left && b in hist && a < b ensures b in left {
      assert b in s.db;
      if b in flat[..k] { DeletedBefore(flat, k, a, b); }
    }
    if s.db != map[] { SomethingKept(s, n, k); }
  }

  lemma {:induction false} DeletedBefore(flat: seq<nat>, k: nat, a: nat, b: nat)
    requires Increasing(flat) && k <= |flat| && b in flat[..k] && a < b
    ensures a in flat ==> a in flat[..k]
  {
    if a in flat {
      var i :| 0 <= i < |flat| && flat[i] == a;
      var j :| 0 <= j < k && flat[..k][j] == b;
      assert flat[j] == b && i < j;
      assert flat[..k][i] == a;
    }
  }

  lemma {:induction false} SomethingKept(s: Store, n: nat, k: nat)
    requires Agrees(s.index, s.db) && s.db != map[] && (n == 0 || n < |s.index|) && k <= |FlatIds(s.index[..n])|
    requires forall id :: id in FlatIds(s.index[..n]) <==> id in s.db && n > 0 && s.db[id].time <= s.index[n - 1].time
    ensures LeftAfter(s, n, k) != map[]
  {
    hide FlatIds, Indexed;
    if n == 0 {
      var id :| id in s.db;
      NotDeleted(s, n, k, id);
    } else {
      var id := s.index[n].ids[0];
      assert id in s.index[n].ids && s.index[n - 1].time < s.index[n].time;
      NotDeleted(s, n, k, id);
    }
  }

  lemma {:induction false} NotDeleted(s: Store, n: nat, k: nat, id: nat)
    requires n <= |s.index| && k <= |FlatIds(s.index[..n])| && id in s.db && id !in FlatIds(s.index[..n])
    ensures id in LeftAfter(s, n, k)
  {
    hide FlatIds;
  }

  /** A crash in the middle of an eviction is harmless. Evictions delete rows in
      ascending order of time and id, so after any number of deletions the process
      that rebuilds the index from what is left satisfies the invariant that
      carries exactly-once delivery and the freshness of ids. */
  lemma {:induction false} CrashInEvictionKeepsInv(w: World, n: nat, k: nat, scan: seq<string>)
    requires Inv(w) && (n == 0 || n < |w.store.index|) && k <= |FlatIds(w.store.index[..n])|
    requires Lists(scan, KeysOf(LeftAfter(w.store, n, k)))
    ensures forall key :: key in scan ==> AllDigits(key) && Value(key) in LeftAfter(w.store, n, k)
    ensures Inv(w.(store := Rebuild(Forget(w.store.(db := LeftAfter(w.store, n, k))), scan)))
  {
    var s, left := w.store, LeftAfter(w.store, n, k);
    RebuildAgrees(left, scan);
    PartKeepsNewest(s, w.hist, n, k);
    var w1 := w.(store := s.(db := left, index := BuildIndex(left, scan)));
    FewerRowsInv(w, w1);
    RebuildInv(w1, scan);
  }

  lemma {:induction false} FewerRowsInv(w: World, w1: World)
    requires Inv(w) && w1 == w.(store := w.store.(db := w1.store.db, index := w1.store.index))
    requires Agrees(w1.store.index, w1.store.db) && StoresNewest(w1.store.db, w.hist)
    requires forall id :: id in w1.store.db ==> id in w.store.db && w1.store.db[id] == w.store.db[id]
    ensures Inv(w1)
  {
    forall q ensures Tracks(w1, q) { assert Tracks(w, q); }
    forall q ensures RecordsBehind(w1.store, q) { assert RecordsBehind(w.store, q); }
  }

  /** A crash after a scan has yielded its rows and before its position is saved:
      the next process gives those of them again that its expiry and overflow
      handling leave stored. */
  lemma {:induction false} CrashBeforeSavingRepeats(s: Store, cfg: Config, q: string, scan: seq<string>,
                                                    now: nat, r: Row)
    requires Sound(s) && Lists(scan, KeysOf(s.db))
    ensures forall k :: k in scan ==> AllDigits(k) && Value(k) in s.db
    ensures var s1 := Restart(s, cfg, scan, now);
            r in ScanFor(s1, true, q, 0, 0).1 <==> r in ScanFor(s, true, q, 0, 0).1 && r.eid in s1.db
  {
    hide ScanFor;
    RestartSound(s, cfg, scan, now);
    var s1 := Restart(s, cfg, scan, now);
    RestartKeepsRows(s, cfg, scan, now);
    assert ReadCursor(s1, q) == ReadCursor(s, q);
    OptimizedYieldsIff(s, q, r);
    OptimizedYieldsIff(s1, q, r);
  }

  /** A restart only takes rows away. */
  lemma {:induction false} RestartKeepsRows(s: Store, cfg: Config, scan: seq<string>, now: nat)
    requires Sound(s) && Lists(scan, KeysOf(s.db))
    ensures forall k :: k in scan ==> AllDigits(k) && Value(k) in s.db
    ensures var s1 := Restart(s, cfg, scan, now);
            s1.cursors == s.cursors && forall id :: id in s1.db ==> id in s.db && s1.db[id] == s.db[id]
  {
    hide ExpireCount, OverflowCount;
    RebuildSound(s, scan);
  }

  /** A crash between the two writes of a position leaves its new time with the old
      id. With times in order the next run loses nothing: it gives every row after
      the torn scan, and of the rows of that scan again those at most one second
      before its end. `w` is the world of the torn scan, `v` any later store that
      still has the torn position. */
  lemma {:induction false} TornPositionLosesNothing(w: World, q: string, v: Store, r: Row)
    requires Inv(w) && q != "" && w.store.index != [] && Agrees(v.index, v.db)
    requires var b := w.store.index[|w.store.index| - 1];
             && b.time < I63 && v.cursors == w.store.cursors[q := Cursor(b.time, ReadCursor(w.store, q).eid)]
             && (r.eid > b.ids[|b.ids| - 1] ==> b.time <= r.time)
    requires r.eid in v.db && v.db[r.eid] == r
    ensures var prior, b := ReadCursor(w.store, q).eid, w.store.index[|w.store.index| - 1];
            r in ScanFor(v, true, q, 0, 0).1 <==>
              r.eid > b.ids[|b.ids| - 1] || (r.eid > prior && b.time <= r.time + 1)
  {
    hide ScanFor, Tracks, RecordsBehind, HistoryInOrder, StoresNewest, Indexed;
    var b := w.store.index[|w.store.index| - 1];
    OptimizedYieldsIff(v, q, r);
    NewestIsGreatest(w);
    if q in w.store.cursors { CursorBehindNewest(w, q, b.ids[|b.ids| - 1]); }
  }
}
