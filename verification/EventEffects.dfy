/** What the operations of an event subscriber do, said of rows and times alone:
    which rows a batch, a restart and a query leave stored, and which rows a query
    yields. */
module EventEffects {
  import opened Basics
  import opened Text
  import opened EventIndex
  import opened EventStore
  import opened EventRuns

  // ----------------------------------------------------------------- eviction

  /** The expiry window is the larger one of the configured and the requested. */
  lemma {:induction false} WindowIsMax(s: Store, cfg: Config)
    ensures cfg.eventsExpiry <= MinExpiry(s, cfg) && s.minExpiration <= MinExpiry(s, cfg)
    ensures MinExpiry(s, cfg) == cfg.eventsExpiry || MinExpiry(s, cfg) == s.minExpiration
  {
  }

  /** Without a window or without a clock nothing expires. */
  lemma {:induction false} NoWindowNoExpiry(x: Index, expiry: nat, now: nat)
    requires SortedByTime(x) && (expiry == 0 || now == 0)
    ensures ExpireCount(x, expiry, now) == 0
  {
  }

  /** An eviction touches rows and index only, and keeps every row it does not drop. */
  lemma {:induction false} EvictTouches(s: Store, n: nat)
    requires n <= |s.index|
    ensures var s1 := Evict(s, n);
            && s1.cursors == s.cursors && s1.lastId == s.lastId && s1.eventCount == s.eventCount
            && s1.queries == s.queries && s1.queryCount == s.queryCount && s1.minExpiration == s.minExpiration
            && s1.index == s.index[n..]
            && forall id :: id in s1.db ==> id in s.db && s1.db[id] == s.db[id]
  {
  }

  /** Bucket `i` of an index is dropped by an expiry at time `now`: the oldest bucket
      is out of the window, so is this one, and it is not the newest. */
  predicate Outdated(x: Index, i: nat, expiry: nat, now: nat)
    requires i < |x|
  {
    0 < expiry && x[0].time + expiry < now && x[i].time + expiry <= now && i < |x| - 1
  }

  lemma {:induction false} OutdatedIsDropped(x: Index, i: nat, expiry: nat, now: nat)
    requires SortedByTime(x) && i < |x| && expiry <= now
    ensures i < ExpireCount(x, expiry, now) <==> Outdated(x, i, expiry, now)
  {
    if 0 < expiry { ExpiryIsExact(x, expiry, now, i); }
  }

  // ------------------------------------------------------------------ batches

  /** The rows of a batch: its event time is the given one, or the clock when none is
      given. */
  predicate IsBatchRow(s: Store, data: seq<string>, custom: nat, now: nat, id: nat, r: Row)
  {
    && s.lastId < id <= s.lastId + |data|
    && r == Row(if custom == 0 then now else custom, id, data[id - s.lastId - 1])
  }

  /** All rows once a batch is stored and before any clean-up. */
  ghost predicate WithBatch(s: Store, data: seq<string>, custom: nat, now: nat, all: Rows)
  {
    && (forall id :: id in all <==> id in s.db || s.lastId < id <= s.lastId + |data|)
    && (forall id :: id in s.db && id <= s.lastId ==> all[id] == s.db[id])
    && (forall id :: id in all && id > s.lastId ==> IsBatchRow(s, data, custom, now, id, all[id]))
  }

  lemma {:induction false} BatchRowsAre(s: Store, data: seq<string>, custom: nat, now: nat, all: Rows)
    requires Sound(s) && WithBatch(s, data, custom, now, all)
    ensures all == s.db + NewRows(s.lastId, EventTime(custom, now), data)
  {
  }

  /** Below the checkpoint a batch only adds its rows. */
  lemma {:induction false} SmallBatchOnlyAdds(s: Store, cfg: Config, data: seq<string>, custom: nat, now: nat,
                                              all: Rows)
    requires Sound(s) && s.lastId + |data| < ID_LIMIT && WithBatch(s, data, custom, now, all)
    requires s.eventCount % 256 + |data| < 256
    ensures var s1 := AddBatch(s, cfg, data, custom, now);
            && s1.db == all && s1.lastId == s.lastId + |data| && s1.eventCount == s.eventCount + |data|
            && s1.cursors == s.cursors && s1.queries == s.queries && s1.queryCount == s.queryCount
            && s1.minExpiration == s.minExpiration
  {
    BatchRowsAre(s, data, custom, now, all);
    if data == [] { assert s.db + NewRows(s.lastId, EventTime(custom, now), data) == s.db; }
  }

  /** The index of all rows, `y`, is what the clean-up starts from. */
  lemma {:induction false} BatchIndexIs(s: Store, data: seq<string>, custom: nat, now: nat, all: Rows, y: Index)
    requires Sound(s) && data != [] && WithBatch(s, data, custom, now, all) && Agrees(y, all)
    ensures Append(s, data, EventTime(custom, now)).index == y && Append(s, data, EventTime(custom, now)).db == all
  {
    var t := EventTime(custom, now);
    AppendSound(s, data, t);
    BatchRowsAre(s, data, custom, now, all);
    AgreeingIndexUnique(y, Append(s, data, t).index, all);
  }

  /** How many buckets the limit takes off an index. */
  function Excess(x: Index, max: nat): (m: nat)
    ensures m == 0 || m < |x|
  {
    if 0 < max < |x| then |x| - max else 0
  }

  /** At a checkpoint a batch first drops the oldest buckets above the limit and then
      those out of the window, and with them exactly their rows. `y` is the index of
      all rows with the batch. */
  lemma {:induction false} CheckpointKeepsExactly(s: Store, cfg: Config, data: seq<string>, custom: nat, now: nat,
                                                  all: Rows, y: Index, i: nat)
    requires Sound(s) && s.lastId + |data| < ID_LIMIT && data != []
    requires WithBatch(s, data, custom, now, all) && Agrees(y, all)
    requires s.eventCount % 256 + |data| >= 256 && Max(cfg.eventsExpiry, s.minExpiration) <= now
    requires i < |y|
    ensures var s1, m := AddBatch(s, cfg, data, custom, now), Excess(y, cfg.eventsMax);
            && Agrees(s1.index, s1.db) && s1.lastId == s.lastId + |data| && s1.eventCount == s.eventCount + |data|
            && s1.cursors == s.cursors && s1.queries == s.queries && s1.queryCount == s.queryCount
            && s1.minExpiration == s.minExpiration
            && (y[i] in s1.index <==>
                 m <= i && !Outdated(y[m..], i - m, Max(cfg.eventsExpiry, s.minExpiration), now))
            && (forall id :: id in y[i].ids ==> (id in s1.db <==> y[i] in s1.index))
            && (forall id :: id in s1.db ==> id in all && s1.db[id] == all[id])
  {
    hide AddBatch, Append, Evict, Agrees, Outdated, ExpireCount, WithBatch, EventTime;
    var e, m := Max(cfg.eventsExpiry, s.minExpiration), Excess(y, cfg.eventsMax);
    CheckpointEvicts(s, cfg, data, custom, now, all, y);
    var s1, n := Append(s, data, EventTime(custom, now)), ExpireCount(y[m..], e, now);
    EvictKeeps(s1, m + n, i);
    EvictTouches(s1, m + n);
    if m <= i { OutdatedIsDropped(y[m..], i - m, e, now); }
  }

  /** A checkpoint is one eviction after the batch is stored. */
  lemma {:induction false} CheckpointEvicts(s: Store, cfg: Config, data: seq<string>, custom: nat, now: nat,
                                            all: Rows, y: Index)
    requires Sound(s) && data != [] && WithBatch(s, data, custom, now, all) && Agrees(y, all)
    requires s.eventCount % 256 + |data| >= 256
    ensures SortedByTime(s.index)
    ensures var s1, m := Append(s, data, EventTime(custom, now)), Excess(y, cfg.eventsMax);
            && s1.index == y && s1.db == all && Agrees(s1.index, s1.db)
            && s1.lastId == s.lastId + |data| && s1.eventCount == s.eventCount + |data|
            && s1.cursors == s.cursors && s1.queries == s.queries && s1.queryCount == s.queryCount
            && s1.minExpiration == s.minExpiration
            && SortedByTime(y[m..])
            && var n := ExpireCount(y[m..], Max(cfg.eventsExpiry, s.minExpiration), now);
               AddBatch(s, cfg, data, custom, now) == Evict(s1, m + n)
  {
    hide Evict, ExpireCount, Indexed;
    BatchIndexIs(s, data, custom, now, all, y);
    var s1, m := Append(s, data, EventTime(custom, now)), Excess(y, cfg.eventsMax);
    EvictTouches(s1, m);
    EvictAdds(s1, m, ExpireCount(y[m..], Max(cfg.eventsExpiry, s.minExpiration), now));
  }

  lemma {:induction false} IdsInConcat(x: Index, m: nat, n: nat)
    requires m + n <= |x|
    ensures IdsIn(x[..m + n]) == IdsIn(x[..m]) + IdsIn(x[m..][..n])
  {
    var a, b, c := x[..m], x[m..][..n], x[..m + n];
    assert c == a + b;
    forall id | id in IdsIn(c) ensures id in IdsIn(a) + IdsIn(b) {
      var i :| 0 <= i < |c| && id in c[i].ids;
      if i < m { assert a[i] == c[i]; } else { assert b[i - m] == c[i]; }
    }
    forall id | id in IdsIn(a) ensures id in IdsIn(c) {
      var i :| 0 <= i < |a| && id in a[i].ids;
      assert c[i] == a[i];
    }
    forall id | id in IdsIn(b) ensures id in IdsIn(c) {
      var i :| 0 <= i < |b| && id in b[i].ids;
      assert c[m + i] == b[i];
    }
  }

  /** Two evictions in a row are one. */
  lemma {:induction false} EvictAdds(s: Store, m: nat, n: nat)
    requires m + n <= |s.index|
    ensures Evict(Evict(s, m), n) == Evict(s, m + n)
  {
    hide IdsIn;
    IdsInConcat(s.index, m, n);
    assert s.index[m..][n..] == s.index[m + n..];
  }

  /** Which buckets and rows an eviction keeps. */
  lemma {:induction false} EvictKeeps(s: Store, n: nat, i: nat)
    requires Agrees(s.index, s.db) && n <= |s.index| && i < |s.index|
    ensures var s1 := Evict(s, n);
            && Agrees(s1.index, s1.db)
            && (s.index[i] in s1.index <==> n <= i)
            && (forall id :: id in s.index[i].ids ==> (id in s1.db <==> n <= i))
            && (forall id :: id in s1.db ==> id in s.db && s1.db[id] == s.db[id])
  {
    hide IdsIn, Indexed;
    EvictSound(s, n);
    var left := Evict(s, n).db;
    SuffixHas(s.index, n, i);
    forall id | id in s.index[i].ids ensures id in left <==> n <= i {
      StoredInSuffix(s.index, s.db, left, n, i, id);
    }
  }

  lemma {:induction false} SuffixHas(x: Index, n: nat, i: nat)
    requires SortedByTime(x) && n <= |x| && i < |x|
    ensures x[i] in x[n..] <==> n <= i
  {
    if n <= i { assert x[n..][i - n] == x[i]; }
  }

  lemma {:induction false} StoredInSuffix(x: Index, db: Rows, left: Rows, n: nat, i: nat, id: nat)
    requires Agrees(x, db) && n <= |x| && i < |x| && id in x[i].ids && Agrees(x[n..], left)
    requires forall k :: k in left ==> k in db && left[k] == db[k]
    ensures id in left <==> n <= i
  {
    var y := x[n..];
    if n <= i {
      assert y[i - n] == x[i];
    }
    if id in left {
      assert Indexed(y, id, left[id].time);
      var j :| 0 <= j < |y| && y[j].time == left[id].time && id in y[j].ids;
      assert y[j] == x[n + j] && x[n + j].time == x[i].time;
      assert n + j == i;
    }
  }

  /** So after a checkpoint nothing is left out of the window but the newest bucket,
      unless the window's very first second is the oldest. */
  lemma {:induction false} CheckpointExpires(s: Store, cfg: Config, data: seq<string>, custom: nat, now: nat)
    requires Sound(s) && s.lastId + |data| < ID_LIMIT && data != [] && s.eventCount % 256 + |data| >= 256
    requires 0 < Max(cfg.eventsExpiry, s.minExpiration) <= now
    ensures var s1 := AddBatch(s, cfg, data, custom, now);
            |s1.index| <= 1 || now <= s1.index[0].time + Max(cfg.eventsExpiry, s.minExpiration)
  {
    var t := EventTime(custom, now);
    AppendSound(s, data, t);
    var s1 := Append(s, data, t);
    var m := OverflowCount(s1.index, cfg.eventsMax);
    EvictSound(s1, m);
    WindowIsMax(s, cfg);
    FirstIsCurrent(s1.index[m..], Max(cfg.eventsExpiry, s.minExpiration), now);
  }

  lemma {:induction false} FirstIsCurrent(x: Index, expiry: nat, now: nat)
    requires SortedByTime(x) && 0 < expiry <= now
    ensures var n := ExpireCount(x, expiry, now); |x| - n <= 1 || now <= x[n].time + expiry
  {
    var n := ExpireCount(x, expiry, now);
    if n < |x| { ExpiryIsExact(x, expiry, now, n); }
  }

  // ----------------------------------------------------------------- restarts

  /** A restart first drops the buckets out of the configured window and then the
      oldest above the limit, and with them exactly their rows. */
  lemma {:induction false} RestartKeepsExactly(s: Store, cfg: Config, scan: seq<string>, now: nat, i: nat)
    requires Sound(s) && Lists(scan, KeysOf(s.db)) && cfg.eventsExpiry <= now && i < |s.index|
    ensures forall k :: k in scan ==> AllDigits(k) && Value(k) in s.db
    ensures var s1, x := Restart(s, cfg, scan, now), s.index;
            && Agrees(s1.index, s1.db) && s1.cursors == s.cursors
            && s1.eventCount == 0 && s1.queries == map[] && s1.queryCount == 0 && s1.minExpiration == 0
            && (x[i] in s1.index <==>
                 !Outdated(x, i, cfg.eventsExpiry, now) && (cfg.eventsMax == 0 || |x| - i <= cfg.eventsMax))
            && (forall id :: id in x[i].ids ==> (id in s1.db <==> x[i] in s1.index))
            && (forall id :: id in s1.db ==> id in s.db && s1.db[id] == s.db[id])
  {
    hide Restart, Evict, Agrees, Outdated, ExpireCount, OverflowCount;
    var s0 := RestartEvicts(s, cfg, scan, now);
    var x := s.index;
    var n := ExpireCount(x, cfg.eventsExpiry, now);
    var m := OverflowCount(x[n..], cfg.eventsMax);
    EvictKeeps(s0, n + m, i);
    EvictTouches(s0, n + m);
    OutdatedIsDropped(x, i, cfg.eventsExpiry, now);
  }

  /** A restart is one eviction after the rebuild. */
  lemma {:induction false} RestartEvicts(s: Store, cfg: Config, scan: seq<string>, now: nat) returns (s0: Store)
    requires Sound(s) && Lists(scan, KeysOf(s.db))
    ensures forall k :: k in scan ==> AllDigits(k) && Value(k) in s.db
    ensures SortedByTime(s.index) && s0.index == s.index && s0.db == s.db && s0.cursors == s.cursors
    ensures s0.eventCount == 0 && s0.queries == map[] && s0.queryCount == 0 && s0.minExpiration == 0
    ensures Agrees(s0.index, s0.db)
    ensures var n := ExpireCount(s.index, cfg.eventsExpiry, now);
            Restart(s, cfg, scan, now) == Evict(s0, n + OverflowCount(s.index[n..], cfg.eventsMax))
  {
    hide Evict, ExpireCount, OverflowCount, Rebuild, Agrees;
    RebuildSound(s, scan);
    s0 := Rebuild(Forget(s), scan);
    RebuiltFields(s, scan);
    var n := ExpireCount(s.index, cfg.eventsExpiry, now);
    EvictTouches(s0, n);
    EvictAdds(s0, n, OverflowCount(s.index[n..], cfg.eventsMax));
  }

  lemma {:induction false} RebuiltFields(s: Store, scan: seq<string>)
    requires Sound(s) && forall k :: k in scan ==> AllDigits(k) && Value(k) in s.db
    ensures var s0 := Rebuild(Forget(s), scan);
            && SortedByTime(s.index) && s0.db == s.db && s0.cursors == s.cursors && s0.eventCount == 0
            && s0.queries == map[] && s0.queryCount == 0 && s0.minExpiration == 0
  {
    hide BuildIndex, GreatestId;
  }

  // ------------------------------------------------------------------ queries

  /** What a constraint on `time` asks of the scan; operands are read as unsigned, so
      a negative lower bound asks for the far future. Upper bounds ask nothing. */
  predicate ScanMeets(c: Constraint, t: nat)
  {
    match c.op
    case GreaterThan => t > if c.expr >= -1 then c.expr else 0x1_0000_0000_0000_0000 + c.expr
    case GreaterOrEqual => t >= if c.expr >= 0 then c.expr else 0x1_0000_0000_0000_0000 + c.expr
    case _ => true
  }

  /** The operand of the first equality, when there is one. */
  function FirstEqual(cs: seq<Constraint>): (e: int)
    requires AsksForTime(cs)
  {
    if cs[0].op == EqualTo then cs[0].expr else FirstEqual(cs[1..])
  }

  lemma {:induction false} EqualBounds(cs: seq<Constraint>, start: nat, stop: nat)
    requires AsksForTime(cs)
    ensures -I63 <= FirstEqual(cs) < I63
    ensures Bounds(cs, start, stop) == (ToUnsigned(FirstEqual(cs)), ToUnsigned(FirstEqual(cs)))
  {
    if cs[0].op != EqualTo {
      var rest, e := cs[1..], ToUnsigned(cs[0].expr);
      var i :| 0 <= i < |cs| && cs[i].op == EqualTo;
      assert rest[i - 1].op == EqualTo;
      match cs[0].op
      case GreaterThan => EqualBounds(rest, Max(start, WrapSucc(e)), stop);
      case GreaterOrEqual => EqualBounds(rest, Max(start, e), stop);
      case LessThan => EqualBounds(rest, start, Min(stop, WrapSub(e, 1)));
      case LessOrEqual => EqualBounds(rest, start, Min(stop, e));
      case OtherOperator => EqualBounds(rest, start, stop);
    }
  }

  lemma {:induction false} LowerBounds(cs: seq<Constraint>, start: nat, t: nat)
    requires !AsksForTime(cs)
    ensures Bounds(cs, start, 0).0 <= t <==> start <= t && forall i :: 0 <= i < |cs| ==> ScanMeets(cs[i], t)
  {
    if cs != [] {
      var rest, e := cs[1..], ToUnsigned(cs[0].expr);
      assert forall i :: 0 <= i < |rest| ==> rest[i] == cs[i + 1];
      var start1 := match cs[0].op
                    case GreaterThan => Max(start, WrapSucc(e))
                    case GreaterOrEqual => Max(start, e)
                    case _ => start;
      assert start1 <= t <==> start <= t && ScanMeets(cs[0], t);
      assert Bounds(cs, start, 0) == Bounds(rest, start1, 0);
      LowerBounds(rest, start1, t);
    }
  }

  /** Exactly which rows a query yields that does not use its saved position, because
      it has time constraints or optimisation is off. With an equality: the rows of
      the first equality's time, and all rows when that is 0. Without one: the rows
      that meet every lower bound as the scan reads it. */
  lemma {:induction false} PlainQueryYieldsIff(s: Store, cfg: Config, q: string, cs: seq<Constraint>, now: nat, r: Row)
    requires Agrees(s.index, s.db) && (cs != [] || !cfg.optimize)
    ensures r in GenTable(s, cfg, q, cs, now).1 <==>
              && r.eid in s.db && s.db[r.eid] == r && r.eid > 0
              && if AsksForTime(cs) then
                   FirstEqual(cs) == 0 || r.time == FirstEqual(cs)
                   || (FirstEqual(cs) < 0 && r.time == 0x1_0000_0000_0000_0000 + FirstEqual(cs))
                 else forall i :: 0 <= i < |cs| ==> ScanMeets(cs[i], r.time)
  {
    var (start, stop) := Bounds(cs, 0, 0);
    ScanRefinesFilter(s.index, s.db, start, stop, 0);
    assert GenTable(s, cfg, q, cs, now).1 == Fetch(s.db, Select(s.index, start, stop, 0));
    assert Wanted(s.db, start, stop, 0, r) <==>
             r.eid in s.db && s.db[r.eid] == r && InRange(r.time, start, stop) && r.eid > 0;
    if AsksForTime(cs) {
      EqualBounds(cs, 0, 0);
    } else {
      LowerBounds(cs, 0, r.time);
      UpperBoundsIgnored(cs, 0);
    }
  }

  /** What a query does to positions: an optimised run records its start, one second
      before its saved time, and saves the last id of the newest bucket, unless the
      query has no name or that bucket lies before the start; any other query
      records and saves nothing. */
  lemma {:induction false} QueryRecords(s: Store, cfg: Config, q: string, cs: seq<Constraint>, now: nat)
    requires Agrees(s.index, s.db)
    ensures var s1 := GenTable(s, cfg, q, cs, now).0;
            && s1.lastId == s.lastId && s1.eventCount == s.eventCount
            && s1.queryCount == s.queryCount && s1.minExpiration == s.minExpiration
            && if cs == [] && cfg.optimize then
                 var t, x := ReadCursor(s, q).time, s.index;
                 && s1.queries == s.queries[q := if t > 0 then t - 1 else 0]
                 && s1.cursors == if q == "" || x == [] || x[|x| - 1].time + 1 < t then s.cursors
                                  else s.cursors[q := Cursor(x[|x| - 1].time, x[|x| - 1].ids[|x[|x| - 1].ids| - 1])]
               else s1.queries == s.queries && s1.cursors == s.cursors
  {
    hide Select, Fetch, EndOfScan, ExpireAfterQuery, Indexed;
    var (start, stop) := Bounds(cs, 0, 0);
    if cs == [] && cfg.optimize {
      var t := ReadCursor(s, q).time;
      EndIs(s.index, if t > 0 then t - 1 else 0);
    }
    ExpiryTouches(ScanFor(s, cs == [] && cfg.optimize, q, start, stop).0, cfg, now);
  }

  /** Where an unbounded scan ends: at the newest bucket, when that is not before its
      start. */
  lemma {:induction false} EndIs(x: Index, start: nat)
    requires WellFormed(x)
    ensures EndOfScan(x, start, 0) ==
              if x == [] || x[|x| - 1].time < start then Nothing
              else Reached(x[|x| - 1].time, x[|x| - 1].ids[|x[|x| - 1].ids| - 1])
  {
    if x != [] && x[|x| - 1].time < start { EndIs(x[..|x| - 1], start); }
  }

  lemma {:induction false} ExpiryTouches(s: Store, cfg: Config, now: nat)
    requires SortedByTime(s.index)
    ensures var s1 := ExpireAfterQuery(s, cfg, now);
            && s1.cursors == s.cursors && s1.lastId == s.lastId && s1.eventCount == s.eventCount
            && s1.queries == s.queries && s1.queryCount == s.queryCount && s1.minExpiration == s.minExpiration
  {
  }

  /** Exactly which buckets a query's expiry drops: none until every scheduled query
      has run; then those out of the window before the oldest recorded position, or
      before the clock when no query is counted. */
  lemma {:induction false} QueryKeepsExactly(s: Store, cfg: Config, q: string, cs: seq<Constraint>, now: nat,
                                             oldest: nat, i: nat)
    requires Sound(s) && i < |s.index|
    requires var s1 := GenTable(s, cfg, q, cs, now).0;
             && Max(cfg.eventsExpiry, s.minExpiration) <= oldest
             && (if s.queryCount == 0 || s1.queries == map[] then oldest == now
                 else oldest in s1.queries.Values && forall p :: p in s1.queries ==> oldest <= s1.queries[p])
    ensures var s1, x := GenTable(s, cfg, q, cs, now).0, s.index;
            && Agrees(s1.index, s1.db)
            && (x[i] in s1.index <==>
                 |s1.queries| < s.queryCount
                 || !Outdated(x, i, Max(cfg.eventsExpiry, s.minExpiration), oldest))
            && (forall id :: id in x[i].ids ==> (id in s1.db <==> x[i] in s1.index))
            && (forall id :: id in s1.db ==> id in s.db && s1.db[id] == s.db[id])
  {
    hide GenTable, Evict, ExpireCount, Outdated, Agrees, QueryExpiryCount, ExpireTime;
    var s0 := QueryEvicts(s, cfg, q, cs, now);
    var e, n := Max(cfg.eventsExpiry, s.minExpiration), QueryExpiryCount(s.index, s0, cfg, now);
    EvictTouches(s0, n);
    OldestIs(s0, oldest, now);
    CountIs(s.index, s0, cfg, now, oldest, e);
    EvictKeeps(s0, n, i);
    OutdatedIsDropped(s.index, i, e, oldest);
  }

  /** A query is one eviction after its scan. */
  lemma {:induction false} QueryEvicts(s: Store, cfg: Config, q: string, cs: seq<Constraint>, now: nat)
    returns (s0: Store)
    requires Sound(s)
    ensures s0.db == s.db && s0.index == s.index && Agrees(s0.index, s0.db)
    ensures s0.queryCount == s.queryCount && s0.minExpiration == s.minExpiration
    ensures SortedByTime(s.index)
    ensures GenTable(s, cfg, q, cs, now).0 == Evict(s0, QueryExpiryCount(s.index, s0, cfg, now))
  {
    hide Select, Fetch, EndOfScan, ExpireCount, Evict, ExpireTime;
    var (start, stop) := Bounds(cs, 0, 0);
    s0 := ScanFor(s, cs == [] && cfg.optimize, q, start, stop).0;
    DropNothing(s0);
  }

  lemma {:induction false} CountIs(x: Index, s: Store, cfg: Config, now: nat, oldest: nat, e: nat)
    requires SortedByTime(x) && ExpireTime(s.queries, s.queryCount, now) == oldest
    requires e == Max(cfg.eventsExpiry, s.minExpiration)
    ensures QueryExpiryCount(x, s, cfg, now) ==
              if |s.queries| < s.queryCount then 0 else ExpireCount(x, e, oldest)
  {
    WindowIsMax(s, cfg);
  }

  lemma {:induction false} OldestIs(s: Store, oldest: nat, now: nat)
    requires if s.queryCount == 0 || s.queries == map[] then oldest == now
             else oldest in s.queries.Values && forall p :: p in s.queries ==> oldest <= s.queries[p]
    ensures ExpireTime(s.queries, s.queryCount, now) == oldest
  {
    if s.queryCount > 0 && s.queries != map[] {
      var least := Least(s.queries.Values);
      var p :| p in s.queries && s.queries[p] == least;
    }
  }

  /** A new schedule forgets the recorded positions and counts its queries; a new
      window replaces the requested one. Nothing else changes. */
  lemma {:induction false} ScheduleChanges(s: Store, cfg: Config, n: nat)
    requires SortedByTime(s.index)
    ensures StepStore(s, cfg, ResetQueryCount(n)) ==
              Store(s.db, s.cursors, s.index, s.lastId, s.eventCount, map[], n, s.minExpiration)
    ensures StepStore(s, cfg, SetMinExpiry(n)) ==
              Store(s.db, s.cursors, s.index, s.lastId, s.eventCount, s.queries, s.queryCount, n)
  {
  }

  // -------------------------------------------------------------- stored keys

  lemma {:induction false} TrimDigits(d: string)
    requires AllDigits(d)
    ensures TrimLeft(d) == d && TrimLeft(" " + d) == d
  {
    assert (" " + d)[1..] == d;
    if d != [] { assert IsDigit(d[0]); }
  }

  /** What a key suffix parses to: digits denote their number, cut at the greatest
      64-bit number; a sign is allowed, and negates modulo 2^64. */
  lemma {:induction false} ParseNumerals(d: string)
    requires d != "" && AllDigits(d)
    ensures var v := if Value(d) < U64 then Value(d) else U64 - 1;
            && ParseId(d) == v && ParseId("+" + d) == v
            && ParseId("-" + d) == if 0 < Value(d) < U64 then U64 - Value(d) else v
  {
    hide Value;
    DigitsHaveNoNul(d);
    assert IsDigit(d[0]);
    assert ("+" + d)[1..] == d && ("-" + d)[1..] == d;
    assert UntilNul("+" + d) == "+" + d && UntilNul("-" + d) == "-" + d;
  }

  /** A key is read up to its first NUL. */
  lemma {:induction false} ParseStopsAtNul(d: string, rest: string)
    requires AllDigits(d)
    ensures ParseId(d + "\0" + rest) == ParseId(d)
  {
    hide Value;
    NulEnds(d, rest);
    DigitsHaveNoNul(d);
  }

  lemma {:induction false} NulEnds(d: string, rest: string)
    requires AllDigits(d)
    ensures UntilNul(d + "\0" + rest) == d
  {
    var s := d + "\0" + rest;
    if d != [] {
      assert IsDigit(d[0]) && s[1..] == d[1..] + "\0" + rest;
      NulEnds(d[1..], rest);
    }
  }

  /** White space before a number is skipped: blank, tab, line feed, vertical tab, form
      feed, carriage return. */
  lemma {:induction false} ParseSkipsWhite(c: char, k: string)
    requires c == ' ' || 9 <= c as int <= 13
    ensures ParseId([c] + k) == ParseId(k)
  {
    hide Value, AllDigits;
    assert ([c] + k)[1..] == k;
    assert UntilNul([c] + k) == [c] + UntilNul(k);
    assert ([c] + UntilNul(k))[1..] == UntilNul(k);
  }

  /** A suffix that does not end in a digit is no number. */
  lemma {:induction false} ParseRejects(k: string)
    requires (forall i :: 0 <= i < |k| ==> k[i] != '\0') && (k == "" || !IsDigit(k[|k| - 1]))
    ensures ParseId(k) == 0
  {
    NoNulKept(k);
    TrimKeepsEnd(k);
  }

  lemma {:induction false} NoNulKept(k: string)
    requires forall i :: 0 <= i < |k| ==> k[i] != '\0'
    ensures UntilNul(k) == k
  {
    if k != [] {
      NoNulKept(k[1..]);
      assert k == [k[0]] + k[1..];
    }
  }

  lemma {:induction false} TrimKeepsEnd(k: string)
    ensures var t := TrimLeft(k); t == "" || t[|t| - 1] == k[|k| - 1]
    ensures TrimLeft(k) != "" ==> k != ""
  {
    if k != [] && IsSpace(k[0]) { TrimKeepsEnd(k[1..]); }
  }
}
