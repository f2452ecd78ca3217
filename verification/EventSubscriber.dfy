/** The event subscriber as the program runs it: fields updated in place, loops
    over rows, keys and buckets. Every method is proved equal to the function of
    the whole state that `EventStore` gives for it. */
module EventSubscriber {
  import opened Basics
  import opened Text
  import opened EventIndex
  import opened EventStore

  class Subscriber {
    const cfg: Config

    // the database: event rows by id, the saved position of each query, and keys
    // of the subscriber that are no numbers or whose row cannot be read
    var db: Rows
    var cursors: map<string, Cursor>
    var junk: set<string>

    // memory
    var index: Index
    var lastId: nat
    var eventCount: nat
    var queries: map<string, nat>
    var queryCount: nat
    var minExpiration: nat

    /** The index is a map ordered by time. */
    ghost predicate Valid()
      reads this
    {
      SortedByTime(index)
    }

    ghost function Snapshot(): Store
      reads this
    {
      Store(db, cursors, index, lastId, eventCount, queries, queryCount, minExpiration)
    }

    /** Ids are positive 64-bit numbers, and a key holds a row or junk. */
    ghost predicate KeysApart()
      reads this
    {
      (forall id :: id in db ==> 0 < id < U64) && junk !! KeysOf(db)
    }

    /** A new process on an existing database. */
    constructor (cfg: Config, db: Rows, cursors: map<string, Cursor>, junk: set<string>)
      ensures Valid() && this.cfg == cfg && this.junk == junk
      ensures Snapshot() == Store(db, cursors, [], 0, 0, map[], 0, 0)
    {
      this.cfg := cfg;
      this.db, this.cursors, this.junk := db, cursors, junk;
      index, lastId, eventCount := [], 0, 0;
      queries, queryCount, minExpiration := map[], 0, 0;
    }

    /** Delete the rows of these buckets from the database. */
    method DeleteRows(batches: Index)
      modifies this`db
      ensures db == old(db) - IdsIn(batches)
    {
      for i := 0 to |batches|
        invariant db == old(db) - IdsIn(batches[..i])
      {
        var ids := batches[i].ids;
        for j := 0 to |ids|
          invariant db == old(db) - IdsIn(batches[..i]) - ToSet(ids[..j])
        {
          db := db - {ids[j]};
          assert ToSet(ids[..j + 1]) == ToSet(ids[..j]) + {ids[j]};
        }
        IdsInSnoc(batches, i);
        assert ids[..|ids|] == ids;
      }
      assert batches[..|batches|] == batches;
    }

    method RemoveOverflowingEventBatches(max: nat)
      requires Valid()
      modifies this`db, this`index
      ensures Valid()
      ensures Snapshot() == RemoveOverflow(old(Snapshot()), max)
    {
      if max == 0 || |index| <= max {
        DropNothing(Snapshot());
        return;
      }
      var n := |index| - max;
      var excess := index[..n];
      index := index[n..];
      DeleteRows(excess);
    }

    method ExpireEventBatches(expiry: nat, now: nat)
      requires Valid()
      modifies this`db, this`index
      ensures Valid()
      ensures Snapshot() == Expire(old(Snapshot()), expiry, now)
    {
      DropNothing(Snapshot());
      if expiry == 0 || now == 0 || index == [] {
        return;
      }
      var oldestValid := WrapSub(now, expiry);
      if index[0].time >= oldestValid {
        return;
      }
      var end := UpperBound(index, oldestValid);
      if end != 0 && end == |index| {
        end := end - 1;
      }
      var expired := index[..end];
      index := index[end..];
      DeleteRows(expired);
    }

    method GetMinExpiry() returns (expiry: nat)
      ensures expiry == MinExpiry(Snapshot(), cfg)
    {
      expiry := if cfg.eventsExpiry < minExpiration then minExpiration else cfg.eventsExpiry;
    }

    /** Give each row of a batch the next id and the batch's time. */
    method NumberRows(data: seq<string>, time: nat) returns (ids: seq<nat>, rows: Rows)
      modifies this`lastId
      ensures lastId == old(lastId) + |data|
      ensures ids == NewIds(old(lastId), |data|) && rows == NewRows(old(lastId), time, data)
    {
      var first := lastId;
      ids, rows := [], map[];
      for i := 0 to |data|
        invariant lastId == first + i
        invariant ids == NewIds(first, i)
        invariant rows == NewRows(first, time, data[..i])
      {
        lastId := lastId + 1;
        assert data[..i + 1][..i] == data[..i];
        ids, rows := ids + [lastId], rows[lastId := Row(time, lastId, data[i])];
      }
      assert data[..|data|] == data;
    }

    method AddBatch(data: seq<string>, custom: nat, now: nat) returns (ok: bool)
      requires Valid()
      modifies this
      ensures Valid()
      ensures ok <==> data != []
      ensures Snapshot() == EventStore.AddBatch(old(Snapshot()), cfg, data, custom, now)
    {
      hide AddToIndex, Expire, RemoveOverflow, SortedByTime;
      var time := if custom != 0 then custom else now;
      var ids, rows := NumberRows(data, time);
      if ids == [] {
        return false;
      }
      db := db + rows;
      AddSorted(index, time, ids);
      index := AddToIndex(index, time, ids);
      var cleanup := eventCount % EVENTS_CHECKPOINT + |data| >= EVENTS_CHECKPOINT;
      eventCount := eventCount + |data|;
      if cleanup {
        RemoveOverflowingEventBatches(cfg.eventsMax);
        var expiry := GetMinExpiry();
        ExpireEventBatches(expiry, now);
      }
      return true;
    }

    /** The ids of one bucket that lie above the cursor. */
    static method IdsAbove(ids: seq<nat>, last: nat) returns (above: seq<nat>)
      ensures above == Above(ids, last)
    {
      above := [];
      for j := 0 to |ids|
        invariant above == Above(ids[..j], last)
      {
        assert ids[..j + 1][..j] == ids[..j];
        if last < ids[j] {
          above := above + [ids[j]];
        }
      }
      assert ids[..|ids|] == ids;
    }

    /** Walk the buckets between the bounds found in the ordered index. */
    method CollectIds(start: nat, stop: nat, last: nat) returns (collected: seq<nat>, end: ScanEnd)
      requires Valid()
      ensures collected == Select(index, start, stop, last)
      ensures end == EndOfScan(index, start, stop)
    {
      if stop != 0 && start > stop {
        NothingInRange(index, start, stop, last, |index|);
        assert index[..|index|] == index;
        return [], Nothing;
      }
      var lo := if start == 0 then 0 else LowerBound(index, start);
      if start != 0 && lo == |index| {
        NothingInRange(index, start, stop, last, |index|);
        assert index[..|index|] == index;
        return [], Nothing;
      }
      var hi := if stop == 0 then |index| else UpperBound(index, stop);
      if stop != 0 { BoundsOrdered(index, start, stop); }
      collected, end := CollectBetween(index, lo, hi, start, stop, last);
    }

    static method CollectBetween(x: Index, lo: nat, hi: nat, start: nat, stop: nat, last: nat)
      returns (collected: seq<nat>, end: ScanEnd)
      requires lo <= hi <= |x|
      requires forall i :: 0 <= i < |x| ==> (lo <= i < hi <==> InRange(x[i].time, start, stop))
      ensures collected == Select(x, start, stop, last)
      ensures end == EndOfScan(x, start, stop)
    {
      hide Above;
      collected, end := [], Nothing;
      NothingInRange(x, start, stop, last, lo);
      for i := lo to hi
        invariant collected == Select(x[..i], start, stop, last)
        invariant end == EndOfScan(x[..i], start, stop)
      {
        var ids := x[i].ids;
        var above := IdsAbove(ids, last);
        assert x[..i + 1][..i] == x[..i];
        collected := collected + above;
        end := Reached(x[i].time, if ids == [] then 0 else ids[|ids| - 1]);
      }
      RestOutOfRange(x, start, stop, last, hi);
    }

    /** The range scan: collect the ids, then read their rows. */
    method ScanRows(start: nat, stop: nat, last: nat) returns (rows: seq<Row>, end: ScanEnd)
      requires Valid()
      ensures rows == Fetch(db, Select(index, start, stop, last))
      ensures end == EndOfScan(index, start, stop)
    {
      var collected;
      collected, end := CollectIds(start, stop, last);
      rows := [];
      for i := 0 to |collected|
        invariant rows == Fetch(db, collected[..i])
      {
        assert collected[..i + 1][..i] == collected[..i];
        if collected[i] in db {
          rows := rows + [db[collected[i]]];
        }
      }
      assert collected[..|collected|] == collected;
    }

    method GenerateRows(query: string, canOptimize: bool, start: nat, stop: nat, now: nat) returns (rows: seq<Row>)
      requires Valid()
      modifies this
      ensures Valid()
      ensures (Snapshot(), rows) == EventStore.GenerateRows(old(Snapshot()), cfg, query, canOptimize, start, stop, now)
    {
      var from, lastEid := start, 0;
      if canOptimize && cfg.optimize {
        var c := ReadCursor(Store(db, cursors, index, lastId, eventCount, queries, queryCount, minExpiration), query);
        from := if c.time == 0 then 0 else c.time - 1;
        lastEid := c.eid;
        queries := queries[query := from];
      }
      var end;
      rows, end := ScanRows(from, stop, lastEid);
      if canOptimize && cfg.optimize && end.Reached? && query != "" {
        cursors := cursors[query := Cursor(end.time, end.id)];
      }
      if |queries| >= queryCount {
        var expiry := GetMinExpiry();
        ExpireEventBatches(expiry, ExpireTime(queries, queryCount, now));
      }
    }

    method GenTable(query: string, constraints: seq<Constraint>, now: nat) returns (rows: seq<Row>)
      requires Valid()
      modifies this
      ensures Valid()
      ensures (Snapshot(), rows) == EventStore.GenTable(old(Snapshot()), cfg, query, constraints, now)
    {
      var start: nat, stop: nat := 0, 0;
      var i := 0;
      while i < |constraints|
        invariant 0 <= i <= |constraints|
        invariant Bounds(constraints, 0, 0) == Bounds(constraints[i..], start, stop)
      {
        var rest := constraints[i..];
        assert rest[0] == constraints[i] && rest[1..] == constraints[i + 1..];
        var expr := ToUnsigned(constraints[i].expr);
        match constraints[i].op {
          case EqualTo =>
            start, stop := expr, expr;
            break;
          case GreaterThan => start := Max(start, WrapSucc(expr));
          case GreaterOrEqual => start := Max(start, expr);
          case LessThan => stop := Min(stop, WrapSub(expr, 1));
          case LessOrEqual => stop := Min(stop, expr);
          case OtherOperator =>
        }
        i := i + 1;
      }
      assert Bounds(constraints, 0, 0) == (start, stop);
      rows := GenerateRows(query, constraints == [], start, stop, now);
    }

    /** Visit keys in order: the greatest id, the index of the readable rows, and
        the keys to delete. An unreadable row still counts for the greatest id. */
    method VisitKeys(keys: seq<string>) returns (greatest: nat, found: Index, invalid: set<string>)
      requires KeysApart() && forall k :: k in keys ==> k in KeysOf(db) || k in junk
      ensures forall k :: k in Kept(keys, KeysOf(db)) ==> AllDigits(k) && Value(k) in db
      ensures greatest == GreatestParsed(keys) && found == BuildIndex(db, Kept(keys, KeysOf(db)))
      ensures invalid == ToSet(keys) - KeysOf(db)
    {
      hide ParseId, KeysOf, Value, AddToIndex, Kept, BuildIndex, GreatestParsed, ToSet;
      greatest, found, invalid := 1, [], {};
      KeptReadable(db, keys);
      NothingVisited(db);
      for i := 0 to |keys|
        invariant forall k :: k in Kept(keys[..i], KeysOf(db)) ==> AllDigits(k) && Value(k) in db
        invariant greatest == GreatestParsed(keys[..i])
        invariant found == BuildIndex(db, Kept(keys[..i], KeysOf(db)))
        invariant invalid == ToSet(keys[..i]) - KeysOf(db)
      {
        var key := keys[i];
        assert key in keys && keys[..i + 1][..i] == keys[..i];
        KeptReadable(db, keys[..i + 1]);
        VisitStep(db, keys, i);
        if key in KeysOf(db) { OwnKey(db, key); }
        var id := ParseId(key);
        if id == 0 {
          invalid := invalid + {key};
        } else {
          greatest := if greatest < id then id else greatest;
          if key in junk {
            invalid := invalid + {key};
          } else {
            found := AddToIndex(found, db[id].time, [id]);
          }
        }
      }
      assert keys[..|keys|] == keys;
    }

    /** Scan the keys in order, rebuild index and last id, and delete the junk. */
    method GenerateEventDataIndex() returns (ghost scan: seq<string>)
      requires KeysApart()
      modifies this`index, this`lastId, this`junk
      ensures scan == Ordered(KeysOf(db)) && Lists(scan, KeysOf(db)) && junk == {}
      ensures forall k :: k in scan ==> AllDigits(k) && Value(k) in db
      ensures Valid()
      ensures Snapshot() == Rebuild(old(Snapshot()), scan).(lastId := GreatestParsed(Ordered(KeysOf(db) + old(junk))))
    {
      hide Ordered, BuildIndex, GreatestParsed, KeysOf;
      scan := Ordered(KeysOf(db));
      KeptListed(KeysOf(db) + junk, KeysOf(db));
      var keys := OrderedKeys(KeysOf(db) + junk);
      var invalid;
      lastId, index, invalid := VisitKeys(keys);
      junk := junk - invalid;
    }

    method SetUp(now: nat) returns (ghost scan: seq<string>)
      requires KeysApart()
      modifies this`index, this`lastId, this`db, this`junk
      ensures Lists(scan, KeysOf(old(db))) && junk == {}
      ensures forall k :: k in scan ==> AllDigits(k) && Value(k) in old(db)
      ensures Valid()
      ensures Snapshot() == EventStore.SetUp(old(Snapshot()), cfg, scan, now)
                            .(lastId := GreatestParsed(Ordered(KeysOf(old(db)) + old(junk))))
      ensures old(junk) == {} ==> Snapshot() == EventStore.SetUp(old(Snapshot()), cfg, scan, now)
    {
      hide Ordered, BuildIndex, GreatestParsed, GreatestId, KeysOf, Expire, RemoveOverflow;
      ghost var s0 := Snapshot();
      scan := GenerateEventDataIndex();
      LastIdApart(Rebuild(s0, scan), lastId, MinExpiry(s0, cfg), now, cfg.eventsMax);
      if old(junk) == {} {
        assert KeysOf(old(db)) + {} == KeysOf(old(db));
        ParsedIsGreatest(db, scan);
      }
      var expiry := GetMinExpiry();
      ExpireEventBatches(expiry, now);
      RemoveOverflowingEventBatches(cfg.eventsMax);
    }
  }

  lemma {:induction false} NothingVisited(db: Rows)
    ensures Kept([], KeysOf(db)) == [] && BuildIndex(db, []) == []
    ensures GreatestParsed([]) == 1 && ToSet<string>([]) == {}
  {
  }

  lemma {:induction false} VisitStep(db: Rows, keys: seq<string>, i: nat)
    requires i < |keys| && forall id :: id in db ==> 0 < id < U64
    ensures forall k :: k in Kept(keys[..i], KeysOf(db)) ==> AllDigits(k) && Value(k) in db
    ensures forall k :: k in Kept(keys[..i + 1], KeysOf(db)) ==> AllDigits(k) && Value(k) in db
    ensures var front, all := Kept(keys[..i], KeysOf(db)), Kept(keys[..i + 1], KeysOf(db));
            if keys[i] in KeysOf(db) then
              && AllDigits(keys[i]) && Value(keys[i]) in db
              && BuildIndex(db, all) == AddToIndex(BuildIndex(db, front), db[Value(keys[i])].time, [Value(keys[i])])
            else all == front
    ensures var m, id := GreatestParsed(keys[..i]), ParseId(keys[i]);
            GreatestParsed(keys[..i + 1]) == if m < id then id else m
    ensures ToSet(keys[..i + 1]) == ToSet(keys[..i]) + {keys[i]}
  {
    hide ParseId, Value, AddToIndex, BuildIndex, KeysOf, Kept, GreatestParsed, ToSet;
    KeptReadable(db, keys[..i]);
    KeptReadable(db, keys[..i + 1]);
    assert keys[..i + 1] == keys[..i] + [keys[i]];
    KeptSnoc(keys[..i], keys[i], KeysOf(db));
    ParsedSnoc(keys[..i], keys[i]);
    ToSetSnoc(keys[..i], keys[i]);
    if keys[i] in KeysOf(db) {
      OwnKey(db, keys[i]);
      BuildSnoc(db, Kept(keys[..i], KeysOf(db)), keys[i]);
    }
  }

  lemma {:induction false} KeptSnoc(keys: seq<string>, key: string, chosen: set<string>)
    ensures Kept(keys + [key], chosen) == if key in chosen then Kept(keys, chosen) + [key] else Kept(keys, chosen)
  {
    assert (keys + [key])[..|keys|] == keys;
  }

  lemma {:induction false} ParsedSnoc(keys: seq<string>, key: string)
    ensures var m, id := GreatestParsed(keys), ParseId(key); GreatestParsed(keys + [key]) == if m < id then id else m
  {
    hide ParseId;
    assert (keys + [key])[..|keys|] == keys;
  }

  lemma {:induction false} BuildSnoc(db: Rows, keys: seq<string>, key: string)
    requires AllDigits(key) && Value(key) in db && forall k :: k in keys ==> AllDigits(k) && Value(k) in db
    ensures BuildIndex(db, keys + [key]) == AddToIndex(BuildIndex(db, keys), db[Value(key)].time, [Value(key)])
  {
    hide AddToIndex, Value;
    assert (keys + [key])[..|keys|] == keys;
  }

  /** Eviction does not look at the last id. */
  lemma {:induction false} LastIdApart(s: Store, m: nat, expiry: nat, now: nat, max: nat)
    requires SortedByTime(s.index)
    ensures RemoveOverflow(Expire(s.(lastId := m), expiry, now), max) ==
              RemoveOverflow(Expire(s, expiry, now), max).(lastId := m)
  {
  }

  /** The key of a stored row parses to its id. */
  lemma {:induction false} OwnKey(db: Rows, key: string)
    requires key in KeysOf(db) && forall id :: id in db ==> 0 < id < U64
    ensures AllDigits(key) && ParseId(key) == Value(key) && Value(key) in db && Value(key) > 0
  {
    var id :| id in db && key == ToIndex(id);
    ParseIndex(id);
    ValueToIndex(id);
  }

  lemma {:induction false} KeptReadable(db: Rows, keys: seq<string>)
    requires forall id :: id in db ==> 0 < id < U64
    ensures forall k :: k in Kept(keys, KeysOf(db)) ==> AllDigits(k) && Value(k) in db
  {
    KeptMembers(keys, KeysOf(db));
    forall k | k in Kept(keys, KeysOf(db)) ensures AllDigits(k) && Value(k) in db { OwnKey(db, k); }
  }

  lemma {:induction false} IdsInSnoc(x: Index, i: nat)
    requires i < |x|
    ensures IdsIn(x[..i + 1]) == IdsIn(x[..i]) + ToSet(x[i].ids)
  {
    assert forall j :: 0 <= j <= i ==> x[..i + 1][j] == x[j];
    assert forall j :: 0 <= j < i ==> x[..i][j] == x[j];
    forall k | k in x[i].ids ensures k in IdsIn(x[..i + 1]) {
      assert k in x[..i + 1][i].ids;
    }
    forall k | k in IdsIn(x[..i]) ensures k in IdsIn(x[..i + 1]) {
      var j :| 0 <= j < i && k in x[..i][j].ids;
      assert k in x[..i + 1][j].ids;
    }
  }

  lemma {:induction false} BoundsOrdered(x: Index, start: nat, stop: nat)
    requires SortedByTime(x) && start <= stop
    ensures LowerBound(x, start) <= UpperBound(x, stop)
  {
    if x != [] { BoundsOrdered(x[1..], start, stop); }
  }

  /** Buckets outside the range contribute nothing. */
  lemma {:induction false} NothingInRange(x: Index, start: nat, stop: nat, last: nat, n: nat)
    requires n <= |x| && forall i :: 0 <= i < n ==> !InRange(x[i].time, start, stop)
    ensures Select(x[..n], start, stop, last) == [] && EndOfScan(x[..n], start, stop) == Nothing
  {
    if n > 0 {
      assert x[..n][..n - 1] == x[..n - 1];
      NothingInRange(x, start, stop, last, n - 1);
    }
  }

  lemma {:induction false} RestOutOfRange(x: Index, start: nat, stop: nat, last: nat, hi: nat)
    requires hi <= |x| && forall i :: hi <= i < |x| ==> !InRange(x[i].time, start, stop)
    ensures Select(x, start, stop, last) == Select(x[..hi], start, stop, last)
    ensures EndOfScan(x, start, stop) == EndOfScan(x[..hi], start, stop)
  {
    if hi == |x| {
      assert x[..hi] == x;
    } else {
      var y := x[..|x| - 1];
      assert y[..hi] == x[..hi];
      RestOutOfRange(y, start, stop, last, hi);
    }
  }
}
