/** The in-memory event index: a `std::map` from event time to a list of event
    ids, kept as its buckets in ascending time order, and the rows it indexes. */
module EventIndex {
  import opened Text

  /** A stored event row; `time` and `eid` are the columns the store adds. */
  datatype Row = Row(time: nat, eid: nat, data: string)

  datatype Bucket = Bucket(time: nat, ids: seq<nat>)

  type Index = seq<Bucket>

  type Rows = map<nat, Row>

  predicate Increasing(s: seq<nat>)
  {
    forall i, j :: 0 <= i < j < |s| ==> s[i] < s[j]
  }

  predicate SortedByTime(x: Index)
  {
    forall i, j :: 0 <= i < j < |x| ==> x[i].time < x[j].time
  }

  predicate WellFormed(x: Index)
  {
    && SortedByTime(x)
    && forall i :: 0 <= i < |x| ==> x[i].ids != [] && Increasing(x[i].ids)
  }

  ghost predicate Indexed(x: Index, id: nat, t: nat)
  {
    exists i :: 0 <= i < |x| && x[i].time == t && id in x[i].ids
  }

  /** The index names exactly the stored rows, each in the bucket of its time. */
  ghost predicate Agrees(x: Index, db: Rows)
  {
    && WellFormed(x)
    && (forall i, id :: 0 <= i < |x| && id in x[i].ids ==> id in db && db[id].time == x[i].time)
    && (forall id :: id in db ==> Indexed(x, id, db[id].time))
    && (forall id :: id in db ==> db[id].eid == id)
  }

  // ------------------------------------------------------------- map searches

  /** `std::map::lower_bound`: the first bucket at or after `t`. */
  function LowerBound(x: Index, t: nat): (p: nat)
    requires SortedByTime(x)
    ensures p <= |x|
    ensures forall i :: 0 <= i < p ==> x[i].time < t
    ensures forall i :: p <= i < |x| ==> t <= x[i].time
  {
    if x == [] || t <= x[0].time then 0 else
      assert forall i :: 1 <= i < |x| ==> x[i] == x[1..][i - 1];
      1 + LowerBound(x[1..], t)
  }

  /** `std::map::upper_bound`: the first bucket after `t`. */
  function UpperBound(x: Index, t: nat): (p: nat)
    requires SortedByTime(x)
    ensures p <= |x|
    ensures forall i :: 0 <= i < p ==> x[i].time <= t
    ensures forall i :: p <= i < |x| ==> t < x[i].time
  {
    LowerBound(x, t + 1)
  }

  // ---------------------------------------------------------------- insertion

  /** Append `ids` to the bucket of time `t`, creating it when missing. */
  function AddToIndex(x: Index, t: nat, ids: seq<nat>): Index
    requires SortedByTime(x)
  {
    var p := LowerBound(x, t);
    if p < |x| && x[p].time == t
    then x[p := Bucket(t, x[p].ids + ids)]
    else x[..p] + [Bucket(t, ids)] + x[p..]
  }

  lemma {:induction false} AddKeepsWellFormed(x: Index, t: nat, ids: seq<nat>)
    requires WellFormed(x) && ids != [] && Increasing(ids)
    requires forall i, a, b :: 0 <= i < |x| && a in x[i].ids && b in ids ==> a < b
    ensures WellFormed(AddToIndex(x, t, ids))
    ensures |x| <= |AddToIndex(x, t, ids)| <= |x| + 1
  {
    var p, y := LowerBound(x, t), AddToIndex(x, t, ids);
    if p < |x| && x[p].time == t {
      var prior, grown := x[p].ids, x[p].ids + ids;
      forall i, j | 0 <= i < j < |grown| ensures grown[i] < grown[j] {
        if i < |prior| <= j {
          assert grown[i] in x[p].ids && grown[j] in ids;
        }
      }
    } else {
      forall i | 0 <= i < |y| ensures y[i] == if i < p then x[i] else if i == p then Bucket(t, ids) else x[i - 1] {}
    }
  }

  /** Which (time, id) pairs the grown index holds. */
  lemma {:induction false} AddIndexed(x: Index, t: nat, ids: seq<nat>, id: nat, u: nat)
    requires SortedByTime(x)
    ensures Indexed(AddToIndex(x, t, ids), id, u) <==> Indexed(x, id, u) || (u == t && id in ids)
  {
    var p, y := LowerBound(x, t), AddToIndex(x, t, ids);
    if p < |x| && x[p].time == t {
      assert forall i :: 0 <= i < |y| && i != p ==> y[i] == x[i];
      assert y[p].time == t && (id in y[p].ids <==> id in x[p].ids || id in ids);
    } else {
      assert y[p] == Bucket(t, ids);
      assert forall i :: 0 <= i < p ==> y[i] == x[i];
      assert forall i :: p <= i < |x| ==> y[i + 1] == x[i];
      if Indexed(y, id, u) {
        var i :| 0 <= i < |y| && y[i].time == u && id in y[i].ids;
        if i < p { assert x[i] == y[i]; } else if i > p { assert x[i - 1] == y[i]; }
      }
    }
  }

  /** Storing fresh rows of one time and appending their ids keeps agreement. */
  lemma {:induction false} AddKeepsAgreement(x: Index, db: Rows, t: nat, ids: seq<nat>, added: Rows)
    requires Agrees(x, db) && ids != [] && Increasing(ids)
    requires forall a, b :: a in db && b in ids ==> a < b
    requires added.Keys == set id | id in ids
    requires forall id :: id in added ==> added[id].time == t && added[id].eid == id
    ensures Agrees(AddToIndex(x, t, ids), db + added)
  {
    hide AddToIndex, LowerBound, Indexed;
    var y, all := AddToIndex(x, t, ids), db + added;
    AddedIsWellFormed(x, db, t, ids);
    forall i, id | 0 <= i < |y| && id in y[i].ids ensures id in all && all[id].time == y[i].time {
      IsIndexed(y, i, id);
      AddedIsStored(x, db, t, ids, added, id, y[i].time);
    }
    forall id | id in all ensures Indexed(y, id, all[id].time) {
      StoredIsAdded(x, db, t, ids, added, id);
    }
  }

  lemma {:induction false} IsIndexed(x: Index, i: nat, id: nat)
    requires i < |x| && id in x[i].ids
    ensures Indexed(x, id, x[i].time)
  {
  }

  lemma {:induction false} AddedIsWellFormed(x: Index, db: Rows, t: nat, ids: seq<nat>)
    requires Agrees(x, db) && ids != [] && Increasing(ids)
    requires forall a, b :: a in db && b in ids ==> a < b
    ensures WellFormed(AddToIndex(x, t, ids))
  {
    forall i, a, b | 0 <= i < |x| && a in x[i].ids && b in ids ensures a < b {
      assert a in db;
    }
    AddKeepsWellFormed(x, t, ids);
  }

  lemma {:induction false} StoredIsAdded(x: Index, db: Rows, t: nat, ids: seq<nat>, added: Rows, id: nat)
    requires Agrees(x, db) && id in db + added
    requires added.Keys == set id | id in ids
    requires forall id :: id in added ==> added[id].time == t
    ensures Indexed(AddToIndex(x, t, ids), id, (db + added)[id].time)
  {
    AddIndexed(x, t, ids, id, (db + added)[id].time);
  }

  lemma {:induction false} AddedIsStored(x: Index, db: Rows, t: nat, ids: seq<nat>, added: Rows, id: nat, u: nat)
    requires Agrees(x, db) && Indexed(AddToIndex(x, t, ids), id, u)
    requires forall a, b :: a in db && b in ids ==> a < b
    requires added.Keys == set id | id in ids
    requires forall id :: id in added ==> added[id].time == t
    ensures id in db + added && (db + added)[id].time == u
  {
    AddIndexed(x, t, ids, id, u);
    if Indexed(x, id, u) { IndexedIsStored(x, db, id, u); }
  }

  lemma {:induction false} IndexedIsStored(x: Index, db: Rows, id: nat, t: nat)
    requires Agrees(x, db) && Indexed(x, id, t)
    ensures id in db && db[id].time == t
  {
  }

  // ----------------------------------------------------------------- eviction

  /** All ids named by these buckets. */
  function IdsIn(x: Index): set<nat>
  {
    set i, id | 0 <= i < |x| && id in x[i].ids :: id
  }

  /** Evicting the first `n` buckets removes the rows up to the last evicted time. */
  lemma {:induction false} DroppedIds(x: Index, db: Rows, n: nat, id: nat)
    requires Agrees(x, db) && n <= |x|
    ensures id in IdsIn(x[..n]) <==> id in db && n > 0 && db[id].time <= x[n - 1].time
  {
    if id in db && n > 0 && db[id].time <= x[n - 1].time {
      var i :| 0 <= i < |x| && x[i].time == db[id].time && id in x[i].ids;
      assert i < n && x[..n][i] == x[i];
    }
    if id in IdsIn(x[..n]) {
      var i :| 0 <= i < n && id in x[..n][i].ids;
      assert x[..n][i] == x[i];
    }
  }

  lemma {:induction false} DropKeepsAgreement(x: Index, db: Rows, n: nat)
    requires Agrees(x, db) && n <= |x|
    ensures Agrees(x[n..], db - IdsIn(x[..n]))
  {
    hide IdsIn, Indexed;
    var y, left := x[n..], db - IdsIn(x[..n]);
    assert forall i :: 0 <= i < |y| ==> y[i] == x[n + i];
    forall i, id | 0 <= i < |y| && id in y[i].ids ensures id in left && left[id].time == y[i].time {
      RestStored(x, db, n, n + i, id);
    }
    forall id | id in left ensures Indexed(y, id, left[id].time) {
      RestIndexed(x, db, n, id);
    }
  }

  lemma {:induction false} RestStored(x: Index, db: Rows, n: nat, i: nat, id: nat)
    requires Agrees(x, db) && n <= i < |x| && id in x[i].ids
    ensures id in db && db[id].time == x[i].time && id !in IdsIn(x[..n])
  {
    DroppedIds(x, db, n, id);
  }

  lemma {:induction false} RestIndexed(x: Index, db: Rows, n: nat, id: nat)
    requires Agrees(x, db) && n <= |x| && id in db && id !in IdsIn(x[..n])
    ensures Indexed(x[n..], id, db[id].time)
  {
    DroppedIds(x, db, n, id);
    assert Indexed(x, id, db[id].time);
    var i :| 0 <= i < |x| && x[i].time == db[id].time && id in x[i].ids;
    assert i >= n && x[n..][i - n] == x[i];
  }

  // --------------------------------------------------------------- uniqueness

  lemma {:induction false} HasMember(s: seq<nat>)
    ensures s == [] || exists k :: k in s
  {
    if s != [] { assert s[0] in s; }
  }

  lemma {:induction false} IncreasingUnique(a: seq<nat>, b: seq<nat>)
    requires Increasing(a) && Increasing(b)
    requires forall k :: k in a <==> k in b
    ensures a == b
  {
    if a == [] {
      HasMember(b);
    } else {
      assert a[|a| - 1] in b;
      var n, m := |a| - 1, |b| - 1;
      assert b[m] in a;
      assert a[n] == b[m];
      forall k ensures k in a[..n] <==> k in b[..m] {
        if k in a[..n] { assert k in a && k < a[n] && k in b; }
        if k in b[..m] { assert k in b && k < b[m] && k in a; }
      }
      IncreasingUnique(a[..n], b[..m]);
      assert a == a[..n] + [a[n]] && b == b[..m] + [b[m]];
    }
  }

  function Times(x: Index): (ts: seq<nat>)
    ensures |ts| == |x| && forall i :: 0 <= i < |x| ==> ts[i] == x[i].time
  {
    seq(|x|, i requires 0 <= i < |x| => x[i].time)
  }

  lemma {:induction false} AgreeingTimes(x: Index, y: Index, db: Rows, t: nat)
    requires Agrees(x, db) && Agrees(y, db) && t in Times(x)
    ensures t in Times(y)
  {
    var i :| 0 <= i < |x| && x[i].time == t;
    var id := x[i].ids[0];
    assert id in x[i].ids;
    assert Indexed(y, id, db[id].time);
    var j :| 0 <= j < |y| && y[j].time == t && id in y[j].ids;
    assert Times(y)[j] == t;
  }

  lemma {:induction false} AgreeingBuckets(x: Index, y: Index, db: Rows, i: nat, id: nat)
    requires Agrees(x, db) && Agrees(y, db) && Times(x) == Times(y)
    requires i < |x| && id in x[i].ids
    ensures id in y[i].ids
  {
    assert Indexed(y, id, db[id].time);
    var j :| 0 <= j < |y| && y[j].time == x[i].time && id in y[j].ids;
    assert Times(y)[j] == Times(x)[i] == Times(y)[i];
    assert j == i;
  }

  /** The rows determine the index. */
  lemma {:induction false} AgreeingIndexUnique(x: Index, y: Index, db: Rows)
    requires Agrees(x, db) && Agrees(y, db)
    ensures x == y
  {
    forall t ensures t in Times(x) <==> t in Times(y) {
      if t in Times(x) { AgreeingTimes(x, y, db, t); }
      if t in Times(y) { AgreeingTimes(y, x, db, t); }
    }
    IncreasingUnique(Times(x), Times(y));
    forall i | 0 <= i < |x| ensures x[i] == y[i] {
      forall id ensures id in x[i].ids <==> id in y[i].ids {
        if id in x[i].ids { AgreeingBuckets(x, y, db, i, id); }
        if id in y[i].ids { AgreeingBuckets(y, x, db, i, id); }
      }
      IncreasingUnique(x[i].ids, y[i].ids);
      assert Times(x)[i] == Times(y)[i];
    }
  }

  // ------------------------------------------------------------------ rebuild

  /** The data keys of a store, as printed. */
  function KeysOf(db: Rows): set<string>
  {
    set id | id in db :: ToIndex(id)
  }

  /** The index obtained by visiting stored keys in the given order. */
  function BuildIndex(db: Rows, keys: seq<string>): (x: Index)
    requires forall k :: k in keys ==> AllDigits(k) && Value(k) in db
    ensures SortedByTime(x)
  {
    if keys == [] then []
    else
      var n := |keys| - 1;
      var id := Value(keys[n]);
      var x := BuildIndex(db, keys[..n]);
      AddSorted(x, db[id].time, [id]);
      AddToIndex(x, db[id].time, [id])
  }

  lemma {:induction false} AddSorted(x: Index, t: nat, ids: seq<nat>)
    requires SortedByTime(x)
    ensures SortedByTime(AddToIndex(x, t, ids))
  {
    var p, y := LowerBound(x, t), AddToIndex(x, t, ids);
    if !(p < |x| && x[p].time == t) {
      assert forall i :: 0 <= i < |y| ==> y[i] == if i < p then x[i] else if i == p then Bucket(t, ids) else x[i - 1];
    }
  }

  /** The greatest id among visited keys, never below 1. */
  function GreatestId(keys: seq<string>): (m: nat)
    requires forall k :: k in keys ==> AllDigits(k)
    ensures m >= 1
    ensures forall k :: k in keys ==> Value(k) <= m
    ensures m == 1 || exists k :: k in keys && Value(k) == m
  {
    if keys == [] then 1
    else
      var n := |keys| - 1;
      var m := GreatestId(keys[..n]);
      assert keys == keys[..n] + [keys[n]];
      assert keys[n] in keys && forall k :: k in keys[..n] ==> k in keys;
      if Value(keys[n]) > m then Value(keys[n]) else m
  }

  lemma {:induction false} ListedKeysAreNumerals(db: Rows, keys: seq<string>)
    requires Lists(keys, KeysOf(db))
    ensures forall k :: k in keys ==> AllDigits(k) && Value(k) in db && ToIndex(Value(k)) == k
    ensures forall id :: id in db ==> ToIndex(id) in keys && Value(ToIndex(id)) == id
  {
    forall k | k in keys ensures AllDigits(k) && Value(k) in db && ToIndex(Value(k)) == k {
      var id :| id in db && k == ToIndex(id);
      ValueToIndex(id);
    }
    forall id | id in db ensures ToIndex(id) in keys && Value(ToIndex(id)) == id {
      ValueToIndex(id);
    }
  }

  /** The rows whose keys have been visited. */
  ghost function Visited(db: Rows, keys: seq<string>): Rows
  {
    map id | id in db && ToIndex(id) in keys :: db[id]
  }

  lemma {:induction false} VisitedSnoc(db: Rows, keys: seq<string>, id: nat)
    requires id in db
    ensures Visited(db, keys + [ToIndex(id)]) == Visited(db, keys) + map[id := db[id]]
  {
    var more := keys + [ToIndex(id)];
    forall i | i in db ensures ToIndex(i) in more <==> ToIndex(i) in keys || i == id {
      ValueToIndex(i);
      ValueToIndex(id);
    }
  }

  /** Ids visited earlier in key order are smaller. */
  lemma {:induction false} VisitedBelow(db: Rows, keys: seq<string>, n: nat, id: nat, a: nat)
    requires Ascending(keys) && n < |keys| && keys[n] == ToIndex(id) && id < ID_LIMIT
    requires a in Visited(db, keys[..n]) && a < ID_LIMIT
    ensures a < id
  {
    var j :| 0 <= j < n && keys[j] == ToIndex(a);
    assert Before(keys[j], keys[n]);
    KeyOrderIsIdOrder(a, id);
  }

  lemma {:induction false} BuildAgrees(db: Rows, keys: seq<string>, n: nat)
    requires Ascending(keys) && n <= |keys|
    requires forall id :: id in db ==> id < ID_LIMIT && db[id].eid == id
    requires forall k :: k in keys ==> AllDigits(k) && Value(k) in db && ToIndex(Value(k)) == k
    ensures Agrees(BuildIndex(db, keys[..n]), Visited(db, keys[..n]))
  {
    hide Value, ToIndex, AddToIndex, WellFormed;
    if n == 0 {
      BuildNone(db, keys[..n]);
    } else {
      var front := keys[..n - 1];
      assert keys[n - 1] in keys;
      var id := Value(keys[n - 1]);
      BuildAgrees(db, keys, n - 1);
      forall a | a in Visited(db, front) ensures a < id {
        VisitedBelow(db, keys, n - 1, id, a);
      }
      assert keys[..n] == front + [ToIndex(id)];
      BuildOne(db, front, id);
    }
  }

  lemma {:induction false} BuildNone(db: Rows, keys: seq<string>)
    requires keys == []
    ensures Agrees(BuildIndex(db, keys), Visited(db, keys))
  {
  }

  /** Visiting one more, greater id. */
  lemma {:induction false} BuildOne(db: Rows, front: seq<string>, id: nat)
    requires forall k :: k in front ==> AllDigits(k) && Value(k) in db
    requires Agrees(BuildIndex(db, front), Visited(db, front))
    requires id in db && db[id].eid == id && forall a :: a in Visited(db, front) ==> a < id
    ensures var keys := front + [ToIndex(id)];
            && (forall k :: k in keys ==> AllDigits(k) && Value(k) in db)
            && Agrees(BuildIndex(db, keys), Visited(db, keys))
  {
    var keys := front + [ToIndex(id)];
    ValueToIndex(id);
    assert keys[..|keys| - 1] == front;
    VisitedSnoc(db, front, id);
    AddKeepsAgreement(BuildIndex(db, front), Visited(db, front), db[id].time, [id], map[id := db[id]]);
  }

  /** Rebuilding from a key scan gives an index that agrees with the rows. */
  lemma {:induction false} RebuildAgrees(db: Rows, keys: seq<string>)
    requires Lists(keys, KeysOf(db))
    requires forall id :: id in db ==> id < ID_LIMIT && db[id].eid == id
    ensures forall k :: k in keys ==> AllDigits(k) && Value(k) in db
    ensures Agrees(BuildIndex(db, keys), db)
  {
    ListedKeysAreNumerals(db, keys);
    BuildAgrees(db, keys, |keys|);
    assert keys[..|keys|] == keys;
    assert Visited(db, keys) == db;
  }

  /** A restart without eviction gives back the very same index. */
  lemma {:induction false} RebuildIsIdentity(x: Index, db: Rows, keys: seq<string>)
    requires Agrees(x, db) && Lists(keys, KeysOf(db))
    requires forall id :: id in db ==> id < ID_LIMIT
    ensures forall k :: k in keys ==> AllDigits(k) && Value(k) in db
    ensures BuildIndex(db, keys) == x
  {
    RebuildAgrees(db, keys);
    AgreeingIndexUnique(x, BuildIndex(db, keys), db);
  }

  // --------------------------------------------------------------- range scan

  /** Inclusive time bounds; a stop of 0 means unbounded. */
  predicate InRange(t: nat, start: nat, stop: nat)
  {
    start <= t && (stop == 0 || t <= stop)
  }

  /** The ids above `last`, in order. */
  function Above(ids: seq<nat>, last: nat): seq<nat>
  {
    if ids == [] then []
    else
      var n := |ids| - 1;
      Above(ids[..n], last) + if ids[n] > last then [ids[n]] else []
  }

  /** The naive scan: every bucket filtered by time, every id by the cursor. */
  function Select(x: Index, start: nat, stop: nat, last: nat): seq<nat>
  {
    if x == [] then []
    else
      var n := |x| - 1;
      Select(x[..n], start, stop, last) + if InRange(x[n].time, start, stop) then Above(x[n].ids, last) else []
  }

  /** The last bucket in range: where the scan ended. */
  datatype ScanEnd = Nothing | Reached(time: nat, id: nat)

  function EndOfScan(x: Index, start: nat, stop: nat): ScanEnd
  {
    if x == [] then Nothing
    else
      var n := |x| - 1;
      if InRange(x[n].time, start, stop)
      then Reached(x[n].time, if x[n].ids == [] then 0 else x[n].ids[|x[n].ids| - 1])
      else EndOfScan(x[..n], start, stop)
  }

  /** Stored rows of these ids; ids without a row are skipped. */
  function Fetch(db: Rows, ids: seq<nat>): seq<Row>
  {
    if ids == [] then []
    else
      var n := |ids| - 1;
      Fetch(db, ids[..n]) + if ids[n] in db then [db[ids[n]]] else []
  }

  lemma {:induction false} AboveSpec(ids: seq<nat>, last: nat)
    requires Increasing(ids)
    ensures Increasing(Above(ids, last))
    ensures forall id :: id in Above(ids, last) <==> id in ids && id > last
  {
    if ids != [] {
      var n := |ids| - 1;
      AboveSpec(ids[..n], last);
      assert ids == ids[..n] + [ids[n]];
      var a := Above(ids[..n], last);
      assert forall i :: 0 <= i < |a| ==> a[i] in ids[..n];
    }
  }

  /** Rows come out in time order, and in id order within one time. */
  predicate TimeThenId(rows: seq<Row>)
  {
    forall i, j :: 0 <= i < j < |rows| ==>
      rows[i].time < rows[j].time || (rows[i].time == rows[j].time && rows[i].eid < rows[j].eid)
  }

  lemma {:induction false} FetchConcat(db: Rows, a: seq<nat>, b: seq<nat>)
    ensures Fetch(db, a + b) == Fetch(db, a) + Fetch(db, b)
  {
    if b == [] {
      assert a + b == a;
    } else {
      var n := |b| - 1;
      assert (a + b)[..|a + b| - 1] == a + b[..n];
      FetchConcat(db, a, b[..n]);
    }
  }

  lemma {:induction false} FetchPresent(db: Rows, ids: seq<nat>)
    requires forall id :: id in ids ==> id in db
    ensures |Fetch(db, ids)| == |ids|
    ensures forall i :: 0 <= i < |ids| ==> Fetch(db, ids)[i] == db[ids[i]]
  {
    if ids != [] {
      FetchPresent(db, ids[..|ids| - 1]);
    }
  }

  /** What a scan is asked for: a stored row in range and above the cursor. */
  ghost predicate Wanted(db: Rows, start: nat, stop: nat, last: nat, r: Row)
  {
    r.eid in db && db[r.eid] == r && InRange(r.time, start, stop) && r.eid > last
  }

  /** One bucket contributes exactly its own wanted rows, in id order. */
  lemma {:induction false} BucketRows(x: Index, db: Rows, i: nat, start: nat, stop: nat, last: nat)
    requires Agrees(x, db) && i < |x| && InRange(x[i].time, start, stop)
    ensures var rows := Fetch(db, Above(x[i].ids, last));
            && TimeThenId(rows)
            && forall r :: r in rows <==> Wanted(db, start, stop, last, r) && r.time == x[i].time
  {
    hide Above, Fetch;
    var ids := Above(x[i].ids, last);
    AboveSpec(x[i].ids, last);
    assert forall id :: id in ids ==> id in x[i].ids;
    FetchPresent(db, ids);
    var rows := Fetch(db, ids);
    forall j | 0 <= j < |rows|
      ensures rows[j].time == x[i].time && rows[j].eid == ids[j] && ids[j] > last && ids[j] in db
    {
      assert ids[j] in ids;
    }
    forall r | Wanted(db, start, stop, last, r) && r.time == x[i].time ensures r in rows {
      SameBucket(x, db, i, r.eid);
      assert r.eid in ids;
      var j :| 0 <= j < |ids| && ids[j] == r.eid;
      assert rows[j] == r;
    }
  }

  lemma {:induction false} SameBucket(x: Index, db: Rows, i: nat, id: nat)
    requires Agrees(x, db) && i < |x| && id in db && db[id].time == x[i].time
    ensures id in x[i].ids
  {
    assert Indexed(x, id, db[id].time);
  }

  /** Nothing is stored between two neighbouring buckets. */
  lemma {:induction false} NoGap(x: Index, db: Rows, n: nat, r: Row)
    requires Agrees(x, db) && 0 < n <= |x| && r.eid in db && db[r.eid] == r && r.time < x[n - 1].time
    ensures n > 1 && r.time <= x[n - 2].time
  {
    assert Indexed(x, r.eid, r.time);
  }

  lemma {:induction false} TimeThenIdConcat(a: seq<Row>, b: seq<Row>, t: nat)
    requires TimeThenId(a) && TimeThenId(b)
    requires forall r :: r in a ==> r.time < t
    requires forall r :: r in b ==> r.time == t
    ensures TimeThenId(a + b)
  {
    var c := a + b;
    forall i, j | 0 <= i < j < |c|
      ensures c[i].time < c[j].time || (c[i].time == c[j].time && c[i].eid < c[j].eid)
    {
      if i < |a| <= j { assert c[i] in a && c[j] in b; }
    }
  }

  /** The scan of the first `n` buckets yields exactly the wanted rows stored
      there, once each, in time-then-id order. */
  lemma {:induction false} ScanPrefix(x: Index, db: Rows, start: nat, stop: nat, last: nat, n: nat)
    requires Agrees(x, db) && n <= |x|
    ensures var rows := Fetch(db, Select(x[..n], start, stop, last));
            && TimeThenId(rows)
            && (forall r :: r in rows <==> Wanted(db, start, stop, last, r) && n > 0 && r.time <= x[n - 1].time)
  {
    if n > 0 {
      var b, front := x[n - 1], Select(x[..n - 1], start, stop, last);
      assert x[..n][..n - 1] == x[..n - 1];
      ScanPrefix(x, db, start, stop, last, n - 1);
      var rows := Fetch(db, front);
      forall r | Wanted(db, start, stop, last, r) && r.time < b.time ensures r in rows {
        NoGap(x, db, n, r);
      }
      assert forall r :: r in rows ==> r.time < b.time;
      if InRange(b.time, start, stop) {
        var more := Fetch(db, Above(b.ids, last));
        BucketRows(x, db, n - 1, start, stop, last);
        FetchConcat(db, front, Above(b.ids, last));
        TimeThenIdConcat(rows, more, b.time);
        assert Fetch(db, Select(x[..n], start, stop, last)) == rows + more;
      } else {
        assert Select(x[..n], start, stop, last) == front;
      }
    }
  }

  /** The range scan refines the naive filter over all stored rows. */
  lemma {:induction false} ScanRefinesFilter(x: Index, db: Rows, start: nat, stop: nat, last: nat)
    requires Agrees(x, db)
    ensures var rows := Fetch(db, Select(x, start, stop, last));
            && TimeThenId(rows)
            && (forall r :: r in rows <==> Wanted(db, start, stop, last, r))
  {
    ScanPrefix(x, db, start, stop, last, |x|);
    assert x[..|x|] == x;
    forall r | Wanted(db, start, stop, last, r) ensures |x| > 0 && r.time <= x[|x| - 1].time {
      assert Indexed(x, r.eid, r.time);
    }
  }
}
