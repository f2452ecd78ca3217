/** What each operation of an event subscriber does to its rows, its index and
    the saved position of every query, as functions of the whole state. */
module EventStore {
  import opened Basics
  import opened Text
  import opened EventIndex

  const U64: int := 0x1_0000_0000_0000_0000

  /** Unsigned 64-bit subtraction. */
  function WrapSub(a: nat, b: nat): nat
  {
    if b <= a then a - b else (a - b) % U64
  }

  type Int64 = i: int | -I63 <= i < I63

  /** Conversion of a signed 64-bit number to an unsigned one. */
  function ToUnsigned(i: Int64): nat
  {
    if 0 <= i then i else i + U64
  }

  function WrapSucc(n: nat): nat
  {
    if n + 1 == U64 then 0 else n + 1
  }

  const EVENTS_CHECKPOINT: nat := 256

  datatype Config = Config(eventsExpiry: nat, eventsMax: nat, optimize: bool)

  datatype Cursor = Cursor(time: nat, eid: nat)

  /** `db` and `cursors` are in the database; the rest is lost on a restart. */
  datatype Store = Store(
    db: Rows,
    cursors: map<string, Cursor>,
    index: Index,
    lastId: nat,
    eventCount: nat,
    queries: map<string, nat>,
    queryCount: nat,
    minExpiration: nat)

  const Empty := Store(map[], map[], [], 0, 0, map[], 0, 0)

  // ----------------------------------------------------------------- eviction

  /** How many buckets an expiry drops: those at or before the oldest valid
      time, but never the newest one. */
  function ExpireCount(x: Index, expiry: nat, now: nat): (n: nat)
    requires SortedByTime(x)
    ensures n == 0 || n < |x|
  {
    if expiry == 0 || now == 0 || x == [] || WrapSub(now, expiry) <= x[0].time then 0
    else
      var n := UpperBound(x, WrapSub(now, expiry));
      if n != 0 && n == |x| then n - 1 else n
  }

  /** With the clock past one window and something older than it, expiry drops
      exactly the buckets at or before the oldest valid time, save the newest. */
  lemma {:induction false} ExpiryIsExact(x: Index, expiry: nat, now: nat, i: nat)
    requires SortedByTime(x) && i < |x| && 0 < expiry <= now
    ensures i < ExpireCount(x, expiry, now) <==>
              x[0].time + expiry < now && x[i].time + expiry <= now && i < |x| - 1
  {
    if x[0].time + expiry < now {
      var n := UpperBound(x, now - expiry);
      assert i < n <==> x[i].time <= now - expiry;
    }
  }

  /** Expiry respects its window, leaving alone what is younger than `expiry`,
      exactly when the clock has passed one window or nothing can be dropped. */
  lemma {:induction false} ExpiryRespectsWindow(x: Index, expiry: nat, now: nat)
    requires SortedByTime(x) && expiry < I63 && now < I63
    requires forall i :: 0 <= i < |x| ==> x[i].time < I63
    ensures (forall i :: 0 <= i < ExpireCount(x, expiry, now) ==> x[i].time + expiry <= now) <==>
              (expiry <= now || now == 0 || |x| <= 1)
  {
    if !(expiry <= now || now == 0 || |x| <= 1) {
      WrapsHigh(now, expiry);
      var n := UpperBound(x, WrapSub(now, expiry));
      UpperBoundWhole(x, WrapSub(now, expiry));
      assert ExpireCount(x, expiry, now) == |x| - 1;
      assert x[0].time + expiry > now;
    }
  }

  lemma {:induction false} UpperBoundWhole(x: Index, t: nat)
    requires SortedByTime(x) && forall i :: 0 <= i < |x| ==> x[i].time <= t
    ensures UpperBound(x, t) == |x|
  {
    if x != [] { UpperBoundWhole(x[1..], t); }
  }

  lemma {:induction false} WrapsHigh(a: nat, b: nat)
    requires a < b < I63
    ensures WrapSub(a, b) == U64 + a - b > I63
  {
  }

  function OverflowCount(x: Index, max: nat): (n: nat)
    ensures n == 0 || n < |x|
    ensures if max == 0 then n == 0 else |x| - n == Min(|x|, max)
  {
    if max == 0 || |x| <= max then 0 else |x| - max
  }

  /** Drop the oldest `n` buckets and delete their rows. */
  function Evict(s: Store, n: nat): Store
    requires n <= |s.index|
  {
    s.(db := s.db - IdsIn(s.index[..n]), index := s.index[n..])
  }

  lemma {:induction false} DropNothing(s: Store)
    ensures Evict(s, 0) == s
  {
    assert IdsIn(s.index[..0]) == {} && s.index[0..] == s.index;
  }

  function Expire(s: Store, expiry: nat, now: nat): Store
    requires SortedByTime(s.index)
  {
    Evict(s, ExpireCount(s.index, expiry, now))
  }

  function RemoveOverflow(s: Store, max: nat): Store
  {
    Evict(s, OverflowCount(s.index, max))
  }

  function MinExpiry(s: Store, cfg: Config): nat
  {
    if cfg.eventsExpiry < s.minExpiration then s.minExpiration else cfg.eventsExpiry
  }

  // ------------------------------------------------------------------ storing

  function NewIds(last: nat, n: nat): (ids: seq<nat>)
    ensures |ids| == n && forall i :: 0 <= i < n ==> ids[i] == last + 1 + i
    ensures Increasing(ids)
    ensures forall id :: id in ids <==> last < id <= last + n
  {
    if n == 0 then [] else NewIds(last, n - 1) + [last + n]
  }

  function NewRows(last: nat, time: nat, data: seq<string>): (rows: Rows)
    ensures forall id :: id in rows <==> last < id <= last + |data|
    ensures forall id :: id in rows ==> rows[id] == Row(time, id, data[id - last - 1])
  {
    if data == [] then map[]
    else
      var n := |data| - 1;
      NewRows(last, time, data[..n])[last + n + 1 := Row(time, last + n + 1, data[n])]
  }

  function EventTime(custom: nat, now: nat): nat
  {
    if custom != 0 then custom else now
  }

  function Append(s: Store, data: seq<string>, time: nat): Store
    requires SortedByTime(s.index)
  {
    s.(db := s.db + NewRows(s.lastId, time, data),
       index := AddToIndex(s.index, time, NewIds(s.lastId, |data|)),
       lastId := s.lastId + |data|,
       eventCount := s.eventCount + |data|)
  }

  /** `addBatch`: a non-empty batch is stored; crossing a multiple of 256 rows
      also applies the overflow limit and the expiry. */
  function AddBatch(s: Store, cfg: Config, data: seq<string>, custom: nat, now: nat): Store
    requires SortedByTime(s.index)
  {
    if data == [] then s
    else
      var t := EventTime(custom, now);
      AddSorted(s.index, t, NewIds(s.lastId, |data|));
      var s1 := Append(s, data, t);
      if s.eventCount % EVENTS_CHECKPOINT + |data| >= EVENTS_CHECKPOINT
      then Expire(RemoveOverflow(s1, cfg.eventsMax), MinExpiry(s, cfg), now)
      else s1
  }

  // ----------------------------------------------------------------- querying

  lemma {:induction false} LeastExists(s: set<nat>)
    requires s != {}
    ensures exists v :: v in s && forall w :: w in s ==> v <= w
  {
    var x :| x in s;
    var below := set w | w in s && w < x;
    assert forall w :: w in s ==> (w < x <==> w in below);
    if below != {} {
      assert x !in below && below < s;
      LeastExists(below);
      var m :| m in below && forall w :: w in below ==> m <= w;
      assert m in s && forall w :: w in s ==> m <= w;
    }
  }

  function Least(s: set<nat>): (v: nat)
    requires s != {}
    ensures v in s && forall w :: w in s ==> v <= w
  {
    LeastExists(s);
    var v :| v in s && forall w :: w in s ==> v <= w;
    v
  }

  /** The oldest recorded position of any tracked query, else the clock. */
  function ExpireTime(queries: map<string, nat>, queryCount: nat, now: nat): nat
  {
    if queryCount == 0 || queries == map[] then now
    else
      var q :| q in queries;
      assert queries[q] in queries.Values;
      Least(queries.Values)
  }

  /** The saved position of a query; a time that does not fit a signed number
      reads back as 0. */
  function ReadCursor(s: Store, q: string): Cursor
  {
    if q == "" || q !in s.cursors then Cursor(0, 0)
    else
      var c := s.cursors[q];
      Cursor(if c.time < I63 then c.time else 0, c.eid)
  }

  function CursorStart(c: Cursor): nat
  {
    if c.time == 0 then 0 else c.time - 1
  }

  function SaveCursor(s: Store, q: string, end: ScanEnd): Store
  {
    if q == "" || end.Nothing? then s else s.(cursors := s.cursors[q := Cursor(end.time, end.id)])
  }

  /** The scan of one query: the rows it gets and the state before any expiry. */
  function ScanFor(s: Store, optimized: bool, q: string, start: nat, stop: nat): (Store, seq<Row>)
  {
    if optimized then
      var c := ReadCursor(s, q);
      var from := CursorStart(c);
      (SaveCursor(s.(queries := s.queries[q := from]), q, EndOfScan(s.index, from, stop)),
       Fetch(s.db, Select(s.index, from, stop, c.eid)))
    else
      (s, Fetch(s.db, Select(s.index, start, stop, 0)))
  }

  /** Once every scheduled query has run, expire up to the oldest position. */
  function ExpireAfterQuery(s: Store, cfg: Config, now: nat): Store
    requires SortedByTime(s.index)
  {
    if |s.queries| >= s.queryCount
    then Expire(s, MinExpiry(s, cfg), ExpireTime(s.queries, s.queryCount, now))
    else s
  }

  function GenerateRows(s: Store, cfg: Config, q: string, canOptimize: bool, start: nat, stop: nat, now: nat)
    : (Store, seq<Row>)
    requires SortedByTime(s.index)
  {
    var (s1, rows) := ScanFor(s, canOptimize && cfg.optimize, q, start, stop);
    (ExpireAfterQuery(s1, cfg, now), rows)
  }

  // -------------------------------------------------------- time constraints

  datatype Operator = EqualTo | GreaterThan | GreaterOrEqual | LessThan | LessOrEqual | OtherOperator

  datatype Constraint = Constraint(op: Operator, expr: Int64)

  predicate Holds(c: Constraint, t: nat)
  {
    match c.op
    case EqualTo => t == c.expr
    case GreaterThan => t > c.expr
    case GreaterOrEqual => t >= c.expr
    case LessThan => t < c.expr
    case LessOrEqual => t <= c.expr
    case OtherOperator => true
  }

  function Max(a: nat, b: nat): nat { if a < b then b else a }

  function Min(a: nat, b: nat): nat { if a < b then a else b }

  /** The scan bounds `genTable` derives from the constraints on `time`. */
  function Bounds(cs: seq<Constraint>, start: nat, stop: nat): (nat, nat)
  {
    if cs == [] then (start, stop)
    else
      var e := ToUnsigned(cs[0].expr);
      match cs[0].op
      case EqualTo => (e, e)
      case GreaterThan => Bounds(cs[1..], Max(start, WrapSucc(e)), stop)
      case GreaterOrEqual => Bounds(cs[1..], Max(start, e), stop)
      case LessThan => Bounds(cs[1..], start, Min(stop, WrapSub(e, 1)))
      case LessOrEqual => Bounds(cs[1..], start, Min(stop, e))
      case OtherOperator => Bounds(cs[1..], start, stop)
  }

  predicate AsksForTime(cs: seq<Constraint>)
  {
    exists i :: 0 <= i < |cs| && cs[i].op == EqualTo
  }

  /** A lower bound that turns into a huge one when read as unsigned. */
  predicate WrapsLow(c: Constraint)
  {
    (c.op == GreaterThan && c.expr < -1) || (c.op == GreaterOrEqual && c.expr < 0)
  }

  lemma {:induction false} BoundsExact(cs: seq<Constraint>, t: nat, start: nat)
    requires t < I63
    requires forall i :: 0 <= i < |cs| ==> Holds(cs[i], t)
    ensures var (from, to) := Bounds(cs, start, 0);
            InRange(t, from, to) <==>
              AsksForTime(cs) || (start <= t && forall i :: 0 <= i < |cs| ==> !WrapsLow(cs[i]))
  {
    if cs != [] {
      var c, rest := cs[0], cs[1..];
      assert forall i :: 0 <= i < |rest| ==> rest[i] == cs[i + 1];
      assert AsksForTime(cs) <==> c.op == EqualTo || AsksForTime(rest) by {
        if AsksForTime(rest) { var i :| 0 <= i < |rest| && rest[i].op == EqualTo; assert cs[i + 1].op == EqualTo; }
        if AsksForTime(cs) {
          var i :| 0 <= i < |cs| && cs[i].op == EqualTo;
          assert i == 0 || rest[i - 1].op == EqualTo;
        }
      }
      var e := ToUnsigned(c.expr);
      match c.op
      case EqualTo =>
      case GreaterThan => BoundsExact(rest, t, Max(start, WrapSucc(e)));
      case GreaterOrEqual => BoundsExact(rest, t, Max(start, e));
      case LessThan => BoundsExact(rest, t, start);
      case LessOrEqual => BoundsExact(rest, t, start);
      case OtherOperator => BoundsExact(rest, t, start);
    }
  }

  /** Upper bounds never narrow a scan: the bound starts at 0, which is below every
      operand and means unbounded. */
  lemma {:induction false} UpperBoundsIgnored(cs: seq<Constraint>, start: nat)
    requires !AsksForTime(cs)
    ensures Bounds(cs, start, 0).1 == 0
  {
    if cs != [] {
      var rest, e := cs[1..], ToUnsigned(cs[0].expr);
      assert forall i :: 0 <= i < |rest| ==> rest[i] == cs[i + 1];
      match cs[0].op
      case EqualTo =>
      case GreaterThan => UpperBoundsIgnored(rest, Max(start, WrapSucc(e)));
      case GreaterOrEqual => UpperBoundsIgnored(rest, Max(start, e));
      case LessThan => UpperBoundsIgnored(rest, start);
      case LessOrEqual => UpperBoundsIgnored(rest, start);
      case OtherOperator => UpperBoundsIgnored(rest, start);
    }
  }

  function GenTable(s: Store, cfg: Config, q: string, cs: seq<Constraint>, now: nat): (Store, seq<Row>)
    requires SortedByTime(s.index)
  {
    var (start, stop) := Bounds(cs, 0, 0);
    GenerateRows(s, cfg, q, cs == [], start, stop, now)
  }

  /** A stored row meeting every time constraint is yielded, except exactly when
      a wrapping lower bound stands without an equality. */
  lemma {:induction false} ConstrainedQueryIsComplete(s: Store, cfg: Config, q: string, cs: seq<Constraint>,
                                                      now: nat, r: Row)
    requires Agrees(s.index, s.db) && cs != []
    requires r.eid in s.db && s.db[r.eid] == r && r.time < I63 && r.eid > 0
    requires forall i :: 0 <= i < |cs| ==> Holds(cs[i], r.time)
    ensures r in GenTable(s, cfg, q, cs, now).1 <==>
              AsksForTime(cs) || forall i :: 0 <= i < |cs| ==> !WrapsLow(cs[i])
  {
    var (start, stop) := Bounds(cs, 0, 0);
    BoundsExact(cs, r.time, 0);
    ScanRefinesFilter(s.index, s.db, start, stop, 0);
    assert Wanted(s.db, start, stop, 0, r) <==> InRange(r.time, start, stop);
  }

  // ------------------------------------------------------------- stored keys

  /** The text of a key as a C string. */
  function UntilNul(s: string): string
  {
    if s == [] || s[0] == '\0' then [] else [s[0]] + UntilNul(s[1..])
  }

  /** `strtoull` of a whole key suffix: 0 when it is not a number to its end, the
      greatest number when it is too large, and negation modulo 2^64. */
  function ParseId(key: string): nat
  {
    var t := TrimLeft(UntilNul(key));
    var signed := t != [] && (t[0] == '-' || t[0] == '+');
    var digits := if signed then t[1..] else t;
    if digits == [] || !AllDigits(digits) then 0
    else
      var v := Value(digits);
      if v >= U64 then U64 - 1 else if signed && t[0] == '-' && v > 0 then U64 - v else v
  }

  lemma {:induction false} DigitsHaveNoNul(s: string)
    requires AllDigits(s)
    ensures UntilNul(s) == s
  {
    if s != [] {
      assert IsDigit(s[0]);
      DigitsHaveNoNul(s[1..]);
    }
  }

  /** A key the subscriber wrote parses to its id. */
  lemma {:induction false} ParseIndex(id: nat)
    requires id < U64
    ensures ParseId(ToIndex(id)) == id
  {
    var k := ToIndex(id);
    DigitsHaveNoNul(k);
    assert IsDigit(k[0]);
    ValueToIndex(id);
  }

  /** The greatest id that any of these keys parses to, never below 1. */
  function GreatestParsed(keys: seq<string>): (m: nat)
    ensures m >= 1
    ensures forall k :: k in keys ==> ParseId(k) <= m
    ensures m == 1 || exists k :: k in keys && ParseId(k) == m
  {
    if keys == [] then 1
    else
      var n := |keys| - 1;
      var m := GreatestParsed(keys[..n]);
      assert keys == keys[..n] + [keys[n]];
      assert keys[n] in keys && forall k :: k in keys[..n] ==> k in keys;
      if ParseId(keys[n]) > m then ParseId(keys[n]) else m
  }

  /** On the keys of stored rows this is the greatest stored id. */
  lemma {:induction false} ParsedIsGreatest(db: Rows, keys: seq<string>)
    requires forall id :: id in db ==> id < U64
    requires forall k :: k in keys ==> k in KeysOf(db) && AllDigits(k)
    ensures GreatestParsed(keys) == GreatestId(keys)
  {
    hide ParseId, Value;
    if keys != [] {
      var n := |keys| - 1;
      ParsedIsGreatest(db, keys[..n]);
      assert keys[n] in keys;
      var id :| id in db && keys[n] == ToIndex(id);
      ParseIndex(id);
      ValueToIndex(id);
    }
  }

  // ------------------------------------------------------------------ restart

  /** `generateEventDataIndex` over the keys of a scan. */
  function Rebuild(s: Store, scan: seq<string>): Store
    requires forall k :: k in scan ==> AllDigits(k) && Value(k) in s.db
  {
    s.(index := BuildIndex(s.db, scan), lastId := GreatestId(scan))
  }

  function SetUp(s: Store, cfg: Config, scan: seq<string>, now: nat): Store
    requires forall k :: k in scan ==> AllDigits(k) && Value(k) in s.db
  {
    RemoveOverflow(Expire(Rebuild(s, scan), MinExpiry(s, cfg), now), cfg.eventsMax)
  }

  /** What a process leaves behind: only the database. */
  function Forget(s: Store): Store
  {
    Store(s.db, s.cursors, [], 0, 0, map[], 0, 0)
  }

  /** A new process on the old database. */
  function Restart(s: Store, cfg: Config, scan: seq<string>, now: nat): Store
    requires forall k :: k in scan ==> AllDigits(k) && Value(k) in s.db
  {
    SetUp(Forget(s), cfg, scan, now)
  }
}
