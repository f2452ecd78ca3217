/** The monitoring cache: points of one path are aggregated into the last cached
    point of that path, found through an index. */
module PreAggregation {
  import opened Basics

  datatype Kind = Plain | Sum | Min | Max | Avg | Stddev | P10 | P50 | P95 | P99 | Invalid

  datatype Point = Point(path: string, value: int, kind: Kind, time: int)

  predicate Aggregates(k: Kind) { k.Sum? || k.Min? || k.Max? }

  function Join(k: Kind, a: int, b: int): int
    requires Aggregates(k)
  {
    match k
    case Sum => a + b
    case Min => if b < a then b else a
    case Max => if a < b then b else a
  }

  /** The earlier point after an attempt to aggregate `p` into it. The time moves
      even when the kind then turns out not to aggregate. */
  function Absorb(prior: Point, p: Point): Point
  {
    if prior.path != p.path || prior.kind != p.kind then prior
    else
      var moved := prior.(time := if prior.time < p.time then p.time else prior.time);
      if Aggregates(p.kind) then moved.(value := Join(p.kind, prior.value, p.value)) else moved
  }

  predicate Absorbed(prior: Point, p: Point)
  {
    prior.path == p.path && prior.kind == p.kind && Aggregates(p.kind)
  }

  datatype Cache = Cache(points: seq<Point>, index: map<string, nat>)

  const EmptyCache := Cache([], map[])

  /** The index names the last cached point of every path, and nothing else. */
  ghost predicate IndexNamesLast(c: Cache)
  {
    && (forall path :: path in c.index ==>
         c.index[path] < |c.points| && c.points[c.index[path]].path == path)
    && (forall i :: 0 <= i < |c.points| ==> c.points[i].path in c.index && i <= c.index[c.points[i].path])
  }

  function Append(c: Cache, p: Point): Cache
  {
    Cache(c.points + [p], c.index[p.path := |c.points|])
  }

  function Added(c: Cache, p: Point): Cache
    requires p.path in c.index ==> c.index[p.path] < |c.points|
  {
    if p.path !in c.index then Append(c, p)
    else
      var i := c.index[p.path];
      var prior := c.points[i];
      var kept := c.(points := c.points[i := Absorb(prior, p)]);
      if Absorbed(prior, p) then kept else Append(kept, p)
  }

  // ---------------------------------------------------------------- what is conserved

  datatype Total = Nothing | Value(v: int)

  function JoinTotals(k: Kind, a: Total, b: Total): Total
    requires Aggregates(k)
  {
    if a.Nothing? then b else if b.Nothing? then a else Value(Join(k, a.v, b.v))
  }

  function Share(p: Point, path: string, k: Kind): Total
  {
    if p.path == path && p.kind == k then Value(p.value) else Nothing
  }

  /** The sum, minimum or maximum of the values of one path. */
  function TotalOf(ps: seq<Point>, path: string, k: Kind): Total
    requires Aggregates(k)
  {
    if ps == [] then Nothing
    else JoinTotals(k, TotalOf(ps[..|ps| - 1], path, k), Share(ps[|ps| - 1], path, k))
  }

  datatype Entry = Entry(path: string, kind: Kind, value: int)

  /** The points that never aggregate, by path, kind and value. */
  function Others(ps: seq<Point>): multiset<Entry>
  {
    if ps == [] then multiset{}
    else
      Others(ps[..|ps| - 1]) + OtherShare(ps[|ps| - 1])
  }

  function OtherShare(p: Point): multiset<Entry>
  {
    if Aggregates(p.kind) then multiset{} else multiset{Entry(p.path, p.kind, p.value)}
  }

  lemma {:induction false} JoinTotalsLaws(k: Kind, a: Total, b: Total, c: Total)
    requires Aggregates(k)
    ensures JoinTotals(k, JoinTotals(k, a, b), c) == JoinTotals(k, a, JoinTotals(k, b, c))
    ensures JoinTotals(k, a, b) == JoinTotals(k, b, a)
  {
  }

  lemma {:induction false} TotalSnoc(ps: seq<Point>, p: Point, path: string, k: Kind)
    requires Aggregates(k)
    ensures TotalOf(ps + [p], path, k) == JoinTotals(k, TotalOf(ps, path, k), Share(p, path, k))
  {
    assert (ps + [p])[..|ps|] == ps;
  }

  lemma {:induction false} OthersSnoc(ps: seq<Point>, p: Point)
    ensures Others(ps + [p]) == Others(ps) + OtherShare(p)
  {
    assert (ps + [p])[..|ps|] == ps;
  }

  lemma {:induction false} TotalConcat(a: seq<Point>, b: seq<Point>, path: string, k: Kind)
    requires Aggregates(k)
    ensures TotalOf(a + b, path, k) == JoinTotals(k, TotalOf(a, path, k), TotalOf(b, path, k))
  {
    if b == [] {
      assert a + b == a;
    } else {
      var n := |b| - 1;
      TotalConcat(a, b[..n], path, k);
      assert (a + b)[..|a + b| - 1] == a + b[..n];
      JoinTotalsLaws(k, TotalOf(a, path, k), TotalOf(b[..n], path, k), Share(b[n], path, k));
    }
  }

  lemma {:induction false} OthersConcat(a: seq<Point>, b: seq<Point>)
    ensures Others(a + b) == Others(a) + Others(b)
  {
    hide OtherShare;
    if b == [] {
      assert a + b == a;
    } else {
      var n := |b| - 1;
      OthersConcat(a, b[..n]);
      assert (a + b)[..|a + b| - 1] == a + b[..n];
      BagAssoc(Others(a), Others(b[..n]), OtherShare(b[n]));
    }
  }

  /** Replacing one point changes the total by what the point itself changes. */
  lemma {:induction false} TotalUpdate(ps: seq<Point>, i: nat, q: Point, path: string, k: Kind, more: Total)
    requires Aggregates(k) && i < |ps|
    requires Share(q, path, k) == JoinTotals(k, Share(ps[i], path, k), more)
    ensures TotalOf(ps[i := q], path, k) == JoinTotals(k, TotalOf(ps, path, k), more)
  {
    var n := |ps| - 1;
    var front, last := TotalOf(ps[..n], path, k), Share(ps[n], path, k);
    if i == n {
      assert ps[i := q][..n] == ps[..n];
      JoinTotalsLaws(k, front, last, more);
    } else {
      TotalUpdate(ps[..n], i, q, path, k, more);
      assert ps[i := q][..n] == ps[..n][i := q];
      JoinTotalsLaws(k, front, more, last);
      JoinTotalsLaws(k, front, last, more);
      JoinTotalsLaws(k, more, last, Nothing);
    }
  }

  lemma {:induction false} OthersUpdate(ps: seq<Point>, i: nat, q: Point)
    requires i < |ps| && q.path == ps[i].path && q.kind == ps[i].kind
    requires Aggregates(q.kind) || q.value == ps[i].value
    ensures Others(ps[i := q]) == Others(ps)
  {
    var n := |ps| - 1;
    if i == n {
      assert ps[i := q][..n] == ps[..n];
    } else {
      OthersUpdate(ps[..n], i, q);
      assert ps[i := q][..n] == ps[..n][i := q];
    }
  }

  lemma {:induction false} AddKeepsIndex(c: Cache, p: Point)
    requires IndexNamesLast(c)
    ensures IndexNamesLast(Added(c, p))
  {
  }

  /** Adding a point adds exactly its own share to every total ... */
  lemma {:induction false} AddConserves(c: Cache, p: Point, path: string, k: Kind)
    requires IndexNamesLast(c) && Aggregates(k)
    ensures TotalOf(Added(c, p).points, path, k) == JoinTotals(k, TotalOf(c.points, path, k), Share(p, path, k))
  {
    hide TotalOf;
    if p.path in c.index {
      var i := c.index[p.path];
      var q := Absorb(c.points[i], p);
      if Absorbed(c.points[i], p) {
        TotalUpdate(c.points, i, q, path, k, Share(p, path, k));
      } else {
        TotalUpdate(c.points, i, q, path, k, Nothing);
        TotalSnoc(c.points[i := q], p, path, k);
      }
    } else {
      TotalSnoc(c.points, p, path, k);
    }
  }

  /** ... and a point that does not aggregate is kept as one more. */
  lemma {:induction false} AddKeepsOthers(c: Cache, p: Point)
    requires IndexNamesLast(c)
    ensures Others(Added(c, p).points) == Others(c.points) + OtherShare(p)
  {
    hide Others;
    if p.path in c.index {
      var i := c.index[p.path];
      var q := Absorb(c.points[i], p);
      OthersUpdate(c.points, i, q);
      if !Absorbed(c.points[i], p) { OthersSnoc(c.points[i := q], p); }
    } else {
      OthersSnoc(c.points, p);
    }
  }

  /** A point goes into the last point of its path, and no point is added, if and only
      if that one has the same kind and the kind is a sum, a minimum or a maximum;
      otherwise it becomes the last point, with the points before it as they were,
      times aside. */
  lemma {:induction false} AggregatesInPlace(c: Cache, p: Point)
    requires IndexNamesLast(c)
    ensures var c1 := Added(c, p);
            var joins := p.path in c.index && c.points[c.index[p.path]].kind == p.kind
                         && (p.kind.Sum? || p.kind.Min? || p.kind.Max?);
            && |c1.points| == |c.points| + (if joins then 0 else 1)
            && (!joins ==> c1.points[|c.points|] == p)
            && forall i :: 0 <= i < |c.points| && !(joins && i == c.index[p.path]) ==>
                 c1.points[i].(time := 0) == c.points[i].(time := 0)
  {
  }

  // --------------------------------------------------------------------- runs

  datatype Op = Add(point: Point) | Take

  /** All points added, all points taken, and the cache, after some operations. */
  datatype History = History(added: seq<Point>, taken: seq<Point>, cache: Cache)

  function Replay(ops: seq<Op>): (h: History)
    ensures IndexNamesLast(h.cache)
  {
    if ops == [] then History([], [], EmptyCache)
    else
      var h := Replay(ops[..|ops| - 1]);
      match ops[|ops| - 1]
      case Add(p) =>
        AddKeepsIndex(h.cache, p);
        History(h.added + [p], h.taken, Added(h.cache, p))
      case Take => History(h.added, h.taken + h.cache.points, EmptyCache)
  }

  /** Conservation: for every sequence of operations and every path, the points
      taken and still cached have the sum, minimum and maximum of all points
      added, and points of other kinds are kept one for one. */
  lemma {:induction false} NothingIsLost(ops: seq<Op>, path: string, k: Kind)
    requires k.Sum? || k.Min? || k.Max?
    ensures var h := Replay(ops);
            && TotalOf(h.taken + h.cache.points, path, k) == TotalOf(h.added, path, k)
            && Others(h.taken + h.cache.points) == Others(h.added)
  {
    hide TotalOf, Others, Share, OtherShare, JoinTotals;
    if ops == [] {
      assert Replay(ops).taken + Replay(ops).cache.points == Replay(ops).added;
    } else {
      var h0, h := Replay(ops[..|ops| - 1]), Replay(ops);
      NothingIsLost(ops[..|ops| - 1], path, k);
      match ops[|ops| - 1]
      case Add(p) =>
        AddConserves(h0.cache, p, path, k);
        AddKeepsOthers(h0.cache, p);
        TotalSnoc(h0.added, p, path, k);
        OthersSnoc(h0.added, p);
        TotalConcat(h0.taken, h0.cache.points, path, k);
        TotalConcat(h.taken, h.cache.points, path, k);
        OthersConcat(h0.taken, h0.cache.points);
        OthersConcat(h.taken, h.cache.points);
        BagAssoc(Others(h0.taken), Others(h0.cache.points), OtherShare(p));
        JoinTotalsLaws(k, TotalOf(h0.taken, path, k), TotalOf(h0.cache.points, path, k), Share(p, path, k));
      case Take =>
        assert h.taken + h.cache.points == h0.taken + h0.cache.points;
    }
  }

  // -------------------------------------------------------------------- times

  /** The latest time among the points of one path and kind. */
  function Latest(ps: seq<Point>, path: string, k: Kind): Total
  {
    if ps == [] then Nothing
    else LaterOf(Latest(ps[..|ps| - 1], path, k), TimeShare(ps[|ps| - 1], path, k))
  }

  function TimeShare(p: Point, path: string, k: Kind): Total
  {
    if p.path == path && p.kind == k then Value(p.time) else Nothing
  }

  function LaterOf(a: Total, b: Total): Total
  {
    if a.Nothing? then b else if b.Nothing? || b.v <= a.v then a else b
  }

  lemma {:induction false} LatestSnoc(ps: seq<Point>, p: Point, path: string, k: Kind)
    ensures Latest(ps + [p], path, k) == LaterOf(Latest(ps, path, k), TimeShare(p, path, k))
  {
    assert (ps + [p])[..|ps|] == ps;
  }

  lemma {:induction false} LatestConcat(a: seq<Point>, b: seq<Point>, path: string, k: Kind)
    ensures Latest(a + b, path, k) == LaterOf(Latest(a, path, k), Latest(b, path, k))
  {
    if b == [] {
      assert a + b == a;
    } else {
      var n := |b| - 1;
      LatestConcat(a, b[..n], path, k);
      assert (a + b)[..|a + b| - 1] == a + b[..n];
    }
  }

  lemma {:induction false} LatestUpdate(ps: seq<Point>, i: nat, q: Point, path: string, k: Kind, more: Total)
    requires i < |ps| && TimeShare(q, path, k) == LaterOf(TimeShare(ps[i], path, k), more)
    ensures Latest(ps[i := q], path, k) == LaterOf(Latest(ps, path, k), more)
  {
    var n := |ps| - 1;
    if i == n {
      assert ps[i := q][..n] == ps[..n];
    } else {
      LatestUpdate(ps[..n], i, q, path, k, more);
      assert ps[i := q][..n] == ps[..n][i := q];
    }
  }

  lemma {:induction false} AddKeepsLatest(c: Cache, p: Point, path: string, k: Kind)
    requires IndexNamesLast(c)
    ensures Latest(Added(c, p).points, path, k) == LaterOf(Latest(c.points, path, k), TimeShare(p, path, k))
  {
    hide Latest;
    if p.path in c.index {
      var i := c.index[p.path];
      var q := Absorb(c.points[i], p);
      var more := if c.points[i].kind == p.kind then TimeShare(p, path, k) else Nothing;
      LatestUpdate(c.points, i, q, path, k, more);
      if !Absorbed(c.points[i], p) { LatestSnoc(c.points[i := q], p, path, k); }
    } else {
      LatestSnoc(c.points, p, path, k);
    }
  }

  /** For every sequence of operations, every path and every kind, the latest time
      among points taken and still cached is the latest time among points added. */
  lemma {:induction false} LatestIsKept(ops: seq<Op>, path: string, k: Kind)
    ensures var h := Replay(ops); Latest(h.taken + h.cache.points, path, k) == Latest(h.added, path, k)
  {
    hide Latest;
    if ops == [] {
      assert Replay(ops).taken + Replay(ops).cache.points == Replay(ops).added;
    } else {
      var h0, h := Replay(ops[..|ops| - 1]), Replay(ops);
      LatestIsKept(ops[..|ops| - 1], path, k);
      match ops[|ops| - 1]
      case Add(p) =>
        AddKeepsLatest(h0.cache, p, path, k);
        LatestSnoc(h0.added, p, path, k);
        LatestConcat(h0.taken, h0.cache.points, path, k);
        LatestConcat(h.taken, h.cache.points, path, k);
      case Take =>
        assert h.taken + h.cache.points == h0.taken + h0.cache.points;
    }
  }

  // ----------------------------------------------------------- implementation

  class PreAggregationCache {
    var points: seq<Point>
    var index: map<string, nat>

    ghost function Contents(): Cache
      reads this
    {
      Cache(points, index)
    }

    constructor ()
      ensures Contents() == EmptyCache
    {
      points, index := [], map[];
    }

    static method TryToAggregate(prior: Point, p: Point) returns (after: Point, ok: bool)
      ensures after == Absorb(prior, p) && ok == Absorbed(prior, p)
      ensures ok <==> prior.path == p.path && prior.kind == p.kind && (p.kind.Sum? || p.kind.Min? || p.kind.Max?)
      ensures after.path == prior.path && after.kind == prior.kind
      ensures if prior.path == p.path && prior.kind == p.kind
              then prior.time <= after.time && p.time <= after.time && after.time in {prior.time, p.time}
              else after.time == prior.time
    {
      after, ok := prior, false;
      if prior.path != p.path || prior.kind != p.kind {
        return;
      }
      after := after.(time := if prior.time < p.time then p.time else prior.time);
      match prior.kind {
        case Sum => after := after.(value := prior.value + p.value);
        case Min => after := after.(value := if p.value < prior.value then p.value else prior.value);
        case Max => after := after.(value := if prior.value < p.value then p.value else prior.value);
        case _ => return;
      }
      ok := true;
    }

    method AddPoint(p: Point)
      requires IndexNamesLast(Contents())
      modifies this
      ensures Contents() == Added(old(Contents()), p)
      ensures IndexNamesLast(Contents())
    {
      AddKeepsIndex(Contents(), p);
      if p.path !in index {
        index := index[p.path := |points|];
        points := points + [p];
      } else {
        var i := index[p.path];
        var after, ok := TryToAggregate(points[i], p);
        points := points[i := after];
        if !ok {
          index := index[p.path := |points|];
          points := points + [p];
        }
      }
    }

    method TakePoints() returns (taken: seq<Point>)
      modifies this
      ensures taken == old(points) && Contents() == EmptyCache
    {
      taken := points;
      points, index := [], map[];
    }
  }
}
