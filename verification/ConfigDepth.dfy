/** The level-by-level depth check of a configuration document. */
module ConfigDepth {

  const MAX_CONFIG_DEPTH: nat := 32

  /** A JSON document; member names play no part in its depth. */
  datatype Json = Scalar | Array(items: seq<Json>) | Object(values: seq<Json>)

  function Children(j: Json): seq<Json>
  {
    match j
    case Scalar => []
    case Array(items) => items
    case Object(values) => values
  }

  /** Height of a document, a scalar counting as one level. */
  function Height(j: Json): nat
    decreases j, 1
  {
    match j
    case Scalar => 1
    case Array(items) => 1 + Tallest(items)
    case Object(values) => 1 + Tallest(values)
  }

  /** The greatest height among some documents, 0 for none. */
  function Tallest(js: seq<Json>): nat
    decreases js, 0
  {
    if js == [] then 0
    else
      var h, t := Height(js[0]), Tallest(js[1..]);
      if t < h then h else t
  }

  /** The next level: all children, in order. */
  function NextLevel(js: seq<Json>): seq<Json>
  {
    if js == [] then [] else NextLevel(js[..|js| - 1]) + Children(js[|js| - 1])
  }

  function Larger(a: nat, b: nat): nat { if a < b then b else a }

  function Below(h: nat, d: nat): nat { if h < d then 0 else h - d }

  lemma {:induction false} TallestConcat(a: seq<Json>, b: seq<Json>)
    ensures Tallest(a + b) == Larger(Tallest(a), Tallest(b))
  {
    if a == [] {
      assert a + b == b;
    } else {
      TallestConcat(a[1..], b);
      assert (a + b)[1..] == a[1..] + b;
    }
  }

  lemma {:induction false} EmptyIffFlat(js: seq<Json>)
    ensures js == [] <==> Tallest(js) == 0
  {
  }

  /** Going down one level lowers the greatest height by one. */
  lemma {:induction false} NextLevelIsLower(js: seq<Json>)
    ensures Tallest(NextLevel(js)) == Below(Tallest(js), 1)
  {
    if js != [] {
      var n := |js| - 1;
      NextLevelIsLower(js[..n]);
      TallestConcat(NextLevel(js[..n]), Children(js[n]));
      TallestConcat(js[..n], [js[n]]);
      assert js == js[..n] + [js[n]];
      assert Tallest([js[n]]) == Height(js[n]) == 1 + Tallest(Children(js[n])) by { assert [js[n]][1..] == []; }
      EmptyIffFlat(js[..n]);
    }
  }

  method PushAll(queue: seq<Json>, js: seq<Json>) returns (queue': seq<Json>)
    ensures queue' == queue + js
  {
    queue' := queue;
    for i := 0 to |js|
      invariant queue' == queue + js[..i]
    {
      queue' := queue' + [js[i]];
    }
    assert js[..|js|] == js;
  }

  /** Take the nodes of one level off the queue, pushing their children. */
  method ExpandLevel(level: seq<Json>) returns (nodes: seq<Json>)
    ensures nodes == NextLevel(level)
  {
    nodes := level;
    var count := |level|;
    ghost var done := 0;
    while count > 0
      invariant 0 <= count && 0 <= done && count + done == |level|
      invariant nodes == level[done..] + NextLevel(level[..done])
      decreases count
    {
      var node := nodes[0];
      ghost var queued := NextLevel(level[..done]);
      assert node == level[done];
      nodes := nodes[1..];
      assert nodes == level[done + 1..] + queued;
      if node.Object? {
        nodes := PushAll(nodes, node.values);
      } else if node.Array? {
        nodes := PushAll(nodes, node.items);
      }
      assert nodes == level[done + 1..] + (queued + Children(node));
      assert level[..done + 1][..done] == level[..done];
      done := done + 1;
      count := count - 1;
    }
    assert level[..done] == level;
  }

  /** The check succeeds exactly on objects at most 32 levels high. */
  method ValidateConfig(document: Json) returns (ok: bool)
    ensures ok <==> document.Object? && Height(document) <= 32
  {
    if !document.Object? {
      return false;
    }
    var nodes := [document];
    var depth := 0;
    assert Tallest(nodes) == Height(document) by { assert nodes[1..] == []; }
    while |nodes| > 0 && depth < MAX_CONFIG_DEPTH
      invariant 0 <= depth <= MAX_CONFIG_DEPTH
      invariant Tallest(nodes) == Below(Height(document), depth)
      decreases MAX_CONFIG_DEPTH - depth
    {
      NextLevelIsLower(nodes);
      nodes := ExpandLevel(nodes);
      depth := depth + 1;
    }
    EmptyIffFlat(nodes);
    return !(depth == MAX_CONFIG_DEPTH && |nodes| != 0);
  }
}
