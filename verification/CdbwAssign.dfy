/** Filling in the values of a perfect hash in reverse peeling order (`assign_nodes`). */
module CdbwAssign {
  import opened Bits
  import opened CdbwGraph

  const WORD: nat := 0x1_0000_0000

  /** What the source computes with 32-bit words for the value of a vertex. */
  function Node32(d: nat, idx: nat, g1: nat, g2: nat): (r: nat)
    requires 0 < d
    ensures r < d
  {
    ((2 * d + idx - g1 - g2) % WORD) % d
  }

  /** The three values of an edge then add up to its index. */
  predicate AddsUp(d: nat, idx: nat, g1: nat, g2: nat)
    requires 0 < d
  {
    (Node32(d, idx, g1, g2) + g1 + g2) % d == idx
  }

  lemma AddBack(y: int, z: int, d: nat)
    requires d > 0
    ensures (y % d + z) % d == (y + z) % d
  {
    var q := y / d;
    assert y == d * q + y % d;
    assert y + z == (y % d + z) + d * q;
    ModShift(y % d + z, d, q);
  }

  /** Without an overflow the sum is right. */
  lemma NoWrap(d: nat, idx: nat, g1: nat, g2: nat)
    requires idx < d && g1 < d && g2 < d && 3 * d <= WORD
    ensures AddsUp(d, idx, g1, g2)
  {
    var y := 2 * d + idx - g1 - g2;
    assert y % WORD == y;
    AddBack(y, g1 + g2, d);
    ModShift(idx, d, 2);
    ModBelow(idx, d);
  }

  /** With one it is right if the number of entries divides the word. */
  lemma WrapDivides(d: nat, idx: nat, g1: nat, g2: nat)
    requires idx < d && g1 < d && g2 < d && d > 0 && WORD % d == 0
    ensures AddsUp(d, idx, g1, g2)
  {
    var y := 2 * d + idx - g1 - g2;
    var k, m := y / WORD, WORD / d;
    assert WORD == d * m;
    assert y % WORD == y - WORD * k;
    WrapMod(y, d, m, k);
    AddBack(y % WORD, g1 + g2, d);
    AddBack(y, g1 + g2, d);
    ModShift(idx, d, 2);
    ModBelow(idx, d);
    AddBack(y % WORD, g1 + g2, d);
    SameSum(y % WORD, y, g1 + g2, d);
  }

  lemma WrapMod(y: int, d: nat, m: nat, k: int)
    requires d > 0 && WORD == d * m && y % WORD == y - WORD * k
    ensures (y % WORD) % d == y % d
  {
    assert WORD * k == d * (m * k);
    assert y - WORD * k == y + d * (-(m * k));
    ModShift(y, d, -(m * k));
  }

  lemma SameSum(x: int, y: int, z: int, d: nat)
    requires d > 0 && x % d == y % d
    ensures (x + z) % d == (y + z) % d
  {
    AddBack(x, z, d);
    AddBack(y, z, d);
  }

  /** Otherwise there is an edge for which it is wrong. */
  lemma WrapFails(d: nat) returns (idx: nat, g1: nat, g2: nat)
    requires 0 < d < WORD && 3 * d > WORD && WORD % d != 0
    ensures idx < d && g1 < d && g2 < d && !AddsUp(d, idx, g1, g2)
  {
    if 2 * d <= WORD {
      idx, g1, g2 := WORD - 2 * d, 0, 0;
      assert 2 * d + idx - g1 - g2 == WORD;
      if idx == 0 {
        DivUnique(WORD, d, 2, 0);
      }
      assert Node32(d, idx, g1, g2) == 0 % d;
      ModBelow(0, d);
    } else {
      idx, g1, g2 := 0, 2 * d - WORD, 0;
      assert 2 * d + idx - g1 - g2 == WORD;
      ModBelow(0, d);
      ModBelow(g1, d);
    }
  }

  /** The 32-bit computation is right for all edges exactly if nothing can overflow or overflow does
      not matter. */
  lemma AssignExact(d: nat)
    requires 0 < d < WORD
    ensures (forall idx: nat, g1: nat, g2: nat :: idx < d && g1 < d && g2 < d ==> AddsUp(d, idx, g1, g2))
      <==> 3 * d <= WORD || WORD % d == 0
  {
    hide AddsUp;
    if 3 * d <= WORD || WORD % d == 0 {
      forall idx: nat, g1: nat, g2: nat | idx < d && g1 < d && g2 < d ensures AddsUp(d, idx, g1, g2) {
        if 3 * d <= WORD { NoWrap(d, idx, g1, g2); } else { WrapDivides(d, idx, g1, g2); }
      }
    } else {
      var idx, g1, g2 := WrapFails(d);
    }
  }

  // -------------------------------------------------------------- assignment

  predicate SumIs(g: seq<nat>, e: Edge, d: nat) {
    d > 0 && e.a < |g| && e.b < |g| && e.c < |g| && (g[e.a] + g[e.b] + g[e.c]) % d == e.idx
  }

  /** Some edge among the first `i` of the order is on `v`. */
  ghost predicate Touched(E: seq<Edge>, order: seq<nat>, i: nat, v: nat) {
    exists k :: 0 <= k < i <= |order| && order[k] < |E| && Inc(E[order[k]], v)
  }

  /** The first `i` edges of the order have their sums; exactly their vertices are visited. */
  ghost predicate Assigned(E: seq<Edge>, order: seq<nat>, i: nat, g: seq<nat>, visited: seq<bool>, d: nat) {
    && |g| == |visited| && i <= |order| && d > 0
    && (forall v :: 0 <= v < |g| ==> g[v] < d && visited[v] == Touched(E, order, i, v))
    && (forall k :: 0 <= k < i ==> order[k] < |E| && SumIs(g, E[order[k]], d))
  }

  /** All entries have an index that exists. */
  predicate IndexOk(E: seq<Edge>, d: nat) { forall i :: 0 <= i < |E| ==> E[i].idx < d }

  lemma AssignedNone(E: seq<Edge>, order: seq<nat>, g: seq<nat>, visited: seq<bool>, d: nat)
    requires |g| == |visited| && d > 0 && forall v :: 0 <= v < |g| ==> g[v] == 0 && !visited[v]
    ensures Assigned(E, order, 0, g, visited, d)
  {
  }

  /** The next edge has a vertex that is not visited. */
  lemma Unvisited(E: seq<Edge>, order: seq<nat>, i: nat, g: seq<nat>, visited: seq<bool>, d: nat)
    requires Peeled(E, order) && EdgesOk(E, |g|) && Assigned(E, order, i, g, visited, d) && i < |order|
    ensures order[i] < |E|
    ensures var e := E[order[i]];
      && e.a < |g| && e.b < |g| && e.c < |g| && |visited| == |g| && EdgeOk(e, |g|)
      && (!visited[e.a] || !visited[e.b] || !visited[e.c])
  {
    assert HasFree(E, order, i);
    var v: nat :| FreeAt(E, order, 0, i, v);
    assert EdgeOk(E[order[i]], |g|);
    assert !Touched(E, order, i, v);
    assert !visited[v];
  }

  /** `v0` is one vertex of the edge, `v1` and `v2` are the others. */
  predicate Arranged(e: Edge, v0: nat, v1: nat, v2: nat) {
    (v0 == e.a && v1 == e.b && v2 == e.c) || (v0 == e.b && v1 == e.a && v2 == e.c)
    || (v0 == e.c && v1 == e.a && v2 == e.b)
  }

  /** Setting the unvisited vertex keeps all earlier sums. */
  lemma AssignStep(E: seq<Edge>, order: seq<nat>, i: nat, g: seq<nat>, visited: seq<bool>, d: nat, v0: nat, v1: nat,
                   v2: nat, x: nat)
    requires Assigned(E, order, i, g, visited, d) && i < |order| && order[i] < |E| && EdgeOk(E[order[i]], |g|)
    requires Arranged(E[order[i]], v0, v1, v2) && !visited[v0] && x < d
    requires (x + g[v1] + g[v2]) % d == E[order[i]].idx
    ensures Assigned(E, order, i + 1, g[v0 := x], visited[v0 := true][v1 := true][v2 := true], d)
  {
    var g', visited' := g[v0 := x], visited[v0 := true][v1 := true][v2 := true];
    ArrangedIs(E[order[i]], v0, v1, v2, |g|);
    NowSum(g, E[order[i]], d, v0, v1, v2, x);
    hide Touched, SumIs, Arranged, EdgeOk;
    forall v | 0 <= v < |g| ensures visited'[v] == Touched(E, order, i + 1, v) {
      TouchedNext(E, order, i, v);
    }
    hide Inc;
    forall k | 0 <= k < i + 1 ensures order[k] < |E| && SumIs(g', E[order[k]], d) {
      if k < i {
        Untouched(E, order, i, v0, k);
        SumKept(g, E[order[k]], d, v0, x);
      }
    }
  }

  lemma ArrangedIs(e: Edge, v0: nat, v1: nat, v2: nat, n: nat)
    requires Arranged(e, v0, v1, v2) && EdgeOk(e, n)
    ensures v0 < n && v1 < n && v2 < n && forall v :: Inc(e, v) <==> v == v0 || v == v1 || v == v2
  {
  }

  lemma NowSum(g: seq<nat>, e: Edge, d: nat, v0: nat, v1: nat, v2: nat, x: nat)
    requires Arranged(e, v0, v1, v2) && EdgeOk(e, |g|) && d > 0 && (x + g[v1] + g[v2]) % d == e.idx
    ensures SumIs(g[v0 := x], e, d)
  {
    hide Inc;
  }

  lemma Untouched(E: seq<Edge>, order: seq<nat>, i: nat, v: nat, k: nat)
    requires !Touched(E, order, i, v) && k < i <= |order| && order[k] < |E|
    ensures !Inc(E[order[k]], v)
  {
  }

  lemma SumKept(g: seq<nat>, e: Edge, d: nat, v: nat, x: nat)
    requires SumIs(g, e, d) && v < |g| && !Inc(e, v)
    ensures SumIs(g[v := x], e, d)
  {
  }

  lemma TouchedNext(E: seq<Edge>, order: seq<nat>, i: nat, v: nat)
    requires i < |order| && order[i] < |E|
    ensures Touched(E, order, i + 1, v) <==> Touched(E, order, i, v) || Inc(E[order[i]], v)
  {
    hide Inc;
    if Touched(E, order, i, v) {
      var k :| 0 <= k < i <= |order| && order[k] < |E| && Inc(E[order[k]], v);
      assert 0 <= k < i + 1;
    }
  }

  lemma AddsEither(d: nat, idx: nat, g1: nat, g2: nat)
    requires 0 < d && (3 * d <= WORD || WORD % d == 0) && idx < d && g1 < d && g2 < d
    ensures (Node32(d, idx, g1, g2) + g1 + g2) % d == idx
  {
    if 3 * d <= WORD { NoWrap(d, idx, g1, g2); } else { WrapDivides(d, idx, g1, g2); }
  }

  lemma AssignedBelow(E: seq<Edge>, order: seq<nat>, i: nat, g: seq<nat>, visited: seq<bool>, d: nat, v: nat)
    requires Assigned(E, order, i, g, visited, d) && v < |g|
    ensures g[v] < d && d > 0 && i <= |order|
  {
  }

  /** All sums are right. */
  ghost predicate AllSums(E: seq<Edge>, g: seq<nat>, d: nat) { forall i :: 0 <= i < |E| ==> SumIs(g, E[i], d) }

  lemma AssignedAll(E: seq<Edge>, order: seq<nat>, g: seq<nat>, visited: seq<bool>, d: nat)
    requires Peeled(E, order) && Assigned(E, order, |E|, g, visited, d)
    ensures AllSums(E, g, d)
  {
    hide Inc;
    forall e: nat | e < |E| ensures SumIs(g, E[e], d) {
      var i := PlaceOf(E, order, e);
      assert SumIs(g, E[order[i]], d);
    }
  }

  /** `assign_nodes`. */
  method AssignNodes(edges: array<Edge>, order: array<nat>, entries: nat, d: nat) returns (g: array<nat>)
    requires Peeled(edges[..], order[..]) && EdgesOk(edges[..], entries) && IndexOk(edges[..], d)
    requires 0 < d && (3 * d <= WORD || WORD % d == 0)
    ensures fresh(g) && g.Length == entries && AllSums(edges[..], g[..], d)
  {
    hide Peeled, EdgesOk, EdgeOk, IndexOk, Assigned, AllSums, Inc, Node32, SumIs;
    ghost var E, o := edges[..], order[..];
    g := new nat[entries](_ => 0);
    var visited := new bool[entries](_ => false);
    AssignedNone(E, o, g[..], visited[..], d);
    PeeledLen(E, o);
    var i := 0;
    while i < edges.Length
      invariant i <= edges.Length && edges[..] == E && order[..] == o
      invariant Assigned(E, o, i, g[..], visited[..], d)
    {
      Unvisited(E, o, i, g[..], visited[..], d);
      var e := edges[order[i]];
      IndexAt(E, d, order[i]);
      var v0, v1, v2 := e.c, e.a, e.b;
      if !visited[e.a] {
        v0, v1, v2 := e.a, e.b, e.c;
      } else if !visited[e.b] {
        v0, v1, v2 := e.b, e.a, e.c;
      }
      ghost var h, w := g[..], visited[..];
      AssignedBelow(E, o, i, h, w, d, v1);
      AssignedBelow(E, o, i, h, w, d, v2);
      AddsEither(d, e.idx, g[v1], g[v2]);
      var x := Node32(d, e.idx, g[v1], g[v2]);
      AssignStep(E, o, i, h, w, d, v0, v1, v2, x);
      g[v0] := x;
      visited[v0] := true;
      visited[v1] := true;
      visited[v2] := true;
      assert g[..] == h[v0 := x] && visited[..] == w[v0 := true][v1 := true][v2 := true];
      i := i + 1;
    }
    AssignedAll(E, o, g[..], visited[..], d);
  }

  lemma PeeledLen(E: seq<Edge>, order: seq<nat>)
    requires Peeled(E, order)
    ensures |order| == |E|
  {
  }

  lemma IndexAt(E: seq<Edge>, d: nat, i: nat)
    requires IndexOk(E, d) && i < |E|
    ensures E[i].idx < d
  {
  }
}
