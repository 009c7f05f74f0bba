/** Peeling a 3-uniform hypergraph (`change_edge`, `remove_vertex`, `build_graph` of the
    constant-database writer).  A vertex keeps only how many edges are incident and the XOR of
    their numbers. */
module CdbwGraph {
  import opened Bits

  /** One key: its three vertices and the index of its data. */
  datatype Edge = Edge(a: nat, b: nat, c: nat, idx: nat)

  predicate Inc(e: Edge, v: nat) { v == e.a || v == e.b || v == e.c }

  predicate EdgeOk(e: Edge, n: nat) {
    e.a < n && e.b < n && e.c < n && e.a != e.b && e.a != e.c && e.b != e.c
  }

  predicate EdgesOk(E: seq<Edge>, n: nat) { forall i :: 0 <= i < |E| ==> EdgeOk(E[i], n) }

  // -------------------------------------------------------------------- xor

  lemma {:induction false} BelowPow(n: nat)
    ensures n < Pow2(n)
  {
    if n > 0 { BelowPow(n - 1); }
  }

  lemma {:induction false} XorSmall(a: nat, b: nat, n: nat)
    requires a < Pow2(n) && b < Pow2(n)
    ensures Xor(a, b) < Pow2(n)
  {
    if n > 0 && a > 0 { XorSmall(a / 2, b / 2, n - 1); }
  }

  lemma Below(x: nat, n: nat)
    requires x <= n
    ensures x < Pow2(n)
  {
    BelowPow(n);
  }

  lemma XorSwap(a: nat, b: nat, c: nat)
    ensures Xor(Xor(a, b), c) == Xor(Xor(a, c), b)
  {
    hide Xor, Pow2;
    var n := a + b + c;
    Below(a, n); Below(b, n); Below(c, n);
    XorSmall(a, b, n);
    XorSmall(a, c, n);
    XorSmall(Xor(a, b), c, n);
    XorSmall(Xor(a, c), b, n);
    forall k | 0 <= k < n ensures Bit(Xor(Xor(a, b), c), k) == Bit(Xor(Xor(a, c), b), k) {
      BitXor(a, b, k);
      BitXor(a, c, k);
      BitXor(Xor(a, b), c, k);
      BitXor(Xor(a, c), b, k);
    }
    SameBits(Xor(Xor(a, b), c), Xor(Xor(a, c), b), n);
  }

  lemma XorTwice(a: nat, b: nat)
    ensures Xor(Xor(a, b), b) == a
  {
    hide Xor, Pow2;
    var n := a + b;
    Below(a, n); Below(b, n);
    XorSmall(a, b, n);
    XorSmall(Xor(a, b), b, n);
    forall k | 0 <= k < n ensures Bit(Xor(Xor(a, b), b), k) == Bit(a, k) {
      BitXor(a, b, k);
      BitXor(Xor(a, b), b, k);
    }
    SameBits(Xor(Xor(a, b), b), a, n);
  }

  // -------------------------------------------------------------- incidence

  /** How many of the first `k` edges are in `R` and incident to `v`. */
  function Deg(E: seq<Edge>, R: set<nat>, v: nat, k: nat): nat
    requires k <= |E|
  {
    if k == 0 then 0
    else Deg(E, R, v, k - 1) + (if k - 1 in R && Inc(E[k - 1], v) then 1 else 0)
  }

  /** The XOR of their numbers. */
  function XorNo(E: seq<Edge>, R: set<nat>, v: nat, k: nat): nat
    requires k <= |E|
  {
    if k == 0 then 0
    else if k - 1 in R && Inc(E[k - 1], v) then Xor(XorNo(E, R, v, k - 1), k - 1)
    else XorNo(E, R, v, k - 1)
  }

  /** Taking edge `e` out of `R` or putting it in. */
  lemma {:induction false} DegChange(E: seq<Edge>, R: set<nat>, e: nat, v: nat, k: nat)
    requires k <= |E| && e !in R
    ensures Deg(E, R + {e}, v, k) == Deg(E, R, v, k) + (if e < k && Inc(E[e], v) then 1 else 0)
  {
    if k > 0 { DegChange(E, R, e, v, k - 1); }
  }

  lemma {:induction false} XorChange(E: seq<Edge>, R: set<nat>, e: nat, v: nat, k: nat)
    requires k <= |E| && e !in R
    ensures XorNo(E, R + {e}, v, k) == if e < k && Inc(E[e], v) then Xor(XorNo(E, R, v, k), e) else XorNo(E, R, v, k)
  {
    hide Xor;
    if k > 0 {
      XorChange(E, R, e, v, k - 1);
      if k - 1 != e && k - 1 in R && Inc(E[k - 1], v) { XorSwap(XorNo(E, R, v, k - 1), e, k - 1); }
    }
  }

  lemma {:induction false} DegNone(E: seq<Edge>, R: set<nat>, v: nat, k: nat)
    requires k <= |E| && Deg(E, R, v, k) == 0
    ensures XorNo(E, R, v, k) == 0
    ensures forall e: nat :: e < k && e in R ==> !Inc(E[e], v)
  {
    if k > 0 { DegNone(E, R, v, k - 1); }
  }

  /** The core observation: at degree one the XOR is the incident edge. */
  lemma {:induction false} DegOne(E: seq<Edge>, R: set<nat>, v: nat, k: nat)
    requires k <= |E| && Deg(E, R, v, k) == 1
    ensures var e := XorNo(E, R, v, k);
      e < k && e in R && Inc(E[e], v) && forall f: nat :: f < k && f in R && Inc(E[f], v) ==> f == e
  {
    if k - 1 in R && Inc(E[k - 1], v) {
      DegNone(E, R, v, k - 1);
    } else {
      DegOne(E, R, v, k - 1);
    }
  }

  lemma {:induction false} DegSome(E: seq<Edge>, R: set<nat>, v: nat, k: nat, e: nat)
    requires e < k <= |E| && e in R && Inc(E[e], v)
    ensures Deg(E, R, v, k) >= 1
  {
    if e < k - 1 { DegSome(E, R, v, k - 1, e); }
  }

  /** Two incident edges, if the degree is at least two. */
  lemma {:induction false} DegTwo(E: seq<Edge>, R: set<nat>, v: nat, k: nat, e: nat) returns (f: nat)
    requires k <= |E| && Deg(E, R, v, k) >= 2
    ensures f < k && f in R && f != e && Inc(E[f], v)
  {
    if k - 1 in R && Inc(E[k - 1], v) && k - 1 != e {
      f := k - 1;
    } else if k - 1 in R && Inc(E[k - 1], v) {
      f := OneLeft(E, R, v, k - 1);
    } else {
      f := DegTwo(E, R, v, k - 1, e);
    }
  }

  lemma {:induction false} OneLeft(E: seq<Edge>, R: set<nat>, v: nat, k: nat) returns (f: nat)
    requires k <= |E| && Deg(E, R, v, k) >= 1
    ensures f < k && f in R && Inc(E[f], v)
  {
    if k - 1 in R && Inc(E[k - 1], v) { f := k - 1; } else { f := OneLeft(E, R, v, k - 1); }
  }

  /** `degree` and `edges` are exactly the count and the XOR of the incident edges in `R`. */
  ghost predicate Incidence(E: seq<Edge>, R: set<nat>, deg: seq<nat>, xr: seq<nat>) {
    && |deg| == |xr|
    && forall v :: 0 <= v < |deg| ==> deg[v] == Deg(E, R, v, |E|) && xr[v] == XorNo(E, R, v, |E|)
  }

  lemma IncidenceNone(E: seq<Edge>, deg: seq<nat>, xr: seq<nat>)
    requires |deg| == |xr| && forall v :: 0 <= v < |deg| ==> deg[v] == 0 && xr[v] == 0
    ensures Incidence(E, {}, deg, xr)
  {
    forall v: nat | v < |deg| ensures Deg(E, {}, v, |E|) == 0 && XorNo(E, {}, v, |E|) == 0 { NoneIn(E, v, |E|); }
  }

  lemma {:induction false} NoneIn(E: seq<Edge>, v: nat, k: nat)
    requires k <= |E|
    ensures Deg(E, {}, v, k) == 0
    ensures XorNo(E, {}, v, k) == 0
  {
    if k > 0 { NoneIn(E, v, k - 1); }
  }

  function Add(x: int, d: int): int { x + d }

  /** The three vertices of an edge changed. */
  ghost predicate Changed(e: Edge, no: nat, delta: int, deg: seq<nat>, xr: seq<nat>, deg': seq<nat>, xr': seq<nat>) {
    && |deg'| == |deg| == |xr| == |xr'|
    && forall v :: 0 <= v < |deg| ==>
         deg'[v] == (if Inc(e, v) then Add(deg[v], delta) else deg[v])
         && xr'[v] == if Inc(e, v) then Xor(xr[v], no) else xr[v]
  }

  lemma InsertEdge(E: seq<Edge>, R: set<nat>, e: nat, deg: seq<nat>, xr: seq<nat>, deg': seq<nat>, xr': seq<nat>)
    requires Incidence(E, R, deg, xr) && e < |E| && e !in R && Changed(E[e], e, 1, deg, xr, deg', xr')
    ensures Incidence(E, R + {e}, deg', xr')
  {
    hide Xor, Deg, XorNo;
    forall v: nat | v < |deg|
      ensures deg'[v] == Deg(E, R + {e}, v, |E|) && xr'[v] == XorNo(E, R + {e}, v, |E|)
    {
      DegChange(E, R, e, v, |E|);
      XorChange(E, R, e, v, |E|);
    }
  }

  lemma RemoveEdge(E: seq<Edge>, R: set<nat>, e: nat, deg: seq<nat>, xr: seq<nat>, deg': seq<nat>, xr': seq<nat>)
    requires Incidence(E, R, deg, xr) && e < |E| && e in R && Changed(E[e], e, -1, deg, xr, deg', xr')
    ensures Incidence(E, R - {e}, deg', xr')
  {
    hide Xor, Deg, XorNo;
    var S := R - {e};
    assert S + {e} == R;
    forall v: nat | v < |deg| ensures deg'[v] == Deg(E, S, v, |E|) && xr'[v] == XorNo(E, S, v, |E|) {
      DegChange(E, S, e, v, |E|);
      XorChange(E, S, e, v, |E|);
      if Inc(E[e], v) { XorTwice(XorNo(E, S, v, |E|), e); }
    }
  }

  // ---------------------------------------------------------------- peeling

  /** Every edge of `order` has a vertex that no edge before it has: peeling from the back works. */
  ghost predicate Peeled(E: seq<Edge>, order: seq<nat>) {
    && |order| == |E| && (forall i :: 0 <= i < |order| ==> order[i] < |E|)
    && (forall i, k :: 0 <= i < k < |order| ==> order[i] != order[k])
    && (forall i :: 0 <= i < |order| ==> HasFree(E, order, i))
  }

  ghost predicate HasFree(E: seq<Edge>, order: seq<nat>, i: nat) { exists v: nat :: FreeAt(E, order, 0, i, v) }

  /** Vertex `v` of edge `order[i]` is on none of the edges from place `lo` up to `i`. */
  ghost predicate FreeAt(E: seq<Edge>, order: seq<nat>, lo: nat, i: nat, v: nat) {
    && i < |order| && order[i] < |E| && Inc(E[order[i]], v)
    && forall k :: lo <= k < i ==> order[k] < |E| && !Inc(E[order[k]], v)
  }

  /** Some order peels all edges. */
  ghost predicate Peelable(E: seq<Edge>) { exists order: seq<nat> :: Peeled(E, order) }

  /** No vertex of an edge in `R` is on that edge alone. */
  ghost predicate Stuck(E: seq<Edge>, R: set<nat>) {
    && R != {} && (forall e: nat :: e in R ==> e < |E|)
    && forall e: nat, v: nat :: e in R && Inc(E[e], v) ==> Deg(E, R, v, |E|) >= 2
  }

  /** A set of edges without vertices of degree one is never peeled. */
  lemma StuckNotPeelable(E: seq<Edge>, R: set<nat>)
    requires Stuck(E, R)
    ensures !Peelable(E)
  {
    forall order: seq<nat> | Peeled(E, order) ensures false {
      var i := LastIn(E, R, order);
      assert HasFree(E, order, i);
      var v: nat :| FreeAt(E, order, 0, i, v);
      StuckOther(E, R, order[i], v);
      var f := DegTwo(E, R, v, |E|, order[i]);
      var k := PlaceOf(E, order, f);
    }
  }

  lemma StuckOther(E: seq<Edge>, R: set<nat>, e: nat, v: nat)
    requires Stuck(E, R) && e in R && e < |E| && Inc(E[e], v)
    ensures Deg(E, R, v, |E|) >= 2
  {
  }

  /** The edge of `R` that a peeling order would remove first. */
  lemma LastIn(E: seq<Edge>, R: set<nat>, order: seq<nat>) returns (i: nat)
    requires R != {} && (forall e: nat :: e in R ==> e < |E|) && Peeled(E, order)
    ensures i < |order| && order[i] in R && forall k :: i < k < |order| ==> order[k] !in R
  {
    var e: nat :| e in R;
    var at := PlaceOf(E, order, e);
    i := LastFrom(R, order, |order|, at);
  }

  lemma {:induction false} LastFrom(R: set<nat>, order: seq<nat>, n: nat, at: nat) returns (i: nat)
    requires at < n <= |order| && order[at] in R && forall k :: n <= k < |order| ==> order[k] !in R
    ensures i < |order| && order[i] in R && forall k :: i < k < |order| ==> order[k] !in R
  {
    if order[n - 1] in R { i := n - 1; } else { i := LastFrom(R, order, n - 1, at); }
  }

  /** A list of distinct numbers below its length holds them all. */
  lemma PlaceOf(E: seq<Edge>, order: seq<nat>, e: nat) returns (i: nat)
    requires Peeled(E, order) && e < |E|
    ensures i < |order| && order[i] == e
  {
    if e !in order {
      var s, all := set k | 0 <= k < |order| :: order[k], Numbers(|E|);
      SizeOf(order);
      assert s <= all - {e};
      Subset(s, all - {e});
    }
    i :| 0 <= i < |order| && order[i] == e;
  }

  lemma {:induction false} SizeOf(order: seq<nat>)
    requires forall i, k :: 0 <= i < k < |order| ==> order[i] != order[k]
    ensures |set k | 0 <= k < |order| :: order[k]| == |order|
  {
    var n := |order| - 1;
    if n >= 0 {
      SizeOf(order[..n]);
      var s := set k | 0 <= k < n :: order[..n][k];
      assert s == set k | 0 <= k < n :: order[k];
      assert (set k | 0 <= k < |order| :: order[k]) == s + {order[n]};
    }
  }

  /** The numbers below `n`. */
  function Numbers(n: nat): (s: set<nat>)
    ensures |s| == n && forall k: nat :: k in s <==> k < n
  {
    if n == 0 then {} else Numbers(n - 1) + {n - 1}
  }

  lemma {:induction false} Subset(a: set<nat>, b: set<nat>)
    requires a <= b
    ensures |a| <= |b|
    decreases a
  {
    if a != {} {
      var x :| x in a;
      Subset(a - {x}, b - {x});
    }
  }

  // ------------------------------------------------------------ a peeling run

  /** The edges not in `R` stand in `order` from `lo` on, and can be peeled from the back. */
  ghost predicate Removed(E: seq<Edge>, R: set<nat>, order: seq<nat>, lo: nat) {
    && |order| == |E| && lo <= |E| && |R| == lo && (forall e: nat :: e in R ==> e < |E|)
    && (forall i :: lo <= i < |order| ==> order[i] < |E| && order[i] !in R)
    && (forall i, k :: lo <= i < k < |order| ==> order[i] != order[k])
    && (forall i :: lo <= i < |order| ==> HasFreed(E, R, order, lo, i))
  }

  ghost predicate HasFreed(E: seq<Edge>, R: set<nat>, order: seq<nat>, lo: nat, i: nat) {
    exists v: nat :: Freed(E, R, order, lo, i, v)
  }

  ghost predicate Freed(E: seq<Edge>, R: set<nat>, order: seq<nat>, lo: nat, i: nat, v: nat) {
    && FreeAt(E, order, lo, i, v)
    && forall e: nat :: e in R && e < |E| ==> !Inc(E[e], v)
  }

  lemma RemovedNone(E: seq<Edge>, order: seq<nat>)
    requires |order| == |E|
    ensures Removed(E, Numbers(|E|), order, |E|)
  {
  }

  /** Removing the only edge of vertex `v`. */
  lemma RemovedNext(E: seq<Edge>, R: set<nat>, order: seq<nat>, lo: nat, v: nat)
    requires Removed(E, R, order, lo) && Deg(E, R, v, |E|) == 1
    ensures 0 < lo <= |order|
    ensures var e := XorNo(E, R, v, |E|);
      && e < |E| && e in R && Inc(E[e], v) && Removed(E, R - {e}, order[lo - 1 := e], lo - 1)
  {
    hide Deg, XorNo, Inc;
    DegOne(E, R, v, |E|);
    var e := XorNo(E, R, v, |E|);
    assert |R| > 0;
    var R', order', lo' := R - {e}, order[lo - 1 := e], lo - 1;
    forall i | lo' <= i < |order'| ensures HasFreed(E, R', order', lo', i) {
      if i == lo' {
        assert Freed(E, R', order', lo', i, v);
      } else {
        assert HasFreed(E, R, order, lo, i);
        var w: nat :| Freed(E, R, order, lo, i, w);
        FreedKeeps(E, R, order, lo, i, w, e);
      }
    }
  }

  lemma FreedKeeps(E: seq<Edge>, R: set<nat>, order: seq<nat>, lo: nat, i: nat, w: nat, e: nat)
    requires Freed(E, R, order, lo, i, w) && 0 < lo <= i && e in R && e < |E|
    ensures Freed(E, R - {e}, order[lo - 1 := e], lo - 1, i, w)
  {
    hide Inc;
  }

  /** All edges removed: the order peels. */
  lemma RemovedAll(E: seq<Edge>, R: set<nat>, order: seq<nat>)
    requires Removed(E, R, order, 0)
    ensures Peeled(E, order)
  {
    hide Inc, FreeAt;
    forall i | 0 <= i < |order| ensures HasFree(E, order, i) {
      assert HasFreed(E, R, order, 0, i);
      var v: nat :| Freed(E, R, order, 0, i, v);
    }
  }

  /** Every vertex of degree one is still to be looked at (in `X`), or on an edge between `lo` and `hi`
      whose vertices are still to be looked at. */
  ghost predicate Pending(E: seq<Edge>, order: seq<nat>, lo: nat, hi: nat, deg: seq<nat>, X: set<nat>) {
    && lo <= hi <= |order|
    && forall v :: 0 <= v < |deg| && deg[v] == 1 && v !in X ==> Listed(E, order, lo, hi, v)
  }

  ghost predicate Listed(E: seq<Edge>, order: seq<nat>, lo: nat, hi: nat, v: nat) {
    exists k :: lo <= k < hi <= |order| && order[k] < |E| && Inc(E[order[k]], v)
  }

  /** Removing edge `e` lists its vertices. */
  lemma PendingRemove(E: seq<Edge>, order: seq<nat>, lo: nat, hi: nat, deg: seq<nat>, X: set<nat>, e: nat, v: nat,
                      xr: seq<nat>, deg': seq<nat>, xr': seq<nat>)
    requires Pending(E, order, lo, hi, deg, X) && 0 < lo && e < |E| && Inc(E[e], v) && v < |deg| && deg[v] == 1
    requires Changed(E[e], e, -1, deg, xr, deg', xr')
    ensures Pending(E, order[lo - 1 := e], lo - 1, hi, deg', X - {v})
  {
    hide Inc, Xor;
    var order' := order[lo - 1 := e];
    forall w | 0 <= w < |deg'| && deg'[w] == 1 && w !in X - {v} ensures Listed(E, order', lo - 1, hi, w) {
      if Inc(E[e], w) {
        assert order'[lo - 1] == e;
      } else {
        assert Listed(E, order, lo, hi, w);
        var k :| lo <= k < hi <= |order| && order[k] < |E| && Inc(E[order[k]], w);
        assert order'[k] == order[k];
      }
    }
  }

  lemma PendingKeep(E: seq<Edge>, order: seq<nat>, lo: nat, hi: nat, deg: seq<nat>, X: set<nat>, v: nat)
    requires Pending(E, order, lo, hi, deg, X) && v < |deg| && deg[v] != 1
    ensures Pending(E, order, lo, hi, deg, X - {v})
  {
    hide Listed;
  }

  lemma PendingAll(E: seq<Edge>, order: seq<nat>, lo: nat, hi: nat, deg: seq<nat>)
    requires lo <= hi <= |order|
    ensures Pending(E, order, lo, hi, deg, Numbers(|deg|))
  {
  }

  /** The vertices of the edge at the end of the queue come to be looked at. */
  lemma PendingPop(E: seq<Edge>, order: seq<nat>, lo: nat, hi: nat, deg: seq<nat>)
    requires Pending(E, order, lo, hi + 1, deg, {}) && lo <= hi && order[hi] < |E|
    ensures var e := E[order[hi]]; Pending(E, order, lo, hi, deg, {e.a, e.b, e.c})
  {
    var e := E[order[hi]];
    forall v | 0 <= v < |deg| && deg[v] == 1 && v !in {e.a, e.b, e.c} ensures Listed(E, order, lo, hi, v) {
      assert Listed(E, order, lo, hi + 1, v);
      var k :| lo <= k < hi + 1 <= |order| && order[k] < |E| && Inc(E[order[k]], v);
      assert k != hi;
    }
  }

  // ---------------------------------------------------------------- methods

  /** The part of `struct state` that peeling works on. */
  class Peeler {
    const edges: array<Edge>
    const degree: array<nat>
    const xors: array<nat>
    const order: array<nat>
    var index: nat

    constructor (edges: array<Edge>, entries: nat)
      ensures this.edges == edges && fresh(degree) && fresh(xors) && fresh(order) && Shape()
      ensures degree.Length == entries && index == edges.Length
      ensures Incidence(edges[..], {}, degree[..], xors[..])
    {
      this.edges := edges;
      degree := new nat[entries](_ => 0);
      xors := new nat[entries](_ => 0);
      order := new nat[edges.Length](_ => 0);
      index := edges.Length;
      new;
      IncidenceNone(edges[..], degree[..], xors[..]);
    }

    predicate Shape() {
      degree.Length == xors.Length && degree != xors && degree != order && xors != order && order.Length == edges.Length
    }

    /** `change_edge`. */
    method ChangeEdge(delta: int, e: nat)
      requires Shape() && e < edges.Length && EdgeOk(edges[e], degree.Length) && (delta == 1 || delta == -1)
      requires delta == -1 ==> degree[edges[e].a] > 0 && degree[edges[e].b] > 0 && degree[edges[e].c] > 0
      modifies degree, xors
      ensures Changed(edges[e], e, delta, old(degree[..]), old(xors[..]), degree[..], xors[..])
    {
      hide Xor;
      var f := edges[e];
      xors[f.a] := Xor(xors[f.a], e);
      degree[f.a] := Add(degree[f.a], delta);
      xors[f.b] := Xor(xors[f.b], e);
      degree[f.b] := Add(degree[f.b], delta);
      xors[f.c] := Xor(xors[f.c], e);
      degree[f.c] := Add(degree[f.c], delta);
    }

    /** `remove_vertex`: if only one edge is left at `v`, it is removed. */
    method RemoveVertex(v: nat, ghost R: set<nat>, ghost hi: nat, ghost X: set<nat>) returns (ghost R': set<nat>)
      requires Shape() && v < degree.Length && EdgesOk(edges[..], degree.Length)
      requires Incidence(edges[..], R, degree[..], xors[..]) && Removed(edges[..], R, order[..], index)
      requires Pending(edges[..], order[..], index, hi, degree[..], X)
      modifies this, degree, xors, order
      ensures Incidence(edges[..], R', degree[..], xors[..]) && Removed(edges[..], R', order[..], index)
      ensures Pending(edges[..], order[..], index, hi, degree[..], X - {v})
    {
      hide Incidence, Removed, Pending, Deg, XorNo, EdgesOk, EdgeOk, Changed, Inc;
      R' := R;
      if degree[v] == 1 {
        ghost var E, o, d, x := edges[..], order[..], degree[..], xors[..];
        IncidenceAt(E, R, d, x, v);
        RemovedNext(E, R, o, index, v);
        var e := xors[v];
        DegreesAt(E, R, d, x, e);
        index := index - 1;
        order[index] := e;
        assert order[..] == o[index := e];
        ChangeEdge(-1, e);
        RemoveEdge(E, R, e, d, x, degree[..], xors[..]);
        PendingRemove(E, o, index + 1, hi, d, X, e, v, x, degree[..], xors[..]);
        R' := R - {e};
      } else {
        PendingKeep(edges[..], order[..], index, hi, degree[..], X, v);
      }
    }
  }

  lemma IncidenceAt(E: seq<Edge>, R: set<nat>, deg: seq<nat>, xr: seq<nat>, v: nat)
    requires Incidence(E, R, deg, xr) && v < |deg|
    ensures |deg| == |xr| && deg[v] == Deg(E, R, v, |E|) && xr[v] == XorNo(E, R, v, |E|)
  {
  }

  /** An edge that is still there counts at its vertices. */
  lemma DegreesAt(E: seq<Edge>, R: set<nat>, deg: seq<nat>, xr: seq<nat>, e: nat)
    requires Incidence(E, R, deg, xr) && EdgesOk(E, |deg|) && e < |E| && e in R
    ensures EdgeOk(E[e], |deg|) && E[e].a < |deg| && E[e].b < |deg| && E[e].c < |deg|
    ensures deg[E[e].a] > 0 && deg[E[e].b] > 0 && deg[E[e].c] > 0
  {
    hide Deg, XorNo;
    DegSome(E, R, E[e].a, |E|, e);
    DegSome(E, R, E[e].b, |E|, e);
    DegSome(E, R, E[e].c, |E|, e);
  }

  lemma RangeOk(E: seq<Edge>, n: nat, i: nat)
    requires EdgesOk(E, n) && i < |E|
    ensures EdgeOk(E[i], n) && E[i].a < n && E[i].b < n && E[i].c < n
  {
  }

  /** Enters all edges in the incidence lists. */
  method AddEdges(p: Peeler) returns (ghost R: set<nat>)
    requires p.Shape() && p.index == p.edges.Length && EdgesOk(p.edges[..], p.degree.Length)
    requires Incidence(p.edges[..], {}, p.degree[..], p.xors[..])
    modifies p.degree, p.xors
    ensures Incidence(p.edges[..], R, p.degree[..], p.xors[..]) && Removed(p.edges[..], R, p.order[..], p.index)
  {
    hide Incidence, Removed, Deg, XorNo, EdgesOk, EdgeOk, Changed, Inc;
    ghost var E := p.edges[..];
    var i := 0;
    R := {};
    while i < p.edges.Length
      invariant i <= p.edges.Length && p.edges[..] == E && R == Numbers(i)
      invariant Incidence(E, R, p.degree[..], p.xors[..])
    {
      RangeOk(E, p.degree.Length, i);
      ghost var d, x := p.degree[..], p.xors[..];
      p.ChangeEdge(1, i);
      InsertEdge(E, R, i, d, x, p.degree[..], p.xors[..]);
      assert i + 1 > 0 && Numbers(i + 1) == Numbers(i) + {i};
      R := R + {i};
      i := i + 1;
    }
    RemovedNone(E, p.order[..]);
  }

  /** Checks every vertex once. */
  method PeelVertices(p: Peeler, ghost R: set<nat>) returns (ghost R': set<nat>)
    requires p.Shape() && EdgesOk(p.edges[..], p.degree.Length) && p.index == p.edges.Length
    requires Incidence(p.edges[..], R, p.degree[..], p.xors[..]) && Removed(p.edges[..], R, p.order[..], p.index)
    modifies p, p.degree, p.xors, p.order
    ensures Incidence(p.edges[..], R', p.degree[..], p.xors[..]) && Removed(p.edges[..], R', p.order[..], p.index)
    ensures Pending(p.edges[..], p.order[..], p.index, p.edges.Length, p.degree[..], {})
  {
    hide Incidence, Removed, Pending, Deg, XorNo, EdgesOk, EdgeOk, Changed, Inc;
    ghost var E, n, all := p.edges[..], p.edges.Length, Numbers(p.degree.Length);
    R' := R;
    PendingAll(E, p.order[..], p.index, n, p.degree[..]);
    var i := 0;
    assert all - Numbers(0) == all;
    while i < p.degree.Length
      invariant i <= p.degree.Length && p.edges[..] == E
      invariant Incidence(E, R', p.degree[..], p.xors[..]) && Removed(E, R', p.order[..], p.index)
      invariant Pending(E, p.order[..], p.index, n, p.degree[..], all - Numbers(i))
    {
      R' := p.RemoveVertex(i, R', n, all - Numbers(i));
      assert i + 1 > 0 && all - Numbers(i) - {i} == all - Numbers(i + 1);
      i := i + 1;
    }
    assert all - Numbers(i) == {};
  }

  lemma OrderAt(E: seq<Edge>, R: set<nat>, order: seq<nat>, lo: nat, i: nat)
    requires Removed(E, R, order, lo) && lo <= i < |E|
    ensures i < |order| && order[i] < |E| && lo <= |order|
  {
  }

  /** Follows the edges that have been removed, from the first one on, and checks their vertices. */
  method PeelQueue(p: Peeler, ghost R: set<nat>) returns (ghost R': set<nat>)
    requires p.Shape() && EdgesOk(p.edges[..], p.degree.Length)
    requires Incidence(p.edges[..], R, p.degree[..], p.xors[..]) && Removed(p.edges[..], R, p.order[..], p.index)
    requires Pending(p.edges[..], p.order[..], p.index, p.edges.Length, p.degree[..], {})
    modifies p, p.degree, p.xors, p.order
    ensures Incidence(p.edges[..], R', p.degree[..], p.xors[..]) && Removed(p.edges[..], R', p.order[..], p.index)
    ensures Pending(p.edges[..], p.order[..], p.index, p.index, p.degree[..], {})
  {
    hide Incidence, Removed, Pending, Deg, XorNo, EdgesOk, EdgeOk, Changed, Inc;
    ghost var E := p.edges[..];
    R' := R;
    var i := p.edges.Length;
    PendingRange(E, p.order[..], p.index, i, p.degree[..], {});
    while i > 0 && i > p.index
      invariant p.index <= i <= p.edges.Length && p.edges[..] == E
      invariant Incidence(E, R', p.degree[..], p.xors[..]) && Removed(E, R', p.order[..], p.index)
      invariant Pending(E, p.order[..], p.index, i, p.degree[..], {})
    {
      i := i - 1;
      OrderAt(E, R', p.order[..], p.index, i);
      PendingPop(E, p.order[..], p.index, i, p.degree[..]);
      var e := p.edges[p.order[i]];
      RangeOk(E, p.degree.Length, p.order[i]);
      R' := p.RemoveVertex(e.a, R', i, {e.a, e.b, e.c});
      R' := p.RemoveVertex(e.b, R', i, {e.a, e.b, e.c} - {e.a});
      R' := p.RemoveVertex(e.c, R', i, {e.a, e.b, e.c} - {e.a} - {e.b});
      assert {e.a, e.b, e.c} - {e.a} - {e.b} - {e.c} == {};
      PendingRange(E, p.order[..], p.index, i, p.degree[..], {});
    }
  }

  lemma PendingRange(E: seq<Edge>, order: seq<nat>, lo: nat, hi: nat, deg: seq<nat>, X: set<nat>)
    requires Pending(E, order, lo, hi, deg, X)
    ensures lo <= hi <= |order|
  {
  }

  /** Nothing pending: what is left is stuck. */
  lemma NothingPending(E: seq<Edge>, R: set<nat>, order: seq<nat>, lo: nat, deg: seq<nat>, xr: seq<nat>)
    requires EdgesOk(E, |deg|) && Incidence(E, R, deg, xr) && Removed(E, R, order, lo) && lo > 0
    requires Pending(E, order, lo, lo, deg, {})
    ensures Stuck(E, R)
  {
    hide Deg, XorNo;
    assert R != {};
    forall e: nat, v: nat | e in R && Inc(E[e], v) ensures Deg(E, R, v, |E|) >= 2 {
      DegSome(E, R, v, |E|, e);
      assert EdgeOk(E[e], |deg|);
      assert !Listed(E, order, lo, lo, v);
    }
  }

  /** The peeling part of `build_graph`: it succeeds exactly if the edges can be peeled at all, and if it
      fails, every vertex of the edges that are left is on two of them. */
  method Peel(p: Peeler) returns (ok: bool, ghost R: set<nat>)
    requires p.Shape() && p.index == p.edges.Length && EdgesOk(p.edges[..], p.degree.Length)
    requires Incidence(p.edges[..], {}, p.degree[..], p.xors[..])
    modifies p, p.degree, p.xors, p.order
    ensures ok <==> Peelable(p.edges[..])
    ensures ok ==> Peeled(p.edges[..], p.order[..])
    ensures !ok ==> Stuck(p.edges[..], R)
  {
    hide Incidence, Removed, Pending, Deg, XorNo, EdgesOk, EdgeOk, Changed, Inc, Stuck, Peeled;
    R := AddEdges(p);
    R := PeelVertices(p, R);
    R := PeelQueue(p, R);
    ok := p.index == 0;
    if ok {
      RemovedAll(p.edges[..], R, p.order[..]);
    } else {
      NothingPending(p.edges[..], R, p.order[..], p.index, p.degree[..], p.xors[..]);
      StuckNotPeelable(p.edges[..], R);
    }
  }
}
