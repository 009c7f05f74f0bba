/** The in-place two-queue Huffman tree and its depth-limited leaf counts
    (`sdefl_build_tree`, `sdefl_gen_len_cnt`).

  Array element `k` holds a symbol in its ten low bits, which never change, and
  above them first the weight of leaf `k`, then the weight of inner node `k`,
  then the parent of inner node `k` and at last its depth.
*/
module HuffTree {
  import opened HuffSort
  import Canonical

  /** The tree that was built: `par[k]` is the parent of inner node `k`,
      `leaf[i]` that of leaf `i`, `weight[k]` the weight of inner node `k`. */
  datatype Tree = Tree(par: seq<nat>, leaf: seq<nat>, weight: seq<nat>)

  /** The first `e` inner nodes have been made out of `leaves` leaves. */
  ghost predicate Growing(t: Tree, leaves: nat, e: nat) {
    && |t.par| <= e == |t.weight| && |t.leaf| <= leaves
    && |t.par| + |t.leaf| == 2 * e
    && (forall k :: 0 <= k < |t.par| ==> k < t.par[k] < e)
    && (forall k :: 0 <= k < |t.leaf| ==> t.leaf[k] < e)
    && (forall j, k :: 0 <= j < k < |t.par| ==> t.par[j] <= t.par[k])
    && (forall j, k :: 0 <= j && j + 1 < k < |t.par| ==> t.par[j] < t.par[k])
    && (forall j, k :: 0 <= j < k < |t.leaf| ==> t.leaf[j] <= t.leaf[k])
    && (forall x :: 0 <= x < e ==> Canonical.Count(t.par, x) + Canonical.Count(t.leaf, x) == 2)
  }

  /** A finished tree over `leaves` leaves: every inner node but the root has a parent. */
  ghost predicate IsTree(t: Tree, leaves: nat) {
    && leaves >= 2 && Growing(t, leaves, leaves - 1)
    && |t.leaf| == leaves && |t.par| == leaves - 2
  }

  /** What the array holds while the tree grows. */
  ghost predicate Holds(a: seq<nat>, orig: seq<nat>, t: Tree)
  {
    && |a| == |orig| && |t.par| <= |t.weight| <= |a| && |t.leaf| <= |a|
    && (forall k :: 0 <= k < |a| ==> a[k] % SYM_RANGE == orig[k] % SYM_RANGE)
    && (forall k :: 0 <= k < |t.par| ==> a[k] / SYM_RANGE == t.par[k])
    && (forall k :: |t.par| <= k < |t.weight| ==> a[k] / SYM_RANGE == t.weight[k])
    && (forall k :: |t.leaf| <= k < |a| ==> a[k] == orig[k])
  }

  /** Whether the next node taken is leaf `i` rather than inner node `b`. */
  predicate TakesLeaf(ws: seq<nat>, weight: seq<nat>, i: nat, b: nat)
    requires i <= |ws| && b <= |weight|
  {
    i != |ws| && (b == |weight| || ws[i] <= weight[b])
  }

  lemma {:induction false} CountAbove(s: seq<nat>, x: nat)
    requires forall k :: 0 <= k < |s| ==> s[k] < x
    ensures Canonical.Count(s, x) == 0
  {
    if s != [] { CountAbove(s[..|s| - 1], x); }
  }

  lemma CountPush(s: seq<nat>, y: nat, x: nat)
    ensures Canonical.Count(s + [y], x) == Canonical.Count(s, x) + (if x == y then 1 else 0)
  {
    assert (s + [y])[..|s|] == s;
  }

  /** Hands two nodes, leaf or inner, to the new inner node `e`. */
  function Adopt(t: Tree, leaf1: bool, leaf2: bool, w: nat): Tree {
    var e := |t.weight|;
    var p := if leaf1 then t.par else t.par + [e];
    var l := if leaf1 then t.leaf + [e] else t.leaf;
    Tree(if leaf2 then p else p + [e], if leaf2 then l + [e] else l, t.weight + [w])
  }

  lemma AdoptCount(t: Tree, leaf1: bool, leaf2: bool, w: nat, x: nat)
    requires Growing(t, |t.leaf|, |t.weight|) && x <= |t.weight|
    ensures var r := Adopt(t, leaf1, leaf2, w);
      Canonical.Count(r.par, x) + Canonical.Count(r.leaf, x) == 2
  {
    var e := |t.weight|;
    CountAbove(t.par, e);
    CountAbove(t.leaf, e);
    CountPush(t.par, e, x);
    CountPush(t.leaf, e, x);
    CountPush(if leaf1 then t.par else t.par + [e], e, x);
    CountPush(if leaf1 then t.leaf + [e] else t.leaf, e, x);
  }

  lemma AdoptGrows(t: Tree, leaves: nat, leaf1: bool, leaf2: bool, w: nat)
    requires Growing(t, leaves, |t.weight|)
    requires |Adopt(t, leaf1, leaf2, w).par| <= |t.weight|
    requires |Adopt(t, leaf1, leaf2, w).leaf| <= leaves
    ensures Growing(Adopt(t, leaf1, leaf2, w), leaves, |t.weight| + 1)
  {
    hide Canonical.Count;
    var e := |t.weight|;
    var r := Adopt(t, leaf1, leaf2, w);
    assert t.par <= r.par && forall k :: |t.par| <= k < |r.par| ==> r.par[k] == e;
    assert t.leaf <= r.leaf && forall k :: |t.leaf| <= k < |r.leaf| ==> r.leaf[k] == e;
    assert |r.par| <= |t.par| + 2 && |r.par| + |r.leaf| == 2 * (e + 1);
    hide Adopt, Canonical.Count;
    forall x | 0 <= x < e + 1
      ensures Canonical.Count(r.par, x) + Canonical.Count(r.leaf, x) == 2
    {
      AdoptCount(t, leaf1, leaf2, w, x);
    }
  }

  /** The queue heads after taking one node. */
  function Advance(ws: seq<nat>, weight: seq<nat>, i: nat, b: nat): (nat, nat)
    requires i <= |ws| && b <= |weight|
  {
    if TakesLeaf(ws, weight, i, b) then (i + 1, b) else (i, b + 1)
  }

  /** One step: the two lightest nodes at the heads of the two queues get a parent. */
  function Join(ws: seq<nat>, t: Tree): (r: Tree)
    requires |t.leaf| <= |ws| && |t.par| <= |t.weight| && |t.weight| + 1 < |ws|
    requires |t.par| + |t.leaf| == 2 * |t.weight|
    ensures |r.weight| == |t.weight| + 1
    ensures var (i', b') := Advance(ws, t.weight, |t.leaf|, |t.par|);
      (|r.leaf|, |r.par|) == Advance(ws, t.weight, i', b')
  {
    var i, b := |t.leaf|, |t.par|;
    var leaf1 := TakesLeaf(ws, t.weight, i, b);
    var w1 := if leaf1 then ws[i] else t.weight[b];
    var (i', b') := Advance(ws, t.weight, i, b);
    var leaf2 := TakesLeaf(ws, t.weight, i', b');
    var w2 := if leaf2 then ws[i'] else t.weight[b'];
    Adopt(t, leaf1, leaf2, w1 + w2)
  }

  lemma JoinGrows(ws: seq<nat>, t: Tree)
    requires Growing(t, |ws|, |t.weight|) && |t.weight| + 1 < |ws|
    ensures Growing(Join(ws, t), |ws|, |t.weight| + 1)
  {
    var i, b := |t.leaf|, |t.par|;
    var leaf1 := TakesLeaf(ws, t.weight, i, b);
    var (i', b') := Advance(ws, t.weight, i, b);
    var leaf2 := TakesLeaf(ws, t.weight, i', b');
    AdoptGrows(t, |ws|, leaf1, leaf2, Join(ws, t).weight[|t.weight|]);
  }

  /** All remaining steps. */
  function TwoQueue(ws: seq<nat>, t: Tree): (r: Tree)
    requires Growing(t, |ws|, |t.weight|) && |t.weight| < |ws|
    ensures Growing(r, |ws|, |ws| - 1) && |r.weight| == |ws| - 1
    decreases |ws| - |t.weight|
  {
    if |t.weight| + 1 == |ws| then t
    else
      JoinGrows(ws, t);
      TwoQueue(ws, Join(ws, t))
  }

  const Sprout: Tree := Tree([], [], [])

  function Weights(a: seq<nat>): (ws: seq<nat>)
    ensures |ws| == |a|
  {
    seq(|a|, k requires 0 <= k < |a| => a[k] / SYM_RANGE)
  }

  /** The whole tree over leaves of the given weights. */
  function HuffmanTree(ws: seq<nat>): (t: Tree)
    requires |ws| >= 2
    ensures IsTree(t, |ws|)
  {
    var t := TwoQueue(ws, Sprout);
    assert t.par != [] ==> |t.par| - 1 < t.par[|t.par| - 1] < |ws| - 1;
    t
  }

  /** Replaces what is above the symbol in an array element. */
  function Repack(v: nat, hi: nat): (r: nat)
    ensures r % SYM_RANGE == v % SYM_RANGE && r / SYM_RANGE == hi
  {
    v % SYM_RANGE + hi * SYM_RANGE
  }

  /** Makes `e` the parent of nodes `m` and `n`, and gives it their joint weight. */
  function Linked(a: seq<nat>, m: nat, n: nat, e: nat): (r: seq<nat>)
    requires m < |a| && n < |a| && e < |a|
    ensures |r| == |a|
  {
    var w := a[m] / SYM_RANGE + a[n] / SYM_RANGE;
    var a' := a[m := Repack(a[m], e)];
    var a'' := a'[n := Repack(a'[n], e)];
    a''[e := Repack(a''[e], w)]
  }

  /** The next two nodes in queue order. */
  ghost predicate Picked(ws: seq<nat>, t: Tree, m: nat, n: nat)
    requires |t.leaf| <= |ws| && |t.par| <= |t.weight| && |t.weight| + 1 < |ws|
    requires |t.par| + |t.leaf| == 2 * |t.weight|
  {
    var i, b := |t.leaf|, |t.par|;
    var leaf1 := TakesLeaf(ws, t.weight, i, b);
    var (i', b') := Advance(ws, t.weight, i, b);
    && m == (if leaf1 then i else b)
    && n == if TakesLeaf(ws, t.weight, i', b') then i' else b'
  }

  lemma LinkedAt(a: seq<nat>, m: nat, n: nat, e: nat)
    requires m < |a| && n < |a| && e < |a| && m != n
    ensures forall k :: 0 <= k < |a| ==> Linked(a, m, n, e)[k] % SYM_RANGE == a[k] % SYM_RANGE
    ensures forall k :: 0 <= k < |a| && k != m && k != n && k != e ==> Linked(a, m, n, e)[k] == a[k]
    ensures m != e ==> Linked(a, m, n, e)[m] / SYM_RANGE == e
    ensures n != e ==> Linked(a, m, n, e)[n] / SYM_RANGE == e
    ensures Linked(a, m, n, e)[e] / SYM_RANGE == a[m] / SYM_RANGE + a[n] / SYM_RANGE
  {
  }

  lemma PickedFacts(a: seq<nat>, orig: seq<nat>, t: Tree, m: nat, n: nat)
    requires Growing(t, |orig|, |t.weight|) && |t.weight| + 1 < |orig|
    requires Holds(a, orig, t) && Picked(Weights(orig), t, m, n)
    ensures m != n && m < |a| && n < |a|
    ensures var t' := Join(Weights(orig), t);
      && t'.weight == t.weight + [a[m] / SYM_RANGE + a[n] / SYM_RANGE]
      && t.par <= t'.par
      && (forall k :: |t.par| <= k < |t'.par| ==> t'.par[k] == |t.weight| && (k == m || k == n))
      && |t.leaf| <= |t'.leaf| && |t'.leaf| > |t.weight|
      && m < |t'.leaf| && n < |t'.leaf|
      && (m >= |t'.par| || m >= |t.par|) && (n >= |t'.par| || n >= |t.par|)
      && (m < |t.weight| ==> m < |t'.par|) && (n < |t.weight| ==> n < |t'.par|)
  {
    var ws, e := Weights(orig), |t.weight|;
    var i, b := |t.leaf|, |t.par|;
    var leaf1 := TakesLeaf(ws, t.weight, i, b);
    assert a[m] / SYM_RANGE == if leaf1 then ws[m] else t.weight[m];
    var (i', b') := Advance(ws, t.weight, i, b);
    var leaf2 := TakesLeaf(ws, t.weight, i', b');
    assert a[n] / SYM_RANGE == if leaf2 then ws[n] else t.weight[n];
  }

  lemma HoldsStep(a: seq<nat>, orig: seq<nat>, t: Tree, m: nat, n: nat)
    requires Growing(t, |orig|, |t.weight|) && |t.weight| + 1 < |orig|
    requires Holds(a, orig, t) && Picked(Weights(orig), t, m, n)
    ensures m < |a| && n < |a|
    ensures Holds(Linked(a, m, n, |t.weight|), orig, Join(Weights(orig), t))
  {
    PickedFacts(a, orig, t, m, n);
    LinkedAt(a, m, n, |t.weight|);
  }

  method Link(A: array<nat>, symCnt: nat, m: nat, n: nat, e: nat)
    requires m < symCnt && n < symCnt && e < symCnt <= A.Length
    modifies A
    ensures A[..symCnt] == Linked(old(A[..symCnt]), m, n, e)
    ensures A[symCnt..] == old(A[symCnt..])
  {
    ghost var a := A[..symCnt];
    var w := A[m] / SYM_RANGE + A[n] / SYM_RANGE;
    A[m] := Repack(A[m], e);
    assert A[..symCnt] == a[m := Repack(a[m], e)];
    ghost var a' := A[..symCnt];
    A[n] := Repack(A[n], e);
    assert A[..symCnt] == a'[n := Repack(a'[n], e)];
    ghost var a'' := A[..symCnt];
    A[e] := Repack(A[e], w);
    assert A[..symCnt] == a''[e := Repack(a''[e], w)];
  }

  /** Takes the lighter head of the two queues. */
  method Next(A: array<nat>, symCnt: nat, i: nat, b: nat, e: nat, ghost orig: seq<nat>, ghost t: Tree)
    returns (m: nat, i': nat, b': nat)
    requires symCnt <= A.Length && |orig| == symCnt && Holds(A[..symCnt], orig, t)
    requires |t.leaf| <= i <= symCnt && |t.par| <= b <= e == |t.weight| < symCnt
    requires i == symCnt ==> b < e
    ensures m == if TakesLeaf(Weights(orig), t.weight, i, b) then i else b
    ensures (i', b') == Advance(Weights(orig), t.weight, i, b)
  {
    assert i < symCnt ==> A[..symCnt][i] == orig[i];
    assert A[..symCnt][b] == A[b];
    if i != symCnt && (b == e || A[i] / SYM_RANGE <= A[b] / SYM_RANGE) {
      m, i', b' := i, i + 1, b;
    } else {
      m, i', b' := b, i, b + 1;
    }
  }

  /** The loop invariant of `BuildTree`. */
  ghost predicate Building(a: seq<nat>, orig: seq<nat>, t: Tree) {
    && Holds(a, orig, t)
    && Growing(t, |orig|, |t.weight|) && |t.weight| < |orig| && |orig| >= 2
    && TwoQueue(Weights(orig), t) == HuffmanTree(Weights(orig))
  }

  lemma BuildStep(a: seq<nat>, orig: seq<nat>, t: Tree, m: nat, n: nat)
    requires Building(a, orig, t) && |t.weight| + 1 < |orig| && Picked(Weights(orig), t, m, n)
    ensures m < |a| && n < |a|
    ensures Building(Linked(a, m, n, |t.weight|), orig, Join(Weights(orig), t))
  {
    HoldsStep(a, orig, t, m, n);
    JoinGrows(Weights(orig), t);
  }

  /** The queues cannot run dry. */
  lemma CanTake(orig: seq<nat>, t: Tree)
    requires Growing(t, |orig|, |t.weight|) && |t.weight| + 1 < |orig|
    ensures |t.leaf| == |orig| ==> |t.par| < |t.weight|
    ensures var (i, b) := Advance(Weights(orig), t.weight, |t.leaf|, |t.par|);
      && |t.leaf| <= i <= |orig| && |t.par| <= b <= |t.weight|
      && (i == |orig| ==> b < |t.weight|)
  {
  }

  method BuildTree(A: array<nat>, symCnt: nat) returns (ghost t: Tree)
    requires 2 <= symCnt <= A.Length
    modifies A
    ensures t == HuffmanTree(old(Weights(A[..symCnt])))
    ensures Holds(A[..symCnt], old(A[..symCnt]), t)
    ensures A[symCnt..] == old(A[symCnt..])
  {
    ghost var orig := A[..symCnt];
    t := Sprout;
    var i, b, e := 0, 0, 0;
    while symCnt - e > 1
      invariant 0 <= e < symCnt && i == |t.leaf| && b == |t.par| && e == |t.weight|
      invariant Building(A[..symCnt], orig, t)
      invariant A[symCnt..] == old(A[symCnt..])
    {
      CanTake(orig, t);
      var m, n;
      m, i, b := Next(A, symCnt, i, b, e, orig, t);
      n, i, b := Next(A, symCnt, i, b, e, orig, t);
      BuildStep(A[..symCnt], orig, t, m, n);
      Link(A, symCnt, m, n, e);
      t := Join(Weights(orig), t);
      e := e + 1;
    }
  }
}
