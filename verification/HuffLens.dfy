/** Leaf counts per code length with a length limit (`sdefl_gen_len_cnt`). */
module HuffLens {
  import opened Bits
  import opened HuffSort
  import opened HuffTree

  /** Depth of inner node `k`; the root is the last one. */
  function Depth(t: Tree, leaves: nat, k: nat): nat
    requires IsTree(t, leaves) && k <= |t.par|
    decreases |t.par| - k
  {
    if k == |t.par| then 0 else 1 + Depth(t, leaves, t.par[k])
  }

  /** How many of the inner nodes from `m` on have depth `j`. */
  function NodesAt(t: Tree, leaves: nat, m: nat, j: nat): nat
    requires IsTree(t, leaves) && m <= |t.par| + 1
    decreases |t.par| + 1 - m
  {
    if m == |t.par| + 1 then 0
    else NodesAt(t, leaves, m + 1, j) + (if Depth(t, leaves, m) == j then 1 else 0)
  }

  /** Deeper nodes have smaller indices. */
  lemma {:induction false} DepthMono(t: Tree, leaves: nat, j: nat, k: nat)
    requires IsTree(t, leaves) && j <= k <= |t.par|
    ensures Depth(t, leaves, k) <= Depth(t, leaves, j)
    decreases |t.par| - j
  {
    if j < k < |t.par| { DepthMono(t, leaves, t.par[j], t.par[k]); }
  }

  /** Parents advance at least every second node. */
  lemma {:induction false} ParentStride(t: Tree, leaves: nat, j: nat, q: nat)
    requires IsTree(t, leaves) && j + q < |t.par|
    ensures t.par[j + q] >= t.par[j] + q / 2
    decreases q
  {
    if q >= 2 { ParentStride(t, leaves, j, q - 2); }
  }

  /** Codespace used by the counted leaves, in units of depth `m`. */
  function Fill(L: seq<nat>, m: nat): nat
    requires m < |L|
  {
    if m == 0 then L[0] else 2 * Fill(L, m - 1) + L[m]
  }

  function Total(L: seq<nat>, m: nat): nat
    requires m < |L|
  {
    if m == 0 then L[0] else Total(L, m - 1) + L[m]
  }

  /** A leaf of depth `x` becomes two of depth `x + 1`. */
  function Split(L: seq<nat>, x: nat): (r: seq<nat>)
    requires x + 1 < |L| && L[x] > 0
    ensures |r| == |L|
  {
    L[x := L[x] - 1][x + 1 := L[x + 1] + 2]
  }

  lemma {:induction false} SplitKeeps(L: seq<nat>, x: nat, m: nat)
    requires x + 1 < |L| && L[x] > 0 && m < |L|
    ensures m > x ==> Fill(Split(L, x), m) == Fill(L, m) && Total(Split(L, x), m) == Total(L, m) + 1
    ensures m == x ==> Fill(Split(L, x), m) == Fill(L, m) - 1 && Total(Split(L, x), m) == Total(L, m) - 1
    ensures m < x ==> Fill(Split(L, x), m) == Fill(L, m) && Total(Split(L, x), m) == Total(L, m)
  {
    if m > 0 { SplitKeeps(L, x, m - 1); }
  }

  /** The leaves form a complete tree of height at most `max`. */
  ghost predicate Balanced(L: seq<nat>, max: nat, leaves: nat)
    requires max < |L|
  {
    L[0] == 0 && Fill(L, max) == Pow2(max) && Total(L, max) == leaves
  }

  /** As long as leaves are left over below the limit, one of them is shorter than the limit. */
  lemma {:induction false} ShortLeaf(L: seq<nat>, max: nat)
    requires max < |L| && forall l :: 0 <= l < max ==> L[l] == 0
    ensures Fill(L, max) == Total(L, max) == L[max]
  {
    if max > 0 { ShortLeaf(L, max - 1); }
  }

  /** `L` counts the leaves left over when the inner nodes from `m` on have been expanded. */
  ghost predicate Exact(L: seq<nat>, t: Tree, leaves: nat, max: nat, m: nat)
    requires IsTree(t, leaves) && max < |L| && m <= |t.par| + 1
  {
    forall j :: 1 <= j <= max ==>
      L[j] == 2 * NodesAt(t, leaves, m, j - 1) - NodesAt(t, leaves, m, j)
  }

  /** All nodes from `from` up to `to` have depth `d`. */
  ghost predicate Span(t: Tree, leaves: nat, from: nat, to: nat, d: int)
    requires IsTree(t, leaves) && to <= |t.par| + 1
  {
    forall k :: from <= k < to ==> Depth(t, leaves, k) == d
  }

  /** The depth-`d` nodes among those from `m` on are the `k0` first ones, and the
      depth-`d - 1` nodes the next `k1`. */
  ghost predicate Levels(t: Tree, leaves: nat, m: nat, k0: nat, k1: nat)
    requires IsTree(t, leaves) && m <= |t.par|
  {
    var d := Depth(t, leaves, m);
    && 1 <= k0 && m + k0 + k1 <= |t.par| + 1
    && k0 == NodesAt(t, leaves, m, d)
    && (d > 0 ==> k1 == NodesAt(t, leaves, m, d - 1))
    && Span(t, leaves, m, m + k0, d) && Span(t, leaves, m + k0, m + k0 + k1, d - 1)
    && (forall k :: m + k0 + k1 <= k <= |t.par| ==> Depth(t, leaves, k) < d - 1)
    && (forall j :: j > d ==> NodesAt(t, leaves, m, j) == 0)
  }

  lemma DepthParent(t: Tree, leaves: nat, n: nat)
    requires IsTree(t, leaves) && n < |t.par|
    ensures n < t.par[n] <= |t.par|
    ensures Depth(t, leaves, n) == 1 + Depth(t, leaves, t.par[n])
  {
  }

  /** The parent of the next node lies on the level above it. */
  lemma ParentLevel(t: Tree, leaves: nat, n: nat, k0: nat, k1: nat)
    requires IsTree(t, leaves) && n < |t.par| && Levels(t, leaves, n + 1, k0, k1)
    ensures var d, d' := Depth(t, leaves, n + 1), Depth(t, leaves, n);
      && (d' == d || d' == d + 1)
      && (d' == d ==> n + 1 + k0 <= t.par[n] < n + 1 + k0 + k1)
  {
    DepthParent(t, leaves, n);
    DepthMono(t, leaves, n, n + 1);
    DepthMono(t, leaves, n + 1, t.par[n]);
    hide IsTree, Depth, NodesAt;
  }

  /** A level has less than twice as many nodes as the one above it, until it is full. */
  lemma RoomOnLevel(t: Tree, leaves: nat, n: nat, k0: nat, k1: nat)
    requires IsTree(t, leaves) && n < |t.par| && Levels(t, leaves, n + 1, k0, k1)
    requires Depth(t, leaves, n) == Depth(t, leaves, n + 1)
    ensures Depth(t, leaves, n) > 0 && 2 * k1 > k0
  {
    DepthParent(t, leaves, n);
    ParentLevel(t, leaves, n, k0, k1);
    LastOfLevel(t, leaves, n, k0, k1);
    ParentStride(t, leaves, n, k0);
  }

  /** The next node keeps the level or opens a new one. */
  lemma LevelsStep(t: Tree, leaves: nat, n: nat, k0: nat, k1: nat) returns (k0': nat, k1': nat)
    requires IsTree(t, leaves) && n < |t.par| && Levels(t, leaves, n + 1, k0, k1)
    ensures Levels(t, leaves, n, k0', k1')
    ensures var d := Depth(t, leaves, n);
      d > 0 && 2 * NodesAt(t, leaves, n + 1, d - 1) - NodesAt(t, leaves, n + 1, d) > 0
  {
    var d, d' := Depth(t, leaves, n + 1), Depth(t, leaves, n);
    DepthParent(t, leaves, n);
    ParentLevel(t, leaves, n, k0, k1);
    forall j: nat ensures NodesAt(t, leaves, n, j) ==
      NodesAt(t, leaves, n + 1, j) + (if d' == j then 1 else 0)
    {
    }
    hide IsTree, Depth, NodesAt;
    if d' == d {
      k0', k1' := k0 + 1, k1;
      RoomOnLevel(t, leaves, n, k0, k1);
    } else {
      k0', k1' := 1, k0;
    }
  }

  lemma LastOfLevel(t: Tree, leaves: nat, n: nat, k0: nat, k1: nat)
    requires IsTree(t, leaves) && n < |t.par| && Levels(t, leaves, n + 1, k0, k1)
    requires Depth(t, leaves, n + 1) == Depth(t, leaves, n)
    ensures n + k0 < |t.par| && t.par[n + k0] < n + 1 + k0 + k1
  {
    var l := n + k0;
    DepthParent(t, leaves, n);
    assert Depth(t, leaves, l) == Depth(t, leaves, n + 1) > 0;
    assert l != |t.par|;
    DepthParent(t, leaves, l);
    hide IsTree, NodesAt, Depth;
  }

  lemma ExactStep(L: seq<nat>, t: Tree, leaves: nat, max: nat, n: nat)
    requires IsTree(t, leaves) && max < |L| && n < |t.par|
    requires Exact(L, t, leaves, max, n + 1)
    requires 0 < Depth(t, leaves, n) < max && L[Depth(t, leaves, n)] > 0
    ensures Exact(Split(L, Depth(t, leaves, n)), t, leaves, max, n)
  {
    var d := Depth(t, leaves, n);
    forall j: nat ensures NodesAt(t, leaves, n, j) ==
      NodesAt(t, leaves, n + 1, j) + (if d == j then 1 else 0)
    {
    }
    hide IsTree, Depth, NodesAt;
  }

  /** The largest length below `max` that still has a leaf. */
  function Deepest(L: seq<nat>, max: nat): (l: nat)
    requires 0 < max < |L| && exists l :: 0 <= l < max && L[l] > 0
    ensures l < max && L[l] > 0 && forall j :: l < j < max ==> L[j] == 0
  {
    if L[max - 1] > 0 then max - 1
    else
      assert max > 1;
      Deepest(L, max - 1)
  }

  /** Where the next leaf is split: at its own depth, or, at the limit, as deep as possible. */
  lemma CanSplit(L: seq<nat>, max: nat, leaves: nat)
    requires 0 < max < |L| && Balanced(L, max, leaves) && leaves < Pow2(max)
    ensures exists l :: 0 <= l < max && L[l] > 0
    ensures Deepest(L, max) > 0
  {
    if forall l :: 0 <= l < max ==> L[l] == 0 { ShortLeaf(L, max); }
  }

  lemma {:induction false} StartBalanced(L: seq<nat>, m: nat)
    requires 1 <= m < |L| && L[1] == 2 && forall l :: 0 <= l <= m && l != 1 ==> L[l] == 0
    ensures Fill(L, m) == Pow2(m) && Total(L, m) == 2
  {
    if m > 1 { StartBalanced(L, m - 1); }
  }

  /** A root with two leaves. */
  method StartCounts(lenCnt: array<nat>, max: nat)
    requires 1 <= max < lenCnt.Length
    modifies lenCnt
    ensures Balanced(lenCnt[..], max, 2)
    ensures forall l :: 1 <= l <= max ==> lenCnt[l] == if l == 1 then 2 else 0
  {
    var i := 0;
    while i <= max
      invariant 0 <= i <= max + 1
      invariant forall l :: 0 <= l < i ==> lenCnt[l] == 0
    {
      lenCnt[i] := 0;
      i := i + 1;
    }
    lenCnt[1] := 2;
    StartBalanced(lenCnt[..], max);
  }

  /** The search for a shorter length; it always stops. */
  method FindShorter(lenCnt: array<nat>, max: nat) returns (len: nat)
    requires 0 < max < lenCnt.Length
    requires exists l :: 0 <= l < max && lenCnt[..][l] > 0
    ensures len == Deepest(lenCnt[..], max)
  {
    ghost var L := lenCnt[..];
    len := max - 1;
    while lenCnt[len] == 0
      invariant Deepest(L, max) <= len < max
      invariant forall j :: len < j < max ==> L[j] == 0
      decreases len
    {
      len := len - 1;
    }
  }

  /** Everything known about the leaf counts when the inner nodes from `n` on are done. */
  ghost predicate CountsAt(L: seq<nat>, t: Tree, leaves: nat, max: nat, n: nat, k0: nat, k1: nat)
    requires IsTree(t, leaves) && max < |L| && n <= |t.par|
  {
    && Balanced(L, max, leaves - n)
    && (Depth(t, leaves, n) < max ==> Exact(L, t, leaves, max, n) && Levels(t, leaves, n, k0, k1))
  }

  /** The leaf that gives way to inner node `n`. */
  function SplitAt(L: seq<nat>, depth: nat, max: nat): nat
    requires 0 < max < |L| && exists l :: 0 <= l < max && L[l] > 0
  {
    if depth >= max then Deepest(L, max) else depth
  }

  lemma CountsStep(L: seq<nat>, t: Tree, leaves: nat, max: nat, n: nat, k0: nat, k1: nat)
    returns (k0': nat, k1': nat)
    requires IsTree(t, leaves) && 0 < max < |L| && n < |t.par| && leaves <= Pow2(max)
    requires CountsAt(L, t, leaves, max, n + 1, k0, k1)
    ensures exists l :: 0 <= l < max && L[l] > 0
    ensures var len := SplitAt(L, Depth(t, leaves, n), max);
      0 < len < max && L[len] > 0 && CountsAt(Split(L, len), t, leaves, max, n, k0', k1')
  {
    DepthMono(t, leaves, n, n + 1);
    CanSplit(L, max, leaves - n - 1);
    hide IsTree, NodesAt, Depth, Fill, Total, Levels, Exact;
    var d := Depth(t, leaves, n);
    if d < max {
      k0', k1' := LevelsStep(t, leaves, n, k0, k1);
      ExactStep(L, t, leaves, max, n);
    } else {
      k0', k1' := k0, k1;
    }
    SplitKeeps(L, SplitAt(L, d, max), max);
  }

  lemma CountsInit(L: seq<nat>, t: Tree, leaves: nat, max: nat)
    requires IsTree(t, leaves) && 0 < max < |L| && Balanced(L, max, 2)
    requires forall l :: 1 <= l <= max ==> L[l] == if l == 1 then 2 else 0
    ensures CountsAt(L, t, leaves, max, |t.par|, 1, 0)
  {
    var r := |t.par|;
    assert Depth(t, leaves, r) == 0;
    forall j: nat ensures NodesAt(t, leaves, r, j) == if j == 0 then 1 else 0 {
      assert NodesAt(t, leaves, r + 1, j) == 0;
    }
    hide IsTree, Depth, NodesAt, Balanced;
  }

  method SplitLeaf(lenCnt: array<nat>, depth: nat, max: nat)
    requires 0 < max < lenCnt.Length
    requires exists l :: 0 <= l < max && lenCnt[..][l] > 0
    requires lenCnt[..][SplitAt(lenCnt[..], depth, max)] > 0
    modifies lenCnt
    ensures lenCnt[..] == old(Split(lenCnt[..], SplitAt(lenCnt[..], depth, max)))
  {
    var len := depth;
    if len >= max {
      len := FindShorter(lenCnt, max);
    }
    lenCnt[len] := lenCnt[len] - 1;
    lenCnt[len + 1] := lenCnt[len + 1] + 2;
  }

  /** The inner nodes from `n` on hold their depths, the others still their parents. */
  ghost predicate DepthsAt(a: seq<nat>, orig: seq<nat>, t: Tree, leaves: nat, n: nat)
    requires IsTree(t, leaves) && n <= |t.par| < |orig|
  {
    && |a| == |orig|
    && (forall k :: 0 <= k < |a| ==> a[k] % SYM_RANGE == orig[k] % SYM_RANGE)
    && (forall k :: 0 <= k < n ==> a[k] / SYM_RANGE == t.par[k])
    && (forall k :: n <= k <= |t.par| ==> a[k] / SYM_RANGE == Depth(t, leaves, k))
  }

  lemma DepthsInit(orig: seq<nat>, t: Tree, leaves: nat)
    requires IsTree(t, leaves) && |t.par| < |orig|
    requires forall k :: 0 <= k < |t.par| ==> orig[k] / SYM_RANGE == t.par[k]
    ensures DepthsAt(orig[|t.par| := Repack(orig[|t.par|], 0)], orig, t, leaves, |t.par|)
  {
  }

  lemma DepthsStep(a: seq<nat>, orig: seq<nat>, t: Tree, leaves: nat, n: nat)
    requires IsTree(t, leaves) && n < |t.par| < |orig|
    requires DepthsAt(a, orig, t, leaves, n + 1)
    ensures a[n] / SYM_RANGE <= |t.par|
    ensures var depth := a[a[n] / SYM_RANGE] / SYM_RANGE + 1;
      depth == Depth(t, leaves, n) && DepthsAt(a[n := Repack(a[n], depth)], orig, t, leaves, n)
  {
  }

  lemma GenLenDone(a: seq<nat>, L: seq<nat>, orig: seq<nat>, t: Tree, leaves: nat, max: nat,
                   k0: nat, k1: nat)
    requires IsTree(t, leaves) && |t.par| < |orig| && max < |L|
    requires DepthsAt(a, orig, t, leaves, 0) && CountsAt(L, t, leaves, max, 0, k0, k1)
    ensures |a| == |orig| && forall k :: 0 <= k < |a| ==> a[k] % SYM_RANGE == orig[k] % SYM_RANGE
    ensures Balanced(L, max, leaves)
    ensures Depth(t, leaves, 0) < max ==> Exact(L, t, leaves, max, 0)
  {
  }

  /** sdefl_gen_len_cnt. */
  method GenLenCnt(A: array<nat>, root: nat, lenCnt: array<nat>, max: nat, ghost t: Tree)
    requires root + 2 <= A.Length && IsTree(t, root + 2) && A != lenCnt
    requires forall k :: 0 <= k < root ==> A[k] / SYM_RANGE == t.par[k]
    requires 1 <= max < lenCnt.Length && root + 2 <= Pow2(max)
    modifies A, lenCnt
    ensures forall k :: 0 <= k < A.Length ==> A[k] % SYM_RANGE == old(A[k] % SYM_RANGE)
    ensures Balanced(lenCnt[..], max, root + 2)
    ensures Depth(t, root + 2, 0) < max ==> Exact(lenCnt[..], t, root + 2, max, 0)
  {
    ghost var leaves, orig := root + 2, A[..];
    StartCounts(lenCnt, max);
    CountsInit(lenCnt[..], t, leaves, max);
    A[root] := Repack(A[root], 0);
    DepthsInit(orig, t, leaves);
    assert A[..] == orig[root := Repack(orig[root], 0)];
    var n := root;
    ghost var k0, k1 := 1, 0;
    hide IsTree, Depth, DepthsAt, CountsAt, Balanced, Exact;
    while n > 0
      invariant 0 <= n <= root
      invariant DepthsAt(A[..], orig, t, leaves, n)
      invariant CountsAt(lenCnt[..], t, leaves, max, n, k0, k1)
    {
      n := n - 1;
      ghost var a := A[..];
      DepthsStep(a, orig, t, leaves, n);
      var p := A[n] / SYM_RANGE;
      var pdepth := A[p] / SYM_RANGE;
      var depth := pdepth + 1;
      A[n] := Repack(A[n], depth);
      assert A[..] == a[n := Repack(a[n], depth)];
      k0, k1 := CountsStep(lenCnt[..], t, leaves, max, n, k0, k1);
      SplitLeaf(lenCnt, depth, max);
    }
    GenLenDone(A[..], lenCnt[..], orig, t, leaves, max, k0, k1);
    assert forall k :: 0 <= k < A.Length ==> A[k] == A[..][k] && orig[k] == old(A[k]);
  }
}
