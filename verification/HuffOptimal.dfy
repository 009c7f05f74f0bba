/** Why the two-queue tree is the best prefix code: no other one spends fewer bits. */
module HuffOptimal {
  import opened Bits
  import opened HuffTree
  import opened HuffLens
  import opened Canonical
  import opened HeapSort

  // -------------------------------------------------------------------- sums

  function Sum(s: seq<nat>): nat {
    if s == [] then 0 else Sum(s[..|s| - 1]) + s[|s| - 1]
  }

  function Cut<T>(s: seq<T>, k: nat): (r: seq<T>)
    requires k < |s|
    ensures |r| == |s| - 1
  {
    s[..k] + s[k + 1..]
  }

  lemma {:induction false} SumUpdate(s: seq<nat>, k: nat, v: nat)
    requires k < |s|
    ensures Sum(s[k := v]) + s[k] == Sum(s) + v
  {
    var n := |s| - 1;
    if k == n {
      assert s[k := v][..n] == s[..n];
    } else {
      assert s[k := v][..n] == s[..n][k := v];
      SumUpdate(s[..n], k, v);
    }
  }

  lemma {:induction false} SumCut(s: seq<nat>, k: nat)
    requires k < |s|
    ensures Sum(Cut(s, k)) + s[k] == Sum(s)
  {
    var n := |s| - 1;
    if k == n {
      assert Cut(s, k) == s[..n];
    } else {
      assert Cut(s, k)[..n - 1] == Cut(s[..n], k) && Cut(s, k)[n - 1] == s[n];
      SumCut(s[..n], k);
    }
  }

  lemma {:induction false} SumDouble(s: seq<nat>, t: seq<nat>)
    requires |s| == |t| && forall i :: 0 <= i < |s| ==> s[i] == 2 * t[i]
    ensures Sum(s) == 2 * Sum(t)
  {
    if s != [] { SumDouble(s[..|s| - 1], t[..|t| - 1]); }
  }

  lemma SumPush(s: seq<nat>, v: nat)
    ensures Sum(s + [v]) == Sum(s) + v
  {
    assert (s + [v])[..|s|] == s;
  }

  lemma SumTwo(s: seq<nat>, p: nat, q: nat)
    requires p < |s| && q < |s| && p != q
    ensures s[p] + s[q] <= Sum(s)
  {
    SumCut(s, p);
    var q' := if q < p then q else q - 1;
    assert Cut(s, p)[q'] == s[q];
    SumCut(Cut(s, p), q');
  }

  /** Weight times length, word by word. */
  function Products(w: seq<nat>, c: seq<nat>): (r: seq<nat>)
    requires |w| == |c|
    ensures |r| == |w|
  {
    seq(|w|, i requires 0 <= i < |w| => w[i] * c[i])
  }

  /** The bits that a message of these symbol counts takes. */
  function Cost(w: seq<nat>, c: seq<nat>): nat
    requires |w| == |c|
  {
    Sum(Products(w, c))
  }

  // ------------------------------------------------------------ code lengths

  /** The share of the `Pow2(m)` words of `m` bits that each codeword takes. */
  function Spaces(c: seq<nat>, m: nat): (r: seq<nat>)
    requires Bounded(c, m)
    ensures |r| == |c|
  {
    seq(|c|, i requires 0 <= i < |c| => Pow2(m - c[i]))
  }

  /** Lengths of a code: they do not take more than there is. */
  ghost predicate Kraft(c: seq<nat>, m: nat) { Bounded(c, m) && Sum(Spaces(c, m)) <= Pow2(m) }

  lemma HalfSpaces(c: seq<nat>, m: nat)
    requires m > 0 && Bounded(c, m - 1)
    ensures Bounded(c, m) && Sum(Spaces(c, m)) == 2 * Sum(Spaces(c, m - 1))
  {
    SumDouble(Spaces(c, m), Spaces(c, m - 1));
  }

  lemma SetLen(w: seq<nat>, c: seq<nat>, m: nat, k: nat, l: nat)
    requires |w| == |c| && k < |c| && Bounded(c, m) && l <= m
    ensures Bounded(c[k := l], m)
    ensures Sum(Spaces(c[k := l], m)) + Pow2(m - c[k]) == Sum(Spaces(c, m)) + Pow2(m - l)
    ensures Cost(w, c[k := l]) + w[k] * c[k] == Cost(w, c) + w[k] * l
  {
    assert Spaces(c[k := l], m) == Spaces(c, m)[k := Pow2(m - l)];
    SumUpdate(Spaces(c, m), k, Pow2(m - l));
    assert Products(w, c[k := l]) == Products(w, c)[k := w[k] * l];
    SumUpdate(Products(w, c), k, w[k] * l);
  }

  /** At least two words of the greatest length. */
  ghost predicate TwoLongest(c: seq<nat>, m: nat, p: nat, q: nat) {
    p < |c| && q < |c| && p != q && c[p] == c[q] == m
  }

  lemma ScaleMono(a: nat, x: nat, y: nat)
    requires x <= y
    ensures a * x <= a * y
  {
  }

  lemma NotZero(c: seq<nat>, m: nat)
    requires |c| >= 2 && Kraft(c, m)
    ensures m > 0
  {
    SumTwo(Spaces(c, m), 0, 1);
    assert Pow2(0) == 1;
  }

  /** Any code can be shortened until two words share the greatest length. */
  lemma {:induction false} Tighten(w: seq<nat>, c: seq<nat>, m: nat)
    returns (c': seq<nat>, m': nat, p: nat, q: nat)
    requires |w| == |c| >= 2 && Kraft(c, m)
    ensures |c'| == |w| && Kraft(c', m') && Cost(w, c') <= Cost(w, c) && m' > 0 && TwoLongest(c', m', p, q)
    decreases m
  {
    NotZero(c, m);
    if p0, q0 :| 0 <= p0 < |c| && 0 <= q0 < |c| && p0 != q0 && c[p0] == c[q0] == m {
      c', m', p, q := c, m, p0, q0;
    } else {
      var c1 := c;
      if k :| 0 <= k < |c| && c[k] == m {
        SetLen(w, c, m, k, m - 1);
        ScaleMono(w[k], m - 1, m);
        c1 := c[k := m - 1];
        assert Pow2(1) == 2;
      }
      HalfSpaces(c1, m);
      c', m', p, q := Tighten(w, c1, m - 1);
    }
  }

  /** The lighter of two words takes the greatest length. */
  function Swapped(c: seq<nat>, p: nat, i: nat): (r: seq<nat>)
    requires p < |c| && i < |c|
    ensures |r| == |c|
  {
    c[p := c[i]][i := c[p]]
  }

  lemma Exchange(w1: nat, w2: nat, l: nat, m: nat)
    requires w1 <= w2 && l <= m
    ensures w2 * l + w1 * m <= w2 * m + w1 * l
  {
    ScaleMono(w2 - w1, l, m);
    assert (w2 - w1) * l == w2 * l - w1 * l && (w2 - w1) * m == w2 * m - w1 * m;
  }

  lemma SwapLens(w: seq<nat>, c: seq<nat>, m: nat, p: nat, i: nat)
    requires |w| == |c| && p < |c| && i < |c| && Kraft(c, m) && c[p] == m && w[i] <= w[p]
    ensures Kraft(Swapped(c, p, i), m) && Cost(w, Swapped(c, p, i)) <= Cost(w, c)
  {
    if i == p {
      assert Swapped(c, p, i) == c;
    } else {
      SetLen(w, c, m, p, c[i]);
      SetLen(w, c[p := c[i]], m, i, m);
      Exchange(w[i], w[p], c[i], m);
    }
  }

  lemma SumUpdateCut(s: seq<nat>, i: nat, v: nat, j: nat)
    requires i < |s| && j < |s| && i != j
    ensures Sum(Cut(s[i := v], j)) + s[i] + s[j] == Sum(s) + v
  {
    SumUpdate(s, i, v);
    SumCut(s[i := v], j);
  }

  lemma CutLen(c: seq<nat>, m: nat, j: nat)
    requires Bounded(c, m) && j < |c|
    ensures Bounded(Cut(c, j), m) && Sum(Spaces(Cut(c, j), m)) + Pow2(m - c[j]) == Sum(Spaces(c, m))
  {
    assert Spaces(Cut(c, j), m) == Cut(Spaces(c, m), j);
    SumCut(Spaces(c, m), j);
  }

  lemma MergedSpaces(c: seq<nat>, m: nat, i: nat, j: nat)
    requires Bounded(c, m) && m > 0 && TwoLongest(c, m, i, j)
    ensures var c' := Cut(c[i := m - 1], j); Bounded(c', m) && Sum(Spaces(c', m)) == Sum(Spaces(c, m))
  {
    assert Pow2(0) == 1 && Pow2(1) == 2;
    hide Sum, Spaces, Cut, Bounded;
    SetLen(c, c, m, i, m - 1);
    CutLen(c[i := m - 1], m, j);
  }

  lemma MergedProducts(w: seq<nat>, c: seq<nat>, x: nat, l: nat, i: nat, j: nat)
    requires |w| == |c| && i < |w| && j < |w| && i != j
    ensures Cost(Cut(w[i := x], j), Cut(c[i := l], j)) + w[i] * c[i] + w[j] * c[j] == Cost(w, c) + x * l
  {
    assert Products(Cut(w[i := x], j), Cut(c[i := l], j)) == Cut(Products(w, c)[i := x * l], j);
    SumUpdateCut(Products(w, c), i, x * l, j);
  }

  lemma Shorter(x: nat, y: nat, m: nat)
    requires m > 0
    ensures (x + y) * (m - 1) + x + y == x * m + y * m
  {
  }

  /** Words `i` and `j` become one, a bit shorter. */
  lemma MergeWords(w: seq<nat>, c: seq<nat>, m: nat, i: nat, j: nat)
    requires |w| == |c| && Kraft(c, m) && m > 0 && TwoLongest(c, m, i, j)
    ensures var w', c' := Cut(w[i := w[i] + w[j]], j), Cut(c[i := m - 1], j);
            Kraft(c', m) && Cost(w', c') + w[i] + w[j] == Cost(w, c)
  {
    MergedSpaces(c, m, i, j);
    MergedProducts(w, c, w[i] + w[j], m - 1, i, j);
    Shorter(w[i], w[j], m);
    hide Cost, Sum, Spaces, Cut, Pow2;
  }

  // ----------------------------------------------------------- lower bounds

  /** No code for words of these weights costs less than `b`. */
  ghost predicate AtLeast(W: multiset<nat>, b: nat) {
    forall w: seq<nat>, c: seq<nat>, m: nat ::
      multiset(w) == W && |w| == |c| && Kraft(c, m) ==> b <= Cost(w, c)
  }

  lemma FindIn(w: seq<nat>, x: nat) returns (i: nat)
    requires x in multiset(w)
    ensures i < |w| && w[i] == x && multiset(Cut(w, i)) == multiset(w) - multiset{x}
  {
    i :| 0 <= i < |w| && w[i] == x;
    assert w == w[..i] + [x] + w[i + 1..];
  }

  lemma FindTwo(w: seq<nat>, x: nat, y: nat, R: multiset<nat>) returns (i: nat, j: nat)
    requires multiset(w) == R + multiset{x} + multiset{y} && forall r :: r in R ==> y <= r
    ensures i < |w| && j < |w| && i != j && w[i] == x && w[j] == y
    ensures forall k :: 0 <= k < |w| && k != i ==> y <= w[k]
  {
    i := FindIn(w, x);
    RestAtLeast(w, i, y, R);
    j := FindBeside(w, i, y);
  }

  lemma FindBeside(w: seq<nat>, i: nat, y: nat) returns (j: nat)
    requires i < |w| && y in multiset(Cut(w, i))
    ensures j < |w| && j != i && w[j] == y
  {
    var j' := FindIn(Cut(w, i), y);
    j := if j' < i then j' else j' + 1;
  }

  lemma RestAtLeast(w: seq<nat>, i: nat, y: nat, R: multiset<nat>)
    requires i < |w| && multiset(Cut(w, i)) == R + multiset{y} && forall r :: r in R ==> y <= r
    ensures forall k :: 0 <= k < |w| && k != i ==> y <= w[k]
  {
    var rest := Cut(w, i);
    forall k | 0 <= k < |w| && k != i ensures y <= w[k] {
      assert rest[if k < i then k else k - 1] == w[k];
      assert w[k] in multiset(rest);
    }
  }

  lemma CutOne(w: seq<nat>, j: nat)
    requires j < |w|
    ensures multiset(Cut(w, j)) + multiset{w[j]} == multiset(w)
  {
    assert w == w[..j] + [w[j]] + w[j + 1..];
  }

  lemma Cancel(M: multiset<nat>, V: multiset<nat>, W: multiset<nat>, R: multiset<nat>, x: nat, y: nat, z: nat)
    requires M + multiset{y} == V && V + multiset{x} == W + multiset{z} && W == R + multiset{x} + multiset{y}
    ensures M == R + multiset{z}
  {
    forall e: nat ensures M[e] == (R + multiset{z})[e] {
      assert (M + multiset{y})[e] == V[e] && (V + multiset{x})[e] == (W + multiset{z})[e];
    }
  }

  lemma CutMultiset(w: seq<nat>, i: nat, j: nat, R: multiset<nat>)
    requires i < |w| && j < |w| && i != j && multiset(w) == R + multiset{w[i]} + multiset{w[j]}
    ensures multiset(Cut(w[i := w[i] + w[j]], j)) == R + multiset{w[i] + w[j]}
  {
    var v := w[i := w[i] + w[j]];
    CutOne(v, j);
    CutOne(v, i);
    CutOne(w, i);
    assert Cut(v, i) == Cut(w, i);
    hide Cut;
    Cancel(multiset(Cut(v, j)), multiset(v), multiset(w), R, w[i], w[j], v[i]);
  }

  /** The two lightest words may be made the longest, and then be merged. */
  lemma MergeLightest(w: seq<nat>, c: seq<nat>, m: nat, x: nat, y: nat, R: multiset<nat>)
    returns (w': seq<nat>, c': seq<nat>, m': nat)
    requires |w| == |c| && Kraft(c, m) && x <= y
    requires multiset(w) == R + multiset{x} + multiset{y} && forall r :: r in R ==> y <= r
    ensures |w'| == |c'| && multiset(w') == R + multiset{x + y} && Kraft(c', m')
    ensures Cost(w', c') + x + y <= Cost(w, c)
  {
    hide Kraft, Cost, Bounded, Cut;
    var i, j := FindTwo(w, x, y, R);
    var c1, p, q;
    c1, m', p, q := Tighten(w, c, m);
    SwapLens(w, c1, m', p, i);
    var c2 := Swapped(c1, p, i);
    var r := if q == i then p else q;
    assert r != i && c2[r] == m' && c2[i] == m';
    SwapLens(w, c2, m', r, j);
    var c3 := Swapped(c2, r, j);
    MergeWords(w, c3, m', i, j);
    CutMultiset(w, i, j, R);
    w', c' := Cut(w[i := w[i] + w[j]], j), Cut(c3[i := m' - 1], j);
  }

  lemma MergeBound(R: multiset<nat>, x: nat, y: nat, b: nat)
    requires x <= y && (forall r :: r in R ==> y <= r) && AtLeast(R + multiset{x + y}, b)
    ensures AtLeast(R + multiset{x} + multiset{y}, b + x + y)
  {
    hide Kraft, Cost;
    forall w: seq<nat>, c: seq<nat>, m: nat |
      multiset(w) == R + multiset{x} + multiset{y} && |w| == |c| && Kraft(c, m)
      ensures b + x + y <= Cost(w, c)
    {
      var w', c', m' := MergeLightest(w, c, m, x, y, R);
    }
  }

  // ------------------------------------------------- the two queues hold W

  /** The weights still to be joined: leaves from `i` on and inner nodes from `b` on. */
  ghost function Rest(ws: seq<nat>, weight: seq<nat>, i: nat, b: nat): multiset<nat>
    requires i <= |ws| && b <= |weight|
  {
    multiset(ws[i..]) + multiset(weight[b..])
  }

  function Head(ws: seq<nat>, weight: seq<nat>, i: nat, b: nat): nat
    requires i <= |ws| && b <= |weight| && (i < |ws| || b < |weight|)
  {
    if TakesLeaf(ws, weight, i, b) then ws[i] else weight[b]
  }

  lemma HeadOf(s: seq<nat>, i: nat)
    requires i < |s| && SortedSeq(s)
    ensures multiset(s[i..]) == multiset(s[i + 1..]) + multiset{s[i]}
    ensures forall r :: r in multiset(s[i..]) ==> s[i] <= r
  {
    assert s[i..] == [s[i]] + s[i + 1..];
  }

  lemma TakeOne(ws: seq<nat>, weight: seq<nat>, i: nat, b: nat)
    requires i <= |ws| && b <= |weight| && (i < |ws| || b < |weight|)
    requires SortedSeq(ws) && SortedSeq(weight)
    ensures var (i', b') := Advance(ws, weight, i, b);
            Rest(ws, weight, i, b) == Rest(ws, weight, i', b') + multiset{Head(ws, weight, i, b)}
    ensures forall r :: r in Rest(ws, weight, i, b) ==> Head(ws, weight, i, b) <= r
  {
    if i < |ws| { HeadOf(ws, i); } else { assert ws[i..] == []; }
    if b < |weight| { HeadOf(weight, b); } else { assert weight[b..] == []; }
    hide SortedSeq;
  }

  function Last(s: seq<nat>): nat { if s == [] then 0 else s[|s| - 1] }

  /** Both queues are sorted, and two remaining nodes weigh at least what the last two did. */
  ghost predicate Ready(ws: seq<nat>, t: Tree) {
    && |t.leaf| <= |ws| && |t.par| <= |t.weight| && SortedSeq(ws) && SortedSeq(t.weight)
    && forall r :: r in Rest(ws, t.weight, |t.leaf|, |t.par|) ==> Last(t.weight) <= 2 * r
  }

  lemma TreeSizes(t: Tree, leaves: nat)
    requires Growing(t, leaves, |t.weight|)
    ensures |t.par| <= |t.weight| && |t.leaf| <= leaves && |t.par| + |t.leaf| == 2 * |t.weight|
  {
  }

  /** One step joins the weights `x` and `y` and leaves `R`. */
  ghost predicate Joins(ws: seq<nat>, t: Tree, x: nat, y: nat, R: multiset<nat>) {
    && |t.leaf| <= |ws| && |t.par| <= |t.weight| && |t.par| + |t.leaf| == 2 * |t.weight| && |t.weight| + 1 < |ws|
    && Rest(ws, t.weight, |t.leaf|, |t.par|) == R + multiset{x} + multiset{y}
    && x <= y && (forall r :: r in R ==> y <= r)
    && var t' := Join(ws, t);
    t'.weight == t.weight + [x + y] && |t'.leaf| <= |ws| && |t'.par| <= |t.weight|
    && R == Rest(ws, t.weight, |t'.leaf|, |t'.par|)
  }

  lemma TwoSmallest(W: multiset<nat>, W1: multiset<nat>, R: multiset<nat>, x: nat, y: nat)
    requires W == W1 + multiset{x} && W1 == R + multiset{y}
    requires (forall r :: r in W ==> x <= r) && forall r :: r in W1 ==> y <= r
    ensures W == R + multiset{x} + multiset{y} && x <= y && forall r :: r in R ==> y <= r
  {
    assert (R + multiset{y})[y] > 0 && (W1 + multiset{x})[y] > 0;
    forall r | r in R ensures y <= r { assert (R + multiset{y})[r] > 0; }
  }

  lemma JoinIs(ws: seq<nat>, t: Tree)
    requires |t.leaf| <= |ws| && |t.par| <= |t.weight| && |t.par| + |t.leaf| == 2 * |t.weight|
    requires |t.weight| + 1 < |ws|
    ensures var (i, b) := Advance(ws, t.weight, |t.leaf|, |t.par|);
            var (i', b') := Advance(ws, t.weight, i, b);
            && i <= i' <= |ws| && b <= b' <= |t.weight| && (i < |ws| || b < |t.weight|)
            && |t.leaf| <= i && |t.par| <= b && (|t.leaf| < |ws| || |t.par| < |t.weight|)
            && Join(ws, t).weight == t.weight + [Head(ws, t.weight, |t.leaf|, |t.par|) + Head(ws, t.weight, i, b)]
            && |Join(ws, t).leaf| == i' && |Join(ws, t).par| == b'
  {
  }

  lemma JoinTakes(ws: seq<nat>, t: Tree) returns (x: nat, y: nat, R: multiset<nat>)
    requires Ready(ws, t) && Growing(t, |ws|, |t.weight|) && |t.weight| + 1 < |ws|
    ensures Joins(ws, t, x, y, R)
  {
    TreeSizes(t, |ws|);
    JoinIs(ws, t);
    hide Growing, Join, Advance, Head, Rest, SortedSeq;
    var i, b := |t.leaf|, |t.par|;
    var (i', b') := Advance(ws, t.weight, i, b);
    var (i2, b2) := Advance(ws, t.weight, i', b');
    TakeOne(ws, t.weight, i, b);
    TakeOne(ws, t.weight, i', b');
    x, y, R := Head(ws, t.weight, i, b), Head(ws, t.weight, i', b'), Rest(ws, t.weight, i2, b2);
    TwoSmallest(Rest(ws, t.weight, i, b), Rest(ws, t.weight, i', b'), R, x, y);
  }

  lemma RestPush(ws: seq<nat>, weight: seq<nat>, i: nat, b: nat, v: nat)
    requires i <= |ws| && b <= |weight|
    ensures Rest(ws, weight + [v], i, b) == Rest(ws, weight, i, b) + multiset{v}
  {
    assert (weight + [v])[b..] == weight[b..] + [v];
  }

  lemma JoinReady(ws: seq<nat>, t: Tree, x: nat, y: nat, R: multiset<nat>)
    requires Ready(ws, t) && Joins(ws, t, x, y, R)
    ensures var t' := Join(ws, t);
            Ready(ws, t') && Rest(ws, t'.weight, |t'.leaf|, |t'.par|) == R + multiset{x + y}
  {
    hide Growing, Rest, Join;
    var t' := Join(ws, t);
    assert x in R + multiset{x} + multiset{y} && y in R + multiset{x} + multiset{y};
    RestPush(ws, t.weight, |t'.leaf|, |t'.par|, x + y);
    assert forall k :: 0 <= k < |t.weight| ==> t.weight[k] <= Last(t.weight);
  }

  /** The weights of the inner nodes still to come are a lower bound. */
  ghost predicate Bounding(ws: seq<nat>, t: Tree, r: Tree) {
    && |t.leaf| <= |ws| && |t.par| <= |t.weight| && Sum(t.weight) <= Sum(r.weight)
    && AtLeast(Rest(ws, t.weight, |t.leaf|, |t.par|), Sum(r.weight) - Sum(t.weight))
  }

  lemma BoundStep(ws: seq<nat>, t: Tree, r: Tree, x: nat, y: nat, R: multiset<nat>)
    requires Ready(ws, t) && Joins(ws, t, x, y, R) && Bounding(ws, Join(ws, t), r)
    ensures Bounding(ws, t, r)
  {
    hide Rest, Ready, AtLeast, Join, Sum;
    JoinReady(ws, t, x, y, R);
    SumPush(t.weight, x + y);
    MergeBound(R, x, y, Sum(r.weight) - Sum(Join(ws, t).weight));
  }

  lemma {:induction false} TreeBound(ws: seq<nat>, t: Tree)
    requires Ready(ws, t) && Growing(t, |ws|, |t.weight|) && |t.weight| < |ws|
    ensures Bounding(ws, t, TwoQueue(ws, t))
    decreases |ws| - |t.weight|
  {
    hide Rest, Growing, AtLeast, Join, Sum, Joins, Bounding;
    TreeSizes(t, |ws|);
    if |t.weight| + 1 == |ws| {
      NoBound(ws, t);
    } else {
      var x, y, R := JoinTakes(ws, t);
      JoinReady(ws, t, x, y, R);
      JoinGrows(ws, t);
      TreeBound(ws, Join(ws, t));
      BoundStep(ws, t, TwoQueue(ws, t), x, y, R);
    }
  }

  lemma NoBound(ws: seq<nat>, t: Tree)
    requires |t.leaf| <= |ws| && |t.par| <= |t.weight|
    ensures Bounding(ws, t, t)
  {
  }

  // --------------------------------------------------------- what it costs

  function Values(g: seq<nat>, at: seq<nat>): (r: seq<nat>)
    requires forall i :: 0 <= i < |at| ==> at[i] < |g|
    ensures |r| == |at|
  {
    seq(|at|, i requires 0 <= i < |at| => g[at[i]])
  }

  ghost predicate Within(t: Tree, ws: seq<nat>, n: nat) {
    && |t.leaf| <= |ws| && |t.par| <= |t.weight| <= n
    && (forall i :: 0 <= i < |t.leaf| ==> t.leaf[i] < n) && (forall i :: 0 <= i < |t.par| ==> t.par[i] < n)
  }

  lemma CostPush(w: seq<nat>, c: seq<nat>, a: nat, b: nat)
    requires |w| == |c|
    ensures Cost(w + [a], c + [b]) == Cost(w, c) + a * b
  {
    assert Products(w + [a], c + [b]) == Products(w, c) + [a * b];
    SumPush(Products(w, c), a * b);
  }

  /** One more entry of a queue gets the parent `e`. */
  lemma CostNext(q: seq<nat>, at: seq<nat>, g: seq<nat>, e: nat)
    requires |at| < |q| && e < |g| && forall i :: 0 <= i < |at| ==> at[i] < |g|
    ensures Cost(q[..|at| + 1], Values(g, at + [e])) == Cost(q[..|at|], Values(g, at)) + q[|at|] * g[e]
  {
    assert q[..|at| + 1] == q[..|at|] + [q[|at|]];
    assert Values(g, at + [e]) == Values(g, at) + [g[e]];
    CostPush(q[..|at|], Values(g, at), q[|at|], g[e]);
  }

  lemma SumNext(at: seq<nat>, g: seq<nat>, e: nat)
    requires e < |g| && forall i :: 0 <= i < |at| ==> at[i] < |g|
    ensures Sum(Values(g, at + [e])) == Sum(Values(g, at)) + g[e]
  {
    assert Values(g, at + [e]) == Values(g, at) + [g[e]];
    SumPush(Values(g, at), g[e]);
  }

  /** A leaf or an inner node taken from its queue gets the parent `e`. */
  function Hang(t: Tree, isLeaf: bool, e: nat): Tree {
    if isLeaf then t.(leaf := t.leaf + [e]) else t.(par := t.par + [e])
  }

  lemma AdoptIs(t: Tree, leaf1: bool, leaf2: bool, w: nat)
    ensures var e := |t.weight|;
            Adopt(t, leaf1, leaf2, w) == Hang(Hang(t, leaf1, e), leaf2, e).(weight := t.weight + [w])
  {
  }

  /** The nodes that have parents, each weighed with the value of its parent. */
  function Sons(ws: seq<nat>, t: Tree, g: seq<nat>): nat
    requires Within(t, ws, |g|)
  {
    Cost(ws[..|t.leaf|], Values(g, t.leaf)) + Cost(t.weight[..|t.par|], Values(g, t.par))
  }

  /** The values of all parents. */
  function Ends(ws: seq<nat>, t: Tree, g: seq<nat>): nat
    requires Within(t, ws, |g|)
  {
    Sum(Values(g, t.leaf)) + Sum(Values(g, t.par))
  }

  lemma HangSons(ws: seq<nat>, t: Tree, g: seq<nat>, isLeaf: bool, e: nat)
    requires Within(t, ws, |g|) && e < |g|
    requires if isLeaf then |t.leaf| < |ws| else |t.par| < |t.weight|
    ensures Within(Hang(t, isLeaf, e), ws, |g|)
    ensures Sons(ws, Hang(t, isLeaf, e), g)
            == Sons(ws, t, g) + (if isLeaf then ws[|t.leaf|] else t.weight[|t.par|]) * g[e]
    ensures Ends(ws, Hang(t, isLeaf, e), g) == Ends(ws, t, g) + g[e]
  {
    if isLeaf {
      CostNext(ws, t.leaf, g, e);
      SumNext(t.leaf, g, e);
    } else {
      CostNext(t.weight, t.par, g, e);
      SumNext(t.par, g, e);
    }
  }

  /** What an inner node weighs, its two sons weigh together; and there are two. */
  ghost predicate Fair(ws: seq<nat>, t: Tree, g: seq<nat>) {
    Within(t, ws, |g|) && Sons(ws, t, g) == Cost(t.weight, g[..|t.weight|])
    && Ends(ws, t, g) == 2 * Sum(g[..|t.weight|])
  }

  lemma JoinFair(ws: seq<nat>, t: Tree, g: seq<nat>)
    requires Fair(ws, t, g) && |t.par| + |t.leaf| == 2 * |t.weight| && |t.weight| + 1 < |ws|
    requires |t.weight| < |g|
    ensures Fair(ws, Join(ws, t), g)
  {
    var i, b, e := |t.leaf|, |t.par|, |t.weight|;
    JoinIs(ws, t);
    var leaf1 := TakesLeaf(ws, t.weight, i, b);
    var (i', b') := Advance(ws, t.weight, i, b);
    var leaf2 := TakesLeaf(ws, t.weight, i', b');
    var x, y := Head(ws, t.weight, i, b), Head(ws, t.weight, i', b');
    AdoptIs(t, leaf1, leaf2, x + y);
    var h := Hang(Hang(t, leaf1, e), leaf2, e);
    assert Join(ws, t) == h.(weight := t.weight + [x + y]);
    HangSons(ws, t, g, leaf1, e);
    HangSons(ws, Hang(t, leaf1, e), g, leaf2, e);
    WeighParent(ws, t, h, g, x, y);
  }

  lemma TimesSum(x: nat, y: nat, v: nat)
    ensures (x + y) * v == x * v + y * v
  {
  }

  lemma WeighParent(ws: seq<nat>, t: Tree, h: Tree, g: seq<nat>, x: nat, y: nat)
    requires Fair(ws, t, g) && Within(h, ws, |g|) && h.weight == t.weight && |t.weight| < |g|
    requires Sons(ws, h, g) == Sons(ws, t, g) + x * g[|t.weight|] + y * g[|t.weight|]
    requires Ends(ws, h, g) == Ends(ws, t, g) + g[|t.weight|] + g[|t.weight|]
    ensures Fair(ws, h.(weight := t.weight + [x + y]), g)
  {
    var e, r := |t.weight|, h.(weight := t.weight + [x + y]);
    assert g[..e + 1] == g[..e] + [g[e]];
    CostPush(t.weight, g[..e], x + y, g[e]);
    SumPush(g[..e], g[e]);
    TimesSum(x, y, g[e]);
    SonsKept(ws, h, g, x + y);
    hide Cost, Sum, Sons, Ends;
  }

  lemma SonsKept(ws: seq<nat>, h: Tree, g: seq<nat>, w: nat)
    requires Within(h, ws, |g|) && |h.weight| < |g|
    ensures var r := h.(weight := h.weight + [w]);
            Within(r, ws, |g|) && Sons(ws, r, g) == Sons(ws, h, g) && Ends(ws, r, g) == Ends(ws, h, g)
  {
    assert (h.weight + [w])[..|h.par|] == h.weight[..|h.par|];
  }

  lemma {:induction false} AllFair(ws: seq<nat>, t: Tree, g: seq<nat>)
    requires Growing(t, |ws|, |t.weight|) && |t.weight| < |ws| && |g| == |ws| - 1 && Fair(ws, t, g)
    ensures Fair(ws, TwoQueue(ws, t), g)
    decreases |ws| - |t.weight|
  {
    hide Growing, Fair, Join;
    if |t.weight| + 1 < |ws| {
      TreeSizes(t, |ws|);
      JoinFair(ws, t, g);
      JoinGrows(ws, t);
      AllFair(ws, Join(ws, t), g);
    }
  }

  lemma HuffmanFair(ws: seq<nat>, g: seq<nat>)
    requires |ws| >= 2 && |g| == |ws| - 1
    ensures Fair(ws, HuffmanTree(ws), g)
  {
    assert Fair(ws, Sprout, g);
    AllFair(ws, Sprout, g);
  }

  /** The depth of every inner node, and of every leaf. */
  function Depths(t: Tree, leaves: nat): (d: seq<nat>)
    requires IsTree(t, leaves)
    ensures |d| == leaves - 1
  {
    seq(leaves - 1, k requires 0 <= k < leaves - 1 => Depth(t, leaves, k))
  }

  function LeafDepths(t: Tree, leaves: nat): (d: seq<nat>)
    requires IsTree(t, leaves)
    ensures |d| == leaves
  {
    seq(leaves, i requires 0 <= i < leaves => 1 + Depth(t, leaves, t.leaf[i]))
  }

  lemma {:induction false} CostPlusOne(w: seq<nat>, c: seq<nat>, c1: seq<nat>)
    requires |w| == |c| == |c1| && forall i :: 0 <= i < |c| ==> c1[i] == c[i] + 1
    ensures Cost(w, c1) == Cost(w, c) + Sum(w)
  {
    if w != [] {
      var n := |w| - 1;
      CostPlusOne(w[..n], c[..n], c1[..n]);
      CostLast(w, c);
      CostLast(w, c1);
      assert w[n] * (c[n] + 1) == w[n] * c[n] + w[n];
    }
  }

  lemma CostLast(w: seq<nat>, c: seq<nat>)
    requires |w| == |c| > 0
    ensures Cost(w, c) == Cost(w[..|w| - 1], c[..|w| - 1]) + w[|w| - 1] * c[|w| - 1]
  {
    var n := |w| - 1;
    assert w == w[..n] + [w[n]] && c == c[..n] + [c[n]];
    CostPush(w[..n], c[..n], w[n], c[n]);
  }

  lemma TreeDepths(ws: seq<nat>) returns (t: Tree, n: nat, d: seq<nat>)
    requires |ws| >= 2
    ensures t == HuffmanTree(ws) && n == |ws| && IsTree(t, n) && d == Depths(t, n) && |d| == n - 1 == |t.weight|
    ensures |t.par| == n - 2 && |t.leaf| == n && d[n - 2] == 0
    ensures forall k :: 0 <= k < n - 2 ==> t.par[k] < n - 1 && d[k] == 1 + d[t.par[k]]
    ensures forall i :: 0 <= i < n ==> t.leaf[i] < n - 1 && LeafDepths(t, n)[i] == 1 + d[t.leaf[i]]
  {
    t, n := HuffmanTree(ws), |ws|;
    d := Depths(t, n);
    hide HuffmanTree;
    forall k | 0 <= k < n - 2 ensures t.par[k] < n - 1 && d[k] == 1 + d[t.par[k]] { DepthParent(t, n, k); }
  }

  /** The leaves cost what the inner nodes weigh. */
  lemma TreeCost(ws: seq<nat>)
    requires |ws| >= 2
    ensures var t := HuffmanTree(ws); Cost(ws, LeafDepths(t, |ws|)) == Sum(t.weight)
  {
    hide HuffmanTree, Depths, LeafDepths, Depth, IsTree, Cost, Sum;
    var t, n, d := TreeDepths(ws);
    var g := seq(n - 1, k requires 0 <= k < n - 1 => 1 + d[k]);
    HuffmanFair(ws, g);
    assert ws[..n] == ws && g[..n - 1] == g;
    assert Values(g, t.leaf) == LeafDepths(t, n);
    assert Values(g, t.par) == d[..n - 2];
    CostPlusOne(t.weight, d, g);
    CostLast(t.weight, d);
  }

  lemma {:induction false} CountFront(s: seq<nat>, l: nat)
    requires s != []
    ensures Count(s, l) == Count(s[1..], l) + if s[0] == l then 1 else 0
  {
    var n := |s| - 1;
    if n > 0 {
      CountFront(s[..n], l);
      assert s[1..][..n - 1] == s[..n][1..];
    }
  }

  lemma {:induction false} NodesCount(t: Tree, leaves: nat, m: nat, j: nat)
    requires IsTree(t, leaves) && m <= |t.par| + 1
    ensures NodesAt(t, leaves, m, j) == Count(Depths(t, leaves)[m..], j)
    decreases |t.par| + 1 - m
  {
    if m <= |t.par| {
      NodesCount(t, leaves, m + 1, j);
      CountFront(Depths(t, leaves)[m..], j);
      assert Depths(t, leaves)[m..][1..] == Depths(t, leaves)[m + 1..];
    }
  }

  lemma {:induction false} SumCount(s: seq<nat>, c: seq<nat>, l: nat)
    requires |s| == |c| && forall i :: 0 <= i < |c| ==> s[i] == if c[i] == l then 1 else 0
    ensures Sum(s) == Count(c, l)
  {
    if s != [] { SumCount(s[..|s| - 1], c[..|c| - 1], l); }
  }

  /** Every inner node has two sons on the next level. */
  lemma LeafCount(ws: seq<nat>, j: nat)
    requires |ws| >= 2 && j >= 1
    ensures var t, n := HuffmanTree(ws), |ws|;
            Count(LeafDepths(t, n), j) + NodesAt(t, n, 0, j) == 2 * NodesAt(t, n, 0, j - 1)
  {
    hide HuffmanTree, Depths, LeafDepths, Depth, IsTree, Cost, Sum, Count;
    var t, n, d := TreeDepths(ws);
    var g := seq(n - 1, k requires 0 <= k < n - 1 => if d[k] == j - 1 then 1 else 0);
    HuffmanFair(ws, g);
    assert g[..n - 1] == g;
    SumCount(Values(g, t.leaf), LeafDepths(t, n), j);
    SumCount(Values(g, t.par), d[..n - 2], j);
    SumCount(g, d, j - 1);
    RootCount(d, j);
    assert d[0..] == d;
    NodesCount(t, n, 0, j);
    NodesCount(t, n, 0, j - 1);
  }

  lemma RootCount(d: seq<nat>, j: nat)
    requires d != [] && d[|d| - 1] == 0 && j > 0
    ensures Count(d, j) == Count(d[..|d| - 1], j)
  {
  }

  // ------------------------------------------------ longest to the rarest

  ghost predicate Falling(s: seq<nat>) { forall i, j :: 0 <= i < j < |s| ==> s[j] <= s[i] }

  lemma LeafDepthsFall(t: Tree, leaves: nat)
    requires IsTree(t, leaves)
    ensures Falling(LeafDepths(t, leaves))
  {
    forall i, j | 0 <= i < j < leaves ensures LeafDepths(t, leaves)[j] <= LeafDepths(t, leaves)[i] {
      DepthMono(t, leaves, t.leaf[i], t.leaf[j]);
    }
  }

  /** The `i`-th rarest of `n` symbols has length `l` when lengths are dealt out longest first. */
  ghost predicate InRun(L: seq<nat>, n: nat, i: nat, l: nat) {
    1 <= l < |L| && n - Total(L, l) <= i < n - Total(L, l - 1)
  }

  lemma {:induction false} CountRange(s: seq<nat>, l: nat, p: nat, b: nat)
    requires p <= b <= |s| && forall i :: 0 <= i < |s| ==> (s[i] == l <==> p <= i < b)
    ensures Count(s, l) == b - p
  {
    if s != [] {
      var n := |s| - 1;
      CountRange(s[..n], l, if p < n then p else n, if b < n then b else n);
    }
  }

  lemma {:induction false} FirstAtMost(s: seq<nat>, l: nat) returns (p: nat)
    requires Falling(s)
    ensures p <= |s| && forall i :: 0 <= i < |s| ==> (s[i] <= l <==> p <= i)
  {
    if s == [] {
      p := 0;
    } else if s[|s| - 1] > l {
      p := |s|;
    } else {
      p := FirstAtMost(s[..|s| - 1], l);
    }
  }

  lemma BoundOrder(s: seq<nat>, l: nat, p: nat, b: nat)
    requires p <= |s| && b <= |s| && l > 0
    requires forall i :: 0 <= i < |s| ==> (s[i] <= l <==> p <= i)
    requires forall i :: 0 <= i < |s| ==> (s[i] <= l - 1 <==> b <= i)
    ensures p <= b
  {
    if b < |s| { assert s[b] <= l; }
  }

  lemma {:induction false} FallingRuns(s: seq<nat>, L: seq<nat>, l: nat)
    requires Falling(s) && l < |L| && L[0] == 0 && (forall i :: 0 <= i < |s| ==> 1 <= s[i])
    requires forall j :: 1 <= j <= l ==> Count(s, j) == L[j]
    ensures Total(L, l) <= |s| && forall i :: 0 <= i < |s| ==> (s[i] <= l <==> |s| - Total(L, l) <= i)
  {
    if l > 0 {
      FallingRuns(s, L, l - 1);
      var p := FirstAtMost(s, l);
      var b := |s| - Total(L, l - 1);
      BoundOrder(s, l, p, b);
      CountRange(s, l, p, b);
    }
  }

  lemma RunsAreDepths(ws: seq<nat>, L: seq<nat>, max: nat, c: seq<nat>)
    requires |ws| >= 2 && |c| == |ws| && max < |L| && L[0] == 0 && Exact(L, HuffmanTree(ws), |ws|, max, 0)
    requires forall i :: 0 <= i < |c| ==> c[i] <= max && InRun(L, |ws|, i, c[i])
    ensures c == LeafDepths(HuffmanTree(ws), |ws|)
  {
    hide HuffmanTree;
    var t, n := HuffmanTree(ws), |ws|;
    var d := LeafDepths(t, n);
    forall j | 1 <= j <= max ensures Count(d, j) == L[j] { LeafCount(ws, j); }
    LeafDepthsFall(t, n);
    assert forall i :: 0 <= i < n ==> 1 <= d[i];
    hide LeafDepths, Exact, IsTree, NodesAt;
    forall i | 0 <= i < n ensures c[i] == d[i] {
      FallingRuns(d, L, c[i]);
      FallingRuns(d, L, c[i] - 1);
    }
  }

  // ----------------------------------------------------------- prefix codes

  function Lengths(words: seq<bits>): (c: seq<nat>)
    ensures |c| == |words|
  {
    seq(|words|, i requires 0 <= i < |words| => |words[i]|)
  }

  ghost predicate Free(words: seq<bits>) {
    forall i, j :: 0 <= i < |words| && 0 <= j < |words| && i != j ==> !(words[i] <= words[j])
  }

  ghost predicate Short(words: seq<bits>, m: nat) { forall i :: 0 <= i < |words| ==> |words[i]| <= m }

  /** What follows the first bit of the words that start with `b`. */
  function Half(words: seq<bits>, b: bool): seq<bits> {
    if words == [] then []
    else
      var w, rest := words[|words| - 1], Half(words[..|words| - 1], b);
      if w != [] && w[0] == b then rest + [w[1..]] else rest
  }

  lemma {:induction false} HalfFrom(words: seq<bits>, b: bool, i: nat) returns (k: nat)
    requires i < |Half(words, b)|
    ensures k < |words| && words[k] == [b] + Half(words, b)[i]
  {
    var n := |words| - 1;
    if i < |Half(words[..n], b)| {
      k := HalfFrom(words[..n], b, i);
    } else {
      k := n;
    }
  }

  lemma {:induction false} HalfFree(words: seq<bits>, b: bool, m: nat)
    requires Free(words) && Short(words, m + 1)
    ensures Free(Half(words, b)) && Short(Half(words, b), m)
  {
    if words != [] {
      var n := |words| - 1;
      var w, rest := words[n], Half(words[..n], b);
      HalfFree(words[..n], b, m);
      if w != [] && w[0] == b {
        assert w == [b] + w[1..];
        forall i | 0 <= i < |rest| ensures !(rest[i] <= w[1..]) && !(w[1..] <= rest[i]) {
          var k := HalfFrom(words[..n], b, i);
          PrefixTail(b, rest[i], w[1..]);
          PrefixTail(b, w[1..], rest[i]);
        }
      }
    }
  }

  lemma PrefixTail(b: bool, u: bits, v: bits)
    ensures u <= v <==> [b] + u <= [b] + v
  {
    if [b] + u <= [b] + v {
      assert forall k :: 0 <= k < |u| ==> ([b] + u)[k + 1] == u[k] && ([b] + v)[k + 1] == v[k];
    }
  }

  function Taken(words: seq<bits>, m: nat): nat
    requires Short(words, m)
  {
    Sum(Spaces(Lengths(words), m))
  }

  lemma TakenLast(words: seq<bits>, m: nat)
    requires Short(words, m) && words != []
    ensures Short(words[..|words| - 1], m)
    ensures Taken(words, m) == Taken(words[..|words| - 1], m) + Pow2(m - |words[|words| - 1]|)
  {
    assert Spaces(Lengths(words), m)[..|words| - 1] == Spaces(Lengths(words[..|words| - 1]), m);
  }

  lemma TakenPush(words: seq<bits>, w: bits, m: nat)
    requires Short(words, m) && |w| <= m
    ensures Short(words + [w], m) && Taken(words + [w], m) == Taken(words, m) + Pow2(m - |w|)
  {
    TakenLast(words + [w], m);
    assert (words + [w])[..|words|] == words;
  }

  lemma {:induction false} HalfTaken(words: seq<bits>, m: nat)
    requires Short(words, m + 1) && forall i :: 0 <= i < |words| ==> words[i] != []
    ensures Short(Half(words, false), m) && Short(Half(words, true), m)
    ensures Taken(words, m + 1) == Taken(Half(words, false), m) + Taken(Half(words, true), m)
  {
    if words != [] {
      var n := |words| - 1;
      var w := words[n];
      HalfTaken(words[..n], m);
      TakenLast(words, m + 1);
      TakenPush(Half(words[..n], w[0]), w[1..], m);
      hide Taken, Pow2;
    }
  }

  /** Words of which none starts another take no more than there is. */
  lemma {:induction false} KraftHolds(words: seq<bits>, m: nat)
    requires Free(words) && Short(words, m)
    ensures Taken(words, m) <= Pow2(m)
    decreases m
  {
    if m == 0 {
      if words != [] { OnlyWord(words, 0, m); }
    } else if i :| 0 <= i < |words| && words[i] == [] {
      OnlyWord(words, i, m);
    } else {
      HalfTaken(words, m - 1);
      HalfFree(words, false, m - 1);
      HalfFree(words, true, m - 1);
      KraftHolds(Half(words, false), m - 1);
      KraftHolds(Half(words, true), m - 1);
    }
  }

  lemma SameWord(words: seq<bits>, i: nat, j: nat)
    requires Free(words) && i < |words| && j < |words| && words[i] <= words[j]
    ensures i == j
  {
  }

  lemma OnlyWord(words: seq<bits>, i: nat, m: nat)
    requires Free(words) && i < |words| && words[i] == [] && Short(words, m)
    ensures Taken(words, m) == Pow2(m)
  {
    SameWord(words, i, 0);
    SameWord(words, i, |words| - 1);
    TakenLast(words, m);
  }

  // ------------------------------------------------------------ the theorem

  /** `syms` lists the used symbols. */
  ghost predicate Lists(syms: seq<nat>, f: seq<nat>) {
    && (forall i :: 0 <= i < |syms| ==> syms[i] < |f| && f[syms[i]] > 0)
    && (forall i, j :: 0 <= i < j < |syms| ==> syms[i] != syms[j])
    && forall s :: 0 <= s < |f| && f[s] > 0 ==> s in syms
  }

  function Masked(h: seq<nat>, syms: seq<nat>): (r: seq<nat>)
    ensures |r| == |h|
  {
    seq(|h|, s requires 0 <= s < |h| => if s in syms then h[s] else 0)
  }

  lemma {:induction false} SumZeros(s: seq<nat>)
    requires forall i :: 0 <= i < |s| ==> s[i] == 0
    ensures Sum(s) == 0
  {
    if s != [] { SumZeros(s[..|s| - 1]); }
  }

  /** A sum over the listed symbols is one over all. */
  lemma {:induction false} SumListed(h: seq<nat>, syms: seq<nat>)
    requires (forall i :: 0 <= i < |syms| ==> syms[i] < |h|)
    requires forall i, j :: 0 <= i < j < |syms| ==> syms[i] != syms[j]
    ensures Sum(Values(h, syms)) == Sum(Masked(h, syms))
  {
    if syms == [] {
      SumZeros(Masked(h, syms));
    } else {
      var n := |syms| - 1;
      var s := syms[n];
      SumListed(h, syms[..n]);
      assert Values(h, syms)[..n] == Values(h, syms[..n]);
      assert syms == syms[..n] + [s];
      assert Masked(h, syms) == Masked(h, syms[..n])[s := h[s]];
      SumUpdate(Masked(h, syms[..n]), s, h[s]);
    }
  }

  lemma SumUsed(h: seq<nat>, syms: seq<nat>, f: seq<nat>)
    requires |h| == |f| && Lists(syms, f) && forall s :: 0 <= s < |f| && f[s] == 0 ==> h[s] == 0
    ensures Sum(Values(h, syms)) == Sum(h)
  {
    SumListed(h, syms);
    assert Masked(h, syms) == h;
  }

  lemma CostListed(f: seq<nat>, c: seq<nat>, syms: seq<nat>, ws: seq<nat>)
    requires |f| == |c| && Lists(syms, f) && |ws| == |syms|
    requires forall i :: 0 <= i < |syms| ==> ws[i] == f[syms[i]]
    ensures Cost(ws, Values(c, syms)) == Cost(f, c)
  {
    SumUsed(Products(f, c), syms, f);
    assert Products(ws, Values(c, syms)) == Values(Products(f, c), syms);
  }

  /** Codewords for the used symbols, none of which starts another one. */
  ghost predicate Decodable(words: seq<bits>, f: seq<nat>) {
    && |words| == |f|
    && forall s, t :: 0 <= s < |f| && 0 <= t < |f| && s != t && f[s] > 0 && f[t] > 0 ==> !(words[s] <= words[t])
  }

  /** No prefix code for the used symbols takes fewer bits. */
  ghost predicate Optimal(lens: seq<nat>, f: seq<nat>) {
    && |lens| == |f|
    && forall words: seq<bits> :: Decodable(words, f) ==> Cost(f, lens) <= Cost(f, Lengths(words))
  }

  lemma {:induction false} SumAtLeast(s: seq<nat>, i: nat)
    requires i < |s|
    ensures s[i] <= Sum(s)
  {
    if i < |s| - 1 { SumAtLeast(s[..|s| - 1], i); }
  }

  /** The tree over sorted weights is as good as any prefix code. */
  lemma TreeOptimal(ws: seq<nat>, words: seq<bits>)
    requires |ws| == |words| >= 2 && SortedSeq(ws) && Free(words)
    ensures Cost(ws, LeafDepths(HuffmanTree(ws), |ws|)) <= Cost(ws, Lengths(words))
  {
    hide LeafDepths, TwoQueue, Cost;
    TreeCost(ws);
    assert Ready(ws, Sprout);
    TreeBound(ws, Sprout);
    assert HuffmanTree(ws) == TwoQueue(ws, Sprout);
    assert ws[0..] == ws && Rest(ws, [], 0, 0) == multiset(ws);
    var c := Lengths(words);
    var m := Sum(c);
    forall i | 0 <= i < |c| ensures c[i] <= m { SumAtLeast(c, i); }
    assert forall i :: 0 <= i < |words| ==> c[i] == |words[i]|;
    KraftHolds(words, m);
    assert Kraft(c, m);
  }

  lemma SymsOptimal(f: seq<nat>, lens: seq<nat>, syms: seq<nat>, ws: seq<nat>)
    requires |lens| == |f| && Lists(syms, f) && |ws| == |syms| >= 2 && SortedSeq(ws)
    requires forall i :: 0 <= i < |syms| ==> ws[i] == f[syms[i]]
    requires Values(lens, syms) == LeafDepths(HuffmanTree(ws), |ws|)
    ensures Optimal(lens, f)
  {
    hide HuffmanTree, LeafDepths, Cost;
    CostListed(f, lens, syms, ws);
    forall words: seq<bits> | Decodable(words, f) ensures Cost(f, lens) <= Cost(f, Lengths(words)) {
      CostListed(f, Lengths(words), syms, ws);
      var own := seq(|syms|, i requires 0 <= i < |syms| => words[syms[i]]);
      assert Free(own);
      assert Lengths(own) == Values(Lengths(words), syms);
      TreeOptimal(ws, own);
    }
  }

  // ----------------------------------------------------- how deep a tree is

  function Fib(n: nat): nat { if n < 2 then n else Fib(n - 1) + Fib(n - 2) }

  lemma {:induction false} FibMono(m: nat, n: nat)
    requires m <= n
    ensures Fib(m) <= Fib(n)
    decreases n
  {
    if m < n {
      FibMono(m, n - 1);
      assert n < 2 ==> n == 1 && Fib(n - 1) == 0;
    }
  }

  /** Inner node `k` has height `hs[k]`, and then a Fibonacci number as its weight; the lighter of any two
      nodes that remain weighs at least `y`. */
  ghost predicate Tall(ws: seq<nat>, t: Tree, hs: seq<nat>, y: nat) {
    && |t.leaf| <= |ws| && |t.par| <= |t.weight| == |hs| && y >= 1
    && (forall k :: 0 <= k < |hs| ==> 1 <= hs[k] && Fib(hs[k] + 2) <= t.weight[k] && Fib(hs[k] + 1) <= y)
    && (forall r :: r in Rest(ws, t.weight, |t.leaf|, |t.par|) ==> y <= r)
  }

  /** Heights rise from son to parent. */
  ghost predicate Stacked(t: Tree, hs: seq<nat>) {
    && |t.par| <= |hs|
    && (forall k :: 0 <= k < |t.par| ==> t.par[k] < |hs| && hs[k] < hs[t.par[k]])
    && (forall i :: 0 <= i < |t.leaf| ==> t.leaf[i] < |hs| && 1 <= hs[t.leaf[i]])
  }

  function HeadHeight(ws: seq<nat>, weight: seq<nat>, hs: seq<nat>, i: nat, b: nat): nat
    requires i <= |ws| && b <= |weight| == |hs| && (i < |ws| || b < |weight|)
  {
    if TakesLeaf(ws, weight, i, b) then 0 else hs[b]
  }

  lemma HeadTall(ws: seq<nat>, weight: seq<nat>, hs: seq<nat>, i: nat, b: nat, y: nat)
    requires i <= |ws| && b <= |weight| == |hs| && (i < |ws| || b < |weight|) && y >= 1
    requires forall k :: 0 <= k < |hs| ==> Fib(hs[k] + 2) <= weight[k] && Fib(hs[k] + 1) <= y
    requires y <= Head(ws, weight, i, b)
    ensures var h := HeadHeight(ws, weight, hs, i, b); Fib(h + 2) <= Head(ws, weight, i, b) && Fib(h + 1) <= y
  {
  }

  /** A node of weight `x` and height `h1`, and one of weight `y'` and height `h2`, that was no lighter than `y`. */
  lemma NextTall(x: nat, y': nat, y: nat, h1: nat, h2: nat)
    requires y <= x <= y' && Fib(h1 + 2) <= x && Fib(h1 + 1) <= y && Fib(h2 + 2) <= y' && Fib(h2 + 1) <= y
    ensures var h := 1 + Max(h1, h2); Fib(h + 2) <= x + y' && Fib(h + 1) <= y'
  {
    var m := Max(h1, h2);
    assert Fib(m + 3) == Fib(m + 2) + Fib(m + 1);
  }

  function Max(a: nat, b: nat): nat { if a < b then b else a }

  /** The weights that remain, added up. */
  function Left(ws: seq<nat>, weight: seq<nat>, i: nat, b: nat): nat
    requires i <= |ws| && b <= |weight|
  {
    Sum(ws[i..]) + Sum(weight[b..])
  }

  lemma {:induction false} SumFront(s: seq<nat>)
    requires s != []
    ensures Sum(s) == s[0] + Sum(s[1..])
  {
    var n := |s| - 1;
    if n > 0 {
      SumFront(s[..n]);
      assert s[1..][..n - 1] == s[..n][1..];
    }
  }

  lemma LeftTake(ws: seq<nat>, weight: seq<nat>, i: nat, b: nat)
    requires i <= |ws| && b <= |weight| && (i < |ws| || b < |weight|)
    ensures var (i', b') := Advance(ws, weight, i, b);
            Left(ws, weight, i, b) == Head(ws, weight, i, b) + Left(ws, weight, i', b')
  {
    if TakesLeaf(ws, weight, i, b) {
      SumFront(ws[i..]);
      assert ws[i..][1..] == ws[i + 1..];
    } else {
      SumFront(weight[b..]);
      assert weight[b..][1..] == weight[b + 1..];
    }
  }

  lemma LeftPush(ws: seq<nat>, weight: seq<nat>, i: nat, b: nat, v: nat)
    requires i <= |ws| && b <= |weight|
    ensures Left(ws, weight + [v], i, b) == Left(ws, weight, i, b) + v
  {
    assert (weight + [v])[b..] == weight[b..] + [v];
    SumPush(weight[b..], v);
  }

  lemma HangStacked(t: Tree, hs: seq<nat>, isLeaf: bool, e: nat)
    requires Stacked(t, hs) && e < |hs| && hs[e] >= 1 && (!isLeaf ==> |t.par| < |hs| && hs[|t.par|] < hs[e])
    ensures Stacked(Hang(t, isLeaf, e), hs)
  {
  }

  lemma StackedMore(t: Tree, hs: seq<nat>, h: nat)
    requires Stacked(t, hs)
    ensures Stacked(t, hs + [h])
  {
  }

  /** A step keeps all of this. */
  lemma JoinTall(ws: seq<nat>, t: Tree, hs: seq<nat>, y: nat) returns (h: nat, y': nat)
    requires Ready(ws, t) && Tall(ws, t, hs, y) && Stacked(t, hs)
    requires |t.par| + |t.leaf| == 2 * |t.weight| && |t.weight| + 1 < |ws|
    ensures Tall(ws, Join(ws, t), hs + [h], y') && Stacked(Join(ws, t), hs + [h])
    ensures |Join(ws, t).leaf| <= |ws| && |Join(ws, t).par| <= |Join(ws, t).weight|
    ensures Left(ws, Join(ws, t).weight, |Join(ws, t).leaf|, |Join(ws, t).par|)
            == Left(ws, t.weight, |t.leaf|, |t.par|)
  {
    hide *;
    ReadyParts(ws, t);
    TallParts(ws, t, hs, y);
    JoinIs(ws, t);
    var i, b := |t.leaf|, |t.par|;
    var (i', b') := Advance(ws, t.weight, i, b);
    var (i2, b2) := Advance(ws, t.weight, i', b');
    TakeOne(ws, t.weight, i, b);
    TakeOne(ws, t.weight, i', b');
    LeftTake(ws, t.weight, i, b);
    LeftTake(ws, t.weight, i', b');
    var x := Head(ws, t.weight, i, b);
    y' := Head(ws, t.weight, i', b');
    var R := Rest(ws, t.weight, i2, b2);
    TwoSmallest(Rest(ws, t.weight, i, b), Rest(ws, t.weight, i', b'), R, x, y');
    TwoAbove(R, x, y', y);
    HeadTall(ws, t.weight, hs, i, b, y);
    HeadTall(ws, t.weight, hs, i', b', y);
    var h1, h2 := HeadHeight(ws, t.weight, hs, i, b), HeadHeight(ws, t.weight, hs, i', b');
    h := 1 + Max(h1, h2);
    MaxIs(h1, h2);
    NextTall(x, y', y, h1, h2);
    RestPush(ws, t.weight, i2, b2, x + y');
    LeftPush(ws, t.weight, i2, b2, x + y');
    JoinStacked(ws, t, hs, h);
    PushTall(ws, t, Join(ws, t), hs, h, y, y', x + y', R);
  }

  lemma ReadyParts(ws: seq<nat>, t: Tree)
    requires Ready(ws, t)
    ensures |t.leaf| <= |ws| && |t.par| <= |t.weight| && SortedSeq(ws) && SortedSeq(t.weight)
  {
  }

  lemma TallParts(ws: seq<nat>, t: Tree, hs: seq<nat>, y: nat)
    requires Tall(ws, t, hs, y)
    ensures |t.leaf| <= |ws| && |t.par| <= |t.weight| == |hs| && y >= 1
    ensures forall k :: 0 <= k < |hs| ==> 1 <= hs[k] && Fib(hs[k] + 2) <= t.weight[k] && Fib(hs[k] + 1) <= y
    ensures forall r :: r in Rest(ws, t.weight, |t.leaf|, |t.par|) ==> y <= r
  {
    hide Rest, Fib;
  }

  lemma MaxIs(a: nat, b: nat)
    ensures Max(a, b) >= a && Max(a, b) >= b
  {
  }

  lemma TwoAbove(R: multiset<nat>, x: nat, y': nat, y: nat)
    requires forall r :: r in R + multiset{x} + multiset{y'} ==> y <= r
    ensures y <= x && y <= y'
  {
    assert x in R + multiset{x} + multiset{y'} && y' in R + multiset{x} + multiset{y'};
  }

  lemma PushTall(ws: seq<nat>, t: Tree, t': Tree, hs: seq<nat>, h: nat, y: nat, y': nat, w: nat, R: multiset<nat>)
    requires Tall(ws, t, hs, y) && y <= y' <= w && t'.weight == t.weight + [w]
    requires |t'.leaf| <= |ws| && |t'.par| <= |t.weight| && h >= 1 && Fib(h + 2) <= w && Fib(h + 1) <= y'
    requires Rest(ws, t'.weight, |t'.leaf|, |t'.par|) == R + multiset{w} && forall r :: r in R ==> y' <= r
    ensures Tall(ws, t', hs + [h], y')
  {
    hide Rest, Fib;
  }

  lemma JoinStacked(ws: seq<nat>, t: Tree, hs: seq<nat>, h: nat)
    requires |t.leaf| <= |ws| && |t.par| <= |t.weight| == |hs| && |t.par| + |t.leaf| == 2 * |t.weight|
    requires |t.weight| + 1 < |ws| && Stacked(t, hs) && h >= 1
    requires var (i, b) := Advance(ws, t.weight, |t.leaf|, |t.par|);
             && i <= |ws| && b <= |t.weight| && (i < |ws| || b < |t.weight|)
             && (|t.leaf| < |ws| || |t.par| < |t.weight|)
             && HeadHeight(ws, t.weight, hs, |t.leaf|, |t.par|) < h && HeadHeight(ws, t.weight, hs, i, b) < h
    ensures Stacked(Join(ws, t), hs + [h])
  {
    var e, hs' := |t.weight|, hs + [h];
    var leaf1 := TakesLeaf(ws, t.weight, |t.leaf|, |t.par|);
    var (i, b) := Advance(ws, t.weight, |t.leaf|, |t.par|);
    var leaf2 := TakesLeaf(ws, t.weight, i, b);
    var w := Join(ws, t).weight[e];
    assert Join(ws, t) == Adopt(t, leaf1, leaf2, w);
    AdoptIs(t, leaf1, leaf2, w);
    StackedMore(t, hs, h);
    HangStacked(t, hs', leaf1, e);
    HangStacked(Hang(t, leaf1, e), hs', leaf2, e);
    hide Adopt;
  }

  lemma {:induction false} AllTall(ws: seq<nat>, t: Tree, hs: seq<nat>, y: nat) returns (hs': seq<nat>, y': nat)
    requires Ready(ws, t) && Growing(t, |ws|, |t.weight|) && |t.weight| < |ws|
    requires Tall(ws, t, hs, y) && Stacked(t, hs)
    ensures var r := TwoQueue(ws, t);
            && Tall(ws, r, hs', y') && Stacked(r, hs') && |r.leaf| <= |ws| && |r.par| <= |r.weight|
            && |t.leaf| <= |ws| && |t.par| <= |t.weight|
            && Left(ws, r.weight, |r.leaf|, |r.par|) == Left(ws, t.weight, |t.leaf|, |t.par|)
    decreases |ws| - |t.weight|
  {
    hide Rest, Growing, Join, Left, Tall, Stacked, Ready;
    TreeSizes(t, |ws|);
    if |t.weight| + 1 == |ws| {
      hs', y' := hs, y;
    } else {
      var x, y1, R := JoinTakes(ws, t);
      JoinReady(ws, t, x, y1, R);
      var h, y2 := JoinTall(ws, t, hs, y);
      JoinGrows(ws, t);
      hs', y' := AllTall(ws, Join(ws, t), hs + [h], y2);
    }
  }

  lemma {:induction false} DepthHeight(t: Tree, leaves: nat, hs: seq<nat>, k: nat)
    requires IsTree(t, leaves) && Stacked(t, hs) && |hs| == leaves - 1 && k <= |t.par|
    ensures Depth(t, leaves, k) + hs[k] <= hs[leaves - 2]
    decreases |t.par| - k
  {
    if k < |t.par| {
      DepthParent(t, leaves, k);
      DepthHeight(t, leaves, hs, t.par[k]);
    }
  }

  /** A tree with leaves at depth `h` weighs at least as much as the Fibonacci number of `h + 2`. */
  lemma HeightBound(ws: seq<nat>) returns (h: nat)
    requires |ws| >= 2 && SortedSeq(ws) && forall i :: 0 <= i < |ws| ==> ws[i] >= 1
    ensures Fib(h + 2) <= Sum(ws) && Depth(HuffmanTree(ws), |ws|, 0) < h
    ensures forall i :: 0 <= i < |ws| ==> LeafDepths(HuffmanTree(ws), |ws|)[i] <= h
  {
    hide *;
    var n, t := |ws|, HuffmanTree(ws);
    SproutIs();
    ReadyStart(ws, Sprout);
    TallStart(ws, Sprout);
    FullTree(ws);
    var hs, y := AllTall(ws, Sprout, [], 1);
    TallParts(ws, t, hs, y);
    h := hs[n - 2];
    RootWeighs(ws, t.weight);
    forall i | 0 <= i < n ensures LeafDepths(t, n)[i] <= h {
      DepthHeight(t, n, hs, t.leaf[i]);
      LeafHigh(t, n, hs, i);
    }
    DepthHeight(t, n, hs, 0);
  }

  lemma NothingJoined(ws: seq<nat>)
    ensures Rest(ws, [], 0, 0) == multiset(ws)
  {
    assert ws[0..] == ws;
  }

  lemma ReadyStart(ws: seq<nat>, t: Tree)
    requires t.weight == [] && t.leaf == [] && t.par == [] && SortedSeq(ws)
    ensures Ready(ws, t)
  {
    hide Rest;
  }

  lemma TallStart(ws: seq<nat>, t: Tree)
    requires t.weight == [] && t.leaf == [] && t.par == [] && forall i :: 0 <= i < |ws| ==> ws[i] >= 1
    ensures Tall(ws, t, [], 1) && Stacked(t, [])
  {
    hide Rest, Fib;
    NothingJoined(ws);
  }

  lemma SproutIs()
    ensures Sprout.weight == [] && Sprout.leaf == [] && Sprout.par == []
  {
  }

  lemma FullTree(ws: seq<nat>)
    requires |ws| >= 2
    ensures Growing(Sprout, |ws|, |Sprout.weight|) && |Sprout.weight| < |ws|
    ensures var t := HuffmanTree(ws);
            && t == TwoQueue(ws, Sprout) && IsTree(t, |ws|) && |t.leaf| == |ws| && |t.par| == |ws| - 2
            && |t.weight| == |ws| - 1 && forall i :: 0 <= i < |ws| ==> t.leaf[i] < |ws| - 1
  {
    hide TwoQueue;
  }

  lemma LeafHigh(t: Tree, leaves: nat, hs: seq<nat>, i: nat)
    requires IsTree(t, leaves) && Stacked(t, hs) && i < leaves && |hs| == leaves - 1
    ensures t.leaf[i] <= |t.par| && LeafDepths(t, leaves)[i] <= Depth(t, leaves, t.leaf[i]) + hs[t.leaf[i]]
  {
    hide Depth;
  }

  lemma RootWeighs(ws: seq<nat>, weight: seq<nat>)
    requires |ws| >= 2 && |weight| == |ws| - 1
    ensures Left(ws, weight, |ws|, |ws| - 2) == weight[|ws| - 2] && Left(ws, [], 0, 0) == Sum(ws)
  {
    assert weight[|ws| - 2..] == [] + [weight[|ws| - 2]] && ws[|ws|..] == [] && ws[0..] == ws;
    SumPush([], weight[|ws| - 2]);
  }
}
