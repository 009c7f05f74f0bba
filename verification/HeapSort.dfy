/** The in-place heap sort of tools/sdefl.h, on a segment of an array.

  The source shifts its array pointer by one so that the children of node `p`
  are `2p` and `2p+1`.  Here node `p` of the segment starting at `base` is
  element `base + p - 1` of the array.
*/
module HeapSort {

  predicate SortedSeq(s: seq<nat>) {
    forall i, j :: 0 <= i < j < |s| ==> s[i] <= s[j]
  }

  /** The segment of `n` elements starting at `base`. */
  function Seg(a: seq<nat>, base: nat, n: nat): (s: seq<nat>)
    requires base + n <= |a|
    ensures |s| == n
  {
    a[base..base + n]
  }

  /** `a` with the segment starting at `base` replaced by `s`. */
  function PutSeg(a: seq<nat>, base: nat, s: seq<nat>): (r: seq<nat>)
    requires base + |s| <= |a|
    ensures |r| == |a| && Seg(r, base, |s|) == s
  {
    a[..base] + s + a[base + |s|..]
  }

  ghost predicate Permutes(a: seq<nat>, b: seq<nat>) { multiset(a) == multiset(b) }

  /** The larger child of node `p`. */
  function Child(s: seq<nat>, len: nat, p: nat): (c: nat)
    requires 1 <= p && 2 * p <= len <= |s|
    ensures (c == 2 * p || c == 2 * p + 1) && c <= len
    ensures s[c - 1] >= s[2 * p - 1] && (2 * p + 1 <= len ==> s[c - 1] >= s[2 * p])
  {
    if 2 * p < len && s[2 * p] > s[2 * p - 1] then 2 * p + 1 else 2 * p
  }

  /** `s` after `v` has sunk from the hole at node `p`. */
  function Sift(s: seq<nat>, len: nat, p: nat, v: nat): (r: seq<nat>)
    requires 1 <= p <= len <= |s|
    ensures |r| == |s|
    decreases len - p
  {
    if 2 * p > len then s[p - 1 := v]
    else
      var c := Child(s, len, p);
      if v >= s[c - 1] then s[p - 1 := v]
      else Sift(s[p - 1 := s[c - 1]], len, c, v)
  }

  /** Every node from `lo` on is at least as large as its children. */
  predicate HeapFrom(s: seq<nat>, len: nat, lo: nat)
    requires len <= |s| && 1 <= lo
  {
    forall c :: 2 <= c <= len && c / 2 >= lo ==> s[c / 2 - 1] >= s[c - 1]
  }

  /** As `HeapFrom` for `s` with `v` in the hole `p`, except below the hole. */
  ghost predicate HoleHeap(s: seq<nat>, len: nat, lo: nat, p: nat, v: nat)
    requires 1 <= lo <= p <= len <= |s|
  {
    var t := s[p - 1 := v];
    && (forall c :: 2 <= c <= len && c / 2 >= lo && c / 2 != p ==> t[c / 2 - 1] >= t[c - 1])
    && (p / 2 >= lo ==> forall c :: 2 <= c <= len && c / 2 == p ==> t[p / 2 - 1] >= t[c - 1])
  }

  /** Moving the larger child into the hole moves the hole down. */
  lemma HoleDown(s: seq<nat>, len: nat, lo: nat, p: nat, v: nat)
    requires 1 <= lo <= p && 2 * p <= len <= |s| && HoleHeap(s, len, lo, p, v)
    requires v < s[Child(s, len, p) - 1]
    ensures var c := Child(s, len, p); HoleHeap(s[p - 1 := s[c - 1]], len, lo, c, v)
  {
    var t := s[p - 1 := v];
    var c := Child(s, len, p);
    var t' := s[p - 1 := s[c - 1]][c - 1 := v];
    forall d | 2 <= d <= len && d / 2 >= lo && d / 2 != c ensures t'[d / 2 - 1] >= t'[d - 1] {
      if d / 2 == p {
        assert d == 2 * p || d == 2 * p + 1;
      } else if d == p {
        assert t[d / 2 - 1] >= t[c - 1];
      } else {
        assert t[d / 2 - 1] >= t[d - 1];
      }
    }
    forall d | 2 <= d <= len && d / 2 == c ensures t'[p - 1] >= t'[d - 1] {
      assert t[d / 2 - 1] >= t[d - 1];
    }
  }

  lemma {:induction false} SiftHeap(s: seq<nat>, len: nat, lo: nat, p: nat, v: nat)
    requires 1 <= lo <= p <= len <= |s| && HoleHeap(s, len, lo, p, v)
    ensures HeapFrom(Sift(s, len, p, v), len, lo)
    decreases len - p
  {
    if 2 * p <= len && v < s[Child(s, len, p) - 1] {
      HoleDown(s, len, lo, p, v);
      var c := Child(s, len, p);
      SiftHeap(s[p - 1 := s[c - 1]], len, lo, c, v);
      assert Sift(s, len, p, v) == Sift(s[p - 1 := s[c - 1]], len, c, v);
    } else {
      SiftStops(s, len, lo, p, v);
    }
  }

  lemma SiftStops(s: seq<nat>, len: nat, lo: nat, p: nat, v: nat)
    requires 1 <= lo <= p <= len <= |s| && HoleHeap(s, len, lo, p, v)
    requires 2 * p <= len ==> v >= s[Child(s, len, p) - 1]
    ensures HeapFrom(s[p - 1 := v], len, lo)
  {
    var t := s[p - 1 := v];
    forall c | 2 <= c <= len && c / 2 >= lo ensures t[c / 2 - 1] >= t[c - 1] {
      if c / 2 == p {
        assert c == 2 * p || c == 2 * p + 1;
      }
    }
  }

  /** Sinking a value permutes the first `len` elements and touches no other. */
  lemma {:induction false} SiftPermutes(s: seq<nat>, len: nat, p: nat, v: nat)
    requires 1 <= p <= len <= |s|
    ensures multiset(Sift(s, len, p, v)[..len]) == multiset(s[p - 1 := v][..len])
    ensures Sift(s, len, p, v)[len..] == s[len..]
    decreases len - p
  {
    if 2 * p <= len && v < s[Child(s, len, p) - 1] {
      var c := Child(s, len, p);
      var s' := s[p - 1 := s[c - 1]];
      SiftPermutes(s', len, c, v);
      MoveHole(s, len, p, c, v);
      assert Sift(s, len, p, v) == Sift(s', len, c, v);
    }
  }

  lemma MoveHole(s: seq<nat>, len: nat, p: nat, c: nat, v: nat)
    requires 1 <= p < c <= len <= |s|
    ensures multiset(s[p - 1 := s[c - 1]][c - 1 := v][..len]) == multiset(s[p - 1 := v][..len])
    ensures s[p - 1 := s[c - 1]][len..] == s[len..]
  {
    var t := s[p - 1 := v][..len];
    SwapPermutes(t, p - 1, c - 1);
    assert s[p - 1 := s[c - 1]][c - 1 := v][..len] == t[p - 1 := t[c - 1]][c - 1 := t[p - 1]];
  }

  lemma SwapPermutes(s: seq<nat>, i: nat, j: nat)
    requires i < |s| && j < |s|
    ensures multiset(s[i := s[j]][j := s[i]]) == multiset(s)
  {
  }

  /** The root of a heap is its maximum. */
  lemma {:induction false} HeapMax(s: seq<nat>, len: nat, k: nat)
    requires 1 <= k <= len <= |s| && HeapFrom(s, len, 1)
    ensures s[0] >= s[k - 1]
  {
    if k > 1 { HeapMax(s, len, k / 2); }
  }

  /** The array after node `p` of the segment has sunk. */
  function SiftAt(a: seq<nat>, base: nat, n: nat, len: nat, p: nat, v: nat): (r: seq<nat>)
    requires base + n <= |a| && 1 <= p <= len <= n
    ensures |r| == |a|
  {
    PutSeg(a, base, Sift(Seg(a, base, n), len, p, v))
  }

  lemma SegUpdate(a: seq<nat>, base: nat, n: nat, i: nat, x: nat)
    requires base + n <= |a| && i < n
    ensures Seg(a[base + i := x], base, n) == Seg(a, base, n)[i := x]
    ensures a[base + i := x] == PutSeg(a, base, Seg(a, base, n)[i := x])
  {
  }

  lemma PutSegTwice(a: seq<nat>, base: nat, s: seq<nat>, t: seq<nat>)
    requires base + |s| <= |a| && |t| == |s|
    ensures PutSeg(PutSeg(a, base, s), base, t) == PutSeg(a, base, t)
  {
  }

  /** One turn of the loop of `HeapSub`. */
  lemma SiftAtStep(a: seq<nat>, base: nat, n: nat, len: nat, p: nat, v: nat)
    requires base + n <= |a| && 1 <= p <= len <= n
    ensures 2 * p > len ==> SiftAt(a, base, n, len, p, v) == a[base + p - 1 := v]
    ensures 2 * p <= len ==>
      var c := if 2 * p < len && a[base + 2 * p] > a[base + 2 * p - 1] then 2 * p + 1 else 2 * p;
      && p < c <= len
      && SiftAt(a, base, n, len, p, v) ==
         if v >= a[base + c - 1] then a[base + p - 1 := v]
         else SiftAt(a[base + p - 1 := a[base + c - 1]], base, n, len, c, v)
  {
    hide Sift, PutSeg;
    var s := Seg(a, base, n);
    SegUpdate(a, base, n, p - 1, v);
    SiftUnfold(s, len, p, v);
    if 2 * p <= len {
      var c := Child(s, len, p);
      assert s[c - 1] == a[base + c - 1] && s[2 * p - 1] == a[base + 2 * p - 1];
      assert 2 * p < len ==> s[2 * p] == a[base + 2 * p];
      if v < s[c - 1] { SiftAtMove(a, base, n, len, p, v, c); }
    }
  }

  lemma SiftUnfold(s: seq<nat>, len: nat, p: nat, v: nat)
    requires 1 <= p <= len <= |s|
    ensures 2 * p > len ==> Sift(s, len, p, v) == s[p - 1 := v]
    ensures 2 * p <= len ==>
      var c := Child(s, len, p);
      Sift(s, len, p, v) == if v >= s[c - 1] then s[p - 1 := v] else Sift(s[p - 1 := s[c - 1]], len, c, v)
  {
  }

  lemma SiftAtMove(a: seq<nat>, base: nat, n: nat, len: nat, p: nat, v: nat, c: nat)
    requires base + n <= |a| && 1 <= p && 2 * p <= len <= n
    requires c == Child(Seg(a, base, n), len, p) && v < a[base + c - 1]
    ensures SiftAt(a, base, n, len, p, v) ==
      SiftAt(a[base + p - 1 := a[base + c - 1]], base, n, len, c, v)
  {
    var s := Seg(a, base, n);
    var s' := s[p - 1 := s[c - 1]];
    SegUpdate(a, base, n, p - 1, s[c - 1]);
    PutSegTwice(a, base, s', Sift(s', len, c, v));
    assert Sift(s, len, p, v) == Sift(s', len, c, v);
    hide PutSeg, Sift, Child;
  }

  method HeapSub(A: array<nat>, base: nat, n: nat, len: nat, sub: nat)
    requires base + n <= A.Length && 1 <= sub <= len <= n
    modifies A
    ensures A[..] == old(SiftAt(A[..], base, n, len, sub, A[base + sub - 1]))
  {
    hide SiftAt;
    var p := sub;
    var v := A[base + sub - 1];
    while 2 * p <= len
      invariant 1 <= p <= len
      invariant SiftAt(A[..], base, n, len, p, v) == old(SiftAt(A[..], base, n, len, sub, A[base + sub - 1]))
      decreases len - p
    {
      SiftAtStep(A[..], base, n, len, p, v);
      var c := 2 * p;
      if c < len && A[base + c] > A[base + c - 1] {
        c := c + 1;
      }
      if v >= A[base + c - 1] {
        break;
      }
      ghost var a := A[..];
      A[base + p - 1] := A[base + c - 1];
      assert A[..] == a[base + p - 1 := a[base + c - 1]];
      p := c;
    }
    SiftAtStep(A[..], base, n, len, p, v);
    ghost var a := A[..];
    A[base + p - 1] := v;
    assert A[..] == a[base + p - 1 := v];
  }

  /** `a` is `orig` with the segment permuted. */
  ghost predicate PermutedAt(orig: seq<nat>, a: seq<nat>, base: nat, n: nat) {
    && base + n <= |a| == |orig|
    && Permutes(Seg(orig, base, n), Seg(a, base, n))
    && a == PutSeg(orig, base, Seg(a, base, n))
  }

  /** The segment is a permutation of the original one and a heap from node `lo` on. */
  ghost predicate HeapingAt(orig: seq<nat>, a: seq<nat>, base: nat, len: nat, lo: nat) {
    lo >= 1 && PermutedAt(orig, a, base, len) && HeapFrom(Seg(a, base, len), len, lo)
  }

  lemma HeapStart(a: seq<nat>, base: nat, len: nat)
    requires base + len <= |a|
    ensures HeapingAt(a, a, base, len, len / 2 + 1)
  {
  }

  lemma HeapStep(orig: seq<nat>, a: seq<nat>, base: nat, len: nat, sub: nat)
    requires 1 <= sub <= len && HeapingAt(orig, a, base, len, sub + 1)
    ensures HeapingAt(orig, SiftAt(a, base, len, len, sub, a[base + sub - 1]), base, len, sub)
  {
    var s := Seg(a, base, len);
    SiftSelf(s, sub);
    PutSegTwice(orig, base, s, Sift(s, len, sub, s[sub - 1]));
    hide HeapFrom, PutSeg, Sift;
  }

  lemma SiftSelf(s: seq<nat>, sub: nat)
    requires 1 <= sub <= |s| && HeapFrom(s, |s|, sub + 1)
    ensures HeapFrom(Sift(s, |s|, sub, s[sub - 1]), |s|, sub)
    ensures multiset(Sift(s, |s|, sub, s[sub - 1])) == multiset(s)
  {
    var r := Sift(s, |s|, sub, s[sub - 1]);
    assert s[sub - 1 := s[sub - 1]] == s && s[..|s|] == s && r[..|s|] == r;
    SiftHeap(s, |s|, sub, sub, s[sub - 1]);
    SiftPermutes(s, |s|, sub, s[sub - 1]);
  }

  /** Turns the segment into a heap, from the last inner node up. */
  method HeapArray(A: array<nat>, base: nat, len: nat)
    requires base + len <= A.Length
    modifies A
    ensures HeapingAt(old(A[..]), A[..], base, len, 1)
  {
    HeapStart(A[..], base, len);
    hide HeapingAt, SiftAt;
    for sub: nat := len / 2 downto 0
      invariant HeapingAt(old(A[..]), A[..], base, len, sub + 1)
    {
      HeapStep(old(A[..]), A[..], base, len, sub + 1);
      HeapSub(A, base, len, len, sub + 1);
    }
  }

  /** `s` is a heap of its first `k` elements below a sorted tail. */
  ghost predicate HeapThenSorted(s: seq<nat>, k: nat)
    requires k <= |s|
  {
    && HeapFrom(s, k, 1)
    && SortedSeq(s[k..])
    && forall i, j :: 0 <= i < k <= j < |s| ==> s[i] <= s[j]
  }

  /** One extraction: the root goes to the end of the heap, the displaced element sinks. */
  function Extract(s: seq<nat>, k: nat): (r: seq<nat>)
    requires 2 <= k <= |s|
    ensures |r| == |s|
  {
    Sift(s[k - 1 := s[0]], k - 1, 1, s[k - 1])
  }

  lemma ExtractKeeps(s: seq<nat>, k: nat)
    requires 2 <= k <= |s| && HeapThenSorted(s, k)
    ensures HeapThenSorted(Extract(s, k), k - 1)
    ensures multiset(Extract(s, k)) == multiset(s)
  {
    var u := s[k - 1 := s[0]];
    forall i | 0 <= i < k ensures s[i] <= s[0] { HeapMax(s, k, i + 1); }
    ExtractBelow(s, k);
    assert HeapFrom(Extract(s, k), k - 1, 1) by {
      assert HoleHeap(u, k - 1, 1, 1, s[k - 1]);
      SiftHeap(u, k - 1, 1, 1, s[k - 1]);
    }
    ExtractPermutes(s, k);
    ExtractTail(s, k);
    assert SortedSeq([s[0]] + s[k..]);
  }

  lemma ExtractTail(s: seq<nat>, k: nat)
    requires 2 <= k <= |s|
    ensures Extract(s, k)[k - 1..] == [s[0]] + s[k..]
  {
    var u := s[k - 1 := s[0]];
    SiftPermutes(u, k - 1, 1, s[k - 1]);
    hide Sift;
    assert u[k - 1..] == [s[0]] + s[k..];
  }

  lemma ExtractPermutes(s: seq<nat>, k: nat)
    requires 2 <= k <= |s|
    ensures multiset(Extract(s, k)) == multiset(s)
  {
    var w := s[k - 1 := s[0]][0 := s[k - 1]];
    SiftPermutes(s[k - 1 := s[0]], k - 1, 1, s[k - 1]);
    JoinPermutes(w, Extract(s, k), k - 1);
    hide Extract;
    assert w == s[0 := s[k - 1]][k - 1 := s[0]];
    SwapPermutes(s, 0, k - 1);
  }

  lemma JoinPermutes(a: seq<nat>, b: seq<nat>, k: nat)
    requires k <= |a| == |b| && multiset(a[..k]) == multiset(b[..k]) && a[k..] == b[k..]
    ensures multiset(a) == multiset(b)
  {
    assert a == a[..k] + a[k..] && b == b[..k] + b[k..];
  }

  lemma ExtractBelow(s: seq<nat>, k: nat)
    requires 2 <= k <= |s| && HeapThenSorted(s, k)
    requires forall i :: 0 <= i < k ==> s[i] <= s[0]
    ensures forall i, j :: 0 <= i < k - 1 <= j < |s| ==> Extract(s, k)[i] <= Extract(s, k)[j]
  {
    var u := s[k - 1 := s[0]];
    var r := Extract(s, k);
    var w := u[0 := s[k - 1]];
    SiftPermutes(u, k - 1, 1, s[k - 1]);
    hide Sift, HeapFrom;
    forall i, j | 0 <= i < k - 1 <= j < |s| ensures r[i] <= r[j] {
      assert r[i] in multiset(r[..k - 1]) by { assert r[i] == r[..k - 1][i]; }
      assert r[i] in multiset(w[..k - 1]);
      assert r[i] in w[..k - 1];
      assert r[j] == r[k - 1..][j - (k - 1)] == u[j];
    }
  }

  /** What the hole holds does not matter. */
  lemma {:induction false} SiftFromRoot(s: seq<nat>, len: nat, v: nat)
    requires 1 <= len <= |s|
    ensures Sift(s[0 := v], len, 1, v) == Sift(s, len, 1, v)
  {
    var t := s[0 := v];
    assert t[0 := v] == s[0 := v];
    if 2 <= len {
      var c := Child(s, len, 1);
      assert Child(t, len, 1) == c;
      assert t[0 := t[c - 1]] == s[0 := s[c - 1]];
    }
  }

  /** The segment is a permutation of the original one, a heap of `k` below a sorted tail. */
  ghost predicate SortingAt(orig: seq<nat>, a: seq<nat>, base: nat, len: nat, k: nat) {
    k <= len && PermutedAt(orig, a, base, len) && HeapThenSorted(Seg(a, base, len), k)
  }

  lemma SortStart(orig: seq<nat>, a: seq<nat>, base: nat, len: nat)
    requires HeapingAt(orig, a, base, len, 1)
    ensures SortingAt(orig, a, base, len, len)
  {
  }

  lemma SortStep(orig: seq<nat>, a: seq<nat>, base: nat, len: nat, k: nat)
    requires 2 <= k <= len && SortingAt(orig, a, base, len, k)
    ensures var b := a[base + k - 1 := a[base]][base := a[base + k - 1]];
      SortingAt(orig, SiftAt(b, base, len, k - 1, 1, a[base + k - 1]), base, len, k - 1)
  {
    var s := Seg(a, base, len);
    var b := a[base + k - 1 := a[base]][base := a[base + k - 1]];
    SegUpdate(a, base, len, k - 1, s[0]);
    SegUpdate(a[base + k - 1 := s[0]], base, len, 0, s[k - 1]);
    SiftFromRoot(s[k - 1 := s[0]], k - 1, s[k - 1]);
    ExtractKeeps(s, k);
    PutSegTwice(orig, base, s, s[k - 1 := s[0]]);
    PutSegTwice(orig, base, s[k - 1 := s[0]], s[k - 1 := s[0]][0 := s[k - 1]]);
    PutSegTwice(orig, base, s[k - 1 := s[0]][0 := s[k - 1]], Extract(s, k));
    hide HeapThenSorted, PutSeg, Sift;
  }

  lemma SortDone(orig: seq<nat>, a: seq<nat>, base: nat, len: nat, k: nat)
    requires k < 2 && SortingAt(orig, a, base, len, k)
    ensures SortedSeq(Seg(a, base, len)) && PermutedAt(orig, a, base, len)
  {
    var s := Seg(a, base, len);
    assert s == s[..k] + s[k..];
  }

  method Sort(A: array<nat>, base: nat, len: nat)
    requires base + len <= A.Length
    modifies A
    ensures SortedSeq(Seg(A[..], base, len)) && PermutedAt(old(A[..]), A[..], base, len)
  {
    HeapArray(A, base, len);
    SortStart(old(A[..]), A[..], base, len);
    hide SortingAt, SiftAt, PermutedAt, SortedSeq;
    var n := len;
    while n >= 2
      invariant 0 <= n <= len
      invariant SortingAt(old(A[..]), A[..], base, len, n)
    {
      ghost var a := A[..];
      SortStep(old(A[..]), a, base, len, n);
      var tmp := A[base + n - 1];
      A[base + n - 1] := A[base];
      A[base] := tmp;
      assert A[..] == a[base + n - 1 := a[base]][base := a[base + n - 1]];
      HeapSub(A, base, len, n - 1, 1);
      n := n - 1;
    }
    SortDone(old(A[..]), A[..], base, len, n);
  }
}
