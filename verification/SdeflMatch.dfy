/** Finding matches (`sdefl_fnd`) and maintaining the hash chains. */
module SdeflMatch {
  import opened Bits
  import opened MatchCodes
  import opened SdeflFlush
  import opened SdeflParse

  const NIL: int := -1

  // ----------------------------------------------------------------- chains

  /** The table holds the last inserted position of every hash, and `prv` still holds, for the positions inserted
      in the last `WIN_SIZ` places before `i`, the one inserted before them with the same hash, whatever was
      written to it since. */
  ghost predicate Chains(tbl: seq<int>, prv: seq<int>, input: seq<byte>, K: set<nat>, i: nat) {
    && |tbl| == HASH_SIZ && |prv| == WIN_SIZ
    && (forall j :: j in K ==> j < i && j + 4 <= |input|)
    && (forall h: nat :: h < HASH_SIZ ==> tbl[h] == Last(input, K, i, h))
    && (forall j :: j in K && j + WIN_SIZ >= i ==> prv[j % WIN_SIZ] == Last(input, K, j, HashAt(input, j)))
  }

  lemma ChainsEmpty(tbl: seq<int>, prv: seq<int>, input: seq<byte>)
    requires |tbl| == HASH_SIZ && |prv| == WIN_SIZ && forall h :: 0 <= h < |tbl| ==> tbl[h] == NIL
    ensures Chains(tbl, prv, input, {}, 0)
  {
  }

  lemma ChainsLater(tbl: seq<int>, prv: seq<int>, input: seq<byte>, K: set<nat>, i: nat, k: nat)
    requires Chains(tbl, prv, input, K, i) && i <= k
    ensures Chains(tbl, prv, input, K, k)
  {
    forall h: nat | h < HASH_SIZ ensures tbl[h] == Last(input, K, k, h) { LastLater(input, K, i, k, h); }
  }

  lemma SlotDiffers(j: nat, i: nat)
    requires j < i <= j + 32767
    ensures j % 32768 != i % 32768
  {
  }

  /** Inserting position `i`. */
  lemma ChainsInsert(tbl: seq<int>, prv: seq<int>, input: seq<byte>, K: set<nat>, i: nat)
    requires Chains(tbl, prv, input, K, i) && i + 4 <= |input|
    ensures |tbl| == HASH_SIZ && |prv| == 32768
    ensures var h := Hash32(input, i);
      Chains(tbl[h := i], prv[i % 32768 := tbl[h]], input, K + {i}, i + 1)
  {
    hide Hash32;
    var h := Hash32(input, i);
    var tbl', prv', L := tbl[h := i], prv[i % 32768 := tbl[h]], K + {i};
    forall g: nat | g < HASH_SIZ ensures tbl'[g] == Last(input, L, i + 1, g) {
      LastSame(input, K, L, i, g);
    }
    forall j | j in L && j + WIN_SIZ >= i + 1 ensures prv'[j % WIN_SIZ] == Last(input, L, j, HashAt(input, j)) {
      LastSame(input, K, L, j, HashAt(input, j));
      if j != i { SlotDiffers(j, i); }
    }
  }

  lemma ChainHead(tbl: seq<int>, prv: seq<int>, input: seq<byte>, K: set<nat>, i: nat, p: nat)
    requires Chains(tbl, prv, input, K, i) && i <= p && p + 4 <= |input|
    ensures |tbl| == HASH_SIZ && tbl[Hash32(input, p)] == Last(input, K, p, HashAt(input, p))
  {
    hide Hash32;
    LastLater(input, K, i, p, Hash32(input, p));
  }

  /** Following a chain inside the window. */
  lemma ChainNext(tbl: seq<int>, prv: seq<int>, input: seq<byte>, K: set<nat>, i: nat, j: nat, p: nat)
    requires Chains(tbl, prv, input, K, i) && j in K && i <= p && j > p - WIN_SIZ
    ensures |prv| == 32768 && prv[j % 32768] == Last(input, K, j, HashAt(input, j)) && j < p
  {
  }

  // ----------------------------------------------------------------- search

  lemma CommonNext(input: seq<byte>, p: nat, j: nat, n: nat, max: nat)
    requires j < p && n <= max && p + max <= |input|
    ensures n < max && input[j + n] == input[p + n]
      ==> Common(input, p, j, n, max) == Common(input, p, j, n + 1, max)
    ensures !(n < max && input[j + n] == input[p + n]) ==> Common(input, p, j, n, max) == n
  {
  }

  lemma FirstFour(input: seq<byte>, p: nat, j: nat, max: nat)
    requires j < p && 4 <= max && p + max <= |input| && Load32(input, j) == Load32(input, p)
    ensures Common(input, p, j, 0, max) == Common(input, p, j, 4, max)
  {
    LoadEqual(input, j, p);
    hide Load32, Common;
    forall k | p <= k < p + 4 ensures input[k] == input[j + (k - p)] { assert k - (p - j) == j + (k - p); }
    assert input[p] == input[j] && input[p + 1] == input[j + 1] && input[p + 2] == input[j + 2]
      && input[p + 3] == input[j + 3];
    CommonNext(input, p, j, 0, max);
    CommonNext(input, p, j, 1, max);
    CommonNext(input, p, j, 2, max);
    CommonNext(input, p, j, 3, max);
  }

  lemma LengthFrom(input: seq<byte>, p: nat, j: nat, max: nat)
    requires j < p && 4 <= max && p + max <= |input| && Common(input, p, j, 0, max) == Common(input, p, j, 4, max)
    ensures MatchLength(input, p, j, max) == Common(input, p, j, 4, max)
  {
    hide Common;
  }

  /** How far the bytes at `j` and `p` agree, if the first four do. */
  method Extend(input: seq<byte>, j: nat, p: nat, max: nat) returns (n: nat)
    requires j < p && 4 <= max && p + max <= |input| && Load32(input, j) == Load32(input, p)
    ensures 4 <= n <= max && n == MatchLength(input, p, j, max)
  {
    hide Common, MatchLength, Load32;
    FirstFour(input, p, j, max);
    LengthFrom(input, p, j, max);
    n := 4;
    while n < max && input[j + n] == input[p + n]
      invariant 4 <= n <= max && Common(input, p, j, 4, max) == Common(input, p, j, n, max)
    {
      CommonNext(input, p, j, n, max);
      n := n + 1;
    }
    CommonNext(input, p, j, n, max);
  }

  lemma MatchByte(input: seq<byte>, p: nat, j: nat, n: nat, k: nat)
    requires MatchAt(input, p, j, n) && k < n
    ensures j < p && p + n <= |input| && input[p + k] == input[j + k]
  {
    assert p <= p + k < p + n && (p + k) - (p - j) == j + k;
  }

  lemma MatchLoads(input: seq<byte>, p: nat, j: nat, n: nat)
    requires MatchAt(input, p, j, n) && 4 <= n
    ensures j < p && p + n <= |input| && Load32(input, j) == Load32(input, p)
  {
    MatchByte(input, p, j, n, 0);
    MatchByte(input, p, j, n, 1);
    MatchByte(input, p, j, n, 2);
    MatchByte(input, p, j, n, 3);
  }

  /** A candidate that is passed over has no longer match. */
  lemma PassedOver(input: seq<byte>, p: nat, j: nat, len: nat, max: nat)
    requires j < p && p + max <= |input| && len < max && 4 <= max
    requires input[j + len] != input[p + len] || Load32(input, j) != Load32(input, p)
    ensures MatchLength(input, p, j, max) <= len
  {
    hide Load32, MatchAt, MatchLength;
    var n := MatchLength(input, p, j, max);
    LengthRange(input, p, j, max);
    if n > len {
      MatchLengthIs(input, p, j, max, n);
      MatchLoads(input, p, j, n);
      MatchByte(input, p, j, n, len);
      assert false;
    }
  }

  /** A match of the greatest length is not replaced. */
  lemma {:induction false} BestStays(input: seq<byte>, p: nat, max: nat, cs: seq<int>, ds: seq<int>)
    requires Best(input, p, max, cs).len == max
    ensures Best(input, p, max, cs + ds) == Best(input, p, max, cs)
    decreases |ds|
  {
    hide MatchLength, Best;
    if ds == [] {
      assert cs + ds == cs;
    } else {
      var n := |ds| - 1;
      BestStays(input, p, max, cs, ds[..n]);
      assert cs + ds == (cs + ds[..n]) + [ds[n]];
      BestNext(input, p, max, cs + ds[..n], ds[n]);
      LengthRange(input, p, ds[n], max);
    }
  }

  lemma CandsMore(input: seq<byte>, K: set<nat>, p: nat, i: nat, h: nat, n: nat)
    ensures var j := Last(input, K, i, h);
      if n == 0 || j < 0 || j <= p - 32768 then Cands(input, K, p, i, h, n) == []
      else Cands(input, K, p, i, h, n) == [j] + Cands(input, K, p, j, h, n - 1)
  {
    hide Last;
  }

  lemma LastIn(input: seq<byte>, K: set<nat>, i: nat, h: nat, tbl: seq<int>, prv: seq<int>, e: nat)
    requires Last(input, K, i, h) >= 0 && Chains(tbl, prv, input, K, e)
    ensures var j := Last(input, K, i, h); j in K && HashAt(input, j) == h && j + 4 <= |input|
  {
    LastIs(input, K, i, h);
    hide Last, HashAt;
  }

  lemma BestNone(input: seq<byte>, p: nat, max: nat)
    ensures Best(input, p, max, []) == Found(0, 0)
  {
  }

  lemma SearchIs(input: seq<byte>, K: set<nat>, p: nat, chain: nat, max: nat)
    ensures Search(input, K, p, chain, max) == Best(input, p, max, Cands(input, K, p, p, HashAt(input, p), chain))
  {
  }

  lemma HashIs(input: seq<byte>, p: nat)
    requires p + 4 <= |input|
    ensures HashAt(input, p) == Hash32(input, p) < 32768
  {
    hide Hash32;
  }

  /** `sdefl_fnd`: the longest match at `p` of at most `max` bytes with one of the last `chain` inserted positions
      of its hash. If no more positions are in the window, no inserted position has a longer match, and none that
      is nearer has one as long. */
  method Find(s: Sdefl, chain: nat, max: nat, input: seq<byte>, p: nat, ghost K: set<nat>, ghost i: nat)
    returns (off: nat, len: nat)
    requires Chains(s.tbl[..], s.prv[..], input, K, i) && i <= p && chain > 0 && max > 4 && p + max <= |input|
    ensures Found(off, len) == Search(input, K, p, chain, max)
    ensures len == 0 || (4 <= len <= max && 1 <= off < WIN_SIZ && off <= p && p - off in K && Agree(input, p, off, len))
    ensures |Window(K, p)| <= chain ==>
      (forall j, n :: j in K && p - WIN_SIZ < j < p && 4 <= n <= max && MatchAt(input, p, j, n)
         ==> n < len || (n == len && j <= p - off))
  {
    hide *;
    SearchSound(input, K, p, chain, max);
    if |Window(K, p)| <= chain {
      SearchFinds(input, K, p, chain, max);
      GreatestIs(input, K, p, Search(input, K, p, chain, max), max);
    }
    off, len := Walk(s, chain, max, input, p, K, i);
  }

  lemma GreatestIs(input: seq<byte>, K: set<nat>, p: nat, m: Found, max: nat)
    requires Greatest(input, K, p, m, max)
    ensures (forall j, n :: j in K && p - WIN_SIZ < j < p && 4 <= n <= max && MatchAt(input, p, j, n)
               ==> n < m.len || (n == m.len && j <= p - m.off))
  {
    hide MatchAt;
  }

  /** The loop of `sdefl_fnd`. */
  method Walk(s: Sdefl, chain: nat, max: nat, input: seq<byte>, p: nat, ghost K: set<nat>, ghost i: nat)
    returns (off: nat, len: nat)
    requires Chains(s.tbl[..], s.prv[..], input, K, i) && i <= p && chain > 0 && max > 4 && p + max <= |input|
    ensures Found(off, len) == Search(input, K, p, chain, max)
  {
    hide *;
    WinSize();
    ChainHead(s.tbl[..], s.prv[..], input, K, i, p);
    HashIs(input, p);
    SearchIs(input, K, p, chain, max);
    BestNone(input, p, max);
    off, len := 0, 0;
    var left := chain;
    var at := s.tbl[Hash32(input, p)];
    var limit: int := if p - 32768 < -1 then -1 else p - 32768;
    ghost var h, q: nat, seen: seq<int> := HashAt(input, p), p, [];
    ghost var all := Cands(input, K, p, p, h, chain);
    while at > limit
      invariant left > 0 && len < max && at == Last(input, K, q, h) && at < p
      invariant all == seen + Cands(input, K, p, q, h, left) && Found(off, len) == Best(input, p, max, seen)
      decreases left
    {
      CandsMore(input, K, p, q, h, left);
      LastIn(input, K, q, h, s.tbl[..], s.prv[..], i);
      ChainNext(s.tbl[..], s.prv[..], input, K, i, at, p);
      BestNext(input, p, max, seen, at);
      assert all == (seen + [at]) + Cands(input, K, p, at, h, left - 1);
      seen, q := seen + [at], at;
      if input[at + len] == input[p + len] && Load32(input, at) == Load32(input, p) {
        var n := Extend(input, at, p, max);
        if n > len {
          len, off := n, p - at;
          if n == max {
            BestStays(input, p, max, seen, Cands(input, K, p, at, h, left - 1));
            return;
          }
        }
      } else {
        PassedOver(input, p, at, len, max);
      }
      left := left - 1;
      if left == 0 {
        CandsMore(input, K, p, q, h, 0);
        assert all == seen;
        return;
      }
      at := s.prv[at % 32768];
    }
    CandsMore(input, K, p, q, h, left);
    assert all == seen;
  }

  lemma WinSize()
    ensures WIN_SIZ == 32768 && NIL == -1
  {
  }

  // ---------------------------------------------------------------- inserting

  /** Moves on by `run` steps of `inc` bytes, inserting every position it stops at. */
  method Insert(s: Sdefl, input: seq<byte>, i: nat, run: nat, inc: nat, ghost K: set<nat>)
    returns (i': nat, ghost K': set<nat>)
    requires s.Shape() && Chains(s.tbl[..], s.prv[..], input, K, i)
    requires inc > 0 && i + run * inc + 4 < |input|
    modifies s.tbl, s.prv
    ensures i' == i + run * inc && Chains(s.tbl[..], s.prv[..], input, K', i')
    ensures K' == K + set j: nat | i <= j < i + run * inc && OnGrid(i, inc, j)
  {
    hide *;
    WinSize();
    Lengths(s);
    i', K' := i, K;
    var n: nat := run;
    NoStops(K, i, inc);
    while n > 0
      invariant n <= run && i' + n * inc == i + run * inc && Chains(s.tbl[..], s.prv[..], input, K', i')
      invariant i <= i' && OnGrid(i, inc, i') && K' == K + Stops(i, i', inc)
      decreases n
    {
      Step(i', n, inc);
      HashIs(input, i');
      var h := Hash32(input, i');
      ghost var tbl, prv := s.tbl[..], s.prv[..];
      ChainsInsert(tbl, prv, input, K', i');
      s.prv[i' % 32768] := s.tbl[h];
      s.tbl[h] := i';
      assert s.tbl[..] == tbl[h := i'] && s.prv[..] == prv[i' % 32768 := tbl[h]];
      ChainsLater(s.tbl[..], s.prv[..], input, K' + {i'}, i' + 1, i' + inc);
      StopsNext(i, i', inc);
      K' := K' + {i'};
      i' := i' + inc;
      n := n - 1;
    }
    assert n == 0;
    Stop(n, inc);
    StopsAre(i, i', inc);
  }

  lemma NoStops(K: set<nat>, i: nat, inc: nat)
    requires inc > 0
    ensures K == K + Stops(i, i, inc) && OnGrid(i, inc, i)
  {
  }

  lemma StopsNext(i: nat, k: nat, inc: nat)
    requires i <= k && OnGrid(i, inc, k)
    ensures inc > 0 && Stops(i, k + inc, inc) == Stops(i, k, inc) + {k} && OnGrid(i, inc, k + inc)
  {
    forall j: nat | k < j < k + inc ensures !OnGrid(i, inc, j) { GridGap(k - i, j - k, inc); }
    GridStep(k - i, inc);
  }

  lemma GridGap(a: nat, d: nat, inc: nat)
    requires 0 < d < inc && a % inc == 0
    ensures (a + d) % inc != 0
  {
    var q := a / inc;
    assert a + d == q * inc + d;
    if (a + d) % inc == 0 {
      var r := (a + d) / inc;
      assert r * inc == q * inc + d;
      if r <= q { MulMono(r, q, inc); } else { MulMono(q + 1, r, inc); }
    }
  }

  lemma GridStep(a: nat, inc: nat)
    requires inc > 0 && a % inc == 0
    ensures (a + inc) % inc == 0
  {
    var q, r, rest := a / inc, (a + inc) / inc, (a + inc) % inc;
    assert a == q * inc && a + inc == r * inc + rest && a + inc == (q + 1) * inc;
    if r <= q { MulMono(r, q, inc); } else { MulMono(q + 1, r, inc); }
  }

  lemma StopsAre(i: nat, end: nat, inc: nat)
    ensures Stops(i, end, inc) == set j: nat | i <= j < end && OnGrid(i, inc, j)
  {
  }

  lemma Step(i: nat, n: nat, inc: nat)
    requires n > 0 && inc > 0
    ensures i + n * inc == (i + inc) + (n - 1) * inc && i + n * inc >= i + inc
  {
    assert n * inc == (n - 1) * inc + inc;
    MulMono(0, n - 1, inc);
  }

  lemma Stop(n: nat, inc: nat)
    requires n == 0
    ensures n * inc == 0
  {
  }

  lemma Lengths(s: Sdefl)
    requires s.Shape()
    ensures s.tbl.Length == HASH_SIZ && s.prv.Length == 32768 && s.tbl != s.prv
  {
  }
}
