/** Collecting the used symbols in order of frequency (`sdefl_sort_sym`). */
module HuffSort {
  import opened Canonical
  import HeapSort

  const SYM_MAX: nat := 288
  const SYM_RANGE: nat := 1024  // symbol in the ten low bits, frequency above

  /** SDEFL_CNT_NUM: the next multiple of four. */
  function CntNum(n: nat): nat { (n + 3) / 4 * 4 }

  function Packed(sym: nat, freq: nat): nat { sym + freq * SYM_RANGE }

  /** `a` lists every symbol of non-zero frequency exactly once, rarest first. */
  ghost predicate SortedSyms(a: seq<nat>, f: seq<nat>) {
    && (forall i :: 0 <= i < |a| ==> IsPacked(a[i], f))
    && (forall i, j :: 0 <= i < j < |a| ==> a[i] % SYM_RANGE != a[j] % SYM_RANGE)
    && (forall s :: 0 <= s < |f| && f[s] > 0 ==> Packed(s, f[s]) in a)
    && (forall i, j :: 0 <= i < j < |a| ==> a[i] / SYM_RANGE <= a[j] / SYM_RANGE)
  }

  /** `v` packs a used symbol with its frequency. */
  predicate IsPacked(v: nat, f: seq<nat>) {
    v % SYM_RANGE < |f| && f[v % SYM_RANGE] > 0 && v / SYM_RANGE == f[v % SYM_RANGE]
  }

  /** The counting bucket of a frequency; bucket `cap` collects all large ones. */
  function Key(freq: nat, cap: nat): nat { if freq < cap then freq else cap }

  function Keys(f: seq<nat>, cap: nat): (k: seq<nat>)
    ensures |k| == |f|
  {
    seq(|f|, s requires 0 <= s < |f| => Key(f[s], cap))
  }

  /** Number of used symbols in buckets below `idx`. */
  function Start(keys: seq<nat>, idx: nat): nat {
    if idx <= 1 then 0 else Start(keys, idx - 1) + Count(keys, idx - 1)
  }

  /** Where the counting sort puts symbol `s`. */
  function Pos(keys: seq<nat>, s: nat): nat
    requires s < |keys|
  {
    Start(keys, keys[s]) + Count(keys[..s], keys[s])
  }

  lemma {:induction false} StartMono(keys: seq<nat>, i: nat, j: nat)
    requires i <= j
    ensures Start(keys, i) <= Start(keys, j)
    decreases j
  {
    if i < j { StartMono(keys, i, j - 1); }
  }

  /** Symbols of lower buckets come first, and within a bucket in symbol order. */
  lemma PosOrder(keys: seq<nat>, s: nat, t: nat)
    requires s < |keys| && t < |keys| && keys[s] > 0
    requires keys[s] < keys[t] || (keys[s] == keys[t] && s < t)
    ensures Pos(keys, s) < Pos(keys, t)
  {
    RankBelow(keys, s);
    if keys[s] < keys[t] {
      StartMono(keys, keys[s] + 1, keys[t]);
    } else {
      RankOrder(keys, s, t);
    }
  }

  lemma PosBelow(keys: seq<nat>, s: nat, cap: nat)
    requires s < |keys| && 0 < keys[s] <= cap
    ensures Pos(keys, s) < Start(keys, keys[s] + 1) <= Start(keys, cap + 1)
  {
    RankBelow(keys, s);
    StartMono(keys, keys[s] + 1, cap + 1);
  }

  /** Every position below the number of used symbols is some symbol's. */
  lemma {:induction false} PosTaken(keys: seq<nat>, idx: nat, i: nat) returns (s: nat)
    requires i < Start(keys, idx)
    ensures s < |keys| && 0 < keys[s] < idx && Pos(keys, s) == i
    decreases idx
  {
    if i < Start(keys, idx - 1) {
      s := PosTaken(keys, idx - 1, i);
    } else {
      s := RankTaken(keys, idx - 1, i - Start(keys, idx - 1));
    }
  }

  /** `a` is what the counting sort produced. */
  ghost predicate Bucketed(a: seq<nat>, f: seq<nat>, cap: nat) {
    && |a| == Start(Keys(f, cap), cap + 1)
    && forall s :: 0 <= s < |f| && f[s] > 0 ==>
         Pos(Keys(f, cap), s) < |a| && a[Pos(Keys(f, cap), s)] == Packed(s, f[s])
  }

  lemma BucketAt(a: seq<nat>, f: seq<nat>, cap: nat, i: nat) returns (s: nat)
    requires cap > 0 && |f| <= SYM_RANGE && Bucketed(a, f, cap) && i < |a|
    ensures s < |f| && f[s] > 0 && a[i] == Packed(s, f[s]) && Pos(Keys(f, cap), s) == i
    ensures a[i] % SYM_RANGE == s && a[i] / SYM_RANGE == f[s] && IsPacked(a[i], f)
  {
    s := PosTaken(Keys(f, cap), cap + 1, i);
  }

  lemma PackedAll(a: seq<nat>, b: seq<nat>, f: seq<nat>, cap: nat)
    requires cap > 0 && |f| <= SYM_RANGE && Bucketed(a, f, cap) && multiset(a) == multiset(b)
    ensures forall i :: 0 <= i < |b| ==> IsPacked(b[i], f)
  {
    hide Bucketed, IsPacked, Keys, Pos;
    forall i | 0 <= i < |b| ensures IsPacked(b[i], f) {
      assert b[i] in multiset(a);
      var j :| 0 <= j < |a| && a[j] == b[i];
      var s := BucketAt(a, f, cap, j);
    }
  }

  lemma HasAll(a: seq<nat>, b: seq<nat>, f: seq<nat>, cap: nat)
    requires Bucketed(a, f, cap) && multiset(a) == multiset(b)
    ensures forall s :: 0 <= s < |f| && f[s] > 0 ==> Packed(s, f[s]) in b
  {
    hide Pos, Keys, Start, Packed;
    forall s | 0 <= s < |f| && f[s] > 0 ensures Packed(s, f[s]) in b {
      assert Packed(s, f[s]) in multiset(a);
    }
  }

  /** Sorting the last bucket by value completes the order. */
  lemma LastBucket(a: seq<nat>, b: seq<nat>, f: seq<nat>, cap: nat)
    requires cap > 0 && |f| <= SYM_RANGE && Bucketed(a, f, cap) && |b| == |a|
    requires Start(Keys(f, cap), cap) <= |a|
    requires var k := Start(Keys(f, cap), cap);
      && b[..k] == a[..k]
      && HeapSort.SortedSeq(b[k..])
      && HeapSort.Permutes(a[k..], b[k..])
    ensures SortedSyms(b, f)
  {
    hide Bucketed, IsPacked, Keys, Start, Packed;
    var k := Start(Keys(f, cap), cap);
    assert a == a[..k] + a[k..] && b == b[..k] + b[k..];
    assert multiset(b) == multiset(a);
    PackedAll(a, b, f, cap);
    HasAll(a, b, f, cap);
    BucketDistinct(a, b, f, cap);
    forall i, j | 0 <= i < j < |b| ensures b[i] / SYM_RANGE <= b[j] / SYM_RANGE {
      if i >= k {
        assert b[k..][i - k] <= b[k..][j - k];
      } else {
        BucketSorted(a, b, f, cap, i, j);
      }
    }
  }

  lemma BucketSorted(a: seq<nat>, b: seq<nat>, f: seq<nat>, cap: nat, i: nat, j: nat)
    requires cap > 0 && |f| <= SYM_RANGE && Bucketed(a, f, cap) && |b| == |a|
    requires i < Start(Keys(f, cap), cap) <= |a| && i < j < |a|
    requires var k := Start(Keys(f, cap), cap);
      b[..k] == a[..k] && HeapSort.Permutes(a[k..], b[k..])
    ensures b[i] / SYM_RANGE <= b[j] / SYM_RANGE
  {
    var keys := Keys(f, cap);
    var k := Start(keys, cap);
    assert b[i] == b[..k][i] == a[i];
    var s := BucketAt(a, f, cap, i);
    assert keys[s] < cap by {
      assert Start(keys, keys[s]) <= Pos(keys, s);
    }
    if j < k {
      assert b[j] == b[..k][j] == a[j];
      var t := BucketAt(a, f, cap, j);
      if keys[t] < keys[s] { PosOrder(keys, t, s); }
    } else {
      assert b[j] == b[k..][j - k] && b[j] in multiset(a[k..]);
      var j' :| 0 <= j' < |a[k..]| && a[k..][j'] == b[j];
      var t := BucketAt(a, f, cap, k + j');
      if keys[t] < cap { PosBelow(keys, t, cap - 1); }
    }
  }

  lemma BucketDistinct(a: seq<nat>, b: seq<nat>, f: seq<nat>, cap: nat)
    requires cap > 0 && |f| <= SYM_RANGE && Bucketed(a, f, cap) && |b| == |a|
    requires multiset(a) == multiset(b)
    ensures forall i, j :: 0 <= i < j < |b| ==> b[i] % SYM_RANGE != b[j] % SYM_RANGE
  {
    forall i, j | 0 <= i < j < |a| ensures a[i] != a[j] {
      var s := BucketAt(a, f, cap, i);
      var t := BucketAt(a, f, cap, j);
    }
    forall i, j | 0 <= i < j < |b| ensures b[i] % SYM_RANGE != b[j] % SYM_RANGE {
      assert b[i] in multiset(a) && b[j] in multiset(a);
      var i' :| 0 <= i' < |a| && a[i'] == b[i];
      var s := BucketAt(a, f, cap, i');
      var j' :| 0 <= j' < |a| && a[j'] == b[j];
      var t := BucketAt(a, f, cap, j');
      if b[i] == b[j] {
        TwiceInSeq(b, i, j);
        DistinctOnce(a, b[i]);
      }
    }
  }

  lemma TwiceInSeq(s: seq<nat>, i: nat, j: nat)
    requires i < j < |s| && s[i] == s[j]
    ensures multiset(s)[s[i]] >= 2
  {
    assert s == s[..j] + s[j..];
    assert s[i] in s[..j] by { assert s[..j][i] == s[i]; }
    assert s[j] in s[j..] by { assert s[j..][0] == s[j]; }
    assert multiset(s) == multiset(s[..j]) + multiset(s[j..]);
  }

  lemma {:induction false} DistinctOnce(s: seq<nat>, x: nat)
    requires forall i, j :: 0 <= i < j < |s| ==> s[i] != s[j]
    ensures multiset(s)[x] <= 1
  {
    if s != [] {
      var t := s[..|s| - 1];
      DistinctOnce(t, x);
      assert s == t + [s[|s| - 1]];
      if x == s[|s| - 1] { assert x !in t; }
    }
  }

  /** How many symbols fall in each bucket. */
  method CountKeys(freqs: array<nat>, cnts: array<nat>, cntNum: nat)
    requires 1 <= cntNum <= cnts.Length && freqs != cnts
    requires forall i :: 0 <= i < cntNum ==> cnts[i] == 0
    modifies cnts
    ensures forall i :: 0 <= i < cntNum ==> cnts[i] == Count(Keys(freqs[..], cntNum - 1), i)
  {
    ghost var keys := Keys(freqs[..], cntNum - 1);
    var sym := 0;
    while sym < freqs.Length
      invariant 0 <= sym <= freqs.Length && keys == Keys(freqs[..], cntNum - 1)
      invariant forall i :: 0 <= i < cntNum ==> cnts[i] == Count(keys[..sym], i)
    {
      var k := if freqs[sym] < cntNum - 1 then freqs[sym] else cntNum - 1;
      assert keys[..sym + 1][..sym] == keys[..sym] && keys[sym] == k;
      cnts[k] := cnts[k] + 1;
      sym := sym + 1;
    }
    assert keys[..sym] == keys;
  }

  lemma StartNext(keys: seq<nat>, i: nat)
    requires i >= 1
    ensures Start(keys, i + 1) == Start(keys, i) + Count(keys, i)
  {
  }

  /** The first `i` counts have been replaced by offsets. */
  ghost predicate OffsetsDone(c: seq<nat>, keys: seq<nat>, cntNum: nat, i: nat)
    requires cntNum <= |c|
  {
    && (forall j :: 1 <= j < i ==> j < cntNum ==> c[j] == Start(keys, j))
    && (forall j :: i <= j < cntNum ==> c[j] == Count(keys, j))
  }

  lemma OffsetStep(c: seq<nat>, keys: seq<nat>, cntNum: nat, i: nat)
    requires 1 <= i < cntNum <= |c| && OffsetsDone(c, keys, cntNum, i)
    ensures OffsetsDone(c[i := Start(keys, i)], keys, cntNum, i + 1)
    ensures Start(keys, i + 1) == Start(keys, i) + c[i]
  {
  }

  /** Turns bucket sizes into bucket offsets. */
  method Offsets(cnts: array<nat>, cntNum: nat, ghost keys: seq<nat>) returns (used: nat)
    requires 1 <= cntNum <= cnts.Length
    requires forall i :: 0 <= i < cntNum ==> cnts[i] == Count(keys, i)
    modifies cnts
    ensures used == Start(keys, cntNum)
    ensures forall j :: 1 <= j < cntNum ==> cnts[j] == Start(keys, j)
  {
    hide OffsetsDone, Start, Count;
    OffsetsInit(cnts[..], keys, cntNum);
    used := 0;
    var i := 1;
    while i < cntNum
      invariant 1 <= i <= cntNum && used == Start(keys, i)
      invariant OffsetsDone(cnts[..], keys, cntNum, i)
    {
      ghost var c := cnts[..];
      OffsetStep(c, keys, cntNum, i);
      var cnt := cnts[i];
      cnts[i] := used;
      assert cnts[..] == c[i := used];
      used := used + cnt;
      i := i + 1;
    }
    OffsetsEnd(cnts[..], keys, cntNum);
  }

  lemma OffsetsInit(c: seq<nat>, keys: seq<nat>, cntNum: nat)
    requires 1 <= cntNum <= |c| && forall i :: 0 <= i < cntNum ==> c[i] == Count(keys, i)
    ensures OffsetsDone(c, keys, cntNum, 1) && Start(keys, 1) == 0
  {
  }

  lemma OffsetsEnd(c: seq<nat>, keys: seq<nat>, cntNum: nat)
    requires 1 <= cntNum <= |c| && OffsetsDone(c, keys, cntNum, cntNum)
    ensures forall j :: 1 <= j < cntNum ==> c[j] == Start(keys, j)
  {
  }

  /** No two symbols share a position. */
  lemma PosDistinct(keys: seq<nat>, s: nat, t: nat)
    requires s < t < |keys| && keys[s] > 0 && keys[t] > 0
    ensures Pos(keys, s) != Pos(keys, t)
  {
    if keys[t] < keys[s] {
      PosOrder(keys, t, s);
    } else {
      PosOrder(keys, s, t);
    }
  }

  /** The offsets after the first `sym` symbols have been placed. */
  ghost predicate OffsetsAt(c: seq<nat>, keys: seq<nat>, sym: nat, cntNum: nat)
    requires cntNum <= |c| && sym <= |keys|
  {
    forall j :: 1 <= j < cntNum ==> c[j] == Start(keys, j) + Count(keys[..sym], j)
  }

  ghost predicate PlacedAt(a: seq<nat>, f: seq<nat>, keys: seq<nat>, sym: nat, used: nat)
    requires sym <= |f| == |keys| && used <= |a|
  {
    forall s :: 0 <= s < sym && f[s] > 0 ==>
      Pos(keys, s) < used && a[Pos(keys, s)] == Packed(s, f[s])
  }

  lemma PlaceStep(a: seq<nat>, c: seq<nat>, f: seq<nat>, sym: nat, cntNum: nat, used: nat)
    requires 2 <= cntNum <= |c| && sym < |f| && used <= |a|
    requires var keys := Keys(f, cntNum - 1);
      && used == Start(keys, cntNum)
      && OffsetsAt(c, keys, sym, cntNum) && PlacedAt(a, f, keys, sym, used)
    ensures var keys := Keys(f, cntNum - 1);
      var k := keys[sym];
      && k == (if f[sym] < cntNum - 1 then f[sym] else cntNum - 1)
      && if f[sym] == 0 then OffsetsAt(c, keys, sym + 1, cntNum) && PlacedAt(a, f, keys, sym + 1, used)
      else
        && c[k] == Pos(keys, sym) < used
        && OffsetsAt(c[k := c[k] + 1], keys, sym + 1, cntNum)
        && PlacedAt(a[c[k] := Packed(sym, f[sym])], f, keys, sym + 1, used)
  {
    var keys := Keys(f, cntNum - 1);
    assert keys[..sym + 1][..sym] == keys[..sym];
    if f[sym] != 0 {
      PosBelow(keys, sym, cntNum - 1);
      forall s | 0 <= s < sym && f[s] > 0 ensures Pos(keys, s) != Pos(keys, sym) {
        PosDistinct(keys, s, sym);
      }
    }
  }

  lemma PackedIs(sym: nat, freq: nat)
    ensures Packed(sym, freq) == sym + freq * SYM_RANGE
  {
  }

  lemma PlaceInit(a: seq<nat>, c: seq<nat>, f: seq<nat>, keys: seq<nat>, cntNum: nat, used: nat)
    requires cntNum <= |c| && |f| == |keys| && used <= |a|
    requires forall j :: 1 <= j < cntNum ==> c[j] == Start(keys, j)
    ensures OffsetsAt(c, keys, 0, cntNum) && PlacedAt(a, f, keys, 0, used)
  {
    assert keys[..0] == [];
  }

  lemma PlaceDone(a: seq<nat>, c: seq<nat>, f: seq<nat>, cntNum: nat, used: nat)
    requires 2 <= cntNum <= |c| && used <= |a|
    requires var keys := Keys(f, cntNum - 1);
      && used == Start(keys, cntNum)
      && OffsetsAt(c, keys, |f|, cntNum) && PlacedAt(a, f, keys, |f|, used)
    ensures Bucketed(a[..used], f, cntNum - 1)
    ensures forall j :: 1 <= j < cntNum ==> c[j] == Start(Keys(f, cntNum - 1), j + 1)
  {
    var keys := Keys(f, cntNum - 1);
    assert keys[..|f|] == keys;
  }

  /** The lengths of the unused ones of the first `sym` symbols are cleared. */
  ghost predicate Cleared(now: seq<nat>, was: seq<nat>, f: seq<nat>, sym: nat) {
    |now| == |was| == |f| && forall s :: 0 <= s < |f| ==> now[s] == if s < sym && f[s] == 0 then 0 else was[s]
  }

  lemma ClearStep(now: seq<nat>, was: seq<nat>, f: seq<nat>, sym: nat)
    requires Cleared(now, was, f, sym) && sym < |f|
    ensures |now| == |f| && Cleared(if f[sym] == 0 then now[sym := 0] else now, was, f, sym + 1)
  {
  }

  /** Puts symbol `sym` in its bucket, or clears its length. */
  method PlaceOne(freqs: array<nat>, lens: array<nat>, symOut: array<nat>, cnts: array<nat>, cntNum: nat, sym: nat,
                  ghost used: nat)
    requires 2 <= cntNum <= cnts.Length && lens.Length == symOut.Length == freqs.Length
    requires freqs != lens && freqs != symOut && lens != symOut
    requires cnts != freqs && cnts != lens && cnts != symOut
    requires sym < freqs.Length && used == Start(Keys(freqs[..], cntNum - 1), cntNum) <= freqs.Length
    requires OffsetsAt(cnts[..], Keys(freqs[..], cntNum - 1), sym, cntNum)
    requires PlacedAt(symOut[..], freqs[..], Keys(freqs[..], cntNum - 1), sym, used)
    modifies lens, symOut, cnts
    ensures OffsetsAt(cnts[..], Keys(freqs[..], cntNum - 1), sym + 1, cntNum)
    ensures PlacedAt(symOut[..], freqs[..], Keys(freqs[..], cntNum - 1), sym + 1, used)
    ensures lens[..] == if freqs[sym] == 0 then old(lens[..])[sym := 0] else old(lens[..])
  {
    hide *;
    var freq := freqs[sym];
    ghost var f, a, c := freqs[..], symOut[..], cnts[..];
    PlaceStep(a, c, f, sym, cntNum, used);
    if freq != 0 {
      var idx := if freq < cntNum - 1 then freq else cntNum - 1;
      PackedIs(sym, freq);
      symOut[cnts[idx]] := sym + freq * SYM_RANGE;
      assert symOut[..] == a[c[idx] := Packed(sym, freq)];
      cnts[idx] := cnts[idx] + 1;
      assert cnts[..] == c[idx := c[idx] + 1];
    } else {
      lens[sym] := 0;
    }
  }

  /** Puts every used symbol in its bucket and clears the lengths of the others. */
  method Place(freqs: array<nat>, lens: array<nat>, symOut: array<nat>, cnts: array<nat>,
               cntNum: nat, ghost used: nat)
    requires 2 <= cntNum <= cnts.Length && lens.Length == symOut.Length == freqs.Length
    requires freqs != lens && freqs != symOut && lens != symOut
    requires cnts != freqs && cnts != lens && cnts != symOut
    requires used == Start(Keys(freqs[..], cntNum - 1), cntNum) <= freqs.Length
    requires forall j :: 1 <= j < cntNum ==> cnts[j] == Start(Keys(freqs[..], cntNum - 1), j)
    modifies lens, symOut, cnts
    ensures Bucketed(symOut[..used], freqs[..], cntNum - 1)
    ensures forall j :: 1 <= j < cntNum ==> cnts[..][j] == Start(Keys(freqs[..], cntNum - 1), j + 1)
    ensures Cleared(lens[..], old(lens[..]), freqs[..], freqs.Length)
  {
    hide *;
    var n := freqs.Length;
    ghost var f := freqs[..];
    ghost var keys := Keys(f, cntNum - 1);
    PlaceInit(symOut[..], cnts[..], f, keys, cntNum, used);
    ClearInit(lens[..], f);
    var sym := 0;
    while sym < n
      invariant sym <= n && freqs[..] == f
      invariant OffsetsAt(cnts[..], keys, sym, cntNum)
      invariant PlacedAt(symOut[..], f, keys, sym, used)
      invariant Cleared(lens[..], old(lens[..]), f, sym)
    {
      ClearStep(lens[..], old(lens[..]), f, sym);
      PlaceOne(freqs, lens, symOut, cnts, cntNum, sym, used);
      sym := sym + 1;
    }
    PlaceDone(symOut[..], cnts[..], f, cntNum, used);
  }

  lemma ClearInit(lens: seq<nat>, f: seq<nat>)
    requires |lens| == |f|
    ensures Cleared(lens, lens, f, 0)
  {
  }

  lemma TailSorted(old_: seq<nat>, new_: seq<nat>, base: nat, used: nat, f: seq<nat>, cap: nat)
    requires cap > 0 && |f| <= SYM_RANGE
    requires base == Start(Keys(f, cap), cap) <= used <= |old_|
    requires Bucketed(old_[..used], f, cap)
    requires HeapSort.PermutedAt(old_, new_, base, used - base)
    requires HeapSort.SortedSeq(HeapSort.Seg(new_, base, used - base))
    ensures SortedSyms(new_[..used], f)
  {
    var a, b := old_[..used], new_[..used];
    assert b[..base] == a[..base];
    assert b[base..] == HeapSort.Seg(new_, base, used - base);
    assert a[base..] == HeapSort.Seg(old_, base, used - base);
    hide Bucketed, HeapSort.SortedSeq, SortedSyms, HeapSort.Permutes, Start, Keys;
    LastBucket(a, b, f, cap);
  }

  /** Heap sorts the last bucket. */
  method SortTail(symOut: array<nat>, base: nat, used: nat, ghost f: seq<nat>, ghost cap: nat)
    requires cap > 0 && |f| <= SYM_RANGE
    requires base == Start(Keys(f, cap), cap) <= used <= symOut.Length
    requires Bucketed(symOut[..used], f, cap)
    modifies symOut
    ensures SortedSyms(symOut[..used], f)
  {
    ghost var a := symOut[..];
    assert a[..used] == symOut[..used];
    HeapSort.Sort(symOut, base, used - base);
    TailSorted(a, symOut[..], base, used, f, cap);
    assert symOut[..][..used] == symOut[..used];
  }

  /** sdefl_sort_sym: a counting sort whose last bucket is heap sorted. */
  method SortSym(freqs: array<nat>, lens: array<nat>, symOut: array<nat>) returns (used: nat)
    requires 0 < freqs.Length <= SYM_MAX
    requires lens.Length == symOut.Length == freqs.Length
    requires freqs != lens && freqs != symOut && lens != symOut
    modifies lens, symOut
    ensures used <= freqs.Length && SortedSyms(symOut[..used], freqs[..])
    ensures forall s :: 0 <= s < freqs.Length ==>
      lens[s] == if freqs[s] == 0 then 0 else old(lens[s])
  {
    var cntNum := CntNum(freqs.Length);
    ghost var f, cap := freqs[..], cntNum - 1;
    ghost var keys := Keys(f, cap);
    StartMono(keys, cap, cntNum);
    UsedBound(keys, cntNum);
    var cnts := new nat[CntNum(SYM_MAX)](_ => 0);
    hide Count, Start, Keys, Bucketed, SortedSyms;
    CountKeys(freqs, cnts, cntNum);
    used := Offsets(cnts, cntNum, keys);
    Place(freqs, lens, symOut, cnts, cntNum, used);
    assert cnts[..][cntNum - 2] == cnts[cntNum - 2] && cnts[..][cntNum - 1] == cnts[cntNum - 1];
    SortTail(symOut, cnts[cntNum - 2], cnts[cntNum - 1], f, cap);
  }

  lemma {:induction false} UsedBound(keys: seq<nat>, idx: nat)
    ensures Start(keys, idx) <= |keys|
    decreases |keys|
  {
    if keys == [] {
      StartEmpty(idx);
    } else {
      UsedBound(keys[..|keys| - 1], idx);
      StartLast(keys, idx);
    }
  }

  lemma {:induction false} StartEmpty(idx: nat)
    ensures Start([], idx) == 0
  {
    if idx > 1 { StartEmpty(idx - 1); }
  }

  lemma {:induction false} StartLast(keys: seq<nat>, idx: nat)
    requires keys != []
    ensures Start(keys, idx) == Start(keys[..|keys| - 1], idx) +
      (if 0 < keys[|keys| - 1] < idx then 1 else 0)
  {
    if idx > 1 { StartLast(keys, idx - 1); }
  }
}
