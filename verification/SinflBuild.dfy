/** Building a decoding table from a length vector (`sinfl_build`), and looking symbols up in it
    (`sinfl_decode`). */
module SinflBuild {
  import opened Bits
  import opened Canonical
  import opened SinflTables
  import opened SinflSubTables
  import HuffSort

  const SYM_MAX: nat := 288

  // ---------------------------------------------------------- counting sort

  /** Where the symbols of length `l` begin in the sorted order, unused symbols first. */
  function Base(lens: Lens, l: nat): nat {
    if l == 0 then 0 else Count(lens, 0) + HuffSort.Start(lens, l)
  }

  function Place(lens: Lens, s: nat): nat
    requires s < |lens|
  {
    Base(lens, lens[s]) + Count(lens[..s], lens[s])
  }

  lemma BaseNext(lens: Lens, l: nat)
    ensures Base(lens, l + 1) == Base(lens, l) + Count(lens, l)
  {
    if l > 0 { HuffSort.StartNext(lens, l); }
  }

  lemma {:induction false} BaseMono(lens: Lens, l: nat, m: nat)
    requires l <= m
    ensures Base(lens, l) <= Base(lens, m)
    decreases m
  {
    if l < m {
      BaseMono(lens, l, m - 1);
      BaseNext(lens, m - 1);
    }
  }

  lemma {:induction false} BaseBound(lens: Lens, l: nat)
    ensures Base(lens, l) <= |lens|
    decreases |lens|
  {
    if lens == [] {
      HuffSort.StartEmpty(l);
    } else {
      BaseBound(lens[..|lens| - 1], l);
      HuffSort.StartLast(lens, l);
    }
  }

  lemma PlaceBelow(lens: Lens, s: nat)
    requires s < |lens|
    ensures Place(lens, s) < Base(lens, lens[s] + 1) <= |lens|
  {
    RankBelow(lens, s);
    BaseNext(lens, lens[s]);
    BaseBound(lens, lens[s] + 1);
  }

  /** No two symbols share a place. */
  lemma PlaceDistinct(lens: Lens, s: nat, t: nat)
    requires s < t < |lens|
    ensures Place(lens, s) != Place(lens, t)
  {
    PlaceBelow(lens, s);
    PlaceBelow(lens, t);
    if lens[s] == lens[t] {
      RankOrder(lens, s, t);
    } else if lens[s] < lens[t] {
      BaseMono(lens, lens[s] + 1, lens[t]);
    } else {
      BaseMono(lens, lens[t] + 1, lens[s]);
    }
  }

  /** How many symbols have each length. */
  method CountLens(lens: seq<nat>) returns (cnts: array<nat>)
    requires Bounded(lens, MAX_CODE_LEN)
    ensures fresh(cnts) && Counted(cnts[..], lens)
  {
    cnts := new nat[16](_ => 0);
    var i := 0;
    while i < |lens|
      invariant i <= |lens| && forall l :: 0 <= l < 16 ==> cnts[l] == Count(lens[..i], l)
    {
      assert lens[..i + 1][..i] == lens[..i];
      cnts[lens[i]] := cnts[lens[i]] + 1;
      i := i + 1;
    }
    assert lens[..i] == lens;
  }

  ghost predicate Offs(off: seq<nat>, lens: Lens, maxlen: nat, i: nat) {
    |off| == 16 && maxlen <= 15 && i <= |lens| && forall l :: 0 <= l <= maxlen ==> off[l] == Base(lens, l) + Count(lens[..i], l)
  }

  ghost predicate Placed(sort: seq<nat>, lens: Lens, i: nat) {
    && |sort| == SYM_MAX && i <= |lens| <= SYM_MAX
    && forall s :: 0 <= s < i ==> Place(lens, s) < |sort| && sort[Place(lens, s)] == s
  }

  lemma PlaceStep(sort: seq<nat>, off: seq<nat>, lens: Lens, maxlen: nat, i: nat)
    requires Offs(off, lens, maxlen, i) && Placed(sort, lens, i) && i < |lens| && lens[i] <= maxlen
    ensures |off| == 16 && lens[i] < 16 && off[lens[i]] < |sort|
    ensures Offs(off[lens[i] := off[lens[i]] + 1], lens, maxlen, i + 1)
    ensures Placed(sort[off[lens[i]] := i], lens, i + 1)
  {
    hide Base;
    assert lens[..i + 1][..i] == lens[..i];
    PlaceBelow(lens, i);
    forall s | 0 <= s < i ensures Place(lens, s) != Place(lens, i) { PlaceDistinct(lens, s, i); }
  }

  lemma PlaceDone(sort: seq<nat>, off: seq<nat>, lens: Lens, maxlen: nat)
    requires Offs(off, lens, maxlen, |lens|) && Placed(sort, lens, |lens|)
    ensures Sorted(sort, lens) && |off| == 16 && off[0] == Count(lens, 0)
  {
    assert lens[..|lens|] == lens;
    forall s | 0 <= s < |lens| && lens[s] > 0
      ensures Count(lens, 0) + HuffSort.Pos(lens, s) == Place(lens, s)
    {
    }
  }

  /** Sorts the symbols by length; `first` is where the used ones begin. */
  method SortLens(lens: seq<nat>, off: array<nat>, maxlen: nat) returns (sort: array<nat>, first: nat)
    requires Bounded(lens, maxlen) && |lens| <= SYM_MAX && Offs(off[..], lens, maxlen, 0)
    modifies off
    ensures fresh(sort) && Sorted(sort[..], lens) && first == Count(lens, 0)
  {
    hide Offs, Placed, Sorted, Count, Base, Place;
    sort := new nat[SYM_MAX](_ => 0);
    PlacedInit(sort[..], lens);
    var i: nat := 0;
    while i < |lens|
      invariant i <= |lens| && Offs(off[..], lens, maxlen, i) && Placed(sort[..], lens, i)
    {
      ghost var a, o := sort[..], off[..];
      PlaceStep(a, o, lens, maxlen, i);
      sort[off[lens[i]]] := i;
      assert sort[..] == a[o[lens[i]] := i];
      off[lens[i]] := off[lens[i]] + 1;
      assert off[..] == o[lens[i] := o[lens[i]] + 1];
      i := i + 1;
    }
    PlaceDone(sort[..], off[..], lens, maxlen);
    first := off[0];
  }

  lemma PlacedInit(sort: seq<nat>, lens: Lens)
    requires |sort| == SYM_MAX && |lens| <= SYM_MAX
    ensures Placed(sort, lens, 0)
  {
  }

  /** Offsets by length, and how many codewords of the greatest length are covered. */
  method Offsets(cnts: array<nat>, maxlen: nat, ghost lens: Lens) returns (off: array<nat>, used: nat)
    requires 0 < maxlen <= MAX_CODE_LEN && Counted(cnts[..], lens)
    ensures fresh(off) && Offs(off[..], lens, maxlen, 0) && used == Covered(lens, maxlen)
  {
    hide HuffSort.Start, Count, Base;
    off := new nat[16](_ => 0);
    off[1] := cnts[0];
    BaseNext(lens, 0);
    BaseZero(lens);
    used := 0;
    var i := 1;
    while i < maxlen
      invariant 1 <= i <= maxlen && used == Covered(lens, i - 1)
      invariant forall l :: 0 <= l <= i ==> off[l] == Base(lens, l)
    {
      BaseNext(lens, i);
      off[i + 1] := off[i] + cnts[i];
      used := 2 * used + cnts[i];
      i := i + 1;
    }
    used := 2 * used + cnts[i];
    forall l | 0 <= l <= maxlen ensures off[l] == Base(lens, l) + Count(lens[..0], l) { CountNone(lens, l); }
  }

  lemma BaseZero(lens: Lens)
    ensures Base(lens, 0) == 0
  {
  }

  lemma CountNone(lens: Lens, l: nat)
    ensures Count(lens[..0], l) == 0
  {
  }

  // ------------------------------------------------------------------ build

  /** What `sinfl_build` leaves in a table. */
  ghost predicate TableOk(tbl: seq<nat>, bits: nat, lens: Lens) {
    && Fits(lens) && 0 < bits < MAX_CODE_LEN && Pow2(bits) <= |tbl|
    && (Complete(lens) ==> LookupOk(tbl, bits, lens))
    && (Incomplete(lens) ==> forall i :: 0 <= i < Pow2(bits) ==> tbl[i] == 1)
  }

  lemma {:induction false} CoveredTop(lens: Lens, maxlen: nat, m: nat)
    requires Bounded(lens, maxlen) && maxlen <= m
    ensures Covered(lens, m) == Covered(lens, maxlen) * Pow2(m - maxlen)
    decreases m
  {
    if maxlen < m {
      CoveredTop(lens, maxlen, m - 1);
      CountOver(lens, m);
      TwiceProduct(Covered(lens, maxlen), Pow2(m - 1 - maxlen));
    }
  }

  lemma {:induction false} CountOver(lens: Lens, l: nat)
    requires forall s :: 0 <= s < |lens| ==> lens[s] != l
    ensures Count(lens, l) == 0
  {
    if lens != [] { CountOver(lens[..|lens| - 1], l); }
  }

  /** Whether a code is complete shows at its greatest length. */
  lemma CompleteAt(lens: Lens, maxlen: nat)
    requires Bounded(lens, maxlen) && 0 < maxlen <= MAX_CODE_LEN && Fits(lens)
    ensures Covered(lens, maxlen) < Pow2(maxlen) <==> Incomplete(lens)
    ensures Incomplete(lens) <==> !Complete(lens)
  {
    hide Covered, Pow2;
    CoveredTop(lens, maxlen, MAX_CODE_LEN);
    var d := Pow2(MAX_CODE_LEN - maxlen);
    Pow2Add(maxlen, MAX_CODE_LEN - maxlen);
    var c, x := Covered(lens, maxlen), Pow2(maxlen);
    if c < x { ScaleLess(c, x, d); } else { MulMono(x, c, d); }
  }

  lemma ScaleLess(c: nat, x: nat, d: nat)
    requires c < x && d > 0
    ensures c * d < x * d
  {
    MulMono(c + 1, x, d);
    assert (c + 1) * d == c * d + d;
  }

  method Build(tbl: array<nat>, lens: seq<nat>, bits: nat, maxlen: nat)
    requires Bounded(lens, maxlen) && 0 < maxlen <= MAX_CODE_LEN && |lens| <= SYM_MAX && Fits(lens)
    requires 0 < bits < MAX_CODE_LEN && tbl.Length >= Pow2(bits) + Pow2(MAX_CODE_LEN)
    modifies tbl
    ensures TableOk(tbl[..], bits, lens)
  {
    hide *;
    BoundedMax(lens, maxlen);
    var cnts := CountLens(lens);
    var off, used := Offsets(cnts, maxlen, lens);
    var sort, first := SortLens(lens, off, maxlen);
    CompleteAt(lens, maxlen);
    if used < Pow2(maxlen) {
      forall i | 0 <= i < Pow2(bits) { tbl[i] := 1; }
      EmptyOk(tbl[..], bits, lens);
      return;
    }
    var gen := new Gen(first);
    FitsEither(lens);
    var done := BuildTbl(gen, tbl, bits, cnts, sort, lens);
    if done {
      MainDone(tbl[..], bits, lens);
    } else {
      MainIntro(tbl[..], bits, lens, gen.len);
      BuildSubTbl(gen, tbl, bits, cnts, sort, lens);
    }
    FullOk(tbl[..], bits, lens);
  }

  lemma BoundedMax(lens: Lens, maxlen: nat)
    requires Bounded(lens, maxlen) && maxlen <= MAX_CODE_LEN
    ensures Bounded(lens, MAX_CODE_LEN)
  {
  }

  lemma FitsEither(lens: Lens)
    requires Fits(lens) && !Incomplete(lens)
    ensures Complete(lens)
  {
  }

  lemma MainIntro(tbl: seq<nat>, bits: nat, lens: Lens, l: nat)
    requires Pow2(bits) <= |tbl| && MainOk(tbl, bits, lens, l, 0)
    ensures MainOk'(tbl, bits, lens, l)
  {
  }

  lemma EmptyOk(tbl: seq<nat>, bits: nat, lens: Lens)
    requires Incomplete(lens) && 0 < bits < MAX_CODE_LEN && Pow2(bits) <= |tbl|
    requires forall i :: 0 <= i < Pow2(bits) ==> tbl[i] == 1
    ensures TableOk(tbl, bits, lens)
  {
    hide Covered, Pow2;
  }

  lemma FullOk(tbl: seq<nat>, bits: nat, lens: Lens)
    requires Complete(lens) && 0 < bits < MAX_CODE_LEN && LookupOk(tbl, bits, lens)
    ensures TableOk(tbl, bits, lens)
  {
    hide Covered, Pow2, ShortOk, LongOk;
  }
}
