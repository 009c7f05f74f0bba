/** Lengths and bit-reversed canonical codes (`sdefl_gen_codes`, `sdefl_rev`, `sdefl_huff`). */
module HuffCodes {
  import opened Bits
  import opened Canonical
  import opened HuffSort
  import HuffOptimal
  import opened HuffLens
  import HeapSort
  import HuffTree

  // -------------------------------------------------------------- sdefl_rev

  /** Exchanges neighbouring groups of `n` bits; `lo` selects the even groups, `hi` the odd ones. */
  function SwapGroups(c: nat, lo: nat, hi: nat, n: nat): nat {
    Or(And(c, lo) * Pow2(n), Shr(And(c, hi), n))
  }

  function Rev16(c: nat): nat {
    var c1 := SwapGroups(c, 0x5555, 0xAAAA, 1);
    var c2 := SwapGroups(c1, 0x3333, 0xCCCC, 2);
    var c3 := SwapGroups(c2, 0x0F0F, 0xF0F0, 4);
    SwapGroups(c3, 0x00FF, 0xFF00, 8)
  }

  function SdeflRev(c: nat, n: nat): nat
    requires n <= 16
  {
    Shr(Rev16(c), 16 - n)
  }

  /** Bit `k` belongs to an odd group of `n` bits. */
  predicate OddGroup(k: nat, n: nat)
    requires n > 0
  {
    k / n % 2 == 1
  }

  lemma HighDigit(hi: nat, lo: nat, k: nat)
    requires lo < 16
    ensures Bit(16 * hi + lo, k) == if k < 4 then Bit(lo, k) else Bit(hi, k - 4)
  {
    var w := 16 * hi + lo;
    Pow2Values();
    if k < 4 { BitMod(w, 4, k); } else { BitShr(w, 4, k - 4); }
  }

  /** The bits of a 16-bit word are those of its four hexadecimal digits. */
  lemma Digits(a: nat, b: nat, c: nat, d: nat, k: nat)
    requires a < 16 && b < 16 && c < 16 && d < 16 && k < 16
    ensures Bit(4096 * a + 256 * b + 16 * c + d, k) ==
      if k < 4 then Bit(d, k) else if k < 8 then Bit(c, k - 4)
      else if k < 12 then Bit(b, k - 8) else Bit(a, k - 12)
  {
    HighDigit(256 * a + 16 * b + c, d, k);
    if k >= 4 { HighDigit(16 * a + b, c, k - 4); }
    if k >= 8 { HighDigit(a, b, k - 8); }
    assert 4096 * a + 256 * b + 16 * c + d == 16 * (256 * a + 16 * b + c) + d;
    assert 256 * a + 16 * b + c == 16 * (16 * a + b) + c;
    hide Bit;
  }

  lemma MaskBits1(k: nat)
    requires k < 16
    ensures Bit(0x5555, k) == !OddGroup(k, 1) && Bit(0xAAAA, k) == OddGroup(k, 1)
  {
    Digits(5, 5, 5, 5, k);
    Digits(10, 10, 10, 10, k);
    var j := k % 4;
    assert Bit(15, 3) && !Bit(0, 3);
    if j == 0 {} else if j == 1 {} else if j == 2 {} else {}
  }

  lemma MaskBits2(k: nat)
    requires k < 16
    ensures Bit(0x3333, k) == !OddGroup(k, 2) && Bit(0xCCCC, k) == OddGroup(k, 2)
  {
    Digits(3, 3, 3, 3, k);
    Digits(12, 12, 12, 12, k);
    var j := k % 4;
    assert Bit(15, 3) && !Bit(0, 3);
    if j == 0 {} else if j == 1 {} else if j == 2 {} else {}
  }

  lemma MaskBits4(k: nat)
    requires k < 16
    ensures Bit(0x0F0F, k) == !OddGroup(k, 4) && Bit(0xF0F0, k) == OddGroup(k, 4)
  {
    Digits(0, 15, 0, 15, k);
    Digits(15, 0, 15, 0, k);
    var j := k % 4;
    assert Bit(15, 3) && !Bit(0, 3);
    if j == 0 {} else if j == 1 {} else if j == 2 {} else {}
  }

  lemma MaskBits8(k: nat)
    requires k < 16
    ensures Bit(0x00FF, k) == !OddGroup(k, 8) && Bit(0xFF00, k) == OddGroup(k, 8)
  {
    Digits(0, 0, 15, 15, k);
    Digits(15, 15, 0, 0, k);
    var j := k % 4;
    assert Bit(15, 3) && !Bit(0, 3);
    if j == 0 {} else if j == 1 {} else if j == 2 {} else {}
  }

  lemma SwapBit(c: nat, lo: nat, hi: nat, n: nat, k: nat)
    ensures Bit(SwapGroups(c, lo, hi, n), k) ==
      ((k >= n && Bit(c, k - n) && Bit(lo, k - n)) || (Bit(c, k + n) && Bit(hi, k + n)))
  {
    var x, y := And(c, lo) * Pow2(n), And(c, hi);
    BitOr(x, Shr(y, n), k);
    BitShl(And(c, lo), n, k);
    BitShift(y, n, k);
    BitAnd(c, hi, k + n);
    if k >= n { BitAnd(c, lo, k - n); }
  }

  /** The index `k` with its group of `n` exchanged. */
  function Flip(k: nat, n: nat): int
    requires n > 0
  {
    if OddGroup(k, n) then k - n else k + n
  }

  lemma Rev16Bit(c: nat, k: nat)
    requires k < 16
    ensures Bit(Rev16(c), k) == Bit(c, 15 - k)
  {
    var c1 := SwapGroups(c, 0x5555, 0xAAAA, 1);
    var c2 := SwapGroups(c1, 0x3333, 0xCCCC, 2);
    var c3 := SwapGroups(c2, 0x0F0F, 0xF0F0, 4);
    FlipAll(k);
    var k3 := Flip(k, 8);
    SwapStep(c3, 0x00FF, 0xFF00, 8, k);
    var k2 := Flip(k3, 4);
    SwapStep(c2, 0x0F0F, 0xF0F0, 4, k3);
    var k1 := Flip(k2, 2);
    SwapStep(c1, 0x3333, 0xCCCC, 2, k2);
    SwapStep(c, 0x5555, 0xAAAA, 1, k1);
  }

  lemma FlipAll(k: nat)
    requires k < 16
    ensures var k3 := Flip(k, 8);
      0 <= k3 && var k2 := Flip(k3, 4);
      0 <= k2 && var k1 := Flip(k2, 2);
      0 <= k1 && Flip(k1, 1) == 15 - k
  {
  }

  ghost predicate MaskPair(lo: nat, hi: nat, n: nat) {
    || (n == 1 && lo == 0x5555 && hi == 0xAAAA) || (n == 2 && lo == 0x3333 && hi == 0xCCCC)
    || (n == 4 && lo == 0x0F0F && hi == 0xF0F0) || (n == 8 && lo == 0x00FF && hi == 0xFF00)
  }

  lemma MaskBits(lo: nat, hi: nat, n: nat, k: nat)
    requires MaskPair(lo, hi, n)
    ensures k < 16 ==> Bit(lo, k) == !OddGroup(k, n) && Bit(hi, k) == OddGroup(k, n)
    ensures k >= 16 ==> !Bit(hi, k)
  {
    if k < 16 {
      if n == 1 { MaskBits1(k); } else if n == 2 { MaskBits2(k); }
      else if n == 4 { MaskBits4(k); } else { MaskBits8(k); }
    } else {
      Pow2Values();
      BitsBeyond(hi, 16, k);
    }
  }

  /** Neighbouring groups differ in parity. */
  lemma NextGroup(n: nat, k: nat)
    requires n == 1 || n == 2 || n == 4 || n == 8
    ensures OddGroup(k + n, n) == !OddGroup(k, n)
    ensures OddGroup(k, n) ==> k >= n && !OddGroup(k - n, n)
    ensures k >= n && !OddGroup(k, n) ==> OddGroup(k - n, n)
    ensures k < 16 && !OddGroup(k, n) ==> k + n < 16
  {
    if n == 1 { NextGroup1(k); } else if n == 2 { NextGroup2(k); }
    else if n == 4 { NextGroup4(k); } else { NextGroup8(k); }
    hide OddGroup;
  }

  lemma NextGroup1(k: nat)
    ensures OddGroup(k + 1, 1) == !OddGroup(k, 1)
    ensures OddGroup(k, 1) ==> k >= 1 && !OddGroup(k - 1, 1)
    ensures k >= 1 && !OddGroup(k, 1) ==> OddGroup(k - 1, 1)
    ensures k < 16 && !OddGroup(k, 1) ==> k + 1 < 16
  {
  }

  lemma NextGroup2(k: nat)
    ensures OddGroup(k + 2, 2) == !OddGroup(k, 2)
    ensures OddGroup(k, 2) ==> k >= 2 && !OddGroup(k - 2, 2)
    ensures k >= 2 && !OddGroup(k, 2) ==> OddGroup(k - 2, 2)
    ensures k < 16 && !OddGroup(k, 2) ==> k + 2 < 16
  {
  }

  lemma NextGroup4(k: nat)
    ensures OddGroup(k + 4, 4) == !OddGroup(k, 4)
    ensures OddGroup(k, 4) ==> k >= 4 && !OddGroup(k - 4, 4)
    ensures k >= 4 && !OddGroup(k, 4) ==> OddGroup(k - 4, 4)
    ensures k < 16 && !OddGroup(k, 4) ==> k + 4 < 16
  {
  }

  lemma NextGroup8(k: nat)
    ensures OddGroup(k + 8, 8) == !OddGroup(k, 8)
    ensures OddGroup(k, 8) ==> k >= 8 && !OddGroup(k - 8, 8)
    ensures k >= 8 && !OddGroup(k, 8) ==> OddGroup(k - 8, 8)
    ensures k < 16 && !OddGroup(k, 8) ==> k + 8 < 16
  {
  }

  lemma SwapStep(c: nat, lo: nat, hi: nat, n: nat, k: nat)
    requires k < 16 && MaskPair(lo, hi, n)
    ensures 0 <= Flip(k, n) < 16
    ensures Bit(SwapGroups(c, lo, hi, n), k) == Bit(c, Flip(k, n))
  {
    NextGroup(n, k);
    SwapBit(c, lo, hi, n, k);
    if k >= n { MaskBits(lo, hi, n, k - n); }
    MaskBits(lo, hi, n, k + n);
  }

  lemma {:induction false} OrBelowSum(a: nat, b: nat)
    ensures Or(a, b) <= a + b
    decreases a
  {
    if a != 0 { OrBelowSum(a / 2, b / 2); }
  }

  /** The mask-and-shift reversal reverses the `n` low bits. */
  lemma RevCorrect(c: nat, n: nat)
    requires n <= 16
    ensures SdeflRev(c, n) == Rev(c, n)
  {
    var r := Rev16(c);
    assert r < Pow2(16) by { Rev16Below(c); }
    ShiftBelow(r, n, 16);
    ShrDiv(r, 16 - n);
    forall k | 0 <= k < n ensures Bit(SdeflRev(c, n), k) == Bit(Rev(c, n), k) {
      BitShift(r, 16 - n, k);
      Rev16Bit(c, k + 16 - n);
      BitRev(c, n, k);
    }
    SameBits(SdeflRev(c, n), Rev(c, n), n);
  }

  lemma Rev16Below(c: nat)
    ensures Rev16(c) < Pow2(16)
  {
    var c1 := SwapGroups(c, 0x5555, 0xAAAA, 1);
    var c2 := SwapGroups(c1, 0x3333, 0xCCCC, 2);
    var c3 := SwapGroups(c2, 0x0F0F, 0xF0F0, 4);
    var x, y := And(c3, 0x00FF), And(c3, 0xFF00);
    Pow2Values();
    AndBelow(c3, 0x00FF);
    AndBelow(c3, 0xFF00);
    ShrDiv(y, 8);
    OrBelowSum(x * 256, y / 256);
  }

  // -------------------------------------------------------- sdefl_gen_codes

  lemma {:induction false} CountUpdate(s: seq<nat>, k: nat, v: nat, l: nat)
    requires k < |s|
    ensures Count(s[k := v], l) ==
      Count(s, l) - (if s[k] == l then 1 else 0) + (if v == l then 1 else 0)
  {
    var n := |s| - 1;
    if k == n {
      assert s[k := v][..n] == s[..n];
    } else {
      assert s[k := v][..n] == s[..n][k := v];
      CountUpdate(s[..n], k, v, l);
    }
  }

  lemma {:induction false} CountZeros(s: seq<nat>, l: nat)
    requires l > 0 && forall k :: 0 <= k < |s| ==> s[k] == 0
    ensures Count(s, l) == 0
  {
    if s != [] { CountZeros(s[..|s| - 1], l); }
  }

  /** The code lengths given so far: all of `L` above `len`, all but `left` of length `len`. */
  ghost predicate CountsGiven(clean: seq<nat>, L: seq<nat>, max: nat, len: nat, left: nat)
    requires len <= max < |L|
  {
    && (forall l :: 1 <= l <= max ==>
          Count(clean, l) == (if l > len then L[l] else if l == len then L[l] - left else 0))
    && Bounded(clean, max)
  }

  /** Progress of the length assignment: `clean` is `lens` without the values that are
      still to be overwritten. */
  ghost predicate Assigning(clean: seq<nat>, lens: seq<nat>, a: seq<nat>, f: seq<nat>, i: nat)
    requires |clean| == |lens| == |f| && i <= |a| && SortedSyms(a, f)
  {
    && (forall j :: 0 <= j < i ==> clean[Sym(a, f, j)] == lens[Sym(a, f, j)] > 0)
    && (forall j :: i <= j < |a| ==> clean[Sym(a, f, j)] == 0)
    && (forall s :: 0 <= s < |f| && f[s] == 0 ==> clean[s] == lens[s] == 0)
  }

  function Sym(a: seq<nat>, f: seq<nat>, j: nat): (s: nat)
    requires SortedSyms(a, f) && j < |a|
    ensures s < |f| && f[s] > 0
  {
    assert IsPacked(a[j], f);
    a[j] % SYM_RANGE
  }

  lemma SymOf(a: seq<nat>, f: seq<nat>, s: nat) returns (j: nat)
    requires SortedSyms(a, f) && s < |f| <= SYM_RANGE && f[s] > 0
    ensures j < |a| && Sym(a, f, j) == s
  {
    j :| 0 <= j < |a| && a[j] == Packed(s, f[s]);
    PackedParts(s, f[s]);
  }

  lemma PackedParts(s: nat, freq: nat)
    requires s < SYM_RANGE
    ensures Packed(s, freq) % SYM_RANGE == s && Packed(s, freq) / SYM_RANGE == freq
  {
  }

  lemma CountsStep(clean: seq<nat>, L: seq<nat>, max: nat, len: nat, left: nat, s: nat)
    requires 0 < len <= max < |L| && CountsGiven(clean, L, max, len, left)
    requires 0 < left && s < |clean| && clean[s] == 0
    ensures CountsGiven(clean[s := len], L, max, len, left - 1)
  {
    forall l | 1 <= l <= max
      ensures Count(clean[s := len], l) == Count(clean, l) + if l == len then 1 else 0
    {
      CountUpdate(clean, s, len, l);
    }
    var c := clean[s := len];
    assert Bounded(c, max);
    forall l | 1 <= l <= max ensures
      Count(c, l) == if l > len then L[l] else if l == len then L[l] - (left - 1) else 0
    {
      assert Count(c, l) == Count(clean, l) + if l == len then 1 else 0;
    }
  }

  lemma SymDistinct(a: seq<nat>, f: seq<nat>, i: nat, j: nat)
    requires SortedSyms(a, f) && i < |a| && j < |a| && i != j
    ensures Sym(a, f, i) != Sym(a, f, j)
  {
    assert i < j ==> a[i] % SYM_RANGE != a[j] % SYM_RANGE;
    assert j < i ==> a[j] % SYM_RANGE != a[i] % SYM_RANGE;
  }

  lemma AssignStep(clean: seq<nat>, lens: seq<nat>, a: seq<nat>, f: seq<nat>, i: nat, len: nat)
    requires |clean| == |lens| == |f| && i < |a| && SortedSyms(a, f) && len > 0
    requires Assigning(clean, lens, a, f, i)
    ensures var s := Sym(a, f, i); Assigning(clean[s := len], lens[s := len], a, f, i + 1)
  {
    hide SortedSyms, Sym;
    forall j | 0 <= j < |a| && j != i ensures Sym(a, f, j) != Sym(a, f, i) {
      SymDistinct(a, f, j, i);
    }
  }

  lemma RunDone(clean: seq<nat>, L: seq<nat>, max: nat, len: nat)
    requires 0 < len <= max < |L| && CountsGiven(clean, L, max, len, 0)
    ensures CountsGiven(clean, L, max, len - 1, L[len - 1])
  {
  }

  lemma AssignDone(clean: seq<nat>, lens: seq<nat>, a: seq<nat>, f: seq<nat>)
    requires |clean| == |lens| == |f| <= SYM_RANGE && SortedSyms(a, f)
    requires Assigning(clean, lens, a, f, |a|)
    ensures clean == lens
    ensures forall s :: 0 <= s < |f| ==> (lens[s] > 0 <==> f[s] > 0)
  {
    forall s | 0 <= s < |f| && f[s] > 0 ensures clean[s] == lens[s] > 0 {
      var j := SymOf(a, f, s);
    }
  }

  lemma AssignInit(lens: seq<nat>, a: seq<nat>, f: seq<nat>, L: seq<nat>, max: nat)
    requires |lens| == |f| && max < |L| && SortedSyms(a, f)
    requires forall s :: 0 <= s < |f| && f[s] == 0 ==> lens[s] == 0
    ensures Assigning(seq(|f|, _ => 0), lens, a, f, 0)
    ensures CountsGiven(seq(|f|, _ => 0), L, max, max, L[max])
  {
    var clean := seq(|f|, _ => 0);
    forall l | 1 <= l <= max ensures Count(clean, l) == 0 { CountZeros(clean, l); }
  }

  /** The first `i` symbols have the lengths that dealing out `L` longest first gives them. */
  ghost predicate InRuns(clean: seq<nat>, a: seq<nat>, f: seq<nat>, L: seq<nat>, i: nat) {
    && SortedSyms(a, f) && |clean| == |f| && i <= |a|
    && forall j :: 0 <= j < i ==> HuffOptimal.InRun(L, |a|, j, clean[Sym(a, f, j)])
  }

  lemma RunsStep(clean: seq<nat>, a: seq<nat>, f: seq<nat>, L: seq<nat>, i: nat, len: nat)
    requires InRuns(clean, a, f, L, i) && i < |a| && HuffOptimal.InRun(L, |a|, i, len)
    ensures InRuns(clean[Sym(a, f, i) := len], a, f, L, i + 1)
  {
    hide SortedSyms, Sym, HuffOptimal.InRun;
    forall j | 0 <= j < i ensures Sym(a, f, j) != Sym(a, f, i) {
      SymDistinct(a, f, j, i);
    }
  }

  ghost predicate Listing(a: seq<nat>, f: seq<nat>) { SortedSyms(a, f) }

  /** The code tree over the symbols of `a` has several leaves, and none below depth `max`. */
  ghost predicate Within(a: seq<nat>, max: nat) {
    |a| >= 2 && Depth(HuffTree.HuffmanTree(HuffTree.Weights(a)), |a|, 0) < max
  }

  /** The code tree over the symbols in order of frequency keeps the limit by itself. */
  ghost predicate Shallow(f: seq<nat>, max: nat) {
    forall a :: Listing(a, f) ==> Within(a, max)
  }

  lemma ShallowIs(a: seq<nat>, f: seq<nat>, max: nat)
    requires SortedSyms(a, f) && Shallow(f, max)
    ensures |a| >= 2 && Depth(HuffTree.HuffmanTree(HuffTree.Weights(a)), |a|, 0) < max
  {
    hide SortedSyms;
    assert Listing(a, f);
    assert Within(a, max);
  }

  lemma NotShallow(a: seq<nat>, f: seq<nat>, max: nat)
    requires SortedSyms(a, f) && |a| < 2
    ensures !Shallow(f, max)
  {
    hide SortedSyms;
    assert Listing(a, f);
  }

  lemma WeightAt(a: seq<nat>, f: seq<nat>, i: nat)
    requires SortedSyms(a, f) && i < |a|
    ensures HuffTree.Weights(a)[i] == f[Sym(a, f, i)]
  {
    assert IsPacked(a[i], f);
  }

  lemma WeightsSorted(a: seq<nat>, f: seq<nat>)
    requires SortedSyms(a, f)
    ensures HeapSort.SortedSeq(HuffTree.Weights(a))
  {
  }

  lemma ListsSyms(a: seq<nat>, f: seq<nat>) returns (syms: seq<nat>)
    requires SortedSyms(a, f) && |f| <= SYM_RANGE
    ensures |syms| == |a| && HuffOptimal.Lists(syms, f)
    ensures forall i :: 0 <= i < |a| ==> syms[i] == Sym(a, f, i) && HuffTree.Weights(a)[i] == f[syms[i]]
  {
    hide SortedSyms, Sym, HuffTree.Weights;
    syms := seq(|a|, i requires 0 <= i < |a| => Sym(a, f, i));
    forall i | 0 <= i < |a| ensures HuffTree.Weights(a)[i] == f[syms[i]] { WeightAt(a, f, i); }
    forall i, j | 0 <= i < j < |a| ensures syms[i] != syms[j] { SymDistinct(a, f, i, j); }
    forall s | 0 <= s < |f| && f[s] > 0 ensures s in syms {
      var j := SymOf(a, f, s);
      assert syms[j] == s;
    }
  }

  /** Lengths dealt out along the exact leaf counts are optimal. */
  lemma DealtOptimal(lens: seq<nat>, a: seq<nat>, f: seq<nat>, L: seq<nat>, max: nat)
    requires |f| <= SYM_RANGE && |a| >= 2 && max < |L| && L[0] == 0
    requires InRuns(lens, a, f, L, |a|) && Bounded(lens, max)
    requires Exact(L, HuffTree.HuffmanTree(HuffTree.Weights(a)), |a|, max, 0)
    ensures HuffOptimal.Optimal(lens, f)
  {
    hide HuffTree.HuffmanTree, Exact, HuffOptimal.Optimal, HuffOptimal.InRun, SortedSyms, HuffTree.IsTree;
    hide HuffTree.Weights, HuffOptimal.Lists, HeapSort.SortedSeq, Sym;
    var syms := ListsSyms(a, f);
    var ws := HuffTree.Weights(a);
    WeightsSorted(a, f);
    var c := HuffOptimal.Values(lens, syms);
    assert forall i :: 0 <= i < |a| ==> c[i] == lens[Sym(a, f, i)];
    HuffOptimal.RunsAreDepths(ws, L, max, c);
    HuffOptimal.SymsOptimal(f, lens, syms, ws);
  }

  /** Long codewords need many symbols: while the counts add up to less than the Fibonacci number of `d + 3`,
      no length exceeds `d`. */
  ghost predicate Brief(lens: seq<nat>, f: seq<nat>, max: nat) {
    forall d: nat :: 1 <= d <= max && HuffOptimal.Sum(f) < HuffOptimal.Fib(d + 3) ==> Bounded(lens, d)
  }

  /** Lengths dealt out along the leaf counts are brief. */
  lemma DealtBrief(lens: seq<nat>, a: seq<nat>, f: seq<nat>, L: seq<nat>, max: nat)
    requires |f| <= SYM_RANGE && |a| >= 2 && max < |L| && L[0] == 0
    requires InRuns(lens, a, f, L, |a|) && Bounded(lens, max)
    requires forall s :: 0 <= s < |f| && f[s] == 0 ==> lens[s] == 0
    requires var t := HuffTree.HuffmanTree(HuffTree.Weights(a));
             Depth(t, |a|, 0) < max ==> Exact(L, t, |a|, max, 0)
    ensures Brief(lens, f, max)
  {
    hide *;
    InRunsParts(lens, a, f, L);
    var syms := ListsSyms(a, f);
    var ws := HuffTree.Weights(a);
    WeightsSorted(a, f);
    ListsParts(syms, f);
    var h := HuffOptimal.HeightBound(ws);
    SumWeights(ws, syms, f);
    forall d: nat | 1 <= d <= max && HuffOptimal.Sum(f) < HuffOptimal.Fib(d + 3) ensures Bounded(lens, d) {
      if d < h { HuffOptimal.FibMono(d + 3, h + 2); }
      DealtAre(lens, a, f, L, max, ws, syms, h);
      ListedBounded(lens, f, syms, ws, d);
    }
    BriefIntro(lens, f, max);
  }

  /** So the tree keeps the limit by itself while the counts add up to less than the Fibonacci number of `max + 3`. */
  lemma FewShallow(f: seq<nat>, max: nat, s: nat, t: nat)
    requires |f| <= SYM_RANGE && s < t < |f| && f[s] > 0 && f[t] > 0
    requires HuffOptimal.Sum(f) < HuffOptimal.Fib(max + 3)
    ensures Shallow(f, max)
  {
    hide SortedSyms, Within, HuffOptimal.Sum, HuffOptimal.Fib;
    forall a | Listing(a, f) ensures Within(a, max) { FewWithin(a, f, max, s, t); }
  }

  lemma FewWithin(a: seq<nat>, f: seq<nat>, max: nat, s: nat, t: nat)
    requires SortedSyms(a, f) && |f| <= SYM_RANGE && s < t < |f| && f[s] > 0 && f[t] > 0
    requires HuffOptimal.Sum(f) < HuffOptimal.Fib(max + 3)
    ensures Within(a, max)
  {
    hide *;
    TwoListed(a, f, s, t);
    var syms := ListsSyms(a, f);
    var ws := HuffTree.Weights(a);
    WeightsSorted(a, f);
    ListsParts(syms, f);
    var h := HuffOptimal.HeightBound(ws);
    SumWeights(ws, syms, f);
    if max < h { HuffOptimal.FibMono(max + 3, h + 2); }
    WithinIntro(a, max);
  }

  lemma TwoListed(a: seq<nat>, f: seq<nat>, s: nat, t: nat)
    requires SortedSyms(a, f) && |f| <= SYM_RANGE && s < t < |f| && f[s] > 0 && f[t] > 0
    ensures |a| >= 2
  {
    hide SortedSyms, Sym;
    var i := SymOf(a, f, s);
    var j := SymOf(a, f, t);
  }

  lemma WithinIntro(a: seq<nat>, max: nat)
    requires |a| >= 2 && Depth(HuffTree.HuffmanTree(HuffTree.Weights(a)), |a|, 0) < max
    ensures Within(a, max)
  {
  }

  lemma BriefIntro(lens: seq<nat>, f: seq<nat>, max: nat)
    requires forall d: nat :: 1 <= d <= max && HuffOptimal.Sum(f) < HuffOptimal.Fib(d + 3) ==> Bounded(lens, d)
    ensures Brief(lens, f, max)
  {
    hide Bounded;
  }

  lemma InRunsParts(lens: seq<nat>, a: seq<nat>, f: seq<nat>, L: seq<nat>)
    requires InRuns(lens, a, f, L, |a|)
    ensures SortedSyms(a, f) && |lens| == |f|
    ensures forall j :: 0 <= j < |a| ==> HuffOptimal.InRun(L, |a|, j, lens[Sym(a, f, j)])
  {
    hide SortedSyms, Sym, HuffOptimal.InRun;
  }

  lemma ListsParts(syms: seq<nat>, f: seq<nat>)
    requires HuffOptimal.Lists(syms, f)
    ensures forall i :: 0 <= i < |syms| ==> syms[i] < |f| && f[syms[i]] > 0
  {
  }

  lemma SumWeights(ws: seq<nat>, syms: seq<nat>, f: seq<nat>)
    requires HuffOptimal.Lists(syms, f) && |ws| == |syms| && forall i :: 0 <= i < |syms| ==> ws[i] == f[syms[i]]
    ensures HuffOptimal.Sum(ws) == HuffOptimal.Sum(f)
  {
    HuffOptimal.SumUsed(f, syms, f);
    assert HuffOptimal.Values(f, syms) == ws;
  }

  /** If the tree is not as deep as the limit, the lengths are its depths. */
  lemma DealtAre(lens: seq<nat>, a: seq<nat>, f: seq<nat>, L: seq<nat>, max: nat, ws: seq<nat>, syms: seq<nat>,
                 h: nat)
    requires SortedSyms(a, f) && |lens| == |f| && |a| >= 2 && max < |L| && L[0] == 0 && Bounded(lens, max)
    requires forall j :: 0 <= j < |a| ==> HuffOptimal.InRun(L, |a|, j, lens[Sym(a, f, j)])
    requires ws == HuffTree.Weights(a) && |syms| == |a|
    requires forall i :: 0 <= i < |a| ==> syms[i] == Sym(a, f, i) && syms[i] < |f|
    requires var t := HuffTree.HuffmanTree(ws); Depth(t, |a|, 0) < max ==> Exact(L, t, |a|, max, 0)
    requires Depth(HuffTree.HuffmanTree(ws), |ws|, 0) < h
    ensures h <= max ==> HuffOptimal.Values(lens, syms) == HuffOptimal.LeafDepths(HuffTree.HuffmanTree(ws), |ws|)
  {
    hide HuffTree.HuffmanTree, Exact, HuffOptimal.InRun, SortedSyms, HuffTree.IsTree, HuffOptimal.LeafDepths, Sym;
    hide HuffTree.Weights, Depth;
    if h <= max {
      HuffOptimal.RunsAreDepths(ws, L, max, HuffOptimal.Values(lens, syms));
    }
  }

  lemma ListedBounded(lens: seq<nat>, f: seq<nat>, syms: seq<nat>, ws: seq<nat>, d: nat)
    requires |lens| == |f| && HuffOptimal.Lists(syms, f) && |ws| == |syms| >= 2
    requires forall s :: 0 <= s < |f| && f[s] == 0 ==> lens[s] == 0
    requires HuffOptimal.Values(lens, syms) == HuffOptimal.LeafDepths(HuffTree.HuffmanTree(ws), |ws|)
    requires forall i :: 0 <= i < |ws| ==> HuffOptimal.LeafDepths(HuffTree.HuffmanTree(ws), |ws|)[i] <= d
    ensures Bounded(lens, d)
  {
    hide HuffTree.HuffmanTree, HuffOptimal.LeafDepths;
    forall s | 0 <= s < |lens| ensures lens[s] <= d {
      if f[s] > 0 {
        var i :| 0 <= i < |syms| && syms[i] == s;
        assert HuffOptimal.Values(lens, syms)[i] == lens[s];
      }
    }
  }

  /** The array still lists the symbols of `a`, whatever is now above them. */
  ghost predicate SameSyms(A: seq<nat>, a: seq<nat>) {
    |a| <= |A| && forall j :: 0 <= j < |a| ==> A[j] % SYM_RANGE == a[j] % SYM_RANGE
  }

  /** Gives the longest codes to the rarest symbols. */
  method AssignLens(A: array<nat>, lens: array<nat>, lenCnt: array<nat>, max: nat,
                    ghost a: seq<nat>, ghost f: seq<nat>)
    requires A != lens && lens != lenCnt && lens.Length == |f| <= SYM_RANGE
    requires SameSyms(A[..], a) && SortedSyms(a, f)
    requires 0 < max < lenCnt.Length && lenCnt[0] == 0 && Total(lenCnt[..], max) == |a|
    requires forall s :: 0 <= s < |f| && f[s] == 0 ==> lens[s] == 0
    modifies lens
    ensures forall l :: 1 <= l <= max ==> Count(lens[..], l) == lenCnt[l]
    ensures Bounded(lens[..], max) && InRuns(lens[..], a, f, lenCnt[..], |a|)
    ensures forall s :: 0 <= s < |f| ==> (lens[s] > 0 <==> f[s] > 0)
  {
    ghost var L := lenCnt[..];
    ghost var clean := seq(|f|, _ => 0);
    AssignInit(lens[..], a, f, L, max);
    var i: nat := 0;
    for len: nat := max downto 0
      invariant |clean| == lens.Length
      invariant i + Total(L, len) == |a|
      invariant Assigning(clean, lens[..], a, f, i)
      invariant CountsGiven(clean, L, max, len, L[len]) && InRuns(clean, a, f, L, i)
    {
      i, clean := AssignRun(A, lens, lenCnt[len + 1], len + 1, i, clean, a, f, L, max);
    }
    AssignDone(clean, lens[..], a, f);
  }

  lemma NextInRun(L: seq<nat>, n: nat, i: nat, len: nat, left: nat)
    requires 0 < len < |L| && 0 < left <= L[len] && i + left + Total(L, len - 1) == n
    ensures HuffOptimal.InRun(L, n, i, len)
  {
  }

  lemma NextUnset(clean: seq<nat>, lens: seq<nat>, a: seq<nat>, f: seq<nat>, i: nat)
    requires |clean| == |lens| == |f| && i < |a| && SortedSyms(a, f) && Assigning(clean, lens, a, f, i)
    ensures clean[Sym(a, f, i)] == 0
  {
  }

  lemma SymAt(A: seq<nat>, a: seq<nat>, f: seq<nat>, i: nat)
    requires SameSyms(A, a) && SortedSyms(a, f) && i < |a|
    ensures |a| <= |A| && A[i] % SYM_RANGE == Sym(a, f, i)
  {
  }

  /** The inner loop: the next `cnt` symbols get length `len`. */
  method AssignRun(A: array<nat>, lens: array<nat>, cnt: nat, len: nat, i: nat, ghost clean: seq<nat>,
                   ghost a: seq<nat>, ghost f: seq<nat>, ghost L: seq<nat>, ghost max: nat)
    returns (i': nat, ghost clean': seq<nat>)
    requires A != lens && SameSyms(A[..], a) && SortedSyms(a, f)
    requires |clean| == lens.Length == |f| && i <= |a| && Assigning(clean, lens[..], a, f, i)
    requires 0 < len <= max < |L| && cnt == L[len] && CountsGiven(clean, L, max, len, cnt)
    requires i + Total(L, len) == |a| && InRuns(clean, a, f, L, i)
    modifies lens
    ensures i' + Total(L, len - 1) == |a| && InRuns(clean', a, f, L, i')
    ensures |clean'| == |f| && i' <= |a| && Assigning(clean', lens[..], a, f, i')
    ensures CountsGiven(clean', L, max, len - 1, L[len - 1])
  {
    hide SortedSyms, Sym, Assigning, CountsGiven, InRuns, SameSyms, HuffOptimal.InRun;
    i', clean' := i, clean;
    assert i + cnt + Total(L, len - 1) == |a|;
    var left := cnt;
    hide Total;
    while left > 0
      invariant 0 <= left <= cnt && i' == i + (cnt - left) && |clean'| == |f|
      invariant SameSyms(A[..], a)
      invariant Assigning(clean', lens[..], a, f, i')
      invariant CountsGiven(clean', L, max, len, left) && InRuns(clean', a, f, L, i')
    {
      ghost var before := lens[..];
      ghost var s := Sym(a, f, i');
      NextInRun(L, |a|, i', len, left);
      RunsStep(clean', a, f, L, i', len);
      NextUnset(clean', before, a, f, i');
      AssignStep(clean', before, a, f, i', len);
      CountsStep(clean', L, max, len, left, s);
      SymAt(A[..], a, f, i');
      lens[A[i'] % SYM_RANGE] := len;
      assert lens[..] == before[s := len];
      clean' := clean'[s := len];
      i' := i' + 1;
      left := left - 1;
    }
    RunDone(clean', L, max, len);
  }

  // ------------------------------------------------------- canonical numbers

  /** The counts determine how much of the code tree the lengths cover. */
  lemma {:induction false} CoveredFill(lens: seq<nat>, L: seq<nat>, m: nat)
    requires m < |L| && L[0] == 0 && forall l :: 1 <= l <= m ==> Count(lens, l) == L[l]
    ensures Covered(lens, m) == Fill(L, m)
  {
    if m > 0 { CoveredFill(lens, L, m - 1); }
  }

  lemma {:induction false} CountAboveMax(lens: seq<nat>, max: nat, l: nat)
    requires Bounded(lens, max) && l > max
    ensures Count(lens, l) == 0
  {
    if lens != [] { CountAboveMax(lens[..|lens| - 1], max, l); }
  }

  /** Completeness at the limit is completeness. */
  lemma {:induction false} CoveredAbove(lens: seq<nat>, max: nat, m: nat)
    requires Bounded(lens, max) && max <= m && Covered(lens, max) == Pow2(max)
    ensures Covered(lens, m) == Pow2(m)
    decreases m
  {
    if max < m {
      CoveredAbove(lens, max, m - 1);
      CountAboveMax(lens, max, m);
    }
  }

  /** The smallest code of every length. */
  method StartCodes(nxt: array<nat>, lenCnt: array<nat>, max: nat, ghost lens: seq<nat>)
    requires nxt != lenCnt && 1 <= max < nxt.Length && max < lenCnt.Length
    requires forall l :: 1 <= l <= max ==> Count(lens, l) == lenCnt[l]
    modifies nxt
    ensures forall l :: 1 <= l <= max ==> nxt[l] == FirstCode(lens, l)
  {
    nxt[0], nxt[1] := 0, 0;
    var len := 2;
    while len <= max
      invariant 2 <= len <= max + 1
      invariant forall l :: 1 <= l < len ==> nxt[l] == FirstCode(lens, l)
      invariant forall l :: 1 <= l <= max ==> Count(lens, l) == lenCnt[l]
    {
      nxt[len] := (nxt[len - 1] + lenCnt[len - 1]) * 2;
      len := len + 1;
    }
  }

  /** Numbers the symbols of each length consecutively. */
  method NumberCodes(A: array<nat>, lens: array<nat>, nxt: array<nat>, max: nat)
    requires A != lens && A != nxt && lens != nxt && A.Length == lens.Length
    requires 1 <= max < nxt.Length && max <= MAX_CODE_LEN && Bounded(lens[..], max)
    requires forall l :: 1 <= l <= max ==> nxt[l] == FirstCode(lens[..], l)
    modifies A, nxt
    ensures forall s :: 0 <= s < A.Length && lens[s] > 0 ==> A[s] == Code(lens[..], s)
  {
    ghost var ls := lens[..];
    var sym := 0;
    while sym < A.Length
      invariant 0 <= sym <= A.Length && lens[..] == ls
      invariant forall l :: 1 <= l <= max ==> nxt[l] == FirstCode(ls, l) + Count(ls[..sym], l)
      invariant forall s :: 0 <= s < sym && ls[s] > 0 ==> A[s] == Code(ls, s)
    {
      assert ls[..sym + 1][..sym] == ls[..sym] && ls[sym] == lens[sym];
      A[sym] := nxt[lens[sym]];
      nxt[lens[sym]] := nxt[lens[sym]] + 1;
      sym := sym + 1;
    }
  }

  method GenCodes(A: array<nat>, lens: array<nat>, lenCnt: array<nat>, max: nat,
                  ghost a: seq<nat>, ghost f: seq<nat>)
    requires A != lens && lens != lenCnt && A != lenCnt
    requires A.Length == lens.Length == |f| <= SYM_RANGE
    requires SameSyms(A[..], a) && SortedSyms(a, f)
    requires 0 < max < lenCnt.Length && max <= MAX_CODE_LEN && Balanced(lenCnt[..], max, |a|)
    requires forall s :: 0 <= s < |f| && f[s] == 0 ==> lens[s] == 0
    modifies A, lens
    ensures Bounded(lens[..], max) && Complete(lens[..]) && InRuns(lens[..], a, f, old(lenCnt[..]), |a|)
    ensures forall l :: 1 <= l <= max ==> Count(lens[..], l) == old(lenCnt[l])
    ensures forall s :: 0 <= s < |f| ==> (lens[s] > 0 <==> f[s] > 0)
    ensures forall s :: 0 <= s < A.Length && lens[s] > 0 ==> A[s] == Code(lens[..], s)
  {
    AssignLens(A, lens, lenCnt, max, a, f);
    ghost var ls := lens[..];
    CoveredFill(ls, lenCnt[..], max);
    CoveredAbove(ls, max, MAX_CODE_LEN);
    var nxt := new nat[MAX_CODE_LEN + 1](_ => 0);
    StartCodes(nxt, lenCnt, max, ls);
    assert lens[..] == ls;
    NumberCodes(A, lens, nxt, max);
    assert lens[..] == ls;
  }

  /** What `Huff` promises: a complete prefix code on the used symbols, in canonical
      numbering, with every code already in transmission order. */
  ghost predicate PrefixCode(lens: seq<nat>, codes: seq<nat>, f: seq<nat>, max: nat) {
    && |lens| == |codes| == |f| && max <= MAX_CODE_LEN && Bounded(lens, max)
    && (forall s :: 0 <= s < |f| && f[s] > 0 ==> lens[s] > 0)
    && (if forall s :: 0 <= s < |f| ==> f[s] == 0
        then forall s :: 0 <= s < |f| ==> lens[s] == 0
        else Complete(lens))
    && (forall s :: 0 <= s < |f| && lens[s] > 0 ==> codes[s] == Rev(Code(lens, s), lens[s]))
    && Brief(lens, f, max)
  }

  /** A single used symbol shares its one-bit code with a neighbour. */
  lemma TwoWords(lens: seq<nat>, i: nat)
    requires 1 <= i < |lens| && lens[0] == lens[i] == 1
    requires forall s :: 0 <= s < |lens| && s != 0 && s != i ==> lens[s] == 0
    ensures Complete(lens) && Code(lens, 0) == 0 && Code(lens, i) == 1
  {
    var z := seq(|lens|, _ => 0);
    assert lens == z[0 := 1][i := 1];
    CountZeros(z, 1);
    CountUpdate(z, 0, 1, 1);
    CountUpdate(z[0 := 1], i, 1, 1);
    assert Covered(lens, 1) == 2;
    CoveredAbove(lens, 1, MAX_CODE_LEN);
    var head := lens[..i];
    var zi := seq(i, _ => 0);
    assert head == zi[0 := 1];
    CountZeros(zi, 1);
    CountUpdate(zi, 0, 1, 1);
  }

  lemma UsedNone(a: seq<nat>, f: seq<nat>)
    requires SortedSyms(a, f)
    ensures a == [] <==> forall s :: 0 <= s < |f| ==> f[s] == 0
  {
    if a != [] { assert IsPacked(a[0], f); }
  }

  /** The only used symbol gets the code 1, unless it is symbol 0. */
  method OneSymbol(lens: array<nat>, codes: array<nat>, ghost f: seq<nat>)
    requires lens.Length == codes.Length == |f| && 2 <= |f| <= SYM_RANGE && lens != codes
    requires SortedSyms(codes[..1], f)
    requires forall s :: 0 <= s < |f| && f[s] == 0 ==> lens[s] == 0
    modifies lens, codes
    ensures PrefixCode(lens[..], codes[..], f, 1)
  {
    ghost var a := codes[..1];
    assert IsPacked(a[0], f);
    var s := codes[0] % SYM_RANGE;
    forall t | 0 <= t < |f| && f[t] > 0 ensures t == s { var j := SymOf(a, f, t); }
    var i := if s != 0 then s else 1;
    codes[0], lens[0] := 0, 1;
    codes[i], lens[i] := 1, 1;
    TwoWords(lens[..], i);
    assert Rev(0, 1) == 0 && Rev(1, 1) == 1;
  }

  method ReverseCodes(lens: array<nat>, codes: array<nat>)
    requires lens != codes && codes.Length == lens.Length && Bounded(lens[..], MAX_CODE_LEN)
    requires forall s :: 0 <= s < codes.Length && lens[s] > 0 ==> codes[s] == Code(lens[..], s)
    modifies codes
    ensures forall s :: 0 <= s < codes.Length && lens[s] > 0 ==>
      codes[s] == Rev(Code(lens[..], s), lens[s])
  {
    ghost var ls := lens[..];
    var c := 0;
    while c < codes.Length
      invariant 0 <= c <= codes.Length && lens[..] == ls
      invariant forall s :: 0 <= s < c && ls[s] > 0 ==> codes[s] == Rev(Code(ls, s), ls[s])
      invariant forall s :: c <= s < codes.Length && ls[s] > 0 ==> codes[s] == Code(ls, s)
    {
      assert ls[c] == lens[c];
      RevCorrect(codes[c], lens[c]);
      codes[c] := SdeflRev(codes[c], lens[c]);
      c := c + 1;
    }
  }

  /** The general case: tree, leaf counts, lengths, canonical numbers. */
  method BuildCodes(lens: array<nat>, codes: array<nat>, used: nat, max: nat, ghost f: seq<nat>)
    requires lens.Length == codes.Length == |f| <= SYM_MAX && lens != codes
    requires 2 <= used <= |f| && 1 <= max <= MAX_CODE_LEN && |f| <= Pow2(max)
    requires SortedSyms(codes[..used], f)
    requires forall s :: 0 <= s < |f| && f[s] == 0 ==> lens[s] == 0
    modifies lens, codes
    ensures Bounded(lens[..], max) && Complete(lens[..])
    ensures Brief(lens[..], f, max) && (Shallow(f, max) ==> HuffOptimal.Optimal(lens[..], f))
    ensures forall s :: 0 <= s < |f| ==> (lens[s] > 0 <==> f[s] > 0)
    ensures forall s :: 0 <= s < codes.Length && lens[s] > 0 ==> codes[s] == Code(lens[..], s)
  {
    hide InRuns, HuffOptimal.Optimal, Exact, HuffTree.HuffmanTree, HuffTree.Weights, HuffTree.IsTree, Shallow, Depth, Brief;
    ghost var a := codes[..used];
    var lenCnt := new nat[MAX_CODE_LEN + 1](_ => 0);
    ghost var t := CountLens(codes, used, max, lenCnt);
    ghost var L := lenCnt[..];
    GenCodes(codes, lens, lenCnt, max, a, f);
    if Shallow(f, max) {
      ShallowIs(a, f, max);
      DealtOptimal(lens[..], a, f, L, max);
    }
    DealtBrief(lens[..], a, f, L, max);
  }

  /** Tree and leaf counts. */
  method CountLens(codes: array<nat>, used: nat, max: nat, lenCnt: array<nat>)
    returns (ghost t: HuffTree.Tree)
    requires codes != lenCnt && 2 <= used <= codes.Length && 1 <= max < lenCnt.Length
    requires used <= Pow2(max)
    modifies codes, lenCnt
    ensures SameSyms(codes[..], old(codes[..used]))
    ensures Balanced(lenCnt[..], max, used)
    ensures t == HuffTree.HuffmanTree(old(HuffTree.Weights(codes[..used])))
    ensures Depth(t, used, 0) < max ==> Exact(lenCnt[..], t, used, max, 0)
  {
    ghost var a := codes[..used];
    t := HuffTree.BuildTree(codes, used);
    assert forall k :: 0 <= k < used ==> codes[k] == codes[..used][k];
    GenLenCnt(codes, used - 2, lenCnt, max, t);
  }

  lemma PrefixIs(lens: seq<nat>, codes: seq<nat>, f: seq<nat>, max: nat)
    requires |lens| == |codes| == |f| && max <= MAX_CODE_LEN && Bounded(lens, max) && Complete(lens)
    requires forall s :: 0 <= s < |f| ==> (lens[s] > 0 <==> f[s] > 0)
    requires exists s :: 0 <= s < |f| && f[s] != 0
    requires forall s :: 0 <= s < |f| && lens[s] > 0 ==> codes[s] == Rev(Code(lens, s), lens[s])
    requires Brief(lens, f, max)
    ensures PrefixCode(lens, codes, f, max)
  {
    hide Brief, Bounded, Complete, Rev, Code;
  }

  method SeveralSymbols(lens: array<nat>, codes: array<nat>, used: nat, max: nat, ghost f: seq<nat>)
    requires lens.Length == codes.Length == |f| <= SYM_MAX && lens != codes
    requires 2 <= used <= |f| && 1 <= max <= MAX_CODE_LEN && |f| <= Pow2(max)
    requires SortedSyms(codes[..used], f) && exists s :: 0 <= s < |f| && f[s] != 0
    requires forall s :: 0 <= s < |f| && f[s] == 0 ==> lens[s] == 0
    modifies lens, codes
    ensures PrefixCode(lens[..], codes[..], f, max)
    ensures Shallow(f, max) ==> HuffOptimal.Optimal(lens[..], f)
  {
    hide HuffOptimal.Optimal, Shallow, SortedSyms, PrefixCode, Code, Rev, Complete, Pow2, Brief;
    BuildCodes(lens, codes, used, max, f);
    ghost var ls := lens[..];
    ReverseCodes(lens, codes);
    assert lens[..] == ls;
    PrefixIs(ls, codes[..], f, max);
  }

  /** sdefl_huff. */
  method Huff(lens: array<nat>, codes: array<nat>, freqs: array<nat>, max: nat)
    requires 2 <= freqs.Length <= SYM_MAX && lens.Length == codes.Length == freqs.Length
    requires freqs != lens && freqs != codes && lens != codes
    requires 1 <= max <= MAX_CODE_LEN && freqs.Length <= Pow2(max)
    modifies lens, codes
    ensures PrefixCode(lens[..], codes[..], freqs[..], max)
    ensures Shallow(freqs[..], max) ==> HuffOptimal.Optimal(lens[..], freqs[..])
  {
    hide HuffOptimal.Optimal, Shallow, SortedSyms, Bounded, Complete, Pow2, PrefixCode;
    ghost var f := freqs[..];
    var used := SortSym(freqs, lens, codes);
    UsedNone(codes[..used], f);
    if used < 2 { NotShallow(codes[..used], f, max); }
    if used == 0 {
      NoneUsed(lens[..], codes[..], f, max);
      return;
    }
    if used == 1 {
      OneSymbol(lens, codes, f);
      WiderLimit(lens[..], codes[..], f, max);
      return;
    }
    SeveralSymbols(lens, codes, used, max, f);
  }

  lemma NoneUsed(lens: seq<nat>, codes: seq<nat>, f: seq<nat>, max: nat)
    requires |lens| == |codes| == |f| && max <= MAX_CODE_LEN
    requires forall s :: 0 <= s < |f| ==> f[s] == 0 && lens[s] == 0
    ensures PrefixCode(lens, codes, f, max)
  {
  }

  lemma WiderLimit(lens: seq<nat>, codes: seq<nat>, f: seq<nat>, max: nat)
    requires PrefixCode(lens, codes, f, 1) && 1 <= max <= MAX_CODE_LEN
    ensures PrefixCode(lens, codes, f, max)
  {
  }
}
