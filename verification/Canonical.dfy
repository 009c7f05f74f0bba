/** Canonical prefix codes (section 3.2.2 of RFC 1951).

  A code is given by its length vector: `lens[s]` is the number of bits of
  symbol `s`, 0 when the symbol does not occur.
*/
module Canonical {
  import opened Bits

  const MAX_CODE_LEN: nat := 15

  type Lens = seq<nat>

  predicate Bounded(lens: Lens, max: nat) {
    forall s :: 0 <= s < |lens| ==> lens[s] <= max
  }

  /** How many symbols have length `l`. */
  function Count(lens: Lens, l: nat): nat {
    if lens == [] then 0
    else Count(lens[..|lens| - 1], l) + (if lens[|lens| - 1] == l then 1 else 0)
  }

  /** How many nodes of depth `l` of the code tree the codewords of length at most `l` cover. */
  function Covered(lens: Lens, l: nat): nat {
    if l == 0 then 0 else 2 * Covered(lens, l - 1) + Count(lens, l)
  }

  predicate Complete(lens: Lens) { Covered(lens, MAX_CODE_LEN) == Pow2(MAX_CODE_LEN) }

  predicate Incomplete(lens: Lens) { Covered(lens, MAX_CODE_LEN) < Pow2(MAX_CODE_LEN) }

  /** Not oversubscribed. */
  predicate Fits(lens: Lens) { Complete(lens) || Incomplete(lens) }

  /** The smallest code of length `l`. */
  function FirstCode(lens: Lens, l: nat): nat
    requires l > 0
  {
    2 * Covered(lens, l - 1)
  }

  predicate IsUsed(lens: Lens, s: nat) { s < |lens| && 0 < lens[s] <= MAX_CODE_LEN }

  /** The code of a symbol as a number, most significant bit transmitted first. */
  function Code(lens: Lens, s: nat): nat
    requires IsUsed(lens, s)
  {
    FirstCode(lens, lens[s]) + Count(lens[..s], lens[s])
  }

  /** The `n` low bits of `c` in reverse order. */
  function Rev(c: nat, n: nat): (r: nat)
    ensures r < Pow2(n)
  {
    if n == 0 then 0 else (c % 2) * Pow2(n - 1) + Rev(c / 2, n - 1)
  }

  /** The codeword as it appears in the bit stream. */
  function Codeword(lens: Lens, s: nat): (w: bits)
    requires IsUsed(lens, s)
    ensures |w| == lens[s]
  {
    IntBits(Rev(Code(lens, s), lens[s]), lens[s])
  }

  /** The codeword of `s` is found at offset `p`. */
  predicate IsSym(lens: Lens, S: bits, p: nat, s: nat) {
    IsUsed(lens, s) && At(S, p, Codeword(lens, s))
  }

  // ------------------------------------------------------------- reversing

  lemma {:induction false} BitRev(c: nat, n: nat, k: nat)
    ensures Bit(Rev(c, n), k) == (k < n && Bit(c, n - 1 - k))
    decreases n
  {
    if n == 0 {
      BitZero(k);
    } else {
      var hi := (c % 2) * Pow2(n - 1);
      var lo := Rev(c / 2, n - 1);
      OrDisjoint(lo, c % 2, n - 1);
      BitOr(lo, hi, k);
      BitShl(c % 2, n - 1, k);
      BitRev(c / 2, n - 1, k);
      if k >= n { BitZero(k - n); }
    }
  }

  lemma RevRev(c: nat, n: nat)
    requires c < Pow2(n)
    ensures Rev(Rev(c, n), n) == c
  {
    forall k | 0 <= k < n ensures Bit(Rev(Rev(c, n), n), k) == Bit(c, k) {
      BitRev(Rev(c, n), n, k);
      BitRev(c, n, n - 1 - k);
    }
    SameBits(Rev(Rev(c, n), n), c, n);
  }

  /** Dropping low bits of a code is dropping the last bits of its codeword. */
  lemma RevPrefix(c: nat, n: nat, m: nat)
    requires m <= n
    ensures Rev(c, n) % Pow2(m) == Rev(c / Pow2(n - m), m)
  {
    var d := c / Pow2(n - m);
    ModBelow(Rev(c, n), Pow2(m));
    forall k | 0 <= k < m ensures Bit(Rev(c, n) % Pow2(m), k) == Bit(Rev(d, m), k) {
      BitMod(Rev(c, n), m, k);
      BitRev(c, n, k);
      BitRev(d, m, k);
      BitShr(c, n - m, m - 1 - k);
    }
    SameBits(Rev(c, n) % Pow2(m), Rev(d, m), m);
  }

  // -------------------------------------------------------------- counting

  lemma {:induction false} CountPrefix(lens: Lens, n: nat, l: nat)
    requires n <= |lens|
    ensures Count(lens[..n], l) <= Count(lens, l)
  {
    if n < |lens| {
      assert lens[..|lens| - 1][..n] == lens[..n];
      CountPrefix(lens[..|lens| - 1], n, l);
    } else {
      assert lens[..n] == lens;
    }
  }

  /** Ranks are distinct and below the count. */
  lemma RankOrder(lens: Lens, s: nat, t: nat)
    requires s < t < |lens| && lens[s] == lens[t]
    ensures Count(lens[..s], lens[s]) < Count(lens[..t], lens[t])
  {
    assert lens[..s + 1][..s] == lens[..s];
    assert Count(lens[..s + 1], lens[s]) == Count(lens[..s], lens[s]) + 1;
    assert lens[..t][..s + 1] == lens[..s + 1];
    CountPrefix(lens[..t], s + 1, lens[s]);
  }

  lemma RankBelow(lens: Lens, s: nat)
    requires s < |lens|
    ensures Count(lens[..s], lens[s]) < Count(lens, lens[s])
  {
    assert lens[..s + 1][..s] == lens[..s];
    assert Count(lens[..s + 1], lens[s]) == Count(lens[..s], lens[s]) + 1;
    CountPrefix(lens, s + 1, lens[s]);
  }

  /** Every rank below the count is taken. */
  lemma {:induction false} RankTaken(lens: Lens, l: nat, r: nat) returns (s: nat)
    requires r < Count(lens, l)
    ensures s < |lens| && lens[s] == l && Count(lens[..s], l) == r
  {
    var n := |lens| - 1;
    if Count(lens[..n], l) == r {
      s := n;
    } else {
      s := RankTaken(lens[..n], l, r);
      assert lens[..n][..s] == lens[..s];
    }
  }

  lemma {:induction false} CoveredGrows(lens: Lens, l: nat, m: nat)
    requires l <= m
    ensures Covered(lens, l) * Pow2(m - l) <= Covered(lens, m)
    decreases m
  {
    if l < m {
      CoveredGrows(lens, l, m - 1);
      TwiceProduct(Covered(lens, l), Pow2(m - 1 - l));
    }
  }

  lemma TwiceProduct(a: nat, d: nat)
    ensures a * (2 * d) == 2 * (a * d)
  {
  }

  lemma CoveredBound(lens: Lens, l: nat)
    requires Fits(lens) && l <= MAX_CODE_LEN
    ensures Covered(lens, l) <= Pow2(l)
  {
    CoveredGrows(lens, l, MAX_CODE_LEN);
    Pow2Add(l, MAX_CODE_LEN - l);
    MulCancel(Covered(lens, l), Pow2(l), Pow2(MAX_CODE_LEN - l));
  }

  lemma CodeBelow(lens: Lens, s: nat)
    requires IsUsed(lens, s)
    ensures Code(lens, s) < Covered(lens, lens[s])
    ensures Fits(lens) ==> Code(lens, s) < Pow2(lens[s])
  {
    RankBelow(lens, s);
    if Fits(lens) { CoveredBound(lens, lens[s]); }
  }

  // ----------------------------------------------------------- prefix code

  /** No code is a prefix of another one. */
  lemma PrefixFree(lens: Lens, s: nat, t: nat)
    requires IsUsed(lens, s) && IsUsed(lens, t) && lens[s] <= lens[t]
    requires Code(lens, t) / Pow2(lens[t] - lens[s]) == Code(lens, s)
    ensures s == t
  {
    var l, m := lens[s], lens[t];
    if l < m {
      hide Code, Pow2, Covered;
      CodeBelow(lens, s);
      CoveredGrows(lens, l, m - 1);
      CodeAtLeast(lens, t);
      PowTwice(m - 1 - l);
      LaterCode(Code(lens, s), Covered(lens, l), Pow2(m - 1 - l), Code(lens, t));
    } else if s != t {
      SameLenDiffers(lens, s, t);
    }
  }

  lemma CodeAtLeast(lens: Lens, t: nat)
    requires IsUsed(lens, t)
    ensures Code(lens, t) >= 2 * Covered(lens, lens[t] - 1)
  {
  }

  lemma SameLenDiffers(lens: Lens, s: nat, t: nat)
    requires IsUsed(lens, s) && IsUsed(lens, t) && lens[s] == lens[t] && s != t
    ensures Code(lens, s) != Code(lens, t)
  {
    if s < t { RankOrder(lens, s, t); } else { RankOrder(lens, t, s); }
  }

  lemma LaterCode(c: nat, covered: nat, d: nat, later: nat)
    requires d > 0 && c < covered && later >= 2 * (covered * d)
    ensures later / (2 * d) > c
  {
    MulMono(c + 1, covered, d);
    assert 2 * ((c + 1) * d) == (c + 1) * (2 * d);
    DivAtLeast(later, c + 1, 2 * d);
  }

  lemma DivAtLeast(w: nat, q: nat, d: nat)
    requires d > 0 && w >= q * d
    ensures w / d >= q
  {
    var e := w - q * d;
    assert e == d * (e / d) + e % d;
    assert w == d * (q + e / d) + e % d;
    DivUnique(w, d, q + e / d, e % d);
  }

  /** At most one symbol can be read at any place of any bit string. */
  lemma SymUnique(lens: Lens, S: bits, p: nat, s: nat, t: nat)
    requires Fits(lens) && IsSym(lens, S, p, s) && IsSym(lens, S, p, t)
    ensures s == t
  {
    if lens[s] <= lens[t] {
      SymPrefix(lens, S, p, s, t);
    } else {
      SymPrefix(lens, S, p, t, s);
    }
  }

  lemma SymPrefix(lens: Lens, S: bits, p: nat, s: nat, t: nat)
    requires Fits(lens) && IsSym(lens, S, p, s) && IsSym(lens, S, p, t) && lens[s] <= lens[t]
    ensures s == t
  {
    CodeBelow(lens, s);
    CodeBelow(lens, t);
    PrefixBits(lens, S, p, s, t);
    CodePrefix(Code(lens, s), lens[s], Code(lens, t), lens[t]);
    PrefixFree(lens, s, t);
  }

  lemma RevInjective(a: nat, b: nat, n: nat)
    requires a < Pow2(n) && b < Pow2(n) && Rev(a, n) == Rev(b, n)
    ensures a == b
  {
    RevRev(a, n);
    RevRev(b, n);
  }

  lemma ShiftBelow(b: nat, l: nat, m: nat)
    requires l <= m && b < Pow2(m)
    ensures 0 <= b / Pow2(m - l) < Pow2(l)
  {
    var x, d := Pow2(l), Pow2(m - l);
    assert x * d == Pow2(m) by { Pow2Add(l, m - l); }
    DivBelow(b, x, d);
  }

  lemma CodePrefix(a: nat, l: nat, b: nat, m: nat)
    requires l <= m && a < Pow2(l) && b < Pow2(m)
    requires Rev(a, l) == Rev(b, m) % Pow2(l)
    ensures b / Pow2(m - l) == a
  {
    var c := b / Pow2(m - l);
    ShiftBelow(b, l, m);
    RevPrefix(b, m, l);
    RevInjective(a, c, l);
  }

  lemma PrefixBits(lens: Lens, S: bits, p: nat, s: nat, t: nat)
    requires IsSym(lens, S, p, s) && IsSym(lens, S, p, t) && lens[s] <= lens[t]
    ensures Rev(Code(lens, s), lens[s]) == Rev(Code(lens, t), lens[t]) % Pow2(lens[s])
  {
    var l, m := lens[s], lens[t];
    var ra, rb := Rev(Code(lens, s), l), Rev(Code(lens, t), m);
    AtSame(S, p, Codeword(lens, s), Codeword(lens, t));
    ModBelow(rb, Pow2(l));
    forall k | 0 <= k < l ensures Bit(ra, k) == Bit(rb % Pow2(l), k) {
      assert Codeword(lens, s)[k] == Codeword(lens, t)[k];
      BitMod(rb, l, k);
    }
    SameBits(ra, rb % Pow2(l), l);
  }

  lemma DivBelow(w: nat, x: nat, d: nat)
    requires d > 0
    ensures w < x * d ==> w / d < x
  {
    if w / d >= x {
      MulMono(x, w / d, d);
      assert w == (w / d) * d + w % d;
    }
  }

  /** A complete code reads some symbol from every bit string that is long enough. */
  lemma SymExists(lens: Lens, S: bits, p: nat) returns (s: nat)
    requires Complete(lens) && p + MAX_CODE_LEN <= |S|
    ensures IsSym(lens, S, p, s)
  {
    var window := S[p..p + MAX_CODE_LEN];
    var w := Word(window);
    var v := Rev(w, MAX_CODE_LEN);
    var l := FirstCovered(lens, v, MAX_CODE_LEN);
    var c := v / Pow2(MAX_CODE_LEN - l);
    s := RankTaken(lens, l, c - FirstCode(lens, l));
    assert Code(lens, s) == c;
    RevPrefix(v, MAX_CODE_LEN, l);
    RevRev(w, MAX_CODE_LEN);
    forall k | 0 <= k < l ensures Codeword(lens, s)[k] == S[p..p + l][k] {
      BitMod(w, l, k);
      WordBit(window, k);
    }
  }

  /** The shortest length whose codewords cover the leading bits of `v`. */
  lemma {:induction false} FirstCovered(lens: Lens, v: nat, m: nat) returns (l: nat)
    requires m <= MAX_CODE_LEN
    requires v / Pow2(MAX_CODE_LEN - m) < Covered(lens, m)
    ensures 0 < l <= m
    ensures FirstCode(lens, l) <= v / Pow2(MAX_CODE_LEN - l) < FirstCode(lens, l) + Count(lens, l)
  {
    var d := Pow2(MAX_CODE_LEN - m);
    assert Pow2(MAX_CODE_LEN - (m - 1)) == 2 * d;
    DivDivSwap(v, d);
    if v / (2 * d) < Covered(lens, m - 1) {
      l := FirstCovered(lens, v, m - 1);
    } else {
      l := m;
    }
  }

  lemma DivDivSwap(v: nat, d: nat)
    requires d > 0
    ensures v / (2 * d) == (v / d) / 2
  {
    var q, r := v / d, v % d;
    assert v == d * q + r;
    assert d * q == d * (2 * (q / 2) + q % 2) == (2 * d) * (q / 2) + d * (q % 2);
    DivUnique(v, 2 * d, q / 2, d * (q % 2) + r);
  }

  // --------------------------------------------------------- trailing zeros

  lemma {:induction false} CountTrim(lens: Lens, n: nat, l: nat)
    requires n <= |lens| && l > 0
    requires forall s :: n <= s < |lens| ==> lens[s] == 0
    ensures Count(lens[..n], l) == Count(lens, l)
  {
    if n < |lens| {
      assert lens[..|lens| - 1][..n] == lens[..n];
      CountTrim(lens[..|lens| - 1], n, l);
    } else {
      assert lens[..n] == lens;
    }
  }

  lemma {:induction false} CoveredTrim(lens: Lens, n: nat, l: nat)
    requires n <= |lens|
    requires forall s :: n <= s < |lens| ==> lens[s] == 0
    ensures Covered(lens[..n], l) == Covered(lens, l)
    decreases l
  {
    if l > 0 {
      CountTrim(lens, n, l);
      CoveredTrim(lens, n, l - 1);
    }
  }

  /** Unused symbols at the end of the alphabet do not change any codeword. */
  lemma CodewordTrim(lens: Lens, n: nat, s: nat)
    requires n <= |lens|
    requires forall t :: n <= t < |lens| ==> lens[t] == 0
    requires IsUsed(lens, s)
    ensures s < n && Codeword(lens[..n], s) == Codeword(lens, s)
  {
    assert s < n;
    CoveredTrim(lens, n, lens[s] - 1);
    assert lens[..n][..s] == lens[..s];
  }
}
