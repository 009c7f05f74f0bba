/** The two-level decoding tables (`sinfl_build`, `sinfl_build_tbl`, `sinfl_build_subtbl`). */
module SinflTables {
  import opened Bits
  import opened Canonical
  import opened MatchCodes
  import HuffSort

  /** The codeword of a symbol as a number, first transmitted bit lowest. */
  function RevCode(lens: Lens, s: nat): (r: nat)
    requires IsUsed(lens, s)
    ensures r < Pow2(lens[s])
  {
    Rev(Code(lens, s), lens[s])
  }

  /** A table entry: symbol above, code length below. */
  function Entry(s: nat, len: nat): nat { s * 65536 + len }

  /** The entry that leads to a sub-table. */
  function Link(start: nat, subBits: nat): nat { start * 65536 + 16 + subBits }

  /** The `n` low bits of `w`. */
  function Low(w: nat, n: nat): (r: nat)
    ensures r < Pow2(n)
  {
    ModBelow(w, Pow2(n));
    w % Pow2(n)
  }

  /** All places of the main table that begin with the codeword of `s` name it. */
  ghost predicate ShortOk(tbl: seq<nat>, bits: nat, lens: Lens, s: nat)
    requires IsUsed(lens, s) && Pow2(bits) <= |tbl|
  {
    forall i :: 0 <= i < Pow2(bits) && i % Pow2(lens[s]) == RevCode(lens, s) ==> tbl[i] == Entry(s, lens[s])
  }

  /** The main table leads to a sub-table, whose places that continue the codeword name `s`. */
  ghost predicate LongOk(tbl: seq<nat>, bits: nat, lens: Lens, s: nat, start: nat, subBits: nat)
    requires IsUsed(lens, s) && bits < lens[s] && Pow2(bits) <= |tbl|
  {
    var r := RevCode(lens, s);
    && tbl[r % Pow2(bits)] == Link(start, subBits)
    && lens[s] - bits <= subBits <= MAX_CODE_LEN - bits && start + Pow2(subBits) <= |tbl|
    && forall i :: start <= i < start + Pow2(subBits) && Low(i - start, lens[s] - bits) == Shr(r, bits)
         ==> tbl[i] == Entry(s, lens[s] - bits)
  }

  // ------------------------------------------------------------- next word

  lemma {:induction false} XorOnes(w: nat, n: nat)
    requires w < Pow2(n)
    ensures Xor(w, Pow2(n) - 1) == Pow2(n) - 1 - w
  {
    if n > 0 && w > 0 { XorOnes(w / 2, n - 1); }
  }

  /** The highest bit of `word` that is clear becomes set, the set bits above it clear. */
  function NextWord(word: nat, len: nat): nat {
    var b := Ilog2(Xor(word, Pow2(len) - 1));
    word % Pow2(b) + Pow2(b)
  }

  lemma {:induction false} RevSuccTop(c: nat, n: nat)
    requires n > 0 && c + 1 < Pow2(n)
    ensures c % 2 == 0 ==> Rev(c + 1, n) == Rev(c, n) + Pow2(n - 1) && Rev(c, n) < Pow2(n - 1)
    ensures c % 2 == 1 ==> Rev(c + 1, n) == Rev(c / 2 + 1, n - 1) && Rev(c, n) == Pow2(n - 1) + Rev(c / 2, n - 1)
    ensures c % 2 == 1 ==> n > 1 && c / 2 + 1 < Pow2(n - 1)
  {
    if c % 2 == 0 {
      assert (c + 1) / 2 == c / 2;
    } else {
      assert (c + 1) / 2 == c / 2 + 1;
    }
  }

  lemma {:induction false} Ilog2Unique(n: nat, b: nat)
    requires Pow2(b) <= n < Pow2(b + 1)
    ensures Ilog2(n) == b
    decreases b
  {
    if b > 0 { Ilog2Unique(n / 2, b - 1); }
  }

  lemma AddHighMod(v: nat, m: nat, b: nat)
    requires b <= m
    ensures (Pow2(m) + v) % Pow2(b) == v % Pow2(b)
  {
    Pow2Add(b, m - b);
    AddMultiple(v, Pow2(b), Pow2(m - b));
  }

  /** A code that is not the last one of its length has a clear bit. */
  lemma NotAllOnes(c: nat, n: nat)
    requires c + 1 < Pow2(n)
    ensures Rev(c, n) < Pow2(n) - 1
  {
    if Rev(c, n) == Pow2(n) - 1 {
      RevOnes(n);
      RevInjective(c, Pow2(n) - 1, n);
    }
  }

  lemma {:induction false} RevOnes(n: nat)
    ensures Rev(Pow2(n) - 1, n) == Pow2(n) - 1
  {
    if n > 0 {
      RevOnes(n - 1);
      assert (Pow2(n) - 1) / 2 == Pow2(n - 1) - 1;
    }
  }

  /** Incrementing a code in reverse. */
  lemma {:induction false} NextWordCorrect(c: nat, n: nat)
    requires c + 1 < Pow2(n)
    ensures NextWord(Rev(c, n), n) == Rev(c + 1, n)
    decreases n
  {
    if n > 0 {
      var w := Rev(c, n);
      RevSuccTop(c, n);
      if c % 2 == 0 {
        XorOnes(w, n);
        Ilog2Unique(Pow2(n) - 1 - w, n - 1);
        ModBelow(w, Pow2(n - 1));
      } else {
        NextWordCorrect(c / 2, n - 1);
        NextWordHigh(Rev(c / 2, n - 1), n - 1, c / 2);
      }
    }
  }

  /** A set top bit does not matter. */
  lemma NextWordHigh(v: nat, m: nat, c: nat)
    requires c + 1 < Pow2(m) && v == Rev(c, m)
    ensures NextWord(Pow2(m) + v, m + 1) == NextWord(v, m)
  {
    NotAllOnes(c, m);
    XorOnes(v, m);
    XorOnes(Pow2(m) + v, m + 1);
    var x := Pow2(m) - 1 - v;
    var b := Ilog2(x);
    Ilog2Range(x);
    if b >= m { Pow2Mono(m, b); }
    AddHighMod(v, m, b);
  }

  // -------------------------------------------------- the canonical sequence

  /** Symbol `t` comes before the `r`-th symbol of length `l` in canonical order. */
  predicate Before(lens: Lens, t: nat, l: nat, r: nat) {
    IsUsed(lens, t) && (lens[t] < l || (lens[t] == l && Count(lens[..t], l) < r))
  }

  /** Symbol `s` is the `r`-th one of length `l`. */
  predicate Current(lens: Lens, s: nat, l: nat, r: nat) {
    IsUsed(lens, s) && lens[s] == l && Count(lens[..s], l) == r
  }

  lemma CurrentExists(lens: Lens, l: nat, r: nat) returns (s: nat)
    requires 0 < l <= MAX_CODE_LEN && r < Count(lens, l)
    ensures Current(lens, s, l, r) && Code(lens, s) == FirstCode(lens, l) + r
  {
    s := RankTaken(lens, l, r);
  }

  /** Moving on by one symbol adds just that symbol. */
  lemma BeforeNext(lens: Lens, s: nat, l: nat, r: nat, t: nat)
    requires Current(lens, s, l, r) && Before(lens, t, l, r + 1)
    ensures t == s || Before(lens, t, l, r)
  {
    if lens[t] == l && Count(lens[..t], l) == r && t != s {
      if t < s { RankOrder(lens, t, s); } else { RankOrder(lens, s, t); }
    }
  }

  /** Moving on to the next length adds nothing. */
  lemma BeforeLonger(lens: Lens, l: nat, t: nat)
    requires Before(lens, t, l + 1, 0)
    ensures Before(lens, t, l, Count(lens, l))
  {
    if lens[t] == l { RankBelow(lens, t); }
  }

  lemma NotBeforeSelf(lens: Lens, s: nat, l: nat, r: nat, t: nat)
    requires Current(lens, s, l, r) && Before(lens, t, l, r)
    ensures t != s && lens[t] <= l
  {
  }

  /** Behind an all-ones codeword of a code there are no more symbols. */
  lemma AllBefore(lens: Lens, l: nat, r: nat, t: nat)
    requires Fits(lens) && 0 < l <= MAX_CODE_LEN && r <= Count(lens, l)
    requires FirstCode(lens, l) + r == Pow2(l) && IsUsed(lens, t)
    ensures Before(lens, t, l, r)
  {
    hide Code, Pow2, Covered, Count, Fits;
    CodeBelow(lens, t);
    if lens[t] > l {
      CoversAll(lens, l, r, lens[t]);
      CodeAtLeast(lens, t);
    } else if lens[t] == l {
      CodeRank(lens, t);
    }
  }

  lemma CoversAll(lens: Lens, l: nat, r: nat, m: nat)
    requires 0 < l < m && r <= Count(lens, l) && FirstCode(lens, l) + r == Pow2(l)
    ensures 2 * Covered(lens, m - 1) >= Pow2(m)
  {
    hide Pow2, Count;
    CoveredGrows(lens, l, m - 1);
    var d := Pow2(m - 1 - l);
    MulMono(Pow2(l), Covered(lens, l), d);
    Pow2Add(l, m - 1 - l);
    PowTwice(m - 1);
  }

  lemma CodeRank(lens: Lens, t: nat)
    requires IsUsed(lens, t)
    ensures Code(lens, t) == FirstCode(lens, lens[t]) + Count(lens[..t], lens[t])
  {
  }

  /** The codeword of a symbol never begins with that of another one. */
  lemma NoPrefix(lens: Lens, s: nat, t: nat)
    requires Fits(lens) && IsUsed(lens, s) && IsUsed(lens, t) && lens[t] <= lens[s] && s != t
    ensures RevCode(lens, s) % Pow2(lens[t]) != RevCode(lens, t)
  {
    CodeBelow(lens, s);
    CodeBelow(lens, t);
    if RevCode(lens, s) % Pow2(lens[t]) == RevCode(lens, t) {
      CodePrefix(Code(lens, t), lens[t], Code(lens, s), lens[s]);
      PrefixFree(lens, t, s);
    }
  }

  // ------------------------------------------------------------ main table

  /** All symbols before the given one are in the main table, which uses `cur` index bits. */
  ghost predicate MainOk(tbl: seq<nat>, cur: nat, lens: Lens, l: nat, r: nat)
    requires Pow2(cur) <= |tbl|
  {
    forall t: nat :: Before(lens, t, l, r) ==> lens[t] <= cur && ShortOk(tbl, cur, lens, t)
  }

  lemma MainEmpty(tbl: seq<nat>, cur: nat, lens: Lens, l: nat)
    requires Pow2(cur) <= |tbl| && forall k :: 0 < k < l ==> Count(lens, k) == 0
    ensures MainOk(tbl, cur, lens, l, 0)
  {
    forall t: nat | Before(lens, t, l, 0) ensures false { RankBelow(lens, t); }
  }

  /** Entering one symbol. */
  lemma MainPut(tbl: seq<nat>, lens: Lens, l: nat, r: nat, s: nat)
    requires Fits(lens) && Pow2(l) <= |tbl| && MainOk(tbl, l, lens, l, r) && Current(lens, s, l, r)
    ensures RevCode(lens, s) < |tbl|
    ensures MainOk(tbl[RevCode(lens, s) := Entry(s, l)], l, lens, l, r + 1)
  {
    var w := RevCode(lens, s);
    var tbl' := tbl[w := Entry(s, l)];
    forall t: nat | Before(lens, t, l, r + 1) ensures lens[t] <= l && ShortOk(tbl', l, lens, t) {
      BeforeNext(lens, s, l, r, t);
      if t == s {
        PutSelf(tbl, lens, s);
      } else {
        NotBeforeSelf(lens, s, l, r, t);
        PutOther(tbl, lens, s, t);
      }
    }
  }

  lemma PutSelf(tbl: seq<nat>, lens: Lens, s: nat)
    requires IsUsed(lens, s) && Pow2(lens[s]) <= |tbl|
    ensures ShortOk(tbl[RevCode(lens, s) := Entry(s, lens[s])], lens[s], lens, s)
  {
    forall i | 0 <= i < Pow2(lens[s]) && i % Pow2(lens[s]) == RevCode(lens, s) ensures i == RevCode(lens, s) {
      ModBelow(i, Pow2(lens[s]));
    }
  }

  lemma PutOther(tbl: seq<nat>, lens: Lens, s: nat, t: nat)
    requires Fits(lens) && IsUsed(lens, s) && IsUsed(lens, t) && lens[t] <= lens[s] && s != t
    requires Pow2(lens[s]) <= |tbl| && ShortOk(tbl, lens[s], lens, t)
    ensures ShortOk(tbl[RevCode(lens, s) := Entry(s, lens[s])], lens[s], lens, t)
  {
    NoPrefix(lens, s, t);
  }

  /** The table with its first half copied into its second half. */
  function Doubled(tbl: seq<nat>, n: nat): (r: seq<nat>)
    requires 2 * n <= |tbl|
    ensures |r| == |tbl|
  {
    tbl[..n] + tbl[..n] + tbl[2 * n..]
  }

  lemma MainDouble(tbl: seq<nat>, cur: nat, lens: Lens, l: nat, r: nat)
    requires Pow2(cur + 1) <= |tbl| && MainOk(tbl, cur, lens, l, r)
    ensures MainOk(Doubled(tbl, Pow2(cur)), cur + 1, lens, l, r)
  {
    forall t: nat | Before(lens, t, l, r) ensures ShortOk(Doubled(tbl, Pow2(cur)), cur + 1, lens, t) {
      ShortDouble(tbl, cur, lens, t);
    }
  }

  lemma ShortDouble(tbl: seq<nat>, cur: nat, lens: Lens, t: nat)
    requires Pow2(cur + 1) <= |tbl| && IsUsed(lens, t) && lens[t] <= cur && ShortOk(tbl, cur, lens, t)
    ensures ShortOk(Doubled(tbl, Pow2(cur)), cur + 1, lens, t)
  {
    var n := Pow2(cur);
    forall i | 0 <= i < 2 * n && i % Pow2(lens[t]) == RevCode(lens, t)
      ensures Doubled(tbl, n)[i] == Entry(t, lens[t])
    {
      if i >= n {
        AddHighMod(i - n, cur, lens[t]);
        assert Doubled(tbl, n)[i] == tbl[i - n];
      }
    }
  }

  lemma MainLonger(tbl: seq<nat>, cur: nat, lens: Lens, l: nat)
    requires Pow2(cur) <= |tbl| && MainOk(tbl, cur, lens, l, Count(lens, l))
    ensures MainOk(tbl, cur, lens, l + 1, 0)
  {
    forall t: nat | Before(lens, t, l + 1, 0) ensures lens[t] <= cur && ShortOk(tbl, cur, lens, t) {
      BeforeLonger(lens, l, t);
    }
  }

  /** No symbol is left. */
  lemma MainFull(tbl: seq<nat>, cur: nat, lens: Lens, l: nat, r: nat)
    requires Pow2(cur) <= |tbl| && MainOk(tbl, cur, lens, l, r)
    requires Fits(lens) && 0 < l <= MAX_CODE_LEN && r <= Count(lens, l) && FirstCode(lens, l) + r == Pow2(l)
    ensures MainOk(tbl, cur, lens, MAX_CODE_LEN + 1, 0)
  {
    hide Pow2, Covered, Count, ShortOk, Fits, FirstCode;
    forall t: nat | Before(lens, t, MAX_CODE_LEN + 1, 0) ensures Before(lens, t, l, r) {
      AllBefore(lens, l, r, t);
    }
  }

  // ---------------------------------------------------------------- cursor

  /** `sort` lists the symbols by length, and by number within a length. */
  ghost predicate Sorted(sort: seq<nat>, lens: Lens) {
    forall s :: 0 <= s < |lens| && lens[s] > 0 ==>
      Count(lens, 0) + HuffSort.Pos(lens, s) < |sort| && sort[Count(lens, 0) + HuffSort.Pos(lens, s)] == s
  }

  /** The generator stands at the `r`-th symbol of length `len`. */
  ghost predicate Cursor(lens: Lens, len: nat, cnt: nat, word: nat, next: nat, r: nat) {
    && 0 < len <= MAX_CODE_LEN && r < Count(lens, len) && cnt == Count(lens, len) - r
    && word == Rev(FirstCode(lens, len) + r, len)
    && next == Count(lens, 0) + HuffSort.Start(lens, len) + r
  }

  /** The generator is done with length `len`, and codes are left. */
  ghost predicate Gap(lens: Lens, len: nat, word: nat, next: nat) {
    && len <= MAX_CODE_LEN && Covered(lens, len) < Pow2(len)
    && word == Rev(Covered(lens, len), len)
    && next == Count(lens, 0) + HuffSort.Start(lens, len + 1)
  }

  lemma CursorSym(sort: seq<nat>, lens: Lens, len: nat, cnt: nat, word: nat, next: nat, r: nat) returns (s: nat)
    requires Sorted(sort, lens) && Cursor(lens, len, cnt, word, next, r)
    ensures Current(lens, s, len, r) && next < |sort| && sort[next] == s && RevCode(lens, s) == word
  {
    hide Count, Covered, Pow2, Rev, HuffSort.Start;
    s := CurrentExists(lens, len, r);
    assert HuffSort.Pos(lens, s) == HuffSort.Start(lens, len) + r;
  }

  lemma Advance(lens: Lens, len: nat, cnt: nat, word: nat, next: nat, r: nat)
    requires Fits(lens) && Cursor(lens, len, cnt, word, next, r) && word != Pow2(len) - 1
    ensures cnt > 0
    ensures cnt > 1 ==> Cursor(lens, len, cnt - 1, NextWord(word, len), next + 1, r + 1)
    ensures cnt == 1 ==> Gap(lens, len, NextWord(word, len), next + 1) && r + 1 == Count(lens, len)
  {
    hide Count, Rev, NextWord, HuffSort.Start, Fits, Pow2;
    var c := FirstCode(lens, len) + r;
    assert c < Covered(lens, len) <= Pow2(len) by { CoveredBound(lens, len); }
    if c + 1 == Pow2(len) { RevOnes(len); }
    NextWordCorrect(c, len);
    HuffSort.StartNext(lens, len);
  }

  /** An all-ones codeword is the last one. */
  lemma CursorLast(lens: Lens, len: nat, cnt: nat, word: nat, next: nat, r: nat)
    requires Fits(lens) && Cursor(lens, len, cnt, word, next, r) && word == Pow2(len) - 1
    ensures 0 < len <= 15 && r + 1 <= Count(lens, len) && FirstCode(lens, len) + r + 1 == Pow2(len)
  {
    hide Count, Rev, HuffSort.Start, Fits, Pow2;
    var c := FirstCode(lens, len) + r;
    assert c < Covered(lens, len) <= Pow2(len) by { CoveredBound(lens, len); }
    if c + 1 < Pow2(len) { NotAllOnes(c, len); }
  }

  /** Codes are left only if there are longer symbols. */
  lemma StepLen(lens: Lens, len: nat, word: nat, next: nat)
    requires Complete(lens) && Gap(lens, len, word, next)
    ensures len < MAX_CODE_LEN
    ensures Count(lens, len + 1) == 0 ==> Gap(lens, len + 1, word, next)
    ensures Count(lens, len + 1) > 0 ==> Cursor(lens, len + 1, Count(lens, len + 1), word, next, 0)
  {
    hide Count, HuffSort.Start;
    var c := Covered(lens, len);
    assert FirstCode(lens, len + 1) == 2 * c;
    assert Rev(2 * c, len + 1) == Rev(c, len) by { assert (2 * c) / 2 == c; }
    HuffSort.StartNext(lens, len + 1);
  }

  lemma GapStart(lens: Lens)
    ensures Gap(lens, 0, 0, Count(lens, 0))
  {
  }

  /** `sinfl_gen`; `next` is the place of `sorted` in the array of sorted symbols. */
  class Gen {
    var len: nat
    var cnt: nat
    var word: nat
    var next: nat

    constructor (first: nat)
      ensures len == 1 && word == 0 && next == first
    {
      len, cnt, word, next := 1, 0, 0, first;
    }

    /** On to the next length that is in use. */
    method NextLen(cnts: array<nat>, ghost lens: Lens)
      requires 0 < len && Gap(lens, len - 1, word, next) && Complete(lens) && Counted(cnts[..], lens)
      modifies this
      ensures Cursor(lens, len, cnt, word, next, 0) && len >= old(len)
      ensures forall k :: old(len) <= k < len ==> Count(lens, k) == 0
    {
      hide *;
      MaxLen();
      StepLen(lens, len - 1, word, next);
      CountedAt(cnts[..], lens, len);
      while cnts[len] == 0
        invariant old(len) <= len <= MAX_CODE_LEN && 0 < len && cnts.Length == 16
        invariant Gap(lens, len - 1, word, next)
        invariant Counted(cnts[..], lens) && cnts[len] == Count(lens, len)
        invariant forall k :: old(len) <= k < len ==> Count(lens, k) == 0
        decreases 16 - len
      {
        StepLen(lens, len - 1, word, next);
        StepLen(lens, len, word, next);
        len := len + 1;
        CountedAt(cnts[..], lens, len);
      }
      StepLen(lens, len - 1, word, next);
      cnt := cnts[len];
    }
  }

  // ------------------------------------------------------------ main table

  /** Copies the filled part of the table behind itself (`memcpy`). */
  method Double(tbl: array<nat>, n: nat)
    requires 2 * n <= tbl.Length
    modifies tbl
    ensures tbl[..] == Doubled(old(tbl[..]), n)
  {
    forall i | 0 <= i < n { tbl[n + i] := tbl[i]; }
  }

  /** Enters the symbols of the current length; `full` if the last one was the last of all. */
  method FillLength(gen: Gen, tbl: array<nat>, tblEnd: nat, sort: array<nat>, ghost lens: Lens) returns (full: bool)
    requires Cursor(lens, gen.len, gen.cnt, gen.word, gen.next, 0) && Fits(lens) && Sorted(sort[..], lens)
    requires tblEnd == Pow2(gen.len) <= tbl.Length && MainOk(tbl[..], gen.len, lens, gen.len, 0) && sort != tbl
    modifies gen, tbl
    ensures gen.len == old(gen.len)
    ensures full ==> MainOk(tbl[..], gen.len, lens, 16, 0)
    ensures !full ==> Gap(lens, gen.len, gen.word, gen.next) && MainOk(tbl[..], gen.len, lens, gen.len + 1, 0)
  {
    hide *;
    MaxLen();
    ghost var l, r: nat := gen.len, 0;
    while true
      invariant gen.len == l && Cursor(lens, l, gen.cnt, gen.word, gen.next, r)
      invariant MainOk(tbl[..], l, lens, l, r) && Sorted(sort[..], lens)
      decreases gen.cnt
    {
      ghost var s := CursorSym(sort[..], lens, l, gen.cnt, gen.word, gen.next, r);
      MainPut(tbl[..], lens, l, r, s);
      ghost var was := tbl[..];
      tbl[gen.word] := Entry(sort[gen.next], gen.len);
      assert tbl[..] == was[gen.word := Entry(s, l)];
      if gen.word == tblEnd - 1 {
        CursorLast(lens, l, gen.cnt, gen.word, gen.next, r);
        MainFull(tbl[..], l, lens, l, r + 1);
        return true;
      }
      Advance(lens, l, gen.cnt, gen.word, gen.next, r);
      gen.word := NextWord(gen.word, gen.len);
      gen.next := gen.next + 1;
      gen.cnt := gen.cnt - 1;
      if gen.cnt == 0 {
        MainLonger(tbl[..], l, lens, l);
        return false;
      }
      r := r + 1;
    }
  }

  ghost predicate Counted(cnts: seq<nat>, lens: Lens) {
    |cnts| == 16 && forall l :: 0 <= l < 16 ==> cnts[l] == Count(lens, l)
  }

  lemma CountedAt(cnts: seq<nat>, lens: Lens, l: nat)
    requires Counted(cnts, lens) && l <= 15
    ensures |cnts| == 16 && cnts[l] == Count(lens, l)
  {
  }

  lemma MainPow(tbl: seq<nat>, cur: nat, bits: nat)
    requires cur <= bits && Pow2(bits) <= |tbl|
    ensures Pow2(cur) <= |tbl| && (cur < bits ==> Pow2(cur + 1) == 2 * Pow2(cur) <= |tbl|)
  {
    Pow2Mono(cur, bits);
    if cur < bits { Pow2Mono(cur + 1, bits); }
  }

  /** Doubles the table from `cur` to `bits` index bits. */
  method DoubleUp(tbl: array<nat>, cur: nat, bits: nat, ghost lens: Lens, ghost l: nat)
    requires cur <= bits && Pow2(cur) <= tbl.Length && Pow2(bits) <= tbl.Length && MainOk(tbl[..], cur, lens, l, 0)
    modifies tbl
    ensures MainOk(tbl[..], bits, lens, l, 0)
  {
    hide *;
    var len, tblEnd := cur, Pow2(cur);
    while len < bits
      invariant cur <= len <= bits && tblEnd == Pow2(len) <= tbl.Length && MainOk(tbl[..], len, lens, l, 0)
    {
      MainPow(tbl[..], len, bits);
      MainDouble(tbl[..], len, lens, l, 0);
      Double(tbl, tblEnd);
      len, tblEnd := len + 1, 2 * tblEnd;
    }
  }

  /** To the next length in use, doubling the table on the way as long as it is not full. */
  method NextDoubled(gen: Gen, tbl: array<nat>, bits: nat, cnts: array<nat>, ghost lens: Lens)
    requires 0 < gen.len <= bits && Gap(lens, gen.len, gen.word, gen.next) && Complete(lens)
    requires Counted(cnts[..], lens) && cnts != tbl
    requires Pow2(gen.len) <= tbl.Length && Pow2(bits) <= tbl.Length && MainOk(tbl[..], gen.len, lens, gen.len + 1, 0)
    modifies gen, tbl
    ensures gen.len > old(gen.len) && Cursor(lens, gen.len, gen.cnt, gen.word, gen.next, 0)
    ensures var cur := if gen.len <= bits then gen.len else bits;
      Pow2(cur) <= tbl.Length && MainOk(tbl[..], cur, lens, gen.len, 0)
  {
    hide *;
    ghost var l, cur := gen.len, gen.len;
    var going := true;
    while going
      invariant l <= gen.len && cur == if gen.len <= bits then gen.len else bits
      invariant Pow2(cur) <= tbl.Length && Pow2(bits) <= tbl.Length && Counted(cnts[..], lens)
      invariant going ==> Gap(lens, gen.len, gen.word, gen.next) && MainOk(tbl[..], cur, lens, gen.len + 1, 0)
      invariant !going ==> gen.len > l && Cursor(lens, gen.len, gen.cnt, gen.word, gen.next, 0)
      invariant !going ==> MainOk(tbl[..], cur, lens, gen.len, 0)
      decreases going, 16 - gen.len
    {
      StepLen(lens, gen.len, gen.word, gen.next);
      MaxLen();
      MainPow(tbl[..], cur, bits);
      gen.len := gen.len + 1;
      if gen.len <= bits {
        MainDouble(tbl[..], cur, lens, gen.len, 0);
        Double(tbl, Pow2(gen.len - 1));
        cur := cur + 1;
      }
      CountedAt(cnts[..], lens, gen.len);
      gen.cnt := cnts[gen.len];
      if gen.cnt == 0 { MainLonger(tbl[..], cur, lens, gen.len); }
      going := gen.cnt == 0;
    }
  }

  lemma MaxLen()
    ensures MAX_CODE_LEN == 15
  {
  }

  /** `sinfl_build_tbl`: the main table; `done` if there are no longer codewords. */
  method BuildTbl(gen: Gen, tbl: array<nat>, bits: nat, cnts: array<nat>, sort: array<nat>, ghost lens: Lens)
    returns (done: bool)
    requires gen.len == 1 && gen.word == 0 && gen.next == Count(lens, 0) && Complete(lens)
    requires Counted(cnts[..], lens) && Sorted(sort[..], lens) && cnts != tbl && sort != tbl
    requires 0 < bits && Pow2(bits) <= tbl.Length
    modifies gen, tbl
    ensures done ==> MainOk(tbl[..], bits, lens, 16, 0)
    ensures !done ==> gen.len > bits && Cursor(lens, gen.len, gen.cnt, gen.word, gen.next, 0)
    ensures !done ==> MainOk(tbl[..], bits, lens, gen.len, 0)
  {
    hide *;
    CompleteFits(lens);
    GapStart(lens);
    gen.NextLen(cnts, lens);
    ghost var cur := if gen.len <= bits then gen.len else bits;
    MainPow(tbl[..], cur, bits);
    MainEmpty(tbl[..], cur, lens, gen.len);
    while gen.len <= bits
      invariant cur == if gen.len <= bits then gen.len else bits
      invariant Cursor(lens, gen.len, gen.cnt, gen.word, gen.next, 0) && 0 < gen.len
      invariant Pow2(cur) <= tbl.Length && MainOk(tbl[..], cur, lens, gen.len, 0)
      invariant Counted(cnts[..], lens) && Sorted(sort[..], lens)
      decreases 16 - gen.len
    {
      CursorLen(lens, gen.len, gen.cnt, gen.word, gen.next, 0);
      var full := FillLength(gen, tbl, Pow2(gen.len), sort, lens);
      if full {
        DoubleUp(tbl, gen.len, bits, lens, 16);
        return true;
      }
      NextDoubled(gen, tbl, bits, cnts, lens);
      CursorLen(lens, gen.len, gen.cnt, gen.word, gen.next, 0);
      cur := if gen.len <= bits then gen.len else bits;
    }
    return false;
  }

  lemma CompleteFits(lens: Lens)
    requires Complete(lens)
    ensures Fits(lens)
  {
  }

  lemma CursorLen(lens: Lens, len: nat, cnt: nat, word: nat, next: nat, r: nat)
    requires Cursor(lens, len, cnt, word, next, r)
    ensures 0 < len <= 15 && r < Count(lens, len) && cnt == Count(lens, len) - r
  {
  }
}
