/** What the compressor looks for (`sdefl_hash32`, `sdefl_fnd` and the loop of `sdefl_compr`), stated without
    hash chains: which earlier positions are compared, which match is best, and how a block is parsed. */
module SdeflParse {
  import opened Bits
  import opened MatchCodes
  import opened Format
  import opened SdeflFlush
  import CopyMatch

  // ---------------------------------------------------------------- hashing

  /** `sdefl_uload32`, little endian. */
  function Load32(input: seq<byte>, p: nat): (w: nat)
    requires p + 4 <= |input|
  {
    Digits(input[p], input[p + 1], input[p + 2], input[p + 3])
  }

  function Digits(a: nat, b: nat, c: nat, d: nat): nat { a + 256 * b + 65536 * c + 16777216 * d }

  lemma DigitsUnique(a: byte, b: byte, c: byte, d: byte, a': byte, b': byte, c': byte, d': byte)
    requires Digits(a, b, c, d) == Digits(a', b', c', d')
    ensures a == a' && b == b' && c == c' && d == d'
  {
    LowDigit(a, b + 256 * (c + 256 * d), a', b' + 256 * (c' + 256 * d'));
    LowDigit(b, c + 256 * d, b', c' + 256 * d');
    LowDigit(c, d, c', d');
  }

  lemma LowDigit(a: byte, x: nat, a': byte, x': nat)
    requires a + 256 * x == a' + 256 * x'
    ensures a == a' && x == x'
  {
  }

  /** The `n` bytes at `p` are those `off` before. */
  ghost predicate Agree(input: seq<byte>, p: nat, off: nat, n: nat) {
    off <= p && p + n <= |input| && forall k :: p <= k < p + n ==> input[k] == input[k - off]
  }

  lemma LoadEqual(input: seq<byte>, p: nat, q: nat)
    requires p < q && q + 4 <= |input| && Load32(input, p) == Load32(input, q)
    ensures Agree(input, q, q - p, 4)
  {
    hide Digits;
    DigitsUnique(input[p], input[p + 1], input[p + 2], input[p + 3], input[q], input[q + 1], input[q + 2], input[q + 3]);
  }

  /** `sdefl_hash32`: the hash of the four bytes at `p`, below `HASH_SIZ`. */
  function Hash32(input: seq<byte>, p: nat): (h: nat)
    requires p + 4 <= |input|
    ensures h < HASH_SIZ
  {
    (Load32(input, p) * 0x9E377989) % 0x1_0000_0000 / 131072
  }

  /** The hash of the bytes at `j`; nothing hashes to `HASH_SIZ`. */
  function HashAt(input: seq<byte>, j: nat): (h: nat) {
    if j + 4 <= |input| then Hash32(input, j) else HASH_SIZ
  }

  // ------------------------------------------------------------- candidates

  /** The last of the inserted positions `K` before `i` that hashes to `h`, or -1. */
  ghost function Last(input: seq<byte>, K: set<nat>, i: nat, h: nat): (j: int)
    ensures -1 <= j < i
  {
    if i == 0 then -1
    else if i - 1 in K && HashAt(input, i - 1) == h then i - 1
    else Last(input, K, i - 1, h)
  }

  lemma {:induction false} LastIs(input: seq<byte>, K: set<nat>, i: nat, h: nat)
    ensures var j := Last(input, K, i, h);
      && (j >= 0 ==> j in K && HashAt(input, j) == h)
      && forall m :: m in K && j < m < i ==> HashAt(input, m) != h
  {
    hide HashAt;
    if i > 0 { LastIs(input, K, i - 1, h); }
  }

  /** Positions from `i` on do not matter. */
  lemma {:induction false} LastSame(input: seq<byte>, K: set<nat>, L: set<nat>, i: nat, h: nat)
    requires forall m :: 0 <= m < i ==> (m in K <==> m in L)
    ensures Last(input, K, i, h) == Last(input, L, i, h)
  {
    hide HashAt;
    if i > 0 { LastSame(input, K, L, i - 1, h); }
  }

  lemma {:induction false} LastLater(input: seq<byte>, K: set<nat>, i: nat, k: nat, h: nat)
    requires i <= k && forall m :: m in K ==> m < i
    ensures Last(input, K, k, h) == Last(input, K, i, h)
    decreases k
  {
    hide HashAt;
    if i < k { LastLater(input, K, i, k - 1, h); }
  }

  /** The last `n` of those positions, latest first, as far as they lie in the window of `p`. */
  ghost function Cands(input: seq<byte>, K: set<nat>, p: nat, i: nat, h: nat, n: nat): (cs: seq<int>)
    decreases n
  {
    var j := Last(input, K, i, h);
    if n == 0 || j < 0 || j <= p - WIN_SIZ then [] else [j] + Cands(input, K, p, j, h, n - 1)
  }

  /** The inserted positions in the window of `p`. */
  ghost function Window(K: set<nat>, p: nat): set<nat> { set j | j in K && j > p - WIN_SIZ }

  /** Every one of those with the right hash is a candidate if enough are looked at. */
  lemma {:induction false} CandsHave(input: seq<byte>, K: set<nat>, p: nat, i: nat, h: nat, n: nat, j: nat)
    requires j in Window(K, p) && j < i && HashAt(input, j) == h
    requires n >= |set k | k in Window(K, p) && k < i|
    ensures j in Cands(input, K, p, i, h, n)
    decreases i
  {
    hide Last, HashAt;
    LastIs(input, K, i, h);
    var m := Last(input, K, i, h);
    var before, after := (set k | k in Window(K, p) && k < i), set k | k in Window(K, p) && k < m;
    assert j in before;
    if j < m {
      assert after <= before - {m};
      SubsetSize(after, before - {m});
      CandsHave(input, K, p, m, h, n - 1, j);
    }
  }

  lemma {:induction false} SubsetSize(a: set<nat>, b: set<nat>)
    requires a <= b
    ensures |a| <= |b|
    decreases |a|
  {
    if a != {} {
      var x :| x in a;
      SubsetSize(a - {x}, b - {x});
    }
  }

  // ---------------------------------------------------------------- matches

  /** How many bytes at `j` and `p` agree from the `n`-th on, up to `max`. */
  function Common(input: seq<byte>, p: nat, j: nat, n: nat, max: nat): (m: nat)
    requires j < p && n <= max && p + max <= |input|
    ensures n <= m <= max
    decreases max - n
  {
    if n < max && input[j + n] == input[p + n] then Common(input, p, j, n + 1, max) else n
  }

  /** The length of the match of the bytes at `p` with those at `j`: 0 if it has fewer than four bytes. */
  function MatchLength(input: seq<byte>, p: nat, j: int, max: nat): (n: nat) {
    if 0 <= j < p && p + max <= |input| then
      var m := Common(input, p, j, 0, max);
      if m < 4 then 0 else m
    else
      0
  }

  ghost predicate MatchAt(input: seq<byte>, p: nat, j: int, n: nat) { 0 <= j < p && Agree(input, p, p - j, n) }

  lemma {:induction false} CommonIs(input: seq<byte>, p: nat, j: nat, n: nat, max: nat)
    requires j < p && n <= max && p + max <= |input| && Agree(input, p, p - j, n)
    ensures Agree(input, p, p - j, Common(input, p, j, n, max))
    ensures var m := Common(input, p, j, n, max); m < max ==> input[j + m] != input[p + m]
    decreases max - n
  {
    if n < max && input[j + n] == input[p + n] {
      assert p <= p + n < p + (n + 1) && (p + n) - (p - j) == j + n;
      CommonIs(input, p, j, n + 1, max);
    }
  }

  lemma {:induction false} CommonMost(input: seq<byte>, p: nat, j: nat, n: nat, max: nat, m: nat)
    requires j < p && n <= m <= max && p + max <= |input| && Agree(input, p, p - j, m)
    ensures m <= Common(input, p, j, n, max)
    decreases max - n
  {
    if n < m {
      assert p <= p + n < p + m && (p + n) - (p - j) == j + n;
      CommonMost(input, p, j, n + 1, max, m);
    }
  }

  /** Exactly the shorter lengths match as well. */
  lemma MatchLengthIs(input: seq<byte>, p: nat, j: int, max: nat, n: nat)
    requires 4 <= n <= max && p + max <= |input|
    ensures MatchAt(input, p, j, n) <==> 0 <= j < p && n <= MatchLength(input, p, j, max)
  {
    if 0 <= j < p {
      CommonIs(input, p, j, 0, max);
      if MatchAt(input, p, j, n) { CommonMost(input, p, j, 0, max, n); }
    }
  }

  /** A match; none if `len` is 0. */
  datatype Found = Found(off: nat, len: nat)

  /** The longest match with one of the candidates, the first of them if there are several. */
  ghost function Best(input: seq<byte>, p: nat, max: nat, cs: seq<int>): (m: Found) {
    if cs == [] then Found(0, 0)
    else
      var front, n := Best(input, p, max, cs[..|cs| - 1]), MatchLength(input, p, cs[|cs| - 1], max);
      if n > front.len then Found(p - cs[|cs| - 1], n) else front
  }

  lemma BestNext(input: seq<byte>, p: nat, max: nat, cs: seq<int>, j: int)
    ensures var m, n := Best(input, p, max, cs), MatchLength(input, p, j, max);
      n > m.len ==> j <= p && Best(input, p, max, cs + [j]) == Found(p - j, n)
    ensures var m, n := Best(input, p, max, cs), MatchLength(input, p, j, max);
      n <= m.len ==> Best(input, p, max, cs + [j]) == m
  {
    assert (cs + [j])[..|cs|] == cs;
  }

  /** The match `m` is that with the `k`-th candidate, and longer than those before. */
  ghost predicate Leads(input: seq<byte>, p: nat, max: nat, cs: seq<int>, m: Found, k: nat) {
    && k < |cs| && cs[k] == p - m.off && MatchLength(input, p, cs[k], max) == m.len
    && forall i :: 0 <= i < k ==> MatchLength(input, p, cs[i], max) < m.len
  }

  /** No candidate has a longer match, and the one chosen is the first with its length. */
  lemma {:induction false} BestIs(input: seq<byte>, p: nat, max: nat, cs: seq<int>) returns (k: nat)
    ensures forall i :: 0 <= i < |cs| ==> MatchLength(input, p, cs[i], max) <= Best(input, p, max, cs).len
    ensures Best(input, p, max, cs).len > 0 ==> Leads(input, p, max, cs, Best(input, p, max, cs), k)
    ensures Best(input, p, max, cs).len == 0 ==> Best(input, p, max, cs) == Found(0, 0)
  {
    hide MatchLength;
    k := 0;
    if cs != [] {
      var n := |cs| - 1;
      k := BestIs(input, p, max, cs[..n]);
      assert forall i :: 0 <= i < n ==> cs[..n][i] == cs[i];
      if MatchLength(input, p, cs[n], max) > Best(input, p, max, cs[..n]).len { k := n; }
    }
  }

  /** Positions before `i` in the window of `p`, from later to earlier ones. */
  ghost predicate Falling(cs: seq<int>, K: set<nat>, p: nat, i: int) {
    && (forall k :: 0 <= k < |cs| ==> 0 <= cs[k] < i && cs[k] > p - WIN_SIZ && cs[k] in K)
    && forall k, l :: 0 <= l < k < |cs| ==> cs[k] < cs[l]
  }

  lemma FallingMore(cs: seq<int>, K: set<nat>, p: nat, i: nat, j: nat)
    requires Falling(cs, K, p, j) && j in K && j < i && j > p - WIN_SIZ
    ensures Falling([j] + cs, K, p, i)
  {
  }

  lemma {:induction false} CandsFall(input: seq<byte>, K: set<nat>, p: nat, i: nat, h: nat, n: nat)
    ensures Falling(Cands(input, K, p, i, h, n), K, p, i)
    decreases n
  {
    hide HashAt, Falling;
    LastIs(input, K, i, h);
    hide Last;
    var j := Last(input, K, i, h);
    if n == 0 || j < 0 || j <= p - WIN_SIZ {
      FallingNone(K, p, i);
    } else {
      CandsFall(input, K, p, j, h, n - 1);
      FallingMore(Cands(input, K, p, j, h, n - 1), K, p, i, j);
    }
  }

  lemma FallingNone(K: set<nat>, p: nat, i: nat)
    ensures Falling([], K, p, i)
  {
  }

  // ----------------------------------------------------------------- search

  /** The best match at `p` among the last `chain` inserted positions with its hash. */
  ghost function Search(input: seq<byte>, K: set<nat>, p: nat, chain: nat, max: nat): (m: Found) {
    Best(input, p, max, Cands(input, K, p, p, HashAt(input, p), chain))
  }

  /** No inserted position in the window has a longer match than `m`, and none that is nearer one as long. */
  ghost predicate Greatest(input: seq<byte>, K: set<nat>, p: nat, m: Found, max: nat) {
    (forall j, n :: j in K && p - WIN_SIZ < j < p && 4 <= n <= max && MatchAt(input, p, j, n)
      ==> n < m.len || (n == m.len && j <= p - m.off))
  }

  lemma SameHash(input: seq<byte>, p: nat, j: nat, n: nat)
    requires 4 <= n && MatchAt(input, p, j, n)
    ensures HashAt(input, j) == HashAt(input, p)
  {
    hide Digits;
    assert p <= p + 1 < p + n && p <= p + 2 < p + n && p <= p + 3 < p + n;
    assert input[p] == input[p - (p - j)] && input[p + 1] == input[p + 1 - (p - j)];
    assert input[p + 2] == input[p + 2 - (p - j)] && input[p + 3] == input[p + 3 - (p - j)];
  }

  /** If enough positions are looked at, an inserted position gives no better match than the one found. */
  lemma SearchBeats(input: seq<byte>, K: set<nat>, p: nat, chain: nat, max: nat, j: nat, n: nat)
    requires |Window(K, p)| <= chain && p + max <= |input|
    requires j in K && p - WIN_SIZ < j < p && 4 <= n <= max && MatchAt(input, p, j, n)
    ensures var m := Search(input, K, p, chain, max); n < m.len || (n == m.len && j <= p - m.off)
  {
    hide Best, Cands, HashAt, MatchLength, MatchAt;
    var h := HashAt(input, p);
    var cs := Cands(input, K, p, p, h, chain);
    SubsetSize((set k | k in Window(K, p) && k < p), Window(K, p));
    SameHash(input, p, j, n);
    CandsHave(input, K, p, p, h, chain, j);
    CandsFall(input, K, p, p, h, chain);
    MatchLengthIs(input, p, j, max, n);
    var k := BestIs(input, p, max, cs);
    var q :| 0 <= q < |cs| && cs[q] == j;
    assert MatchLength(input, p, cs[q], max) <= Best(input, p, max, cs).len;
  }

  /** The longest match there is, and the nearest of those. */
  lemma SearchFinds(input: seq<byte>, K: set<nat>, p: nat, chain: nat, max: nat)
    requires |Window(K, p)| <= chain && p + max <= |input|
    ensures Greatest(input, K, p, Search(input, K, p, chain, max), max)
  {
    hide Search, Window, MatchAt;
    forall j: nat, n: nat | j in K && p - WIN_SIZ < j < p && 4 <= n <= max && MatchAt(input, p, j, n)
      ensures var m := Search(input, K, p, chain, max); n < m.len || (n == m.len && j <= p - m.off)
    {
      SearchBeats(input, K, p, chain, max, j, n);
    }
  }

  /** What is found is a match with an inserted position in the window. */
  lemma SearchSound(input: seq<byte>, K: set<nat>, p: nat, chain: nat, max: nat)
    requires p + max <= |input|
    ensures var m := Search(input, K, p, chain, max);
      m == Found(0, 0) ||
      (4 <= m.len <= max && 1 <= m.off < WIN_SIZ && m.off <= p && p - m.off in K && Agree(input, p, m.off, m.len))
  {
    hide Best, Cands, HashAt, MatchLength, MatchAt, Agree, Common;
    var h := HashAt(input, p);
    var cs, m := Cands(input, K, p, p, h, chain), Search(input, K, p, chain, max);
    CandsFall(input, K, p, p, h, chain);
    var k := BestIs(input, p, max, cs);
    if m.len > 0 {
      LengthRange(input, p, cs[k], max);
      MatchLengthIs(input, p, cs[k], max, m.len);
      MatchOff(input, p, cs[k], m.len);
      assert m.off == p - cs[k];
    }
  }

  lemma MatchOff(input: seq<byte>, p: nat, j: int, n: nat)
    requires MatchAt(input, p, j, n)
    ensures 0 <= j < p && Agree(input, p, p - j, n)
  {
  }

  lemma LengthRange(input: seq<byte>, p: nat, j: int, max: nat)
    ensures var n := MatchLength(input, p, j, max); n == 0 || 4 <= n <= max
  {
  }

  // ------------------------------------------------------------------ parse

  const LVL_MAX: nat := 8

  /** The match length from which no better one is looked for, by level. */
  const PREF: seq<nat> := [8, 10, 14, 24, 30, 48, 65, 96, 130]

  /** How many candidates are examined. */
  function MaxChain(lvl: nat): (n: nat)
    ensures n > 0
  {
    if lvl < 8 then Pow2(lvl + 1) else Pow2(13)
  }

  function Min(a: nat, b: nat): nat { if a < b then a else b }

  /** The longest match that may be used with `left` bytes to go, and the length that is good enough. */
  function MaxMatch(left: nat): nat { Min(left, MAX_MATCH) }

  function Nice(left: nat, lvl: nat): nat
    requires lvl <= LVL_MAX
  {
    Min(PREF[lvl], MaxMatch(left))
  }

  /** The match found at `i`. Four bytes before the end of the block none is looked for. */
  ghost function FirstMatch(input: seq<byte>, K: set<nat>, i: nat, left: nat, lvl: nat): Found {
    if MaxMatch(left) > 4 then Search(input, K, i, MaxChain(lvl), MaxMatch(left)) else Found(0, 0)
  }

  /** From level 5 on a match is given up if a longer one begins a byte later. */
  ghost predicate GivenUp(input: seq<byte>, K: set<nat>, i: nat, left: nat, lvl: nat)
    requires lvl <= LVL_MAX
  {
    var n := FirstMatch(input, K, i, left, lvl).len;
    lvl >= 5 && n >= 4 && n + 1 < Nice(left, lvl) && Search(input, K, i + 1, MaxChain(lvl), n + 1).len > n
  }

  /** The next token: the match found, or a literal. */
  ghost function NextToken(input: seq<byte>, K: set<nat>, i: nat, left: nat, lvl: nat): (t: Token)
    requires i < |input| && lvl <= LVL_MAX
    ensures t.Match? ==> t.len >= 4
  {
    var m := FirstMatch(input, K, i, left, lvl);
    if m.len < 4 || GivenUp(input, K, i, left, lvl) then Lit(input[i]) else Match(m.off, m.len)
  }

  function Width(t: Token): nat { if t.Match? then t.len else 1 }

  predicate OnGrid(i: nat, inc: nat, j: nat) { inc > 0 && (j - i) % inc == 0 }

  /** The positions from `i` to `end` at distances of `inc`. */
  ghost function Stops(i: nat, end: nat, inc: nat): set<nat> { set j: nat | i <= j < end && OnGrid(i, inc, j) }

  /** The positions inserted with it: none if the input ends within four bytes behind it, and only the first
      of a long match below level 2. */
  ghost function Inserted(input: seq<byte>, i: nat, t: Token, left: nat, lvl: nat): set<nat>
    requires lvl <= LVL_MAX
  {
    if |input| - (i + Width(t)) <= 4 then {}
    else if t.Match? && lvl < 2 && t.len >= Nice(left, lvl) then {i}
    else Stops(i, i + Width(t), 1)
  }

  /** The tokens of a part of the input, and the positions inserted after it. */
  datatype Parsed = Parsed(toks: seq<Token>, seen: set<nat>)

  /** The parse of the input from `i` to `end`. */
  ghost function Parse(input: seq<byte>, K: set<nat>, i: nat, end: nat, lvl: nat): Parsed
    requires end <= |input| && lvl <= LVL_MAX
    decreases if i < end then end - i else 0
  {
    if i >= end then Parsed([], K)
    else
      var t := NextToken(input, K, i, end - i, lvl);
      var rest := Parse(input, K + Inserted(input, i, t, end - i, lvl), i + Width(t), end, lvl);
      Parsed([t] + rest.toks, rest.seen)
  }

  /** Unless it is given up, the longest match there is in the window is taken, and the nearest of those, if enough
      positions are looked at; the token is a literal only if there is none. */
  lemma NextIsLongest(input: seq<byte>, K: set<nat>, i: nat, left: nat, lvl: nat)
    requires lvl <= LVL_MAX && |Window(K, i)| <= (if lvl < 8 then Pow2(lvl + 1) else 8192)
    requires 4 < left && i + left <= |input|
    requires !GivenUp(input, K, i, left, lvl)
    ensures var t, max := NextToken(input, K, i, left, lvl), if left < 258 then left else 258;
      && (t.Lit? ==> forall j, n :: j in K && i - WIN_SIZ < j < i && 4 <= n <= max ==> !MatchAt(input, i, j, n))
      && (t.Match? ==> t.len <= max && t.dist <= i && i - t.dist in K && MatchAt(input, i, i - t.dist, t.len)
                       && Greatest(input, K, i, Found(t.dist, t.len), max))
  {
    Pow2Values();
    hide Search, Window, MatchAt, Agree, Pow2, GivenUp;
    var max := MaxMatch(left);
    SearchFinds(input, K, i, MaxChain(lvl), max);
    SearchSound(input, K, i, MaxChain(lvl), max);
    var m := Search(input, K, i, MaxChain(lvl), max);
    if m.len > 0 { MatchThere(input, i, m.off, m.len); }
  }

  lemma MatchThere(input: seq<byte>, p: nat, off: nat, n: nat)
    requires 1 <= off <= p && Agree(input, p, off, n)
    ensures MatchAt(input, p, p - off, n)
  {
    assert p - (p - off) == off;
  }

  /** From level 5 on a match of `n` bytes is given up exactly if it is not long enough to be good and one of `n + 1`
      bytes begins at the next byte, if enough positions are looked at there. */
  lemma GivenUpExact(input: seq<byte>, K: set<nat>, i: nat, left: nat, lvl: nat)
    requires lvl <= LVL_MAX && |Window(K, i + 1)| <= (if lvl < 8 then Pow2(lvl + 1) else 8192) && i + left <= |input|
    ensures var n := FirstMatch(input, K, i, left, lvl).len;
      GivenUp(input, K, i, left, lvl) <==>
        5 <= lvl && n >= 4 && n + 1 < left && n + 1 < [8, 10, 14, 24, 30, 48, 65, 96, 130][lvl]
        && exists j: nat :: j in K && i + 1 - WIN_SIZ < j <= i && MatchAt(input, i + 1, j, n + 1)
  {
    Pow2Values();
    hide Search, MatchAt, Agree, Window, Pow2, FirstMatch;
    var n := FirstMatch(input, K, i, left, lvl).len;
    if lvl >= 5 && n >= 4 && n + 1 < Nice(left, lvl) {
      assert i + 1 + (n + 1) <= |input|;
      SearchFinds(input, K, i + 1, MaxChain(lvl), n + 1);
      SearchSound(input, K, i + 1, MaxChain(lvl), n + 1);
      var m := Search(input, K, i + 1, MaxChain(lvl), n + 1);
      if m.len > n { MatchThere(input, i + 1, m.off, m.len); }
    }
  }

  /** A token stands for the bytes it is made for. */
  lemma TokenMeans(input: seq<byte>, K: set<nat>, i: nat, left: nat, lvl: nat)
    requires 0 < left && i + left <= |input| && lvl <= LVL_MAX
    ensures var t := NextToken(input, K, i, left, lvl);
      && Width(t) <= left && LegalToken(input[..i], t) && PlayToken(input[..i], t) == input[..i + Width(t)]
  {
    hide Search, CopyBack, GivenUp;
    var m := FirstMatch(input, K, i, left, lvl);
    if MaxMatch(left) > 4 { SearchSound(input, K, i, MaxChain(lvl), MaxMatch(left)); }
    if NextToken(input, K, i, left, lvl).Match? {
      CopyMatch.RepeatsCopy(input, i, m.len, m.off);
    } else {
      assert input[..i] + [input[i]] == input[..i + 1];
    }
  }

  /** A parse stands for its part of the input, whatever was inserted. */
  lemma {:induction false} ParseMeans(input: seq<byte>, K: set<nat>, i: nat, end: nat, lvl: nat)
    requires i <= end <= |input| && lvl <= LVL_MAX
    ensures TokensMean(input, i, end, Parse(input, K, i, end, lvl).toks)
    decreases end - i
  {
    hide NextToken, Inserted, LegalToken, PlayToken;
    if i < end {
      var t := NextToken(input, K, i, end - i, lvl);
      TokenMeans(input, K, i, end - i, lvl);
      ParseMeans(input, K + Inserted(input, i, t, end - i, lvl), i + Width(t), end, lvl);
    }
  }
}
