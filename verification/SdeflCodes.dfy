/** From the recorded sequences of a block to its codes: symbol counts, the three prefix codes and
    what they cost (`sdefl_seq`, `sdefl_reg_match`, the first half of `sdefl_flush`, `sdefl_blk_type`). */
module SdeflCodes {
  import opened Bits
  import opened Options
  import opened Canonical
  import opened Precode
  import opened MatchCodes
  import opened Format
  import opened HuffCodes
  import HuffOptimal

  /** `struct sdefl_seqt`: a literal run at `off`, or with negative `off` a match. */
  datatype Seq = Seq(off: int, len: nat)

  function LitRun(input: seq<byte>, off: nat, len: nat): (r: seq<Token>)
    requires off + len <= |input|
    ensures |r| == len
  {
    seq(len, i requires 0 <= i < len => Lit(input[off + i]))
  }

  predicate SeqOk(input: seq<byte>, q: Seq) {
    if q.off >= 0 then q.off + q.len <= |input|
    else -q.off <= WIN_SIZ && 4 <= q.len <= MAX_MATCH
  }

  predicate SeqsOk(input: seq<byte>, seqs: seq<Seq>) { forall i :: 0 <= i < |seqs| ==> SeqOk(input, seqs[i]) }

  function SeqToks(input: seq<byte>, q: Seq): seq<Token>
    requires SeqOk(input, q)
  {
    if q.off >= 0 then LitRun(input, q.off, q.len) else [Match(-q.off, q.len)]
  }

  /** The tokens the sequences stand for. */
  function Toks(input: seq<byte>, seqs: seq<Seq>): seq<Token>
    requires SeqsOk(input, seqs)
  {
    if seqs == [] then []
    else Toks(input, seqs[..|seqs| - 1]) + SeqToks(input, seqs[|seqs| - 1])
  }

  /** Every match has at least four bytes (`SDEFL_MIN_MATCH`). */
  ghost predicate LongMatches(toks: seq<Token>) { forall i :: 0 <= i < |toks| && toks[i].Match? ==> toks[i].len >= 4 }

  lemma {:induction false} ToksLong(input: seq<byte>, seqs: seq<Seq>)
    requires SeqsOk(input, seqs)
    ensures LongMatches(Toks(input, seqs))
  {
    if seqs != [] {
      var n := |seqs| - 1;
      ToksLong(input, seqs[..n]);
      SeqLong(input, seqs[n]);
      LongAppend(Toks(input, seqs[..n]), SeqToks(input, seqs[n]));
    }
  }

  lemma SeqLong(input: seq<byte>, q: Seq)
    requires SeqOk(input, q)
    ensures LongMatches(SeqToks(input, q))
  {
  }

  lemma LongAppend(a: seq<Token>, b: seq<Token>)
    requires LongMatches(a) && LongMatches(b)
    ensures LongMatches(a + b)
  {
  }

  // ----------------------------------------------------------------- counts

  predicate TokenOk(t: Token) { t.Match? ==> 1 <= t.dist <= WIN_SIZ && 3 <= t.len <= MAX_MATCH }

  predicate TokensIn(toks: seq<Token>) { forall i :: 0 <= i < |toks| ==> TokenOk(toks[i]) }

  /** The literal/length symbol of a token. */
  function LitSym(t: Token): (s: nat)
    requires TokenOk(t)
    ensures s < 286 && s != END_OF_BLOCK
    ensures t.Lit? ==> s == t.c
  {
    match t
    case Lit(c) => c
    case Match(dist, len) => LengthCode(len); Codes(dist, len).lc
  }

  /** Its distance symbol, if it has one. */
  function OffSym(t: Token): (s: Option<nat>)
    requires TokenOk(t)
    ensures s.Some? ==> s.value < 30
    ensures s.Some? <==> t.Match?
  {
    match t
    case Lit(_) => None
    case Match(dist, len) => DistCode(dist, len); Some(Codes(dist, len).dc)
  }

  function LitUses(toks: seq<Token>, s: nat): nat
    requires TokensIn(toks)
  {
    if toks == [] then 0
    else LitUses(toks[..|toks| - 1], s) + (if LitSym(toks[|toks| - 1]) == s then 1 else 0)
  }

  function OffUses(toks: seq<Token>, s: nat): nat
    requires TokensIn(toks)
  {
    if toks == [] then 0
    else OffUses(toks[..|toks| - 1], s) + (if OffSym(toks[|toks| - 1]) == Some(s) then 1 else 0)
  }

  /** The counters are exactly the uses. */
  ghost predicate Tallied(lit: seq<nat>, off: seq<nat>, toks: seq<Token>) {
    && TokensIn(toks) && |lit| == LIT_MAX && |off| == OFF_MAX
    && (forall s :: 0 <= s < LIT_MAX ==> lit[s] == LitUses(toks, s))
    && (forall s :: 0 <= s < OFF_MAX ==> off[s] == OffUses(toks, s))
  }

  lemma TallyNone(lit: seq<nat>, off: seq<nat>)
    requires |lit| == LIT_MAX && |off| == OFF_MAX
    requires (forall s :: 0 <= s < LIT_MAX ==> lit[s] == 0) && forall s :: 0 <= s < OFF_MAX ==> off[s] == 0
    ensures Tallied(lit, off, [])
  {
  }

  lemma UsesNext(toks: seq<Token>, t: Token, s: nat)
    requires TokensIn(toks) && TokenOk(t)
    ensures TokensIn(toks + [t])
    ensures LitUses(toks + [t], s) == LitUses(toks, s) + (if LitSym(t) == s then 1 else 0)
    ensures OffUses(toks + [t], s) == OffUses(toks, s) + (if OffSym(t) == Some(s) then 1 else 0)
  {
    hide LitSym, OffSym, TokenOk;
    assert (toks + [t])[..|toks|] == toks;
  }

  lemma TallyLit(lit: seq<nat>, off: seq<nat>, toks: seq<Token>, c: byte)
    requires Tallied(lit, off, toks)
    ensures c < |lit| && Tallied(lit[c := lit[c] + 1], off, toks + [Lit(c)])
  {
    hide LitUses, OffUses;
    forall s: nat | s < LIT_MAX
      ensures LitUses(toks + [Lit(c)], s) == LitUses(toks, s) + (if c == s then 1 else 0)
      ensures OffUses(toks + [Lit(c)], s) == OffUses(toks, s)
    {
      UsesNext(toks, Lit(c), s);
    }
  }

  lemma TallyMatch(lit: seq<nat>, off: seq<nat>, toks: seq<Token>, dist: nat, len: nat)
    requires Tallied(lit, off, toks) && 1 <= dist <= WIN_SIZ && 3 <= len <= MAX_MATCH
    ensures Codes(dist, len).lc < |lit| && Codes(dist, len).dc < |off|
    ensures var k := Codes(dist, len);
      Tallied(lit[k.lc := lit[k.lc] + 1], off[k.dc := off[k.dc] + 1], toks + [Match(dist, len)])
  {
    hide LitUses, OffUses, Codes;
    var t := Match(dist, len);
    assert LitSym(t) == Codes(dist, len).lc && OffSym(t) == Some(Codes(dist, len).dc);
    forall s: nat | s < LIT_MAX
      ensures LitUses(toks + [t], s) == LitUses(toks, s) + (if Codes(dist, len).lc == s then 1 else 0)
      ensures OffUses(toks + [t], s) == OffUses(toks, s) + (if Codes(dist, len).dc == s then 1 else 0)
    {
      UsesNext(toks, t, s);
    }
  }

  lemma {:induction false} LitUsed(toks: seq<Token>, i: nat)
    requires TokensIn(toks) && i < |toks|
    ensures LitUses(toks, LitSym(toks[i])) > 0
    ensures OffSym(toks[i]).Some? ==> OffUses(toks, OffSym(toks[i]).value) > 0
  {
    hide LitSym, OffSym, TokenOk;
    if i < |toks| - 1 { LitUsed(toks[..|toks| - 1], i); }
  }

  /** How many tokens are matches. */
  function Matches(toks: seq<Token>): nat {
    if toks == [] then 0 else Matches(toks[..|toks| - 1]) + (if toks[|toks| - 1].Match? then 1 else 0)
  }

  /** The distance counters add up to them. */
  lemma {:induction false} OffTotal(off: seq<nat>, toks: seq<Token>)
    requires TokensIn(toks) && |off| == OFF_MAX && forall s :: 0 <= s < OFF_MAX ==> off[s] == OffUses(toks, s)
    ensures HuffOptimal.Sum(off) == Matches(toks)
    decreases |toks|
  {
    if toks == [] {
      HuffOptimal.SumZeros(off);
    } else {
      var front, t := toks[..|toks| - 1], toks[|toks| - 1];
      if t.Match? {
        var s := OffSym(t).value;
        assert off[s] == OffUses(front, s) + 1;
        var off' := off[s := off[s] - 1];
        OffTotal(off', front);
        HuffOptimal.SumUpdate(off, s, off[s] - 1);
      } else {
        OffTotal(off, front);
      }
    }
  }

  /** Few matches have short distance codes. */
  ghost predicate DstBrief(dst: Lens, toks: seq<Token>) {
    forall d: nat :: 1 <= d <= 15 && Matches(toks) < HuffOptimal.Fib(d + 3) ==> Bounded(dst, d)
  }

  lemma OffBrief(lens: seq<nat>, words: seq<nat>, lit: seq<nat>, off: seq<nat>, toks: seq<Token>, n: nat)
    requires Tallied(lit, off, toks) && PrefixCode(lens, words, off, 15) && n <= |lens|
    ensures DstBrief(lens[..n], toks)
  {
    OffTotal(off, toks);
    BriefIs(lens, words, off, 15);
    hide Brief, Tallied, PrefixCode, HuffOptimal.Fib, HuffOptimal.Sum;
    forall d: nat | 1 <= d <= 15 && Matches(toks) < HuffOptimal.Fib(d + 3) ensures Bounded(lens[..n], d) {
      BriefAt(lens, off, 15, d);
    }
  }

  lemma BriefIs(lens: seq<nat>, words: seq<nat>, f: seq<nat>, max: nat)
    requires PrefixCode(lens, words, f, max)
    ensures Brief(lens, f, max)
  {
    hide Brief;
  }

  lemma BriefAt(lens: seq<nat>, f: seq<nat>, max: nat, d: nat)
    requires Brief(lens, f, max) && 1 <= d <= max && HuffOptimal.Sum(f) < HuffOptimal.Fib(d + 3)
    ensures Bounded(lens, d)
  {
  }

  /** The end-of-block symbol is not a token's. */
  lemma {:induction false} NoEnd(toks: seq<Token>)
    requires TokensIn(toks)
    ensures LitUses(toks, END_OF_BLOCK) == 0
  {
    hide OffSym, TokenOk;
    if toks != [] { NoEnd(toks[..|toks| - 1]); }
  }

  // ------------------------------------------------------------------ codes

  /** The arrays hold the codewords of the code `h`. */
  ghost predicate CodeArrays(lens: seq<nat>, words: seq<nat>, h: Lens) {
    && |h| <= |lens| == |words|
    && forall s: nat :: IsUsed(h, s) ==>
         lens[s] == h[s] && words[s] < Pow2(h[s]) && IntBits(words[s], h[s]) == Codeword(h, s)
  }

  /** A code without the unused symbols at its end. */
  lemma TrimCode(lens: seq<nat>, words: seq<nat>, f: seq<nat>, max: nat, n: nat)
    requires PrefixCode(lens, words, f, max) && n <= |lens| && forall k :: n <= k < |lens| ==> lens[k] == 0
    ensures CodeArrays(lens, words, lens[..n]) && Bounded(lens[..n], max) && max <= MAX_CODE_LEN
    ensures (exists s :: 0 <= s < |f| && f[s] > 0) ==> Complete(lens[..n])
    ensures (forall s :: 0 <= s < |f| ==> f[s] == 0) ==> Incomplete(lens[..n])
    ensures forall s: nat :: s < |f| && f[s] > 0 ==> IsUsed(lens[..n], s)
  {
    hide Covered, Codeword, Code, Pow2;
    CoveredTrim(lens, n, MAX_CODE_LEN);
    if forall s :: 0 <= s < |f| ==> f[s] == 0 { NoneCovered(lens); }
    forall s: nat | IsUsed(lens[..n], s)
      ensures lens[s] == lens[..n][s] && words[s] < Pow2(lens[s])
      ensures IntBits(words[s], lens[s]) == Codeword(lens[..n], s)
    {
      CodewordTrim(lens, n, s);
      CodewordIs(lens, s);
    }
  }

  lemma CodewordIs(lens: Lens, s: nat)
    requires IsUsed(lens, s)
    ensures Codeword(lens, s) == IntBits(Rev(Code(lens, s), lens[s]), lens[s])
  {
  }

  lemma NoneCovered(lens: Lens)
    requires forall s :: 0 <= s < |lens| ==> lens[s] == 0
    ensures Incomplete(lens)
  {
    CoversNothing(lens, MAX_CODE_LEN);
  }

  lemma {:induction false} CoversNothing(lens: Lens, l: nat)
    requires forall s :: 0 <= s < |lens| ==> lens[s] == 0
    ensures Covered(lens, l) == 0
  {
    if l > 0 {
      CountZeros(lens, l);
      CoversNothing(lens, l - 1);
    }
  }

  /** The literal/length code has every symbol it needs. */
  lemma LitReady(lens: seq<nat>, words: seq<nat>, lit: seq<nat>, off: seq<nat>, toks: seq<Token>, n: nat)
    requires Tallied(lit, off, toks) && |lens| == LIT_MAX
    requires PrefixCode(lens, words, lit[256 := lit[256] + 1], 14)
    requires 257 <= n <= LIT_MAX && forall k :: n <= k < LIT_MAX ==> lens[k] == 0
    ensures CodeArrays(lens, words, lens[..n]) && Bounded(lens[..n], MAX_CODE_LEN) && Complete(lens[..n])
    ensures Bounded(lens[..n], 14) && IsUsed(lens[..n], 256)
    ensures forall i :: 0 <= i < |toks| ==> IsUsed(lens[..n], LitSym(toks[i]))
  {
    hide Covered, LitSym, OffSym, LitUses, PrefixCode, CodeArrays, OffUses, TokenOk;
    var f := lit[256 := lit[256] + 1];
    TrimCode(lens, words, f, 14, n);
    assert f[256] > 0;
    forall i | 0 <= i < |toks| ensures f[LitSym(toks[i])] > 0 { LitUsed(toks, i); }
  }

  lemma OffReady(lens: seq<nat>, words: seq<nat>, lit: seq<nat>, off: seq<nat>, toks: seq<Token>, n: nat)
    requires Tallied(lit, off, toks) && |lens| == OFF_MAX && PrefixCode(lens, words, off, 15)
    requires 1 <= n <= OFF_MAX && forall k :: n <= k < OFF_MAX ==> lens[k] == 0
    ensures CodeArrays(lens, words, lens[..n]) && Bounded(lens[..n], MAX_CODE_LEN)
    ensures Complete(lens[..n]) || Incomplete(lens[..n])
    ensures Complete(lens[..n]) || forall i :: 0 <= i < |toks| ==> toks[i].Lit?
    ensures forall i :: 0 <= i < |toks| && OffSym(toks[i]).Some? ==> IsUsed(lens[..n], OffSym(toks[i]).value)
  {
    hide Covered, LitSym, OffSym, LitUses, PrefixCode, CodeArrays, OffUses, TokenOk;
    TrimCode(lens, words, off, 15, n);
    forall i | 0 <= i < |toks| && OffSym(toks[i]).Some? ensures off[OffSym(toks[i]).value] > 0 { LitUsed(toks, i); }
  }

  lemma AllUsed(h: Trees, toks: seq<Token>)
    requires TokensIn(toks)
    requires forall i :: 0 <= i < |toks| ==> IsUsed(h.lit, LitSym(toks[i]))
    requires forall i :: 0 <= i < |toks| && OffSym(toks[i]).Some? ==> IsUsed(h.dst, OffSym(toks[i]).value)
    ensures AllWritable(h, toks)
  {
    hide IsUsed, Codes;
    forall i | 0 <= i < |toks| ensures Writable(h, toks[i]) {
      assert TokenOk(toks[i]);
    }
  }

  /** Both codes of a block can be written and read back, and write all its tokens. */
  lemma TreesReady(lenLit: seq<nat>, wordLit: seq<nat>, lenOff: seq<nat>, wordOff: seq<nat>, lit: seq<nat>,
                   off: seq<nat>, toks: seq<Token>, n: nat, m: nat)
    requires Tallied(lit, off, toks) && |lenLit| == LIT_MAX && |lenOff| == OFF_MAX
    requires PrefixCode(lenLit, wordLit, lit[256 := lit[256] + 1], 14) && PrefixCode(lenOff, wordOff, off, 15)
    requires 257 <= n <= LIT_MAX && forall k :: n <= k < LIT_MAX ==> lenLit[k] == 0
    requires 1 <= m <= OFF_MAX && forall k :: m <= k < OFF_MAX ==> lenOff[k] == 0
    ensures CodeArrays(lenLit, wordLit, lenLit[..n]) && CodeArrays(lenOff, wordOff, lenOff[..m])
    ensures TreesOk(Trees(lenLit[..n], lenOff[..m])) && TokensOk(Trees(lenLit[..n], lenOff[..m]), toks)
    ensures Bounded(lenLit[..n], 14)
  {
    hide Covered, LitSym, OffSym, LitUses, PrefixCode, CodeArrays, OffUses, TokenOk, AllWritable;
    LitReady(lenLit, wordLit, lit, off, toks, n);
    OffReady(lenOff, wordOff, lit, off, toks, m);
    AllUsed(Trees(lenLit[..n], lenOff[..m]), toks);
  }

  lemma {:induction false} ItemUsed(items: seq<nat>, i: nat)
    requires i < |items|
    ensures Uses(items, ItemSym(items[i])) > 0
  {
    hide ItemSym;
    if i < |items| - 1 { ItemUsed(items[..|items| - 1], i); }
  }

  lemma {:induction false} ExpandOk(items: seq<nat>, i: nat)
    requires i < |items| && Expand(items).Some?
    ensures ItemOk(items[i])
  {
    hide ItemOk, ItemSym, Extend;
    if i < |items| - 1 { ExpandOk(items[..|items| - 1], i); }
  }

  lemma ItemSymBelow(it: nat)
    requires ItemOk(it)
    ensures ItemSym(it) < PRE_MAX
  {
  }

  /** So can the code length code. */
  lemma PreReady(pre: seq<nat>, words: seq<nat>, freqs: seq<nat>, items: seq<nat>, npre: nat)
    requires |pre| == PRE_MAX && PrefixCode(pre, words, freqs, 7) && Expand(items).Some? && items != []
    requires forall k :: 0 <= k < PRE_MAX ==> freqs[k] == Uses(items, k)
    requires 4 <= npre <= PRE_MAX && forall i :: npre <= i < PRE_MAX ==> pre[PermAt(i)] == 0
    ensures PreOk(pre, npre, items) && CodeArrays(pre, words, pre)
  {
    hide Covered, Expand, Uses, PrefixCode, CodeArrays, PermAt, ItemOk, ItemSym;
    CodeLen(pre, words, freqs, 7);
    assert pre[..PRE_MAX] == pre;
    TrimCode(pre, words, freqs, 7, PRE_MAX);
    forall i | 0 <= i < |items| ensures ItemWritable(pre, items[i]) {
      ItemUsed(items, i);
      ExpandOk(items, i);
      ItemSymBelow(items[i]);
      assert freqs[ItemSym(items[i])] > 0;
    }
    assert ItemWritable(pre, items[0]);
    assert freqs[ItemSym(items[0])] > 0 by {
      ItemUsed(items, 0);
      ItemSymBelow(items[0]);
    }
  }

  lemma CodeLen(lens: seq<nat>, words: seq<nat>, f: seq<nat>, max: nat)
    requires PrefixCode(lens, words, f, max)
    ensures |lens| == |words| == |f|
  {
  }
}
