/** The choice of the block type (`sdefl_blk_type`): the estimate for a dynamic block is exact. */
module SdeflCost {
  import opened Options
  import opened Canonical
  import opened Precode
  import opened MatchCodes
  import opened Format
  import opened SdeflCodes

  /** Sum of products of the first `n` elements. */
  function Dot(f: seq<nat>, w: seq<nat>, n: nat): nat
    requires n <= |f| && n <= |w|
  {
    if n == 0 then 0 else Dot(f, w, n - 1) + f[n - 1] * w[n - 1]
  }

  lemma {:induction false} DotAdd(f: seq<nat>, w: seq<nat>, n: nat, k: nat)
    requires k < |f| && n <= |f| && n <= |w|
    ensures Dot(f[k := f[k] + 1], w, n) == Dot(f, w, n) + (if k < n then w[k] else 0)
  {
    if n > 0 {
      DotAdd(f, w, n - 1, k);
      if k == n - 1 { assert (f[k] + 1) * w[k] == f[k] * w[k] + w[k]; }
    }
  }

  lemma {:induction false} DotZero(f: seq<nat>, w: seq<nat>, n: nat)
    requires n <= |f| && n <= |w| && forall s :: 0 <= s < n ==> f[s] == 0
    ensures Dot(f, w, n) == 0
  {
    if n > 0 { DotZero(f, w, n - 1); }
  }

  /** Bits of a literal/length symbol, with the extra bits behind it. */
  function LitWidth(lens: seq<nat>, s: nat): nat
    requires s < |lens|
  {
    lens[s] + (if 257 <= s < 286 then LengthExtra(s - 257) else 0)
  }

  function LitWidths(lens: seq<nat>): (w: seq<nat>)
    ensures |w| == |lens|
  {
    seq(|lens|, s requires 0 <= s < |lens| => LitWidth(lens, s))
  }

  function OffWidth(lens: seq<nat>, s: nat): nat
    requires s < |lens|
  {
    lens[s] + (if s < 30 then DistExtra(s) else 0)
  }

  function OffWidths(lens: seq<nat>): (w: seq<nat>)
    ensures |w| == |lens|
  {
    seq(|lens|, s requires 0 <= s < |lens| => OffWidth(lens, s))
  }

  function PreWidths(lens: seq<nat>): (w: seq<nat>)
    ensures |w| == |lens|
  {
    seq(|lens|, s requires 0 <= s < |lens| => lens[s] + ExtraBits(s))
  }

  /** `lens` are the lengths of `h`, for the symbols that are used. */
  ghost predicate Lengths(lens: seq<nat>, h: Lens) {
    |h| <= |lens| && forall s: nat :: IsUsed(h, s) ==> lens[s] == h[s]
  }

  lemma MatchWidth(h: Trees, t: Token)
    requires t.Match? && Writable(h, t)
    ensures TokenOk(t) && IsUsed(h.lit, LitSym(t)) && OffSym(t).Some? && IsUsed(h.dst, OffSym(t).value)
    ensures 257 <= LitSym(t) < 286
    ensures |TokenBits(h, t)| == h.lit[LitSym(t)] + LengthExtra(LitSym(t) - 257) +
      (h.dst[OffSym(t).value] + DistExtra(OffSym(t).value))
  {
    LengthCode(t.len);
    DistCode(t.dist, t.len);
    hide LengthSlot, LengthBase, DistBase, Codeword;
  }

  /** One token costs the widths of its symbols. */
  lemma TokenWidth(h: Trees, t: Token, lenLit: seq<nat>, lenOff: seq<nat>)
    requires Writable(h, t) && Lengths(lenLit, h.lit) && Lengths(lenOff, h.dst) && |lenLit| == LIT_MAX
    ensures TokenOk(t) && (OffSym(t).Some? ==> OffSym(t).value < |lenOff|)
    ensures |TokenBits(h, t)| == LitWidths(lenLit)[LitSym(t)] +
      (if OffSym(t).Some? then OffWidths(lenOff)[OffSym(t).value] else 0)
  {
    hide LengthExtra, DistExtra;
    if t.Match? {
      MatchWidth(h, t);
      hide TokenBits, Writable, LitSym, OffSym;
    }
  }

  lemma TallyLast(lit: seq<nat>, off: seq<nat>, toks: seq<Token>, lit': seq<nat>, off': seq<nat>)
    requires toks != [] && Tallied(lit, off, toks) && Tallied(lit', off', toks[..|toks| - 1])
    ensures TokenOk(toks[|toks| - 1])
    ensures var t := toks[|toks| - 1];
      && lit == lit'[LitSym(t) := lit'[LitSym(t)] + 1]
      && off == (if OffSym(t).Some? then off'[OffSym(t).value := off'[OffSym(t).value] + 1] else off')
  {
    hide LitSym, OffSym, TokenOk;
    var front, t := toks[..|toks| - 1], toks[|toks| - 1];
    assert toks == front + [t];
    forall s: nat | s < LIT_MAX
      ensures LitUses(toks, s) == LitUses(front, s) + (if LitSym(t) == s then 1 else 0)
      ensures OffUses(toks, s) == OffUses(front, s) + (if OffSym(t) == Some(s) then 1 else 0)
    {
      UsesNext(front, t, s);
    }
  }

  function LitTally(toks: seq<Token>): (f: seq<nat>)
    requires TokensIn(toks)
    ensures |f| == LIT_MAX
  {
    seq(LIT_MAX, s requires 0 <= s => LitUses(toks, s))
  }

  function OffTally(toks: seq<Token>): (f: seq<nat>)
    requires TokensIn(toks)
    ensures |f| == OFF_MAX
  {
    seq(OFF_MAX, s requires 0 <= s => OffUses(toks, s))
  }

  lemma TallyOf(toks: seq<Token>)
    requires TokensIn(toks)
    ensures Tallied(LitTally(toks), OffTally(toks), toks)
  {
  }

  lemma TokensLast(h: Trees, toks: seq<Token>)
    requires toks != [] && AllWritable(h, toks)
    ensures AllWritable(h, toks[..|toks| - 1]) && Writable(h, toks[|toks| - 1])
    ensures TokensBits(h, toks) == TokensBits(h, toks[..|toks| - 1]) + TokenBits(h, toks[|toks| - 1])
  {
    hide TokenBits, TokensBits, Writable;
    var front, t := toks[..|toks| - 1], toks[|toks| - 1];
    assert toks == front + [t];
    TokensAppend(h, front, t);
  }

  /** The tokens of a block take what their counted symbols take. */
  lemma {:induction false} TokensCost(h: Trees, toks: seq<Token>, lit: seq<nat>, off: seq<nat>, lenLit: seq<nat>,
                                      lenOff: seq<nat>)
    requires AllWritable(h, toks) && Tallied(lit, off, toks)
    requires Lengths(lenLit, h.lit) && Lengths(lenOff, h.dst) && |lenLit| == LIT_MAX && |lenOff| == OFF_MAX
    ensures |TokensBits(h, toks)| == Dot(lit, LitWidths(lenLit), 286) + Dot(off, OffWidths(lenOff), 30)
    decreases |toks|
  {
    hide Dot, TokenBits, LitSym, OffSym, AllWritable, Writable, LitWidths, OffWidths, Lengths, LitUses, OffUses, TokenOk;
    if toks == [] {
      DotZero(lit, LitWidths(lenLit), 286) by { NoUses(); }
      DotZero(off, OffWidths(lenOff), 30) by { NoUses(); }
    } else {
      hide TokensBits;
      var front, t := toks[..|toks| - 1], toks[|toks| - 1];
      TokensLast(h, toks);
      TallyOf(front);
      var lit', off' := LitTally(front), OffTally(front);
      hide Tallied, LitTally, OffTally, TokensIn;
      TallyLast(lit, off, toks, lit', off');
      TokensCost(h, front, lit', off', lenLit, lenOff);
      TokenWidth(h, t, lenLit, lenOff);
      DotAdd(lit', LitWidths(lenLit), 286, LitSym(t));
      if OffSym(t).Some? { DotAdd(off', OffWidths(lenOff), 30, OffSym(t).value); }
    }
  }

  lemma NoUses()
    ensures forall s: nat :: LitUses([], s) == 0 && OffUses([], s) == 0
  {
  }

  // ------------------------------------------------------------ block header

  lemma {:induction false} PreBitsLen(pre: Lens, n: nat)
    requires |pre| == PRE_MAX && n <= PRE_MAX
    ensures |PreBits(pre, n)| == 3 * n
  {
    if n > 0 { PreBitsLen(pre, n - 1); }
  }

  lemma {:induction false} ItemsCost(pre: Lens, items: seq<nat>, freqs: seq<nat>)
    requires |pre| == |freqs| == PRE_MAX && AllItemsWritable(pre, items)
    requires forall k :: 0 <= k < PRE_MAX ==> freqs[k] == Uses(items, k)
    ensures |ItemsBits(pre, items)| == Dot(freqs, PreWidths(pre), 19)
    decreases |items|
  {
    hide Dot, ItemSym, ItemExtra, ItemOk, Codeword;
    if items == [] {
      DotZero(freqs, PreWidths(pre), 19);
    } else {
      var front, it := items[..|items| - 1], items[|items| - 1];
      ItemSymBelow(it);
      var freqs' := seq(PRE_MAX, k requires 0 <= k => Uses(front, k));
      ItemsCost(pre, front, freqs');
      DotAdd(freqs', PreWidths(pre), 19, ItemSym(it));
      assert freqs == freqs'[ItemSym(it) := freqs'[ItemSym(it)] + 1];
    }
  }

  /** The bits of a dynamic block as the cost function counts them, but for the three header bits. */
  function DynCost(npre: nat, freqs: seq<nat>, pre: seq<nat>, lit: seq<nat>, lenLit: seq<nat>, off: seq<nat>,
                   lenOff: seq<nat>): nat
    requires |pre| == |freqs| == PRE_MAX && |lit| == |lenLit| == LIT_MAX && |off| == |lenOff| == OFF_MAX
  {
    5 + 5 + 4 + 3 * npre + Dot(freqs, PreWidths(pre), 19)
    + Dot(lit, LitWidths(lenLit), 286) + Dot(off, OffWidths(lenOff), 30)
  }

  lemma HeaderLen(b: Block, last: bool)
    requires b.Dynamic? && BlockOk(b)
    ensures |HeaderBits(b, last)| == 17 + 3 * b.npre + |ItemsBits(b.pre, b.items)|
  {
    hide ItemsBits, TreesOk, TokensOk;
    PreBitsLen(b.pre, b.npre);
  }

  /** The cost of a dynamic block is exact. */
  lemma CostExact(b: Block, last: bool, p: nat, freqs: seq<nat>, lit: seq<nat>, lenLit: seq<nat>, off: seq<nat>,
                  lenOff: seq<nat>)
    requires b.Dynamic? && BlockOk(b) && |freqs| == PRE_MAX && |lenLit| == LIT_MAX && |lenOff| == OFF_MAX
    requires forall k :: 0 <= k < PRE_MAX ==> freqs[k] == Uses(b.items, k)
    requires Tallied(lit, off, b.toks) && Lengths(lenLit, b.trees.lit) && Lengths(lenOff, b.trees.dst)
    ensures |b.pre| == PRE_MAX
    ensures |BlockBits(b, last, p)| ==
      DynCost(b.npre, freqs, b.pre, lit[256 := lit[256] + 1], lenLit, off, lenOff) + 3
  {
    hide Dot, ItemsBits, Tallied, Lengths, HeaderBits, TokensBits, PreWidths, OffWidths, Uses, Expand, Codeword;
    HeaderLen(b, last);
    ItemsCost(b.pre, b.items, freqs);
    TallyLen(lit, off, b.toks);
    TokensCost(b.trees, b.toks, lit, off, lenLit, lenOff);
    DotAdd(lit, LitWidths(lenLit), 286, 256);
    EndWidth(b.trees.lit, lenLit);
  }

  lemma TallyLen(lit: seq<nat>, off: seq<nat>, toks: seq<Token>)
    requires Tallied(lit, off, toks)
    ensures |lit| == LIT_MAX && |off| == OFF_MAX
  {
  }

  lemma EndWidth(h: Lens, lens: seq<nat>)
    requires Lengths(lens, h) && IsUsed(h, END_OF_BLOCK) && |lens| == LIT_MAX
    ensures LitWidths(lens)[256] == |Codeword(h, END_OF_BLOCK)|
  {
  }
}
