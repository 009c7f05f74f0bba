/** Compressing and expanding undo each other (`sdeflate` and `sinflate`). */
module Deflate {
  import opened Bits
  import opened Canonical
  import opened MatchCodes
  import opened Format
  import opened Reference
  import opened SdeflCodes
  import opened SdeflFlush
  import opened SdeflParse
  import opened SdeflCompr
  import opened RoundTrip
  import HuffOptimal
  import Sinfl
  import SinflDecompress

  /** `S` holds the blocks `bs`, which mean `input`, and zero bits up to the next byte boundary. */
  ghost predicate Encodes(S: bits, input: seq<byte>, bs: seq<Block>) {
    && BlocksOk(bs) && LegalBlocks([], bs) && PlayBlocks([], bs) == input && Short(bs)
    && (bs == [] <==> input == [])
    && S == BlocksBits(bs, true, 0) + IntBits(0, Align(|BlocksBits(bs, true, 0)|))
  }

  /** `sdeflate`: the output encodes the input, in the blocks of its parse. */
  method Sdeflate(s: Sdefl, input: seq<byte>, lvl: nat)
    returns (out: seq<byte>, ghost bs: seq<Block>, ghost cands: seq<Block>)
    requires s.Shape() && s.seqs == [] && Tallied(s.freqLit[..], s.freqOff[..], []) && lvl <= LVL_MAX
    modifies s, s.w, s.tbl, s.prv, s.freqLit, s.freqOff, s.wordLit, s.wordOff, s.lenLit, s.lenOff
    ensures s.seqs == [] && Tallied(s.freqLit[..], s.freqOff[..], [])
    ensures Encodes(BytesToBits(out), input, bs) && Compressed(input, lvl, bs, cands)
  {
    hide *;
    s.w.Reset();
    ghost var x := s.w.Written();
    bs, cands := Compr(s, input, lvl);
    ghost var y :| Wrote(x, y, bs, true) && s.w.Written() == y + IntBits(0, Align(|y|));
    s.w.Aligned();
    out := s.w.out;
    EncodesIntro(input, bs, x, y, BytesToBits(out));
  }

  lemma EncodesIntro(input: seq<byte>, bs: seq<Block>, x: bits, y: bits, S: bits)
    requires Means(input, 0, |input|, bs) && Short(bs) && Wrote(x, y, bs, true) && x == []
    requires S == y + IntBits(0, Align(|y|))
    ensures Encodes(S, input, bs)
  {
    hide BlocksOk, BlocksBits, LegalBlocks, PlayBlocks, Short;
    assert input[..0] == [] && input[..|input|] == input;
    assert y == BlocksBits(bs, true, 0);
  }

  lemma EncodesParts(S: bits, input: seq<byte>, bs: seq<Block>)
    requires Encodes(S, input, bs)
    ensures BlocksOk(bs) && LegalBlocks([], bs) && PlayBlocks([], bs) == input && (bs == [] <==> input == [])
    ensures Short(bs) && |S| % 8 == 0 && At(S, 0, BlocksBits(bs, true, 0))
    ensures bs == [] ==> S == []
  {
    hide BlocksOk, LegalBlocks, PlayBlocks, Short, BlocksBits, Align, IntBits;
    var x := BlocksBits(bs, true, 0);
    assert S[0..0 + |x|] == x;
    if bs == [] { NothingWritten(); }
  }

  lemma NothingWritten()
    ensures BlocksOk([]) && BlocksBits([], true, 0) == [] && Align(0) == 0
  {
  }

  /** Reading an empty input is not defined. */
  lemma EmptyUndefined(cap: nat)
    ensures Inflate([], cap) == Undefined
  {
  }

  lemma InflateIs(S: bits, cap: nat)
    ensures Inflate(S, cap) == Run(S, 0, [], cap)
  {
    hide Run;
  }

  /** The whole law: what the compressor writes inflates to its input, exactly when the input is not
      empty and no literal with the match behind it is too wide for the bit buffer. */
  lemma RoundTripExact(S: bits, input: seq<byte>, bs: seq<Block>, cap: nat)
    requires Encodes(S, input, bs) && |input| <= cap
    ensures BlocksOk(bs)
    ensures Inflate(S, cap) == Returns(input) <==> input != [] && BlocksInBudget(bs, true, 0)
    ensures Inflate(S, cap) != Returns(input) ==> Inflate(S, cap) == Undefined
  {
    hide *;
    EncodesParts(S, input, bs);
    InflateIs(S, cap);
    if input == [] {
      EmptyUndefined(cap);
    } else {
      BlocksRead(bs, S, 0, [], cap);
    }
  }

  // ------------------------------------------------------------ small inputs

  /** Inputs up to this size never exceed the budget. */
  const SAFE_SIZE: nat := 3947

  /** Distances up to 4096 have at most ten extra bits. */
  lemma NearExtra(dist: nat, len: nat)
    requires 1 <= dist <= 4096
    ensures Codes(dist, len).dx <= 10
  {
    hide Pow2, Ilog2;
    Pow2Values();
    var m := Ilog2(dist - 1);
    if dist > 1 { NearLog(dist - 1); } else { LogZero(); }
    if m >= 1 {
      QuarterPow(m);
      Ilog2Pow2(m - 1);
    } else {
      LogZero();
    }
  }

  lemma NearLog(n: nat)
    requires 0 < n < 4096
    ensures Ilog2(n) <= 11
  {
    Pow2Values();
    Ilog2Range(n);
    if Ilog2(n) >= 12 { Pow2Mono(12, Ilog2(n)); }
  }

  lemma LogZero()
    ensures Ilog2(0) == 0 && Pow2(1) / 4 == 0
  {
  }

  lemma LitWidth14(h: Trees, t: Token)
    requires Bounded(h.lit, 14) && Writable(h, t) && t.Lit?
    ensures |TokenBits(h, t)| <= 14
  {
  }

  lemma MatchWidth42(h: Trees, t: Token)
    requires Bounded(h.lit, 14) && Bounded(h.dst, 13) && Writable(h, t) && t.Match? && t.dist <= 4096
    ensures |TokenBits(h, t)| <= 42
  {
    LengthCode(t.len);
    DistCode(t.dist, t.len);
    NearExtra(t.dist, t.len);
    hide LengthSlot, LengthBase, DistBase, Codeword, Codes;
  }

  ghost predicate Near(toks: seq<Token>) { forall i :: 0 <= i < |toks| && toks[i].Match? ==> toks[i].dist <= 4096 }

  /** Near matches with short distance codes never exceed the budget. */
  lemma {:induction false} NearInBudget(h: Trees, toks: seq<Token>, p: nat)
    requires AllWritable(h, toks) && Bounded(h.lit, 14) && Bounded(h.dst, 13) && Near(toks)
    ensures InBudget(h, toks, p)
    decreases |toks|
  {
    hide TokenBits, Writable, Bounded;
    if toks != [] {
      if toks[0].Match? || |toks| == 1 {
        NearInBudget(h, toks[1..], p + |TokenBits(h, toks[0])|);
      } else {
        if toks[1].Match? {
          LitWidth14(h, toks[0]);
          MatchWidth42(h, toks[1]);
        }
        NearInBudget(h, toks[2..], p + |TokenBits(h, toks[0])| + |TokenBits(h, toks[1])|);
      }
    }
  }

  /** A match does not reach further back than the output is long. */
  lemma {:induction false} LegalNear(out: seq<byte>, toks: seq<Token>)
    requires Legal(out, toks) && |Play(out, toks)| <= 4096
    ensures Near(toks)
    decreases |toks|
  {
    if toks != [] {
      LegalNear(PlayToken(out, toks[0]), toks[1..]);
      assert |out| <= |PlayToken(out, toks[0])| <= |Play(out, toks)|;
      forall i | 0 <= i < |toks| && toks[i].Match? ensures toks[i].dist <= 4096 {
        if i > 0 { assert toks[i] == toks[1..][i - 1]; }
      }
    }
  }

  lemma {:induction false} CopyLength(out: seq<byte>, dist: nat, len: nat)
    requires 1 <= dist <= |out|
    ensures |CopyBack(out, dist, len)| == |out| + len
    decreases len
  {
    if len > 0 { CopyLength(out + [out[|out| - dist]], dist, len - 1); }
  }

  lemma MatchesFront(t: Token, toks: seq<Token>)
    ensures Matches([t] + toks) == Matches(toks) + if t.Match? then 1 else 0
    decreases |toks|
  {
    if toks == [] {
      assert [t] + toks == [t] && [t][..0] == [];
    } else {
      var n := |toks| - 1;
      MatchesFront(t, toks[..n]);
      assert ([t] + toks)[..n + 1] == [t] + toks[..n] && ([t] + toks)[n + 1] == toks[n];
    }
  }

  /** Every match gives four bytes of output. */
  lemma {:induction false} MatchesGive(out: seq<byte>, toks: seq<Token>)
    requires Legal(out, toks) && LongMatches(toks)
    ensures |out| + 4 * Matches(toks) <= |Play(out, toks)|
    decreases |toks|
  {
    hide Matches;
    if toks == [] {
      NoMatches();
    } else {
      var t := toks[0];
      if t.Match? { CopyLength(out, t.dist, t.len); }
      MatchesGive(PlayToken(out, t), toks[1..]);
      assert toks == [t] + toks[1..];
      MatchesFront(t, toks[1..]);
    }
  }

  lemma NoMatches()
    ensures Matches([]) == 0
  {
  }

  lemma Fib16()
    ensures HuffOptimal.Fib(16) == 987
  {
    assert HuffOptimal.Fib(4) == 3 && HuffOptimal.Fib(5) == 5;
    assert HuffOptimal.Fib(7) == 13 && HuffOptimal.Fib(8) == 21;
    assert HuffOptimal.Fib(10) == 55 && HuffOptimal.Fib(11) == 89;
    assert HuffOptimal.Fib(13) == 233 && HuffOptimal.Fib(14) == 377;
  }

  /** Fewer than 987 matches have distance codes of at most 13 bits. */
  lemma FewMatches(b: Block)
    requires b.Dynamic? && Thrifty(b) && Matches(b.toks) < 987
    ensures Bounded(b.trees.dst, 13)
  {
    Fib16();
    hide HuffOptimal.Fib, Matches;
  }

  lemma BlockSmall(out: seq<byte>, b: Block, last: bool, p: nat)
    requires BlockOk(b) && Thrifty(b) && LegalBlock(out, b) && |PlayBlock(out, b)| <= SAFE_SIZE
    ensures BlockInBudget(b, last, p)
  {
    hide *;
    if b.Dynamic? {
      DynamicParts(out, b);
      MatchesGive(out, b.toks);
      FewMatches(b);
      LegalNear(out, b.toks);
      NearInBudget(b.trees, b.toks, p + |HeaderBits(b, last)|);
      BudgetIntro(b, last, p);
    } else {
      StoredInBudget(b, last, p);
    }
  }

  lemma DynamicParts(out: seq<byte>, b: Block)
    requires b.Dynamic? && BlockOk(b) && Thrifty(b) && LegalBlock(out, b) && |PlayBlock(out, b)| <= SAFE_SIZE
    ensures AllWritable(b.trees, b.toks) && Bounded(b.trees.lit, 14) && LongMatches(b.toks)
    ensures Legal(out, b.toks) && |Play(out, b.toks)| <= 3947
  {
    hide Legal, Play, AllWritable, LongMatches, PreOk, TreesOk, DstBrief;
  }

  lemma BudgetIntro(b: Block, last: bool, p: nat)
    requires b.Dynamic? && BlockOk(b) && AllWritable(b.trees, b.toks)
    requires InBudget(b.trees, b.toks, p + |HeaderBits(b, last)|)
    ensures BlockInBudget(b, last, p)
  {
    hide InBudget, HeaderBits, BlockOk, AllWritable;
  }

  lemma StoredInBudget(b: Block, last: bool, p: nat)
    requires b.Stored? && BlockOk(b)
    ensures BlockInBudget(b, last, p)
  {
    hide InBudget, HeaderBits;
  }

  lemma FirstParts(out: seq<byte>, bs: seq<Block>, p: nat)
    requires bs != [] && BlocksOk(bs) && Short(bs) && LegalBlocks(out, bs)
    ensures BlockOk(bs[0]) && Thrifty(bs[0]) && LegalBlock(out, bs[0])
    ensures BlocksOk(bs[1..]) && Short(bs[1..]) && LegalBlocks(PlayBlock(out, bs[0]), bs[1..])
    ensures PlayBlocks(out, bs) == PlayBlocks(PlayBlock(out, bs[0]), bs[1..])
    ensures |PlayBlock(out, bs[0])| <= |PlayBlocks(out, bs)|
    ensures BlocksInBudget(bs, true, p) == (BlockInBudget(bs[0], |bs| == 1, p)
      && BlocksInBudget(bs[1..], true, p + |BlockBits(bs[0], |bs| == 1, p)|))
  {
    hide BlockOk, BlockBits, BlockInBudget, PlayBlock, LegalBlock, Thrifty;
  }

  lemma {:induction false} SmallInBudget(out: seq<byte>, bs: seq<Block>, p: nat)
    requires BlocksOk(bs) && Short(bs) && LegalBlocks(out, bs) && |PlayBlocks(out, bs)| <= SAFE_SIZE
    ensures BlocksInBudget(bs, true, p)
    decreases |bs|
  {
    hide *;
    if bs == [] {
      NoneInBudget(p);
    } else {
      FirstParts(out, bs, p);
      BlockSmall(out, bs[0], |bs| == 1, p);
      SmallInBudget(PlayBlock(out, bs[0]), bs[1..], p + |BlockBits(bs[0], |bs| == 1, p)|);
    }
  }

  lemma NoneInBudget(p: nat)
    ensures BlocksOk([]) && BlocksInBudget([], true, p)
  {
  }

  /** Every input of 1 to 3947 bytes survives compression and expansion. */
  lemma SmallRoundTrip(S: bits, input: seq<byte>, bs: seq<Block>, cap: nat)
    requires Encodes(S, input, bs) && 0 < |input| <= SAFE_SIZE && |input| <= cap
    ensures Inflate(S, cap) == Returns(input)
  {
    hide *;
    EncodesParts(S, input, bs);
    SmallInBudget([], bs, 0);
    RoundTripExact(S, input, bs, cap);
  }

  // -------------------------------------------------------- both directions

  /** Expanding a compressed input that stays in budget. */
  method Expand(packed: seq<byte>, cap: nat, slack: seq<byte>, simd: bool, ghost input: seq<byte>,
                ghost bs: seq<Block>) returns (back: seq<byte>)
    requires Encodes(BytesToBits(packed), input, bs) && |input| <= cap && |slack| >= Sinfl.SLACK
    requires BlocksOk(bs) && input != [] && BlocksInBudget(bs, true, 0)
    ensures back == input
  {
    hide *;
    RoundTripExact(BytesToBits(packed), input, bs, cap);
    var out := new byte[cap];
    var mem := packed + slack;
    assert mem[..|packed|] == packed;
    SlackIs();
    var n := SinflDecompress.Decompress(out, cap, mem, |packed|, simd);
    back := out[..n];
  }

  lemma SlackIs()
    ensures Sinfl.SLACK == 15
  {
  }

  /** Compressing at any level and expanding with either kind of word copies gives back every input of
      1 to 3947 bytes. */
  method CompressExpand(input: seq<byte>, lvl: nat, slack: seq<byte>, simd: bool) returns (back: seq<byte>)
    requires 0 < |input| <= SAFE_SIZE && lvl <= LVL_MAX && |slack| >= Sinfl.SLACK
    ensures back == input
  {
    hide *;
    var s := new Sdefl();
    var packed, bs, _ := Sdeflate(s, input, lvl);
    EncodesParts(BytesToBits(packed), input, bs);
    SmallRoundTrip(BytesToBits(packed), input, bs, |input|);
    RoundTripExact(BytesToBits(packed), input, bs, |input|);
    back := Expand(packed, |input|, slack, simd, input, bs);
  }
}
