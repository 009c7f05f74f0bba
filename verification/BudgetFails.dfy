/** The bit budget of the inflater is a real limit: a well-formed block on which it fails. */
module BudgetFails {
  import opened Bits
  import opened Options
  import opened Canonical
  import opened MatchCodes
  import opened Precode
  import opened Format
  import opened Reference
  import opened RoundTrip
  import Deflate
  import SdeflCost
  import SdeflFlush
  import SinflDecompress
  import SinflTables

  function Ramp(n: nat, first: nat): (s: seq<nat>)
    ensures |s| == n
  {
    seq(n, i requires 0 <= i => first + i)
  }

  lemma {:induction false} CountRamp(n: nat, first: nat, l: nat)
    ensures Count(Ramp(n, first), l) == if first <= l < first + n then 1 else 0
  {
    if n > 0 {
      assert Ramp(n, first)[..n - 1] == Ramp(n - 1, first);
      CountRamp(n - 1, first, l);
    }
  }

  lemma CountOne(v: nat, l: nat)
    ensures Count([v], l) == if v == l then 1 else 0
  {
    assert [v][..0] == [];
  }

  /** Symbols 0 and 284 have fourteen bits, the end of the block one. */
  function LongLit(): Lens { [14] + Ramp(12, 2) + Repeat(243, 0) + [1] + Repeat(27, 0) + [14] }

  /** Distance symbol 29 has fifteen bits. */
  function LongDst(): Lens { Ramp(14, 1) + [15] + Repeat(14, 0) + [15] }

  lemma LitCounts(l: nat)
    requires l > 0
    ensures Count(LongLit(), l) == if l == 1 then 1 else if 2 <= l < 14 then 1 else if l == 14 then 2 else 0
  {
    hide Count, Ramp, Repeat;
    var a, b, c, d, e := [14], Ramp(12, 2), Repeat(243, 0), [1], Repeat(27, 0);
    SinflDecompress.CountAppend(a + b + c + d + e, [14], l);
    SinflDecompress.CountAppend(a + b + c + d, e, l);
    SinflDecompress.CountAppend(a + b + c, d, l);
    SinflDecompress.CountAppend(a + b, c, l);
    SinflDecompress.CountAppend(a, b, l);
    CountOne(14, l);
    CountOne(1, l);
    CountRamp(12, 2, l);
    SinflDecompress.CountRepeat(243, 0, l);
    SinflDecompress.CountRepeat(27, 0, l);
  }

  lemma DstCounts(l: nat)
    requires l > 0
    ensures Count(LongDst(), l) == if l < 15 then 1 else if l == 15 then 2 else 0
  {
    hide Count, Ramp, Repeat;
    var a, b, c := Ramp(14, 1), [15], Repeat(14, 0);
    SinflDecompress.CountAppend(a + b + c, [15], l);
    SinflDecompress.CountAppend(a + b, c, l);
    SinflDecompress.CountAppend(a, b, l);
    CountOne(15, l);
    CountRamp(14, 1, l);
    SinflDecompress.CountRepeat(14, 0, l);
  }

  lemma {:induction false} LitCovered(l: nat)
    requires l < 14
    ensures Covered(LongLit(), l) == Pow2(l) - 1
  {
    if l > 0 {
      LitCounts(l);
      LitCovered(l - 1);
    }
  }

  lemma {:induction false} DstCovered(l: nat)
    requires l < 15
    ensures Covered(LongDst(), l) == Pow2(l) - 1
  {
    if l > 0 {
      DstCounts(l);
      DstCovered(l - 1);
    }
  }

  lemma LitComplete()
    ensures Complete(LongLit())
  {
    hide LongLit, Count;
    LitCovered(13);
    LitCounts(14);
    LitCounts(15);
    TopLevels(LongLit());
  }

  lemma DstComplete()
    ensures Complete(LongDst())
  {
    hide LongDst, Count;
    DstCovered(14);
    DstCounts(15);
    TopLevels(LongDst());
  }

  lemma TopLevels(lens: Lens)
    ensures Covered(lens, 15) == 2 * Covered(lens, 14) + Count(lens, 15)
    ensures Covered(lens, 14) == 2 * Covered(lens, 13) + Count(lens, 14)
    ensures Complete(lens) <==> Covered(lens, 15) == Pow2(15)
    ensures Pow2(15) == 2 * Pow2(14) == 4 * Pow2(13)
  {
  }

  lemma LongComplete()
    ensures Complete(LongLit()) && Complete(LongDst())
  {
    hide Complete;
    LitComplete();
    DstComplete();
  }

  lemma LongShape()
    ensures |LongLit()| == 285 && |LongDst()| == 30
    ensures Bounded(LongLit(), 15) && Bounded(LongDst(), 15)
    ensures LongLit()[0] == 14 && LongLit()[256] == 1 && LongLit()[284] == 14 && LongDst()[29] == 15
  {
  }

  lemma FarCodes()
    ensures Codes(24577, 230) == MatchCode(27, 284, 29, 13)
  {
    Pow2Values();
    SinflTables.Ilog2Unique(24576, 14);
    assert NextPow2(24577) == 32768;
    SinflTables.Ilog2Unique(8192, 13);
  }

  function WideToks(): seq<Token> { [Lit(0), Match(24577, 230)] }

  function WideTrees(): Trees { Trees(LongLit(), LongDst()) }

  lemma WideReady()
    ensures TreesOk(WideTrees()) && TokensOk(WideTrees(), WideToks())
  {
    hide Complete, Covered, LongLit, LongDst, Codes;
    LongComplete();
    LongShape();
    FarCodes();
  }

  lemma WideLegal(out: seq<byte>)
    requires |out| >= 24576
    ensures Legal(out, WideToks()) && |Play(out, WideToks())| == |out| + 231
  {
    hide CopyBack;
    var t := WideToks();
    assert t[1..] == [Match(24577, 230)] && t[1..][1..] == [];
    assert Legal(out + [0], t[1..]);
  }

  lemma LitWidth(h: Trees, c: byte)
    requires IsUsed(h.lit, c)
    ensures Writable(h, Lit(c)) && |TokenBits(h, Lit(c))| == h.lit[c]
  {
  }

  lemma FarWidth(h: Trees)
    requires IsUsed(h.lit, 284) && IsUsed(h.dst, 29)
    ensures Writable(h, Match(24577, 230)) && |TokenBits(h, Match(24577, 230))| == h.lit[284] + 5 + (h.dst[29] + 13)
  {
    FarCodes();
    hide Codes, Codeword;
  }

  lemma WideBits()
    ensures AllWritable(WideTrees(), WideToks())
    ensures |TokenBits(WideTrees(), WideToks()[0])| == 14 && |TokenBits(WideTrees(), WideToks()[1])| == 47
  {
    hide LongLit, LongDst, TokenBits, Writable;
    LongShape();
    LitWidth(WideTrees(), 0);
    FarWidth(WideTrees());
  }

  /** The tokens do not fit where the buffer is refilled at most four bits before a byte boundary. */
  lemma WideOver(p: nat)
    requires Align(p) < 5
    ensures AllWritable(WideTrees(), WideToks()) && !InBudget(WideTrees(), WideToks(), p)
  {
    WideBits();
    hide TokenBits, WideTrees, Writable;
  }

  /** A literal of 14 bits and a match of 14 + 5 + 15 + 13 bits are a legal block body, but 61 bits
      are more than the 56 that the inflater then has: its last assertion fails. */
  lemma BodyFails(out: seq<byte>, cap: nat)
    requires |out| >= 24576 && cap >= |out| + 231
    ensures TreesOk(WideTrees()) && TokensOk(WideTrees(), WideToks()) && Legal(out, WideToks())
    ensures Body(WideTrees(), BodyBits(WideTrees(), WideToks()), 0, out, cap, true) == Undefined
  {
    hide *;
    WideReady();
    WideLegal(out);
    ZeroAligned();
    WideOver(0);
    ReadyIntro(WideTrees(), WideToks(), out, cap);
    BodyReads(WideTrees(), BodyBits(WideTrees(), WideToks()), 0, WideToks(), out, cap, true);
    DecodesElim(WideTrees(), BodyBits(WideTrees(), WideToks()), 0, WideToks(), out, cap, true);
  }

  lemma ZeroAligned()
    ensures Align(0) == 0
  {
  }

  lemma ReadyIntro(h: Trees, toks: seq<Token>, out: seq<byte>, cap: nat)
    requires TreesOk(h) && TokensOk(h, toks) && Legal(out, toks) && |Play(out, toks)| <= cap
    ensures AllWritable(h, toks) && IsUsed(h.lit, END_OF_BLOCK)
    ensures BodyReady(h, BodyBits(h, toks), 0, toks, out, cap)
  {
    hide BodyBits, Legal, Play, AllWritable, Complete;
    var S := BodyBits(h, toks);
    assert S[0..0 + |S|] == S;
  }

  // ----------------------------------------------------------- a whole stream

  /** The lengths 0 to 15 are sent with four bits each. */
  function FlatPre(): Lens { Repeat(16, 4) + Repeat(3, 0) }

  lemma FlatCounts(l: nat)
    requires l > 0
    ensures Count(FlatPre(), l) == if l == 4 then 16 else 0
  {
    hide Count, Repeat;
    SinflDecompress.CountAppend(Repeat(16, 4), Repeat(3, 0), l);
    SinflDecompress.CountRepeat(16, 4, l);
    SinflDecompress.CountRepeat(3, 0, l);
  }

  lemma {:induction false} FlatCovered(l: nat)
    ensures Covered(FlatPre(), l) == if l < 4 then 0 else Pow2(l)
  {
    if l > 0 {
      FlatCounts(l);
      FlatCovered(l - 1);
      Pow2Values();
    }
  }

  lemma FlatOk()
    ensures |FlatPre()| == 19 && Bounded(FlatPre(), 7) && Complete(FlatPre())
    ensures forall s: nat :: s < 16 ==> IsUsed(FlatPre(), s) && FlatPre()[s] == 4
  {
    FlatComplete();
    hide Covered, Complete;
  }

  lemma FlatComplete()
    ensures Complete(FlatPre())
  {
    FlatCovered(15);
    hide Covered, FlatPre;
  }

  lemma PlainItem(it: nat)
    requires it < 16
    ensures ItemSym(it) == it && ItemExtra(it) == 0 && ItemOk(it) && ExtraBits(it) == 0
    ensures forall acc: seq<nat> :: Extend(acc, it) == acc + [it]
  {
  }

  /** Lengths sent one by one, in four bits each. */
  lemma {:induction false} PlainItems(items: seq<nat>)
    requires Bounded(items, 15)
    ensures Expand(items) == Some(items) && AllItemsWritable(FlatPre(), items)
    ensures |ItemsBits(FlatPre(), items)| == 4 * |items|
  {
    FlatOk();
    hide FlatPre, Extend, Complete, ItemSym, ItemExtra, ItemOk, ExtraBits;
    if items != [] {
      var front, it := items[..|items| - 1], items[|items| - 1];
      PlainItems(front);
      PlainItem(it);
      assert items == front + [it];
    }
  }

  /** A block whose codes have the lengths that the compressor allows. */
  function WideBlock(): Block { Dynamic(WideTrees(), FlatPre(), 19, LongLit() + LongDst(), WideToks()) }

  lemma WideBlockOk(last: bool)
    ensures BlockOk(WideBlock()) && |HeaderBits(WideBlock(), last)| == 1334
    ensures Bounded(WideBlock().trees.lit, 14)
  {
    hide LongLit, LongDst, FlatPre, Expand, ItemsBits, Complete, HeaderBits;
    FlatOk();
    LongShape();
    LitBounded();
    PlainItems(LongLit() + LongDst());
    WideReady();
    SdeflCost.HeaderLen(WideBlock(), last);
  }

  lemma LitBounded()
    ensures Bounded(LongLit(), 14)
  {
  }

  /** Any 24576 bytes in a stored block, and the wide block. */
  function WideBlocks(data: seq<byte>): seq<Block> { [Stored(data), WideBlock()] }

  lemma FirstBudget(a: Block, rest: seq<Block>, p: nat)
    requires BlocksOk([a] + rest)
    ensures BlockOk(a) && BlocksOk(rest)
    ensures BlocksInBudget([a] + rest, true, p) ==
      (BlockInBudget(a, rest == [], p) && BlocksInBudget(rest, true, p + |BlockBits(a, rest == [], p)|))
  {
    hide BlockOk, BlockBits, BlockInBudget;
    var bs := [a] + rest;
    assert bs[1..] == rest && bs[0] == a;
    assert forall i :: 0 <= i < |rest| ==> rest[i] == bs[i + 1];
  }

  lemma TwoBlocks(a: Block, b: Block)
    requires BlockOk(a) && BlockOk(b)
    ensures BlocksOk([a, b])
    ensures BlocksInBudget([a, b], true, 0) ==> BlockInBudget(b, true, |BlockBits(a, false, 0)|)
  {
    hide BlockOk, BlockBits, BlockInBudget, BlocksInBudget;
    assert [a, b] == [a] + [b] && [b] == [b] + [];
    FirstBudget(a, [b], 0);
    FirstBudget(b, [], |BlockBits(a, false, 0)|);
  }

  lemma FirstPlayed(out: seq<byte>, a: Block, rest: seq<Block>)
    requires LegalBlock(out, a) && LegalBlocks(PlayBlock(out, a), rest)
    ensures LegalBlocks(out, [a] + rest)
    ensures PlayBlocks(out, [a] + rest) == PlayBlocks(PlayBlock(out, a), rest)
  {
    hide LegalBlock, PlayBlock;
    assert ([a] + rest)[1..] == rest;
  }

  lemma NonePlayed(out: seq<byte>)
    ensures LegalBlocks(out, []) && PlayBlocks(out, []) == out
  {
  }

  lemma TwoPlayed(out: seq<byte>, a: Block, b: Block)
    requires LegalBlock(out, a) && LegalBlock(PlayBlock(out, a), b)
    ensures LegalBlocks(out, [a, b]) && PlayBlocks(out, [a, b]) == PlayBlock(PlayBlock(out, a), b)
  {
    hide LegalBlock, PlayBlock, LegalBlocks, PlayBlocks;
    assert [a, b] == [a] + [b] && [b] == [b] + [];
    NonePlayed(PlayBlock(PlayBlock(out, a), b));
    FirstPlayed(PlayBlock(out, a), b, []);
    FirstPlayed(out, a, [b]);
  }

  lemma StreamLegal(data: seq<byte>)
    requires |data| == 24576
    ensures BlocksOk(WideBlocks(data)) && LegalBlocks([], WideBlocks(data))
    ensures |PlayBlocks([], WideBlocks(data))| == 24807
  {
    hide WideBlock, WideTrees, WideToks, Play, Legal;
    WideBlockOk(true);
    WideLegal([] + data);
    WideIs();
    TwoBlocks(Stored(data), WideBlock());
    TwoPlayed([], Stored(data), WideBlock());
  }

  lemma WideIs()
    ensures WideBlock().Dynamic? && WideBlock().toks == WideToks() && WideBlock().trees == WideTrees()
  {
  }

  lemma BudgetIs(b: Block, p: nat)
    requires BlockOk(b) && b.Dynamic?
    ensures AllWritable(b.trees, b.toks)
    ensures BlockInBudget(b, true, p) ==> InBudget(b.trees, b.toks, p + |HeaderBits(b, true)|)
  {
    hide InBudget, HeaderBits, AllWritable;
  }

  lemma StreamOver(data: seq<byte>)
    requires |data| == 24576
    ensures BlocksOk(WideBlocks(data)) && !BlocksInBudget(WideBlocks(data), true, 0)
  {
    hide *;
    WideBlockOk(true);
    WideIs();
    WideAre(data);
    SdeflFlush.PieceLen(data, false, 0);
    TwoBlocks(Stored(data), WideBlock());
    var p := |BlockBits(Stored(data), false, 0)|;
    BudgetIs(WideBlock(), p);
    Offset(p + |HeaderBits(WideBlock(), true)|);
    WideOver(p + |HeaderBits(WideBlock(), true)|);
  }

  lemma WideAre(data: seq<byte>)
    ensures WideBlocks(data) == [Stored(data), WideBlock()]
  {
    hide WideBlock;
  }

  lemma Offset(p: nat)
    ensures p == 197982 ==> Align(p) == 2
  {
  }

  /** The bits of that stream, up to a byte boundary. */
  ghost function WideStream(data: seq<byte>): bits
    requires BlocksOk(WideBlocks(data))
  {
    var x := BlocksBits(WideBlocks(data), true, 0);
    x + IntBits(0, Align(|x|))
  }

  /** A stream of two legal blocks, with code lengths that the compressor allows too, that the inflater
      cannot expand: between two refills it has 58 bits but needs 61, and its last assertion fails. */
  lemma BudgetFails(data: seq<byte>, cap: nat)
    requires |data| == 24576 && cap >= 24807
    ensures BlocksOk(WideBlocks(data)) && LegalBlocks([], WideBlocks(data))
    ensures |PlayBlocks([], WideBlocks(data))| <= cap
    ensures WideBlocks(data)[1].Dynamic? && Bounded(WideBlocks(data)[1].trees.lit, 14)
    ensures Inflate(WideStream(data), cap) == Undefined
  {
    StreamLegal(data);
    SecondIs(data);
    StreamOver(data);
    hide *;
    var bs := WideBlocks(data);
    StreamAt(data);
    TwoIs(data);
    BlocksRead(bs, WideStream(data), 0, [], cap);
    Deflate.InflateIs(WideStream(data), cap);
  }

  lemma TwoIs(data: seq<byte>)
    ensures WideBlocks(data) != []
  {
  }

  lemma SecondIs(data: seq<byte>)
    ensures |WideBlocks(data)| == 2 && WideBlocks(data)[1].Dynamic? && Bounded(WideBlocks(data)[1].trees.lit, 14)
  {
    hide LongLit;
    LitBounded();
  }

  lemma StreamAt(data: seq<byte>)
    requires BlocksOk(WideBlocks(data))
    ensures |WideStream(data)| % 8 == 0 && At(WideStream(data), 0, BlocksBits(WideBlocks(data), true, 0))
  {
    hide WideBlocks, BlocksBits;
  }
}
