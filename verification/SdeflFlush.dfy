/** Ending a block (`sdefl_flush`): codes are made, the cheaper block type is chosen and written. */
module SdeflFlush {
  import opened Bits
  import opened Options
  import opened Canonical
  import opened Precode
  import opened MatchCodes
  import opened Format
  import opened HuffCodes
  import opened SdeflPut
  import opened SdeflCodes
  import opened SdeflCost
  import opened SdeflWrite
  import HuffOptimal
  import RoundTrip

  // ----------------------------------------------------------------- stored

  /** The pieces in which a block is stored. */
  function Pieces(data: seq<byte>): (bs: seq<Block>)
    ensures bs == [] <==> data == []
    decreases |data|
  {
    if data == [] then []
    else if |data| <= RAW_BLK_SIZE then [Stored(data)]
    else [Stored(data[..RAW_BLK_SIZE])] + Pieces(data[RAW_BLK_SIZE..])
  }

  /** How many pieces that are (`sdefl_div_round_up`). */
  function PieceCount(n: nat): nat { (n + (65535 - 1)) / 65535 }

  lemma PiecesUnfold(data: seq<byte>, n: nat)
    requires data != [] && n == if |data| < 65535 then |data| else 65535
    ensures 1 <= n <= |data| && Pieces(data) == [Stored(data[..n])] + Pieces(data[n..])
    ensures PieceCount(|data|) == PieceCount(|data| - n) + 1 && BlockOk(Stored(data[..n]))
    ensures PieceCount(|data|) == 1 <==> n == |data|
  {
    if n == |data| { assert data[..n] == data && data[n..] == []; }
  }

  lemma {:induction false} PiecesOk(data: seq<byte>)
    ensures BlocksOk(Pieces(data)) && |Pieces(data)| == PieceCount(|data|)
    decreases |data|
  {
    if |data| > RAW_BLK_SIZE { PiecesOk(data[RAW_BLK_SIZE..]); }
  }

  /** The pieces mean the data. */
  lemma {:induction false} PiecesPlay(out: seq<byte>, data: seq<byte>)
    ensures LegalBlocks(out, Pieces(data)) && PlayBlocks(out, Pieces(data)) == out + data
    decreases |data|
  {
    hide *;
    if data == [] {
      NonePlay(out);
    } else {
      var n := if |data| < 65535 then |data| else 65535;
      var first, rest := data[..n], data[n..];
      PiecesUnfold(data, n);
      PiecesPlay(out + first, rest);
      FirstPlay(out, first, Pieces(rest));
      assert out + first + rest == out + data;
    }
  }

  lemma NonePlay(out: seq<byte>)
    ensures LegalBlocks(out, Pieces([])) && PlayBlocks(out, Pieces([])) == out + []
  {
  }

  lemma FirstPlay(out: seq<byte>, first: seq<byte>, bs: seq<Block>)
    requires LegalBlocks(out + first, bs)
    ensures LegalBlocks(out, [Stored(first)] + bs)
    ensures PlayBlocks(out, [Stored(first)] + bs) == PlayBlocks(out + first, bs)
  {
    assert ([Stored(first)] + bs)[1..] == bs;
  }

  lemma PieceLen(data: seq<byte>, last: bool, p: nat)
    requires 1 <= |data| <= 65535
    ensures BlockOk(Stored(data)) && |BlockBits(Stored(data), last, p)| <= 42 + 8 * |data|
    ensures p % 8 == 0 ==> |BlockBits(Stored(data), last, p)| == 40 + 8 * |data|
    ensures (p + |BlockBits(Stored(data), last, p)|) % 8 == 0
  {
    assert |BlockBits(Stored(data), last, p)| == 35 + Align(p + 3) + 8 * |data|;
    hide BlockBits;
    PieceAlign(p, |data|);
  }

  lemma PieceAlign(p: nat, n: nat)
    ensures (p + (35 + Align(p + 3) + 8 * n)) % 8 == 0
    ensures p % 8 == 0 ==> Align(p + 3) == 5
  {
    if p % 8 == 0 { assert (p + 3) % 8 == 3; }
    hide Align;
  }

  lemma NoPieces(last: bool, p: nat)
    ensures BlocksOk(Pieces([])) && BlocksBits(Pieces([]), last, p) == [] && PieceCount(0) == 0
  {
  }

  /** Only the first piece can need more than five bits of padding. */
  lemma {:induction false} PiecesLen(data: seq<byte>, last: bool, p: nat)
    ensures BlocksOk(Pieces(data))
    ensures |BlocksBits(Pieces(data), last, p)| <= 8 * |data| + 40 * PieceCount(|data|) + 2
    ensures p % 8 == 0 ==> |BlocksBits(Pieces(data), last, p)| == 8 * |data| + 40 * PieceCount(|data|)
    decreases |data|
  {
    hide *;
    if data == [] {
      NoPieces(last, p);
    } else {
      var n := if |data| < 65535 then |data| else 65535;
      var first, rest := data[..n], data[n..];
      PiecesUnfold(data, n);
      PiecesOk(rest);
      var fin := last && Pieces(rest) == [];
      PieceLen(first, fin, p);
      BlocksCons(Stored(first), Pieces(rest), last, p);
      PiecesLen(rest, last, p + |BlockBits(Stored(first), fin, p)|);
    }
  }

  /** Two bytes, low byte first. */
  lemma TwoBytes(x: nat)
    requires x < 65536
    ensures BytesToBits([x % 256, x / 256]) == IntBits(x, 16)
  {
    Pow2Values();
    assert [x % 256, x / 256] == [] + [x % 256] + [x / 256];
    BytesConcat([x % 256], [x / 256]);
    BytesOne(x % 256);
    BytesOne(x / 256);
    forall k | 0 <= k < 16 ensures (IntBits(x % 256, 8) + IntBits(x / 256, 8))[k] == IntBits(x, 16)[k] {
      if k < 8 { BitMod(x, 8, k); } else { BitShr(x, 8, k - 8); }
    }
  }

  /** `sdefl_put16`. */
  method Put16(w: BitWriter, x: nat)
    requires w.Valid() && w.bitcnt == 0 && x < 65536
    modifies w
    ensures w.Valid() && w.bitcnt == 0 && w.Written() == old(w.Written()) + IntBits(x, 16)
  {
    hide *;
    TwoBytes(x);
    w.PutBytes([x % 256, x / 256]);
  }

  lemma RawJoin(x: bits, a: bits, b: bits, c: bits, d: bits, e: bits)
    ensures x + a + b + c + d + e == x + (a + b + (c + d + e))
  {
  }

  lemma HeadLen(last: bool)
    ensures |IntBits(if last then 1 else 0, 1) + IntBits(0, 2)| == 3
  {
  }

  /** One stored piece. */
  method PutPiece(w: BitWriter, data: seq<byte>, last: bool)
    requires w.Valid() && 1 <= |data| <= 65535
    modifies w
    ensures w.Valid() && BlockOk(Stored(data))
    ensures w.Written() == old(w.Written()) + BlockBits(Stored(data), last, old(|w.Written()|))
  {
    hide *;
    ghost var x := w.Written();
    RawShape(data, last, |x|);
    HeadLen(last);
    PutHead(w, last, 0);
    w.PutAlign();
    Put16(w, |data|);
    Put16(w, 65535 - |data|);
    w.PutBytes(data);
    RawJoin(x, IntBits(if last then 1 else 0, 1) + IntBits(0, 2), IntBits(0, Align(|x| + 3)),
            IntBits(|data|, 16), IntBits(65535 - |data|, 16), BytesToBits(data));
  }

  /** A block in stored pieces. */
  method PutStored(w: BitWriter, data: seq<byte>, last: bool)
    requires w.Valid()
    modifies w
    ensures w.Valid() && BlocksOk(Pieces(data))
    ensures w.Written() == old(w.Written()) + BlocksBits(Pieces(data), last, old(|w.Written()|))
  {
    hide *;
    ghost var x := w.Written();
    var n := PieceCount(|data|);
    var left: nat, at: nat := |data|, 0;
    var i: nat := 0;
    ghost var y := w.Written();
    PiecesStart(data, x, last);
    while i < n
      invariant i <= n && PiecesAt(data, i, n, left, at) && w.Valid()
      invariant BlocksOk(Pieces(data)) && BlocksOk(Pieces(Drop(data, at)))
      invariant x + BlocksBits(Pieces(data), last, |x|) ==
        w.Written() + BlocksBits(Pieces(Drop(data, at)), last, |w.Written()|)
    {
      y := w.Written();
      PiecesNext(data, i, n, left, at, last, y);
      var fin := last && i + 1 == n;
      var amount := if left < 65535 then left else 65535;
      PutPiece(w, data[at..at + amount], fin);
      left := left - amount;
      at := at + amount;
      i := i + 1;
    }
    PiecesEnd(data, n, left, at, last, w.Written());
  }

  function Drop(data: seq<byte>, at: nat): seq<byte> { if at <= |data| then data[at..] else [] }

  predicate PiecesAt(data: seq<byte>, i: nat, n: nat, left: nat, at: nat) {
    at + left == |data| && i + PieceCount(left) == n
  }

  lemma PiecesStart(data: seq<byte>, x: bits, last: bool)
    ensures PiecesAt(data, 0, PieceCount(|data|), |data|, 0)
    ensures Drop(data, 0) == data && BlocksOk(Pieces(data))
  {
    PiecesOk(data);
  }

  lemma PiecesEnd(data: seq<byte>, n: nat, left: nat, at: nat, last: bool, y: bits)
    requires PiecesAt(data, n, n, left, at)
    ensures BlocksOk(Pieces(Drop(data, at))) && y + BlocksBits(Pieces(Drop(data, at)), last, |y|) == y
  {
    assert Drop(data, at) == [];
  }

  lemma PiecesNext(data: seq<byte>, i: nat, n: nat, left: nat, at: nat, last: bool, y: bits)
    requires PiecesAt(data, i, n, left, at) && i < n
    ensures var amount := if left < 65535 then left else 65535;
      && 1 <= amount <= left && at + amount <= |data| && PiecesAt(data, i + 1, n, left - amount, at + amount)
      && BlockOk(Stored(data[at..at + amount])) && BlocksOk(Pieces(Drop(data, at)))
      && BlocksOk(Pieces(Drop(data, at + amount)))
      && y + BlocksBits(Pieces(Drop(data, at)), last, |y|) ==
         (y + BlockBits(Stored(data[at..at + amount]), last && i + 1 == n, |y|))
         + BlocksBits(Pieces(Drop(data, at + amount)), last,
                      |y + BlockBits(Stored(data[at..at + amount]), last && i + 1 == n, |y|)|)
  {
    hide *;
    var amount := if left < 65535 then left else 65535;
    PieceTake(data, i, n, left, at);
    var whole := Drop(data, at);
    var first, rest := data[at..at + amount], Drop(data, at + amount);
    PiecesUnfold(whole, amount);
    PiecesOk(rest);
    PiecesOk(whole);
    var x := BlockBits(Stored(first), last && Pieces(rest) == [], |y|);
    BlocksCons(Stored(first), Pieces(rest), last, |y|);
    AppendAssoc(y, x, BlocksBits(Pieces(rest), last, |y| + |x|));
  }

  /** The next piece of the data. */
  lemma PieceTake(data: seq<byte>, i: nat, n: nat, left: nat, at: nat)
    requires PiecesAt(data, i, n, left, at) && i < n
    ensures var amount := if left < 65535 then left else 65535;
      && 1 <= amount <= left && at + amount <= |data| && PiecesAt(data, i + 1, n, left - amount, at + amount)
      && Drop(data, at) != [] && |Drop(data, at)| == left
      && Drop(data, at)[..amount] == data[at..at + amount] && Drop(data, at)[amount..] == Drop(data, at + amount)
      && (Pieces(Drop(data, at + amount)) == [] <==> i + 1 == n)
  {
    var amount := if left < 65535 then left else 65535;
    PiecesUnfold(Drop(data, at), amount);
  }

  // ------------------------------------------------------------------ state

  /** `struct sdefl`. */
  class Sdefl {
    const w: BitWriter
    const tbl: array<int>
    const prv: array<int>
    var seqs: seq<Seq>
    const freqLit: array<nat>
    const freqOff: array<nat>
    const wordLit: array<nat>
    const wordOff: array<nat>
    const lenLit: array<nat>
    const lenOff: array<nat>

    constructor ()
      ensures Shape() && fresh(w) && fresh(tbl) && fresh(prv) && fresh(freqLit) && fresh(freqOff)
      ensures fresh(wordLit) && fresh(wordOff) && fresh(lenLit) && fresh(lenOff)
      ensures w.Valid() && w.Written() == [] && w.bitcnt == 0 && w.out == []
      ensures seqs == [] && Tallied(freqLit[..], freqOff[..], [])
    {
      w := new BitWriter();
      tbl := new int[HASH_SIZ];
      prv := new int[WIN_SIZ];
      seqs := [];
      freqLit := new nat[LIT_MAX](_ => 0);
      freqOff := new nat[OFF_MAX](_ => 0);
      wordLit := new nat[LIT_MAX];
      wordOff := new nat[OFF_MAX];
      lenLit := new nat[LIT_MAX];
      lenOff := new nat[OFF_MAX];
      new;
      TallyNone(freqLit[..], freqOff[..]);
    }

    /** The arrays are those of the source, and distinct. */
    ghost predicate Shape() {
      && tbl.Length == HASH_SIZ && prv.Length == WIN_SIZ && tbl != prv
      && freqLit.Length == wordLit.Length == lenLit.Length == LIT_MAX
      && freqOff.Length == wordOff.Length == lenOff.Length == OFF_MAX
      && freqLit != wordLit && freqLit != lenLit && wordLit != lenLit
      && freqOff != wordOff && freqOff != lenOff && wordOff != lenOff
    }
  }

  const HASH_SIZ: nat := 32768

  // ------------------------------------------------------------------ codes

  /** The three codes of a block are ready to be written. */
  ghost predicate Coded(lenLit: seq<nat>, wordLit: seq<nat>, lenOff: seq<nat>, wordOff: seq<nat>, lit: nat, off: nat,
                        pre: seq<nat>, words: seq<nat>, npre: nat, items: seq<nat>, toks: seq<Token>)
  {
    && |lenLit| == LIT_MAX && |lenOff| == OFF_MAX && 257 <= lit <= LIT_MAX && 1 <= off <= OFF_MAX
    && CodeArrays(lenLit, wordLit, lenLit[..lit]) && CodeArrays(lenOff, wordOff, lenOff[..off])
    && CodeArrays(pre, words, pre)
    && BlockOk(Dynamic(Trees(lenLit[..lit], lenOff[..off]), pre, npre, items, toks)) && Bounded(lenLit[..lit], 14)
    && DstBrief(lenOff[..off], toks)
  }

  lemma CodedIntro(lenLit: seq<nat>, wordLit: seq<nat>, lenOff: seq<nat>, wordOff: seq<nat>, n: nat, m: nat,
                   pre: seq<nat>, words: seq<nat>, npre: nat, items: seq<nat>, freqs: seq<nat>,
                   lit: seq<nat>, off: seq<nat>, toks: seq<Token>)
    requires Tallied(lit, off, toks) && |lenLit| == LIT_MAX && |lenOff| == OFF_MAX && |pre| == PRE_MAX
    requires |lit| == LIT_MAX && PrefixCode(lenLit, wordLit, lit[256 := lit[256] + 1], 14)
    requires PrefixCode(lenOff, wordOff, off, 15) && PrefixCode(pre, words, freqs, 7)
    requires 257 <= n <= LIT_MAX && forall k :: n <= k < LIT_MAX ==> lenLit[k] == 0
    requires 1 <= m <= OFF_MAX && forall k :: m <= k < OFF_MAX ==> lenOff[k] == 0
    requires Expand(items) == Some(lenLit[..n] + lenOff[..m])
    requires |freqs| == PRE_MAX && forall k :: 0 <= k < PRE_MAX ==> freqs[k] == Uses(items, k)
    requires 4 <= npre <= PRE_MAX && forall i :: npre <= i < PRE_MAX ==> pre[PermAt(i)] == 0
    ensures Coded(lenLit, wordLit, lenOff, wordOff, n, m, pre, words, npre, items, toks)
  {
    hide Tallied, PrefixCode, CodeArrays, PreOk, TreesOk, TokensOk, Uses, PermAt, Bounded, DstBrief;
    OffBrief(lenOff, wordOff, lit, off, toks, m);
    TreesReady(lenLit, wordLit, lenOff, wordOff, lit, off, toks, n, m);
    SomeItems(items, lenLit[..n] + lenOff[..m]);
    PreReady(pre, words, freqs, items, npre);
  }

  lemma SomeItems(items: seq<nat>, lens: seq<nat>)
    requires Expand(items) == Some(lens) && lens != []
    ensures items != []
  {
  }

  /** How many code length code lengths are sent. */
  method CountPre(pre: array<nat>) returns (npre: nat)
    requires pre.Length == PRE_MAX
    ensures 4 <= npre <= PRE_MAX && forall i :: npre <= i < PRE_MAX ==> pre[..][PermAt(i)] == 0
  {
    hide PermAt;
    npre := PRE_MAX;
    while npre > 4
      invariant 4 <= npre <= PRE_MAX && forall i :: npre <= i < PRE_MAX ==> pre[..][PermAt(i)] == 0
    {
      if pre[PermAt(npre - 1)] != 0 { break; }
      npre := npre - 1;
    }
  }

  /** The code length code for the two length vectors. */
  method HeaderCodes(lenLit: array<nat>, lenOff: array<nat>)
    returns (pre: array<nat>, words: array<nat>, freqs: array<nat>, items: array<nat>, cnt: nat, lit: nat, off: nat,
             npre: nat)
    requires lenLit.Length == LIT_MAX && lenOff.Length == OFF_MAX
    requires Bounded(lenLit[..], MAX_CODE_LEN) && Bounded(lenOff[..], MAX_CODE_LEN)
    ensures fresh(pre) && fresh(words) && fresh(freqs) && fresh(items)
    ensures pre.Length == PRE_MAX && freqs.Length == PRE_MAX && PrefixCode(pre[..], words[..], freqs[..], 7)
    ensures Shallow(freqs[..], 7) ==> HuffOptimal.Optimal(pre[..], freqs[..])
    ensures cnt <= items.Length && 257 <= lit <= LIT_MAX && 1 <= off <= OFF_MAX && 4 <= npre <= PRE_MAX
    ensures forall k :: lit <= k < LIT_MAX ==> lenLit[..][k] == 0
    ensures forall k :: off <= k < OFF_MAX ==> lenOff[..][k] == 0
    ensures Expand(items[..cnt]) == Some(lenLit[..][..lit] + lenOff[..][..off])
    ensures forall k :: 0 <= k < PRE_MAX ==> freqs[..][k] == Uses(items[..cnt], k)
    ensures forall i :: npre <= i < PRE_MAX ==> pre[..][PermAt(i)] == 0
  {
    hide Bounded, PrefixCode, Shallow, HuffOptimal.Optimal, Expand, Uses, PermAt, Pow2;
    freqs := new nat[PRE_MAX](_ => 0);
    items := new nat[LIT_MAX + OFF_MAX](_ => 0);
    cnt, lit, off := Precode.Precode(freqs, items, lenLit, lenOff);
    assert lenLit[..lit] == lenLit[..][..lit] && lenOff[..off] == lenOff[..][..off];
    ghost var its := items[..cnt];
    pre := new nat[PRE_MAX](_ => 0);
    words := new nat[PRE_MAX](_ => 0);
    Pow2Values();
    Huff(pre, words, freqs, 7);
    assert items[..cnt] == its;
    npre := CountPre(pre);
  }

  // ------------------------------------------------------------- block type

  function FixCost(blkLen: nat): nat { 8 * (5 * PieceCount(blkLen) + blkLen + 1 + 2) }

  lemma DotNext(f: seq<nat>, w: seq<nat>, n: nat)
    requires n < |f| && n < |w|
    ensures Dot(f, w, n + 1) == Dot(f, w, n) + f[n] * w[n]
  {
  }

  lemma DotFirst(f: seq<nat>, w: seq<nat>)
    ensures Dot(f, w, 0) == 0
  {
  }

  /** `sdefl_blk_type`: whether a dynamic block is cheaper. */
  method BlkType(s: Sdefl, blkLen: nat, npre: nat, preFreq: array<nat>, preLen: array<nat>) returns (dyn: bool)
    requires s.Shape() && preFreq.Length == preLen.Length == PRE_MAX && s.freqLit[256] == 1
    ensures var cost := DynCost(npre, preFreq[..], preLen[..], s.freqLit[..], s.lenLit[..], s.freqOff[..], s.lenOff[..]);
      dyn <==> cost < FixCost(blkLen)
  {
    hide Dot, LengthExtra, DistExtra, ExtraBits, PieceCount;
    ghost var pf, pw := preFreq[..], PreWidths(preLen[..]);
    ghost var lf, lw := s.freqLit[..], LitWidths(s.lenLit[..]);
    ghost var of, ow := s.freqOff[..], OffWidths(s.lenOff[..]);
    var cost := 5 + 5 + 4 + 3 * npre;
    ghost var c0 := cost;
    var sym := 0;
    DotFirst(pf, pw);
    while sym < 19
      invariant sym <= 19 && cost == c0 + Dot(pf, pw, sym)
    {
      DotNext(pf, pw, sym);
      cost := cost + preFreq[sym] * (preLen[sym] + ExtraBits(sym));
      sym := sym + 1;
    }
    ghost var c1 := cost;
    sym := 0;
    DotFirst(lf, lw);
    while sym < 256
      invariant sym <= 256 && cost == c1 + Dot(lf, lw, sym)
    {
      DotNext(lf, lw, sym);
      cost := cost + s.freqLit[sym] * s.lenLit[sym];
      sym := sym + 1;
    }
    DotNext(lf, lw, 256);
    cost := cost + s.lenLit[256];
    sym := 257;
    while sym < 286
      invariant 257 <= sym <= 286 && cost == c1 + Dot(lf, lw, sym)
    {
      DotNext(lf, lw, sym);
      cost := cost + s.freqLit[sym] * (LengthExtra(sym - 257) + s.lenLit[sym]);
      sym := sym + 1;
    }
    ghost var c2 := cost;
    sym := 0;
    DotFirst(of, ow);
    while sym < 30
      invariant sym <= 30 && cost == c2 + Dot(of, ow, sym)
    {
      DotNext(of, ow, sym);
      cost := cost + s.freqOff[sym] * (DistExtra(sym) + s.lenOff[sym]);
      sym := sym + 1;
    }
    dyn := cost < 8 * (5 * PieceCount(blkLen) + blkLen + 1 + 2);
  }

  // ------------------------------------------------------------------ flush

  lemma BlockShape(b: Block, last: bool, p: nat)
    requires b.Dynamic? && BlockOk(b)
    ensures Bounded(b.pre, 7) && AllWritable(b.trees, b.toks) && IsUsed(b.trees.lit, 256)
    ensures BlockBits(b, last, p) ==
      HeaderBits(b, last) + (TokensBits(b.trees, b.toks) + Codeword(b.trees.lit, 256))
  {
    hide HeaderBits, TokensBits, Codeword, Complete, AllWritable;
  }

  lemma DynJoin(x: bits, a: bits, c: bits, p: bits, i: bits, t: bits, e: bits)
    ensures x + a + c + p + i + t + e == x + ((a + (c + (p + i))) + (t + e))
  {
  }

  lemma CodedParts(lenLit: seq<nat>, wordLit: seq<nat>, lenOff: seq<nat>, wordOff: seq<nat>, lit: nat, off: nat,
                   pre: seq<nat>, words: seq<nat>, npre: nat, items: seq<nat>, toks: seq<Token>)
    requires Coded(lenLit, wordLit, lenOff, wordOff, lit, off, pre, words, npre, items, toks)
    ensures |lenLit| == LIT_MAX && |lenOff| == OFF_MAX && 257 <= lit <= LIT_MAX && 1 <= off <= OFF_MAX
    ensures CodeArrays(lenLit, wordLit, lenLit[..lit]) && CodeArrays(lenOff, wordOff, lenOff[..off])
    ensures CodeArrays(pre, words, pre) && Bounded(lenLit[..lit], 14) && DstBrief(lenOff[..off], toks)
    ensures BlockOk(Dynamic(Trees(lenLit[..lit], lenOff[..off]), pre, npre, items, toks))
  {
    hide CodeArrays, BlockOk, DstBrief;
  }

  lemma Lens19()
    ensures PRE_MAX == 19 && LIT_MAX == 288 && OFF_MAX == 32 && MAX_CODE_LEN == 15
    ensures 288 <= Pow2(14) && 32 <= Pow2(15) && 19 <= Pow2(7)
  {
    Pow2Values();
  }

  /** Writes the dynamic block. */
  method PutDynamic(s: Sdefl, input: seq<byte>, last: bool, lit: nat, off: nat, pre: array<nat>, words: array<nat>,
                    npre: nat, items: array<nat>, cnt: nat)
    requires s.Shape() && s.w.Valid() && cnt <= items.Length && SeqsOk(input, s.seqs)
    requires Coded(s.lenLit[..], s.wordLit[..], s.lenOff[..], s.wordOff[..], lit, off, pre[..], words[..], npre,
                   items[..cnt], Toks(input, s.seqs))
    modifies s.w
    ensures s.w.Valid() && lit <= s.lenLit.Length && off <= s.lenOff.Length
    ensures var b := Dynamic(Trees(s.lenLit[..lit], s.lenOff[..off]), pre[..], npre, items[..cnt], Toks(input, s.seqs));
      BlockOk(b) && s.w.Written() == old(s.w.Written()) + BlockBits(b, last, old(|s.w.Written()|))
  {
    hide *;
    CodedParts(s.lenLit[..], s.wordLit[..], s.lenOff[..], s.wordOff[..], lit, off, pre[..], words[..], npre,
               items[..cnt], Toks(input, s.seqs));
    Lens19();
    ghost var h := Trees(s.lenLit[..lit], s.lenOff[..off]);
    ghost var b := Dynamic(h, pre[..], npre, items[..cnt], Toks(input, s.seqs));
    ghost var x := s.w.Written();
    RoundTrip.HeaderShape(b, last);
    BlockShape(b, last, |x|);
    PutHead(s.w, last, 2);
    PutCounts(s.w, lit, off, npre);
    PutPre(s.w, pre, npre);
    PutItems(s.w, items, cnt, pre, words, pre[..]);
    PutSeqs(s.w, input, s.seqs, s.lenLit, s.wordLit, s.lenOff, s.wordOff, h);
    PutSym(s.w, s.lenLit, s.wordLit, 256, h.lit);
    DynJoin(x, IntBits(if last then 1 else 0, 1) + IntBits(2, 2),
            IntBits(lit - 257, 5) + IntBits(off - 1, 5) + IntBits(npre - 4, 4),
            PreBits(pre[..], npre), ItemsBits(pre[..], items[..cnt]),
            TokensBits(h, Toks(input, s.seqs)), Codeword(h.lit, 256));
    assert BlockBits(b, last, |x|) == HeaderBits(b, last) + (TokensBits(h, b.toks) + Codeword(h.lit, 256));
  }

  lemma PrefixBounded(lens: seq<nat>, words: seq<nat>, f: seq<nat>, max: nat)
    requires PrefixCode(lens, words, f, max)
    ensures Bounded(lens, 15) && |lens| == |words| == |f|
  {
  }

  lemma TallyEnd(lit: seq<nat>, off: seq<nat>, toks: seq<Token>)
    requires Tallied(lit, off, toks)
    ensures |lit| == LIT_MAX && |off| == OFF_MAX && lit[256] == 0
  {
    hide LitUses;
    NoEnd(toks);
  }

  // ------------------------------------------------------------ the candidate

  function Zeros(n: nat): (z: seq<nat>)
    ensures |z| == n && forall i :: 0 <= i < n ==> z[i] == 0
  {
    seq(n, _ => 0)
  }

  /** The lengths `h`, with zeros behind them, are as good for the counts `f` as those of any prefix code, if the
      tree does not exceed the limit `max`. */
  ghost predicate BestCode(h: Lens, f: seq<nat>, max: nat) {
    |h| <= |f| && (Shallow(f, max) ==> HuffOptimal.Optimal(h + Zeros(|f| - |h|), f))
  }

  function ItemTally(items: seq<nat>): (f: seq<nat>) { seq(PRE_MAX, k requires 0 <= k => Uses(items, k)) }

  /** The dynamic block for the tokens, all three codes made from the counts of its symbols. */
  ghost predicate Candidate(b: Block, toks: seq<Token>) {
    && b.Dynamic? && BlockOk(b) && b.toks == toks && TokensIn(toks)
    && BestCode(b.trees.lit, LitTally(toks)[256 := 1], 14) && BestCode(b.trees.dst, OffTally(toks), 15)
    && BestCode(b.pre, ItemTally(b.items), 7)
  }

  lemma BestIntro(lens: seq<nat>, n: nat, f: seq<nat>, max: nat)
    requires n <= |lens| == |f| && ZerosFrom(lens, n) && (Shallow(f, max) ==> HuffOptimal.Optimal(lens, f))
    ensures BestCode(lens[..n], f, max)
  {
    hide Shallow, HuffOptimal.Optimal;
    assert lens[..n] + Zeros(|f| - n) == lens;
  }

  predicate ZerosFrom(lens: seq<nat>, n: nat) { forall k :: n <= k < |lens| ==> lens[k] == 0 }

  lemma TalliesAre(f: seq<nat>, g: seq<nat>, toks: seq<Token>)
    requires Tallied(f, g, toks)
    ensures TokensIn(toks) && |f| == 288 && f == LitTally(toks) && g == OffTally(toks) && f[256] == 0
  {
    hide LitUses, OffUses;
    TallyEnd(f, g, toks);
    assert f == LitTally(toks) && g == OffTally(toks);
  }

  lemma ItemTallyIs(freqs: seq<nat>, items: seq<nat>)
    requires |freqs| == PRE_MAX && forall k :: 0 <= k < PRE_MAX ==> freqs[k] == Uses(items, k)
    ensures freqs == ItemTally(items)
  {
    hide Uses;
  }

  lemma CandidateIntro(b: Block, f: seq<nat>, g: seq<nat>, freqs: seq<nat>)
    requires b.Dynamic? && BlockOk(b) && Tallied(f, g, b.toks) && |f| == 288 && |freqs| == 19
    requires forall k :: 0 <= k < 19 ==> freqs[k] == Uses(b.items, k)
    requires BestCode(b.trees.lit, f[256 := f[256] + 1], 14) && BestCode(b.trees.dst, g, 15)
    requires BestCode(b.pre, freqs, 7)
    ensures Candidate(b, b.toks)
  {
    hide BestCode, BlockOk, Tallied, Uses, LitTally, OffTally, ItemTally, TokensIn;
    TalliesAre(f, g, b.toks);
    ItemTallyIs(freqs, b.items);
  }

  lemma FixCostIs(n: nat)
    ensures FixCost(n) == 8 * (5 * ((n + 65534) / 65535) + n + 3)
  {
  }

  /** The codes of a block from its symbol counts. */
  method MakeCodes(s: Sdefl, ghost toks: seq<Token>)
    returns (pre: array<nat>, words: array<nat>, freqs: array<nat>, items: array<nat>, cnt: nat, lit: nat, off: nat,
             npre: nat)
    requires s.Shape() && Tallied(s.freqLit[..], s.freqOff[..], toks)
    modifies s.freqLit, s.wordLit, s.wordOff, s.lenLit, s.lenOff
    ensures |old(s.freqLit[..])| == 288 && s.freqLit[..] == old(s.freqLit[..])[256 := old(s.freqLit[..])[256] + 1]
    ensures s.freqLit.Length == 288 && s.freqLit[256] == 1 && s.freqOff[..] == old(s.freqOff[..])
    ensures fresh(pre) && fresh(words) && fresh(freqs) && fresh(items) && cnt <= items.Length
    ensures pre.Length == freqs.Length == PRE_MAX && 4 <= npre
    ensures forall k :: 0 <= k < PRE_MAX ==> freqs[..][k] == Uses(items[..cnt], k)
    ensures Coded(s.lenLit[..], s.wordLit[..], s.lenOff[..], s.wordOff[..], lit, off, pre[..], words[..], npre,
                  items[..cnt], toks)
    ensures lit <= 288 == s.lenLit.Length && off <= 32 == s.lenOff.Length
    ensures BestCode(s.lenLit[..][..lit], s.freqLit[..], 14) && BestCode(s.lenOff[..][..off], s.freqOff[..], 15)
    ensures BestCode(pre[..], freqs[..], 7)
  {
    hide Tallied, PrefixCode, Bounded, Expand, Uses, PermAt, Pow2, Coded, Shallow, HuffOptimal.Optimal, BestCode;
    ghost var lit0, off0 := s.freqLit[..], s.freqOff[..];
    TallyEnd(lit0, off0, toks);
    Lens19();
    s.freqLit[256] := s.freqLit[256] + 1;
    assert s.freqLit[..] == lit0[256 := lit0[256] + 1];
    Huff(s.lenLit, s.wordLit, s.freqLit, 14);
    Huff(s.lenOff, s.wordOff, s.freqOff, 15);
    PrefixBounded(s.lenLit[..], s.wordLit[..], s.freqLit[..], 14);
    PrefixBounded(s.lenOff[..], s.wordOff[..], s.freqOff[..], 15);
    pre, words, freqs, items, cnt, lit, off, npre := HeaderCodes(s.lenLit, s.lenOff);
    CodedIntro(s.lenLit[..], s.wordLit[..], s.lenOff[..], s.wordOff[..], lit, off, pre[..], words[..], npre,
               items[..cnt], freqs[..], lit0, off0, toks);
    BestIntro(s.lenLit[..], lit, s.freqLit[..], 14);
    BestIntro(s.lenOff[..], off, s.freqOff[..], 15);
    BestIntro(pre[..], 19, freqs[..], 7);
    assert pre[..][..19] == pre[..];
  }

  /** `bs` is what has been written between `x` and `y`. */
  ghost predicate Wrote(x: bits, y: bits, bs: seq<Block>, last: bool) {
    BlocksOk(bs) && y == x + BlocksBits(bs, last, |x|)
  }

  /** The blocks take the output from the first `begin` bytes of the input to the first `end`. */
  ghost predicate Means(input: seq<byte>, begin: nat, end: nat, bs: seq<Block>) {
    && begin <= end <= |input| && LegalBlocks(input[..begin], bs)
    && PlayBlocks(input[..begin], bs) == input[..end] && (bs == [] <==> begin == end)
  }

  /** No literal/length code of a block is longer than 14 bits (`SDEFL_LIT_LEN_CODES`), matches have four bytes
      or more, and few matches have short distance codes. */
  ghost predicate Thrifty(b: Block) {
    b.Dynamic? ==> Bounded(b.trees.lit, 14) && DstBrief(b.trees.dst, b.toks) && LongMatches(b.toks)
  }

  ghost predicate Short(bs: seq<Block>) { forall i :: 0 <= i < |bs| ==> Thrifty(bs[i]) }

  lemma {:induction false} PiecesShort(data: seq<byte>)
    ensures Short(Pieces(data))
    decreases |data|
  {
    if |data| > RAW_BLK_SIZE { PiecesShort(data[RAW_BLK_SIZE..]); }
  }

  lemma ThriftyIntro(b: Block)
    requires b.Dynamic? ==> Bounded(b.trees.lit, 14) && DstBrief(b.trees.dst, b.toks) && LongMatches(b.toks)
    ensures Thrifty(b)
  {
  }

  /** The tokens do. */
  ghost predicate TokensMean(input: seq<byte>, begin: nat, end: nat, toks: seq<Token>) {
    begin <= end <= |input| && Legal(input[..begin], toks) && Play(input[..begin], toks) == input[..end]
  }

  lemma OneBlock(input: seq<byte>, begin: nat, end: nat, b: Block, x: bits, last: bool)
    requires b.Dynamic? && BlockOk(b) && TokensMean(input, begin, end, b.toks) && begin < end
    requires Thrifty(b)
    ensures Wrote(x, x + BlockBits(b, last, |x|), [b], last) && Means(input, begin, end, [b]) && Short([b])
  {
    hide BlockOk, BlockBits, Play, Legal, Thrifty;
    BlocksCons(b, [], last, |x|);
    assert [b] + [] == [b];
    assert BlockBits(b, last, |x|) + [] == BlockBits(b, last, |x|);
    OnePlays(input[..begin], b);
  }

  lemma OnePlays(out: seq<byte>, b: Block)
    requires b.Dynamic? && Legal(out, b.toks)
    ensures LegalBlocks(out, [b]) && PlayBlocks(out, [b]) == Play(out, b.toks)
  {
    hide Play, Legal;
    assert [b][1..] == [];
    assert LegalBlock(out, b) && PlayBlock(out, b) == Play(out, b.toks);
    assert LegalBlocks(PlayBlock(out, b), []);
  }

  lemma RawBlocks(input: seq<byte>, begin: nat, end: nat, x: bits, last: bool)
    requires begin <= end <= |input|
    ensures BlocksOk(Pieces(input[begin..end]))
    ensures Wrote(x, x + BlocksBits(Pieces(input[begin..end]), last, |x|), Pieces(input[begin..end]), last)
    ensures Means(input, begin, end, Pieces(input[begin..end])) && Short(Pieces(input[begin..end]))
    ensures |BlocksBits(Pieces(input[begin..end]), last, |x|)| <= FixCost(end - begin) + 2
  {
    hide Pieces, BlocksBits, PlayBlocks, LegalBlocks, PieceCount, BlocksOk, Short;
    PiecesShort(input[begin..end]);
    PiecesOk(input[begin..end]);
    PiecesPlay(input[..begin], input[begin..end]);
    PiecesLen(input[begin..end], last, |x|);
    assert input[..begin] + input[begin..end] == input[..end];
  }

  /** An empty block is never dynamic. */
  lemma EmptyFixed(npre: nat, freqs: seq<nat>, pre: seq<nat>, lit: seq<nat>, lenLit: seq<nat>, off: seq<nat>,
                   lenOff: seq<nat>)
    requires |pre| == |freqs| == PRE_MAX && |lit| == |lenLit| == LIT_MAX && |off| == |lenOff| == OFF_MAX
    requires 4 <= npre
    ensures DynCost(npre, freqs, pre, lit, lenLit, off, lenOff) >= FixCost(0)
  {
    hide Dot;
  }

  lemma LengthsOf(lens: seq<nat>, words: seq<nat>, n: nat)
    requires n <= |lens| && CodeArrays(lens, words, lens[..n])
    ensures Lengths(lens, lens[..n])
  {
    hide Codeword, Pow2;
  }

  lemma CodedCost(lenLit: seq<nat>, wordLit: seq<nat>, lenOff: seq<nat>, wordOff: seq<nat>, lit: nat, off: nat,
                  pre: seq<nat>, words: seq<nat>, npre: nat, items: seq<nat>, toks: seq<Token>,
                  freqs: seq<nat>, f: seq<nat>, g: seq<nat>, last: bool, p: nat)
    requires Coded(lenLit, wordLit, lenOff, wordOff, lit, off, pre, words, npre, items, toks)
    requires |freqs| == PRE_MAX && forall k :: 0 <= k < PRE_MAX ==> freqs[k] == Uses(items, k)
    requires Tallied(f, g, toks)
    ensures |f| == 288 && |g| == 32 && |pre| == 19 && |freqs| == 19 && |lenLit| == 288 && |lenOff| == 32
    ensures lit <= |lenLit| && off <= |lenOff|
    ensures var b := Dynamic(Trees(lenLit[..lit], lenOff[..off]), pre, npre, items, toks);
      BlockOk(b) && |BlockBits(b, last, p)| ==
        DynCost(npre, freqs, pre, f[256 := f[256] + 1], lenLit, g, lenOff) + 3
  {
    hide CodeArrays, BlockOk, BlockBits, Uses, Tallied, DynCost;
    TallyEnd(f, g, toks);
    LengthsOf(lenLit, wordLit, lit);
    LengthsOf(lenOff, wordOff, off);
    var b := Dynamic(Trees(lenLit[..lit], lenOff[..off]), pre, npre, items, toks);
    CostExact(b, last, p, freqs, f, lenLit, g, lenOff);
  }

  /** The dynamic block, if it takes fewer bits than the source reckons for the stored pieces: five bytes for each
      and three more, the data, and the block header, which it counts in neither. */
  ghost function Cheaper(b: Block, data: seq<byte>): seq<Block> {
    if b.Dynamic? && BlockOk(b) && |BlockBits(b, false, 0)| < 8 * (5 * ((|data| + 65534) / 65535) + |data| + 3) + 3
    then [b] else Pieces(data)
  }

  lemma CheaperIs(b: Block, data: seq<byte>, last: bool, p: nat)
    requires b.Dynamic? && BlockOk(b)
    ensures Cheaper(b, data) == if |BlockBits(b, last, p)| < FixCost(|data|) + 3 then [b] else Pieces(data)
  {
    hide Pieces, BlockOk, TokensBits, HeaderBits, Codeword;
    BlockShape(b, last, p);
    BlockShape(b, false, 0);
    HeaderLen(b, last);
    HeaderLen(b, false);
  }

  /** `sdefl_flush`: the symbol counts give a dynamic block, and it or the stored pieces are written, whichever is
      reckoned cheaper. */
  method Flush(s: Sdefl, last: bool, input: seq<byte>, begin: nat, end: nat)
    returns (ghost bs: seq<Block>, ghost cand: Block)
    requires s.Shape() && s.w.Valid() && SeqsOk(input, s.seqs)
    requires Tallied(s.freqLit[..], s.freqOff[..], Toks(input, s.seqs))
    requires TokensMean(input, begin, end, Toks(input, s.seqs))
    modifies s, s.w, s.freqLit, s.freqOff, s.wordLit, s.wordOff, s.lenLit, s.lenOff
    ensures s.w.Valid() && s.seqs == [] && Tallied(s.freqLit[..], s.freqOff[..], [])
    ensures Wrote(old(s.w.Written()), s.w.Written(), bs, last) && Means(input, begin, end, bs) && Short(bs)
    ensures |s.w.Written()| <= old(|s.w.Written()|) + 8 * (5 * ((end - begin + 65534) / 65535) + (end - begin) + 3) + 2
    ensures Candidate(cand, old(Toks(input, s.seqs)))
    ensures bs == Cheaper(cand, input[begin..end])
  {
    hide *;
    Lens19();
    ShapeParts(s);
    ghost var x, toks := s.w.Written(), Toks(input, s.seqs);
    ghost var f, g := s.freqLit[..], s.freqOff[..];
    MeanParts(input, begin, end, toks);
    FixCostIs(end - begin);
    var pre, words, freqs, items, cnt, lit, off, npre := MakeCodes(s, toks);
    CodedParts(s.lenLit[..], s.wordLit[..], s.lenOff[..], s.wordOff[..], lit, off, pre[..], words[..], npre,
               items[..cnt], toks);
    ghost var b := Dynamic(Trees(s.lenLit[..][..lit], s.lenOff[..][..off]), pre[..], npre, items[..cnt], toks);
    cand := b;
    CandidateIntro(b, f, g, freqs[..]);
    CheaperIs(b, input[begin..end], last, |x|);
    CodedCost(s.lenLit[..], s.wordLit[..], s.lenOff[..], s.wordOff[..], lit, off, pre[..], words[..], npre,
              items[..cnt], toks, freqs[..], f, g, last, |x|);
    var dyn := BlkType(s, end - begin, npre, freqs, pre);
    if dyn {
      EmptyFixed(npre, freqs[..], pre[..], s.freqLit[..], s.lenLit[..], s.freqOff[..], s.lenOff[..]);
      PutDynamic(s, input, last, lit, off, pre, words, npre, items, cnt);
      assert s.lenLit[..lit] == s.lenLit[..][..lit] && s.lenOff[..off] == s.lenOff[..][..off];
      ToksLong(input, s.seqs);
      ThriftyIntro(b);
      OneBlock(input, begin, end, b, x, last);
      bs := [b];
    } else {
      RawBlocks(input, begin, end, x, last);
      PutStored(s.w, input[begin..end], last);
      bs := Pieces(input[begin..end]);
    }
    forall i | 0 <= i < s.freqLit.Length { s.freqLit[i] := 0; }
    forall i | 0 <= i < s.freqOff.Length { s.freqOff[i] := 0; }
    s.seqs := [];
    TallyNone(s.freqLit[..], s.freqOff[..]);
  }

  lemma ShapeParts(s: Sdefl)
    requires s.Shape()
    ensures s.freqLit.Length == s.wordLit.Length == s.lenLit.Length == 288
    ensures s.freqOff.Length == s.wordOff.Length == s.lenOff.Length == 32
    ensures s.freqLit != s.wordLit && s.freqLit != s.lenLit && s.wordLit != s.lenLit
    ensures s.freqOff != s.wordOff && s.freqOff != s.lenOff && s.wordOff != s.lenOff
    ensures s.freqLit != s.freqOff
  {
  }

  lemma MeanParts(input: seq<byte>, begin: nat, end: nat, toks: seq<Token>)
    requires TokensMean(input, begin, end, toks)
    ensures begin <= end <= |input|
  {
  }
}
