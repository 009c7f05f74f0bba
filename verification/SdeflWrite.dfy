/** Writing one block (the second half of `sdefl_flush`, `sdefl_match`). */
module SdeflWrite {
  import opened Bits
  import opened Canonical
  import opened Precode
  import opened MatchCodes
  import opened Format
  import opened SdeflPut
  import opened SdeflCodes

  // ----------------------------------------------------------- block header

  lemma SymArrays(lens: seq<nat>, words: seq<nat>, h: Lens, s: nat)
    requires CodeArrays(lens, words, h) && IsUsed(h, s)
    ensures s < |lens| == |words| && lens[s] == h[s] <= 15
    ensures words[s] < Pow2(lens[s]) && IntBits(words[s], lens[s]) == Codeword(h, s)
  {
    hide Codeword;
  }

  /** Puts the codeword of a symbol. */
  method PutSym(w: BitWriter, lens: array<nat>, words: array<nat>, s: nat, ghost h: Lens)
    requires w.Valid() && CodeArrays(lens[..], words[..], h) && IsUsed(h, s)
    modifies w
    ensures w.Valid() && IsUsed(h, s) && w.Written() == old(w.Written()) + Codeword(h, s)
  {
    hide *;
    SymArrays(lens[..], words[..], h, s);
    w.Put(words[s], lens[s]);
  }

  /** The flag of the last block and the block type. */
  method PutHead(w: BitWriter, last: bool, kind: nat)
    requires w.Valid() && kind < 4
    modifies w
    ensures w.Valid() && w.Written() == old(w.Written()) + (IntBits(if last then 1 else 0, 1) + IntBits(kind, 2))
  {
    hide *;
    Pow2Values();
    ghost var x := w.Written();
    w.Put(if last then 1 else 0, 1);
    w.Put(kind, 2);
    AppendAssoc(x, IntBits(if last then 1 else 0, 1), IntBits(kind, 2));
  }

  method PutCounts(w: BitWriter, lit: nat, off: nat, npre: nat)
    requires w.Valid() && 257 <= lit <= 288 && 1 <= off <= 32 && 4 <= npre <= 19
    modifies w
    ensures w.Valid() && w.Written() ==
      old(w.Written()) + (IntBits(lit - 257, 5) + IntBits(off - 1, 5) + IntBits(npre - 4, 4))
  {
    hide *;
    Pow2Values();
    ghost var x := w.Written();
    w.Put(lit - 257, 5);
    w.Put(off - 1, 5);
    AppendAssoc(x, IntBits(lit - 257, 5), IntBits(off - 1, 5));
    w.Put(npre - 4, 4);
    AppendAssoc(x, IntBits(lit - 257, 5) + IntBits(off - 1, 5), IntBits(npre - 4, 4));
  }

  lemma PreNext(pre: Lens, i: nat)
    requires i < PRE_MAX == |pre| && Bounded(pre, 7)
    ensures i < 19 && PermAt(i) < 19 && |pre| == 19 && pre[PermAt(i)] < 8
    ensures PreBits(pre, i + 1) == PreBits(pre, i) + IntBits(pre[PermAt(i)], 3)
  {
  }

  lemma PreFirst(pre: Lens)
    requires |pre| == PRE_MAX
    ensures PreBits(pre, 0) == [] && PRE_MAX == 19
  {
  }

  method PutPre(w: BitWriter, pre: array<nat>, npre: nat)
    requires w.Valid() && pre.Length == PRE_MAX && Bounded(pre[..], 7) && npre <= PRE_MAX
    modifies w
    ensures w.Valid() && w.Written() == old(w.Written()) + PreBits(pre[..], npre)
  {
    hide *;
    ghost var x := w.Written();
    PreFirst(pre[..]);
    AppendNil(x);
    Pow2Values();
    var i := 0;
    while i < npre
      invariant i <= npre && w.Valid() && pre.Length == PRE_MAX && w.Written() == x + PreBits(pre[..], i)
    {
      PreNext(pre[..], i);
      w.Put(pre[PermAt(i)], 3);
      AppendAssoc(x, PreBits(pre[..], i), IntBits(pre[PermAt(i)], 3));
      i := i + 1;
    }
  }

  lemma ItemsNext(pre: Lens, items: seq<nat>, i: nat)
    requires AllItemsWritable(pre, items) && i < |items|
    ensures AllItemsWritable(pre, items[..i]) && AllItemsWritable(pre, items[..i + 1])
    ensures ItemWritable(pre, items[i]) && ItemOk(items[i]) && IsUsed(pre, ItemSym(items[i]))
    ensures ItemsBits(pre, items[..i + 1]) == ItemsBits(pre, items[..i]) +
      (Codeword(pre, ItemSym(items[i])) + IntBits(ItemExtra(items[i]), ExtraBits(ItemSym(items[i]))))
  {
    hide ItemOk, ItemSym, ItemExtra, Codeword;
    var s := items[..i + 1];
    assert s[..|s| - 1] == items[..i] && s[|s| - 1] == items[i];
  }

  lemma ItemsFirst(pre: Lens)
    ensures AllItemsWritable(pre, []) && ItemsBits(pre, []) == []
  {
  }

  lemma ExtraFits(it: nat)
    requires ItemOk(it)
    ensures ItemExtra(it) < Pow2(ExtraBits(ItemSym(it))) && ExtraBits(ItemSym(it)) <= 7
    ensures ItemSym(it) == it % 32 && ItemExtra(it) == it / 32
    ensures ItemSym(it) < 16 ==> ExtraBits(ItemSym(it)) == 0 && ItemExtra(it) == 0
    ensures ExtraBits(ItemSym(it)) ==
      if ItemSym(it) == 16 then 2 else if ItemSym(it) == 17 then 3 else if ItemSym(it) < 16 then 0 else 7
  {
    Pow2Values();
  }

  lemma NoExtra(x: bits, y: bits)
    ensures x + (y + IntBits(0, 0)) == x + y
  {
  }

  /** One item of the run code, with its extra bits. */
  method PutItem(w: BitWriter, it: nat, lens: array<nat>, words: array<nat>, ghost pre: Lens)
    requires w.Valid() && CodeArrays(lens[..], words[..], pre) && ItemOk(it) && IsUsed(pre, ItemSym(it))
    modifies w
    ensures w.Valid() && IsUsed(pre, ItemSym(it)) && w.Written() == old(w.Written()) +
      (Codeword(pre, ItemSym(it)) + IntBits(ItemExtra(it), ExtraBits(ItemSym(it))))
  {
    hide *;
    ghost var x := w.Written();
    ExtraFits(it);
    var sym := it % 32;
    PutSym(w, lens, words, sym, pre);
    if sym < 16 {
      NoExtra(x, Codeword(pre, sym));
      return;
    }
    if sym == 16 {
      w.Put(it / 32, 2);
    } else if sym == 17 {
      w.Put(it / 32, 3);
    } else {
      w.Put(it / 32, 7);
    }
    AppendAssoc(x, Codeword(pre, sym), IntBits(it / 32, ExtraBits(sym)));
  }

  method PutItems(w: BitWriter, items: array<nat>, cnt: nat, lens: array<nat>, words: array<nat>, ghost pre: Lens)
    requires w.Valid() && cnt <= items.Length && CodeArrays(lens[..], words[..], pre)
    requires AllItemsWritable(pre, items[..cnt])
    modifies w
    ensures w.Valid() && AllItemsWritable(pre, items[..cnt])
    ensures w.Written() == old(w.Written()) + ItemsBits(pre, items[..cnt])
  {
    hide *;
    ghost var x, its := w.Written(), items[..cnt];
    ItemsFirst(pre);
    AppendNil(x);
    assert its[..0] == [];
    var i := 0;
    while i < cnt
      invariant i <= cnt && w.Valid() && AllItemsWritable(pre, its[..i])
      invariant w.Written() == x + ItemsBits(pre, its[..i])
    {
      ItemsNext(pre, its, i);
      PutItem(w, items[i], lens, words, pre);
      AppendAssoc(x, ItemsBits(pre, its[..i]),
                  Codeword(pre, ItemSym(its[i])) + IntBits(ItemExtra(its[i]), ExtraBits(ItemSym(its[i]))));
      i := i + 1;
    }
    assert its[..cnt] == its;
  }

  // ----------------------------------------------------------------- tokens

  lemma MatchShape(h: Trees, dist: nat, len: nat)
    requires Writable(h, Match(dist, len))
    ensures 1 <= dist <= WIN_SIZ && 3 <= len <= MAX_MATCH
    ensures var k := Codes(dist, len);
      && IsUsed(h.lit, k.lc) && IsUsed(h.dst, k.dc) && k.ls < 29 && k.dc < 30
      && LengthBase(k.ls) <= len && DistBase(k.dc) <= dist
      && len - LengthBase(k.ls) < Pow2(LengthExtra(k.ls)) && dist - DistBase(k.dc) < Pow2(k.dx)
      && LengthExtra(k.ls) <= 5 && k.dx <= 13
      && TokenBits(h, Match(dist, len)) ==
         (Codeword(h.lit, k.lc) + IntBits(len - LengthBase(k.ls), LengthExtra(k.ls)))
         + (Codeword(h.dst, k.dc) + IntBits(dist - DistBase(k.dc), k.dx))
  {
    LengthCode(len);
    DistCode(dist, len);
    hide Codeword, Codes, LengthBase, LengthExtra, DistBase;
  }

  /** `sdefl_match`. */
  method PutMatch(w: BitWriter, dist: nat, len: nat, lenLit: array<nat>, wordLit: array<nat>, lenOff: array<nat>,
                  wordOff: array<nat>, ghost h: Trees)
    requires w.Valid() && Writable(h, Match(dist, len))
    requires CodeArrays(lenLit[..], wordLit[..], h.lit) && CodeArrays(lenOff[..], wordOff[..], h.dst)
    modifies w
    ensures w.Valid() && w.Written() == old(w.Written()) + TokenBits(h, Match(dist, len))
  {
    hide *;
    MatchShape(h, dist, len);
    ghost var x := w.Written();
    var cod := Codes(dist, len);
    PutSym(w, lenLit, wordLit, cod.lc, h.lit);
    w.Put(len - LengthBase(cod.ls), LengthExtra(cod.ls));
    ghost var y := Codeword(h.lit, cod.lc) + IntBits(len - LengthBase(cod.ls), LengthExtra(cod.ls));
    AppendAssoc(x, Codeword(h.lit, cod.lc), IntBits(len - LengthBase(cod.ls), LengthExtra(cod.ls)));
    PutSym(w, lenOff, wordOff, cod.dc, h.dst);
    w.Put(dist - DistBase(cod.dc), cod.dx);
    AppendAssoc(x + y, Codeword(h.dst, cod.dc), IntBits(dist - DistBase(cod.dc), cod.dx));
    AppendAssoc(x, y, Codeword(h.dst, cod.dc) + IntBits(dist - DistBase(cod.dc), cod.dx));
  }

  /** The first `i` sequences and `j` literals of the next one are part of what is to be written. */
  lemma ToksParts(input: seq<byte>, seqs: seq<Seq>, i: nat, h: Trees)
    requires SeqsOk(input, seqs) && i < |seqs| && AllWritable(h, Toks(input, seqs))
    ensures SeqsOk(input, seqs[..i]) && SeqsOk(input, seqs[..i + 1]) && SeqOk(input, seqs[i])
    ensures Toks(input, seqs[..i + 1]) == Toks(input, seqs[..i]) + SeqToks(input, seqs[i])
    ensures AllWritable(h, Toks(input, seqs[..i])) && AllWritable(h, SeqToks(input, seqs[i]))
  {
    hide SeqToks, SeqOk, Writable;
    var s := seqs[..i + 1];
    assert s[..|s| - 1] == seqs[..i] && s[|s| - 1] == seqs[i];
    ToksPrefix(input, seqs, i + 1);
    var a, b := Toks(input, seqs[..i]), SeqToks(input, seqs[i]);
    forall k | 0 <= k < |a| ensures Writable(h, a[k]) { assert a[k] == (a + b)[k]; }
    forall k | 0 <= k < |b| ensures Writable(h, b[k]) { assert b[k] == (a + b)[|a| + k]; }
  }

  lemma {:induction false} ToksPrefix(input: seq<byte>, seqs: seq<Seq>, i: nat)
    requires SeqsOk(input, seqs) && i <= |seqs|
    ensures SeqsOk(input, seqs[..i]) && Toks(input, seqs[..i]) <= Toks(input, seqs)
    decreases |seqs|
  {
    hide SeqToks, SeqOk;
    if i == |seqs| {
      assert seqs[..i] == seqs;
    } else {
      ToksPrefix(input, seqs[..|seqs| - 1], i);
      assert seqs[..|seqs| - 1][..i] == seqs[..i];
    }
  }

  lemma RunNext(input: seq<byte>, off: nat, len: nat, j: nat, h: Trees)
    requires off + len <= |input| && j < len && AllWritable(h, LitRun(input, off, len))
    ensures LitRun(input, off, j + 1) == LitRun(input, off, j) + [Lit(input[off + j])]
    ensures AllWritable(h, LitRun(input, off, j)) && IsUsed(h.lit, input[off + j])
    ensures Writable(h, Lit(input[off + j])) && TokenBits(h, Lit(input[off + j])) == Codeword(h.lit, input[off + j])
  {
    forall k | 0 <= k < j ensures Writable(h, LitRun(input, off, j)[k]) {
      assert LitRun(input, off, j)[k] == LitRun(input, off, len)[k];
    }
    assert Writable(h, LitRun(input, off, len)[j]);
    hide Codeword;
  }

  lemma RunEnds(input: seq<byte>, q: Seq)
    requires SeqOk(input, q)
    ensures q.off >= 0 ==> q.off + q.len <= |input| && SeqToks(input, q) == LitRun(input, q.off, q.len)
    ensures q.off >= 0 ==> LitRun(input, q.off, 0) == []
    ensures q.off < 0 ==> SeqToks(input, q) == [Match(-q.off, q.len)]
  {
  }

  /** The bits of one more token. */
  lemma BitsNext(h: Trees, x: bits, toks: seq<Token>, t: Token)
    requires AllWritable(h, toks) && Writable(h, t)
    ensures AllWritable(h, toks + [t])
    ensures x + TokensBits(h, toks + [t]) == x + TokensBits(h, toks) + TokenBits(h, t)
  {
    hide *;
    TokensAppend(h, toks, t);
    AppendAssoc(x, TokensBits(h, toks), TokenBits(h, t));
  }

  lemma Unappended(a: seq<Token>, b: seq<Token>, t: Token)
    ensures a + [] == a && (a + b) + [t] == a + (b + [t])
  {
  }

  lemma OneWritable(h: Trees, t: Token)
    requires AllWritable(h, [t])
    ensures Writable(h, t)
  {
    hide Writable;
    assert [t][0] == t;
  }

  /** A literal run. */
  method PutRun(w: BitWriter, input: seq<byte>, off: nat, len: nat, lenLit: array<nat>, wordLit: array<nat>,
                ghost h: Trees, ghost x: bits, ghost toks: seq<Token>)
    requires w.Valid() && off + len <= |input| && CodeArrays(lenLit[..], wordLit[..], h.lit)
    requires AllWritable(h, toks) && AllWritable(h, LitRun(input, off, len))
    requires w.Written() == x + TokensBits(h, toks)
    modifies w
    ensures w.Valid() && AllWritable(h, toks + LitRun(input, off, len))
    ensures w.Written() == x + TokensBits(h, toks + LitRun(input, off, len))
  {
    hide *;
    assert LitRun(input, off, 0) == [];
    Unappended(toks, [], Lit(0));
    var j := 0;
    while j < len
      invariant j <= len && w.Valid() && AllWritable(h, toks + LitRun(input, off, j))
      invariant w.Written() == x + TokensBits(h, toks + LitRun(input, off, j))
    {
      RunNext(input, off, len, j, h);
      var c := input[off + j];
      PutSym(w, lenLit, wordLit, c, h.lit);
      BitsNext(h, x, toks + LitRun(input, off, j), Lit(c));
      Unappended(toks, LitRun(input, off, j), Lit(c));
      j := j + 1;
    }
  }

  /** The sequences of the block. */
  method PutSeqs(w: BitWriter, input: seq<byte>, seqs: seq<Seq>, lenLit: array<nat>, wordLit: array<nat>,
                 lenOff: array<nat>, wordOff: array<nat>, ghost h: Trees)
    requires w.Valid() && SeqsOk(input, seqs) && AllWritable(h, Toks(input, seqs))
    requires CodeArrays(lenLit[..], wordLit[..], h.lit) && CodeArrays(lenOff[..], wordOff[..], h.dst)
    modifies w
    ensures w.Valid() && SeqsOk(input, seqs) && AllWritable(h, Toks(input, seqs))
    ensures w.Written() == old(w.Written()) + TokensBits(h, Toks(input, seqs))
  {
    hide *;
    ghost var x := w.Written();
    assert seqs[..0] == [];
    NoToks(input, h, x);
    var i := 0;
    while i < |seqs|
      invariant i <= |seqs| && w.Valid() && SeqsOk(input, seqs[..i]) && AllWritable(h, Toks(input, seqs[..i]))
      invariant w.Written() == x + TokensBits(h, Toks(input, seqs[..i]))
    {
      ToksParts(input, seqs, i, h);
      ghost var done := Toks(input, seqs[..i]);
      RunEnds(input, seqs[i]);
      if seqs[i].off >= 0 {
        PutRun(w, input, seqs[i].off, seqs[i].len, lenLit, wordLit, h, x, done);
      } else {
        OneWritable(h, Match(-seqs[i].off, seqs[i].len));
        PutMatch(w, -seqs[i].off, seqs[i].len, lenLit, wordLit, lenOff, wordOff, h);
        BitsNext(h, x, done, Match(-seqs[i].off, seqs[i].len));
      }
      i := i + 1;
    }
    assert seqs[..i] == seqs;
  }

  lemma NoToks(input: seq<byte>, h: Trees, x: bits)
    ensures SeqsOk(input, []) && Toks(input, []) == [] && AllWritable(h, []) && x + TokensBits(h, []) == x
  {
  }
}
