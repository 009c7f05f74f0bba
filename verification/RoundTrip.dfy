/** Reading back what was written: a well-formed block sequence inflates to its meaning, exactly
    when no literal-and-match pair is wider than the refilled bit buffer. */
module RoundTrip {
  import opened Bits
  import opened Options
  import opened Canonical
  import opened Precode
  import opened MatchCodes
  import opened Format
  import opened Reference

  // ---------------------------------------------------------------- fields

  lemma SymReads(lens: Lens, S: bits, p: nat, s: nat)
    requires Complete(lens) && IsSym(lens, S, p, s)
    ensures SymAt(lens, S, p) == Some(s) && SymLen(lens, s) == lens[s]
  {
    forall t: nat | IsSym(lens, S, p, t) ensures t == s { SymUnique(lens, S, p, s, t); }
  }

  lemma FieldReads(S: bits, p: nat, w: nat, n: nat)
    requires At(S, p, IntBits(w, n)) && w < Pow2(n)
    ensures p + n <= |S| && Field(S, p, n) == w
  {
    WordIntBits(w, n);
    hide Word, Pow2, IntBits;
    assert S[p..p + n] == IntBits(w, n);
  }

  lemma ByteRead(S: bits, p: nat, data: seq<byte>, i: nat)
    requires At(S, p, BytesToBits(data)) && i < |data|
    ensures At(S, p + 8 * i, IntBits(data[i], 8))
  {
    BytesSlice(data, i, 1);
    BytesOne(data[i]);
    assert data[i..i + 1] == [data[i]];
    AtWithin(S, p, BytesToBits(data), 8 * i, BytesToBits([data[i]]));
  }

  lemma AtWithin(S: bits, p: nat, x: bits, i: nat, y: bits)
    requires At(S, p, x) && At(x, i, y)
    ensures At(S, p + i, y)
  {
    forall k | 0 <= k < |y| ensures S[p + i..p + i + |y|][k] == y[k] {
      assert x[i..i + |y|][k] == x[i + k] && S[p..p + |x|][i + k] == S[p + i + k];
    }
  }

  lemma BytesRead(S: bits, p: nat, data: seq<byte>)
    requires At(S, p, BytesToBits(data))
    ensures p + 8 * |data| <= |S| && BytesAt(S, p, |data|) == data
  {
    forall i | 0 <= i < |data| ensures BytesAt(S, p, |data|)[i] == data[i] {
      ByteRead(S, p, data, i);
      Pow2Values();
      FieldReads(S, p + 8 * i, data[i], 8);
    }
  }

  // --------------------------------------------------- code length code

  /** The place of symbol `s` in the sending order. */
  function PlaceOf(s: nat): (i: nat)
    requires s < PRE_MAX
    ensures i < PRE_MAX && PermAt(i) == s
  {
    if s == 0 then 3 else if s == 16 then 0 else if s == 17 then 1 else if s == 18 then 2
    else if s >= 8 then 4 + 2 * (s - 8) else 5 + 2 * (7 - s)
  }

  lemma PlaceOfPerm(i: nat)
    requires i < PRE_MAX
    ensures PlaceOf(PermAt(i)) == i
  {
  }

  lemma {:induction false} PrePartRead(S: bits, p: nat, pre: Lens, n: nat)
    requires |pre| == PRE_MAX && Bounded(pre, 7) && n <= PRE_MAX && At(S, p, PreBits(pre, n))
    ensures |PreBits(pre, n)| == 3 * n && p + 3 * n <= |S|
    ensures forall i :: 0 <= i < PRE_MAX ==>
      PreLens(S, p, n)[PermAt(i)] == if i < n then pre[PermAt(i)] else 0
  {
    if n > 0 {
      var w := pre[PermAt(n - 1)];
      AtConcat(S, p, PreBits(pre, n - 1), IntBits(w, 3));
      PrePartRead(S, p, pre, n - 1);
      Pow2Values();
      FieldReads(S, p + 3 * (n - 1), w, 3);
      hide At, IntBits, Field, PermAt, Bounded;
      forall i | 0 <= i < PRE_MAX && i != n - 1 ensures PermAt(i) != PermAt(n - 1) {
        PlaceOfPerm(i);
        PlaceOfPerm(n - 1);
      }
    }
  }

  lemma PreRead(S: bits, p: nat, pre: Lens, n: nat)
    requires |pre| == PRE_MAX && Bounded(pre, 7) && n <= PRE_MAX && At(S, p, PreBits(pre, n))
    requires forall i :: n <= i < PRE_MAX ==> pre[PermAt(i)] == 0
    ensures |PreBits(pre, n)| == 3 * n && p + 3 * n <= |S| && PreLens(S, p, n) == pre
  {
    PrePartRead(S, p, pre, n);
    forall s | 0 <= s < PRE_MAX ensures PreLens(S, p, n)[s] == pre[s] {
      assert PermAt(PlaceOf(s)) == s;
    }
  }

  // ----------------------------------------------------------- code lengths

  lemma ItemShape(pre: Lens, it: nat)
    requires |pre| == PRE_MAX && ItemWritable(pre, it)
    ensures IsUsed(pre, ItemSym(it)) && ItemSym(it) < PRE_MAX
    ensures ItemBits(pre, it) == Codeword(pre, ItemSym(it)) + IntBits(ItemExtra(it), ExtraBits(ItemSym(it)))
    ensures ItemExtra(it) < Pow2(ExtraBits(ItemSym(it))) && Item(ItemSym(it), ItemExtra(it)) == it
  {
    hide Codeword;
    Pow2Values();
  }

  lemma ReadItemIs(S: bits, q: nat, sym: nat)
    requires sym < PRE_MAX && q + ExtraBits(sym) <= |S|
    ensures ReadItem(S, q, sym) == Item(sym, Field(S, q, ExtraBits(sym)))
  {
    hide Field, Item;
  }

  /** Reading one item. */
  lemma ItemRead(pre: Lens, S: bits, p: nat, it: nat)
    requires |pre| == PRE_MAX && Complete(pre) && ItemWritable(pre, it) && At(S, p, ItemBits(pre, it))
    ensures var sym := ItemSym(it);
      && SymAt(pre, S, p) == Some(sym) && sym < PRE_MAX
      && p + SymLen(pre, sym) + ExtraBits(sym) == p + |ItemBits(pre, it)| <= |S|
      && ReadItem(S, p + SymLen(pre, sym), sym) == it
  {
    hide *;
    var sym := ItemSym(it);
    ItemShape(pre, it);
    PairReads(pre, S, p, sym, ItemExtra(it), ExtraBits(sym));
    ReadItemIs(S, p + SymLen(pre, sym), sym);
  }

  /** The decoder's loop gets from one state to another. */
  ghost predicate Reaches(pre: Lens, S: bits, total: nat, p: nat, acc: seq<nat>, q: nat, acc': seq<nat>)
    requires |pre| == PRE_MAX
  {
    p <= |S| && q <= |S| && ReadLens(pre, S, p, acc, total) == ReadLens(pre, S, q, acc', total)
  }

  lemma ReachesStart(pre: Lens, S: bits, total: nat, p: nat)
    requires |pre| == PRE_MAX && p <= |S|
    ensures Expand([]) == Some([]) && ItemsBits(pre, []) == []
    ensures Reaches(pre, S, total, p, [], p, [])
  {
  }

  lemma ReachesTrans(pre: Lens, S: bits, total: nat, p: nat, a: seq<nat>, q: nat, b: seq<nat>, r: nat, c: seq<nat>)
    requires |pre| == PRE_MAX && Reaches(pre, S, total, p, a, q, b) && Reaches(pre, S, total, q, b, r, c)
    ensures Reaches(pre, S, total, p, a, r, c)
  {
  }

  lemma ReachesDone(pre: Lens, S: bits, total: nat, p: nat, q: nat, acc: seq<nat>)
    requires |pre| == PRE_MAX && Reaches(pre, S, total, p, [], q, acc) && |acc| >= total
    ensures p <= |S| && ReadLens(pre, S, p, [], total) == Some((acc, q))
  {
  }

  /** One turn of the decoder's loop. */
  lemma ReadLensStep(pre: Lens, S: bits, p: nat, acc: seq<nat>, total: nat, sym: nat, q: nat, it: nat)
    requires |pre| == PRE_MAX && p <= |S| && |acc| < total
    requires SymAt(pre, S, p) == Some(sym) && sym < PRE_MAX
    requires q == p + SymLen(pre, sym) && q + ExtraBits(sym) <= |S| && it == ReadItem(S, q, sym)
    requires (sym == 16 ==> acc != []) && |acc| + RunLength(it) <= MAX_LENS
    ensures Reaches(pre, S, total, p, acc, q + ExtraBits(sym), Extend(acc, it))
  {
    hide SymAt, SymLen, ReadItem, Extend, ExtraBits, RunLength, ItemSym, ItemOk;
  }

  /** The decoder's step on the last item. */
  lemma LensOneRead(pre: Lens, S: bits, q: nat, acc: seq<nat>, it: nat, total: nat)
    requires |pre| == PRE_MAX && Complete(pre) && ItemWritable(pre, it)
    requires |acc| < total && (ItemSym(it) == 16 ==> acc != [])
    requires |Extend(acc, it)| <= MAX_LENS && At(S, q, ItemBits(pre, it))
    ensures Reaches(pre, S, total, q, acc, q + |ItemBits(pre, it)|, Extend(acc, it))
  {
    hide *;
    ItemRead(pre, S, q, it);
    var sym := ItemSym(it);
    ReadLensStep(pre, S, q, acc, total, sym, q + SymLen(pre, sym), it);
  }

  /** The last item of a well-formed list. */
  lemma LastItem(pre: Lens, S: bits, p: nat, items: seq<nat>)
    requires items != [] && AllItemsWritable(pre, items) && Expand(items).Some?
    requires At(S, p, ItemsBits(pre, items))
    ensures var front, it := items[..|items| - 1], items[|items| - 1];
      && AllItemsWritable(pre, front) && ItemWritable(pre, it) && Expand(front).Some?
      && (ItemSym(it) == 16 ==> Expand(front).value != [])
      && Expand(items).value == Extend(Expand(front).value, it)
      && At(S, p, ItemsBits(pre, front)) && At(S, p + |ItemsBits(pre, front)|, ItemBits(pre, it))
      && |ItemsBits(pre, items)| == |ItemsBits(pre, front)| + |ItemBits(pre, it)|
  {
    AtConcat(S, p, ItemsBits(pre, items[..|items| - 1]), ItemBits(pre, items[|items| - 1]));
    hide At, ItemBits, ItemWritable;
  }

  /** The decoder's loop has read the items. */
  lemma {:induction false} LensRun(pre: Lens, S: bits, p: nat, items: seq<nat>, total: nat)
    requires |pre| == PRE_MAX && Complete(pre) && p <= |S| && AllItemsWritable(pre, items)
    requires Expand(items).Some? && |Expand(items).value| <= total <= MAX_LENS
    requires At(S, p, ItemsBits(pre, items))
    ensures Reaches(pre, S, total, p, [], p + |ItemsBits(pre, items)|, Expand(items).value)
  {
    hide Reaches, ItemBits, Expand, ItemsBits, Complete, ItemWritable, At;
    ReachesStart(pre, S, total, p);
    if items != [] {
      var front, it := items[..|items| - 1], items[|items| - 1];
      LastItem(pre, S, p, items);
      LensRun(pre, S, p, front, total);
      var q := p + |ItemsBits(pre, front)|;
      LensOneRead(pre, S, q, Expand(front).value, it, total);
      ReachesTrans(pre, S, total, p, [], q, Expand(front).value, q + |ItemBits(pre, it)|, Expand(items).value);
    }
  }

  lemma LensRead(pre: Lens, S: bits, p: nat, items: seq<nat>, lens: seq<nat>)
    requires |pre| == PRE_MAX && Complete(pre) && p <= |S| && AllItemsWritable(pre, items)
    requires Expand(items) == Some(lens) && |lens| <= MAX_LENS && At(S, p, ItemsBits(pre, items))
    ensures ReadLens(pre, S, p, [], |lens|) == Some((lens, p + |ItemsBits(pre, items)|))
  {
    hide *;
    LensRun(pre, S, p, items, |lens|);
    ReachesDone(pre, S, |lens|, p, p + |ItemsBits(pre, items)|, lens);
  }

  // ---------------------------------------------------------- block header

  /** A stored block is read back. */
  lemma RawReads(S: bits, p: nat, out: seq<byte>, cap: nat, last: bool, data: seq<byte>)
    requires |S| % 8 == 0 && 1 <= |data| <= RAW_BLK_SIZE && |out| + |data| <= cap
    requires At(S, p, BlockBits(Stored(data), last, p))
    ensures Header(S, p, out, cap) ==
      Raw(out + data, p + |BlockBits(Stored(data), last, p)|, last)
  {
    RawParts(S, p, last, data);
    RawLengths(S, p, last, data);
    hide BlockBits, IntBits, BytesToBits, Word, BytesAt, At, DynStep;
  }

  lemma RawLengths(S: bits, p: nat, last: bool, data: seq<byte>)
    requires 1 <= |data| <= RAW_BLK_SIZE
    ensures |BlockBits(Stored(data), last, p)| == 3 + Align(p + 3) + 32 + 8 * |data|
  {
  }

  lemma RawParts(S: bits, p: nat, last: bool, data: seq<byte>)
    requires 1 <= |data| <= 65535 && BlockOk(Stored(data)) && At(S, p, BlockBits(Stored(data), last, p))
    ensures var q := p + 3 + Align(p + 3);
      && q + 32 + 8 * |data| <= |S| && S[p] == last && Field(S, p + 1, 2) == 0
      && Field(S, q, 16) == |data| && Field(S, q + 16, 16) == 65535 - |data|
      && BytesAt(S, q + 32, |data|) == data
  {
    hide *;
    var head := IntBits(if last then 1 else 0, 1) + IntBits(0, 2) + IntBits(0, Align(p + 3));
    var tail := IntBits(|data|, 16) + IntBits(65535 - |data|, 16) + BytesToBits(data);
    RawShape(data, last, p);
    AtConcat(S, p, head, tail);
    RawHead(S, p, last);
    RawTail(S, p + 3 + Align(p + 3), data);
  }

  lemma RawHead(S: bits, p: nat, last: bool)
    requires At(S, p, IntBits(if last then 1 else 0, 1) + IntBits(0, 2) + IntBits(0, Align(p + 3)))
    ensures p + 3 <= |S| && S[p] == last && Field(S, p + 1, 2) == 0
  {
    AtConcat3(S, p, IntBits(if last then 1 else 0, 1), IntBits(0, 2), IntBits(0, Align(p + 3)));
    hide At, IntBits;
    FlagReads(S, p, last);
    FieldReads(S, p + 1, 0, 2);
  }

  lemma RawTail(S: bits, q: nat, data: seq<byte>)
    requires 1 <= |data| <= 65535
    requires At(S, q, IntBits(|data|, 16) + IntBits(65535 - |data|, 16) + BytesToBits(data))
    ensures q + 32 + 8 * |data| <= |S|
    ensures Field(S, q, 16) == |data| && Field(S, q + 16, 16) == 65535 - |data|
    ensures BytesAt(S, q + 32, |data|) == data
  {
    AtConcat3(S, q, IntBits(|data|, 16), IntBits(65535 - |data|, 16), BytesToBits(data));
    hide At, IntBits, BytesToBits, BytesAt;
    Pow2Values();
    FieldReads(S, q, |data|, 16);
    FieldReads(S, q + 16, 65535 - |data|, 16);
    BytesRead(S, q + 32, data);
  }

  lemma FlagReads(S: bits, p: nat, last: bool)
    requires At(S, p, IntBits(if last then 1 else 0, 1))
    ensures p < |S| && S[p] == last
  {
    var x := IntBits(if last then 1 else 0, 1);
    assert S[p..p + 1][0] == x[0];
  }

  /** The fixed-width fields of a dynamic block header. */
  lemma DynFields(S: bits, p: nat, b: Block, last: bool)
    requires b.Dynamic? && BlockOk(b) && At(S, p, HeaderBits(b, last))
    ensures p + 17 <= |S| && S[p] == last && Field(S, p + 1, 2) == 2
    ensures 257 + Field(S, p + 3, 5) == |b.trees.lit| && 1 + Field(S, p + 8, 5) == |b.trees.dst|
    ensures 4 + Field(S, p + 13, 4) == b.npre
    ensures At(S, p + 17, PreBits(b.pre, b.npre))
    ensures At(S, p + 17 + |PreBits(b.pre, b.npre)|, ItemsBits(b.pre, b.items))
    ensures |HeaderBits(b, last)| == 17 + |PreBits(b.pre, b.npre)| + |ItemsBits(b.pre, b.items)|
  {
    hide *;
    HeaderShape(b, last);
    var x, y, z := |b.trees.lit| - 257, |b.trees.dst| - 1, b.npre - 4;
    var head := IntBits(if last then 1 else 0, 1) + IntBits(2, 2);
    var fields := IntBits(x, 5) + IntBits(y, 5) + IntBits(z, 4);
    var rest := PreBits(b.pre, b.npre) + ItemsBits(b.pre, b.items);
    AtConcat(S, p, head, fields + rest);
    AtConcat(S, p, IntBits(if last then 1 else 0, 1), IntBits(2, 2));
    AtConcat(S, p + 3, fields, rest);
    AtConcat(S, p + 17, PreBits(b.pre, b.npre), ItemsBits(b.pre, b.items));
    FlagReads(S, p, last);
    Pow2Values();
    FieldReads(S, p + 1, 2, 2);
    CountFields(S, p + 3, x, y, z);
  }

  /** The parts of a dynamic header. */
  lemma HeaderShape(b: Block, last: bool)
    requires b.Dynamic? && BlockOk(b)
    ensures |b.pre| == PRE_MAX && b.npre <= PRE_MAX && AllItemsWritable(b.pre, b.items)
    ensures 257 <= |b.trees.lit| <= 288 && 1 <= |b.trees.dst| <= 32 && 4 <= b.npre <= 19
    ensures HeaderBits(b, last) == (IntBits(if last then 1 else 0, 1) + IntBits(2, 2))
      + ((IntBits(|b.trees.lit| - 257, 5) + IntBits(|b.trees.dst| - 1, 5) + IntBits(b.npre - 4, 4))
         + (PreBits(b.pre, b.npre) + ItemsBits(b.pre, b.items)))
  {
    hide ItemsBits, TokensOk, PreBits, IntBits, Complete;
  }

  lemma CountFields(S: bits, p: nat, x: nat, y: nat, z: nat)
    requires x < 32 && y < 32 && z < 16 && At(S, p, IntBits(x, 5) + IntBits(y, 5) + IntBits(z, 4))
    ensures p + 14 <= |S| && Field(S, p, 5) == x && Field(S, p + 5, 5) == y && Field(S, p + 10, 4) == z
  {
    AtConcat3(S, p, IntBits(x, 5), IntBits(y, 5), IntBits(z, 4));
    hide At, IntBits;
    Pow2Values();
    FieldReads(S, p, x, 5);
    FieldReads(S, p + 5, y, 5);
    FieldReads(S, p + 10, z, 4);
  }

  /** The code lengths, once read, are split into the two codes. */
  lemma DynLensSplit(S: bits, p: nat, h: Trees, pre: Lens, q: nat, r: nat, last: bool)
    requires p + 14 <= q <= r <= |S| && |pre| == PRE_MAX && Fits(h.lit) && Fits(h.dst)
    requires 257 + Field(S, p, 5) == |h.lit| && 1 + Field(S, p + 5, 5) == |h.dst|
    requires ReadLens(pre, S, q, [], |h.lit| + |h.dst|) == Some((h.lit + h.dst, r))
    ensures DynLens(S, p, pre, q, last) == Enter(h, r, last)
  {
    hide Field, ReadLens, Fits;
    var lens := h.lit + h.dst;
    assert lens[..|h.lit|] == h.lit && lens[|h.lit|..|h.lit| + |h.dst|] == h.dst;
  }

  lemma DynLensReads(S: bits, p: nat, h: Trees, pre: Lens, q: nat, items: seq<nat>, last: bool)
    requires p + 14 <= q <= |S| && |pre| == PRE_MAX && Complete(pre) && Fits(h.lit) && Fits(h.dst)
    requires 257 + Field(S, p, 5) == |h.lit| && 1 + Field(S, p + 5, 5) == |h.dst|
    requires |h.lit| + |h.dst| <= MAX_LENS
    requires AllItemsWritable(pre, items) && Expand(items) == Some(h.lit + h.dst)
    requires At(S, q, ItemsBits(pre, items))
    ensures q + |ItemsBits(pre, items)| <= |S|
    ensures DynLens(S, p, pre, q, last) == Enter(h, q + |ItemsBits(pre, items)|, last)
  {
    hide *;
    LensRead(pre, S, q, items, h.lit + h.dst);
    DynLensSplit(S, p, h, pre, q, q + |ItemsBits(pre, items)|, last);
  }

  /** What is known of a writable dynamic block. */
  lemma DynParts(b: Block)
    requires b.Dynamic? && BlockOk(b)
    ensures |b.pre| == PRE_MAX && Bounded(b.pre, 7) && Complete(b.pre) && Fits(b.pre)
    ensures 4 <= b.npre <= PRE_MAX && forall i :: b.npre <= i < PRE_MAX ==> b.pre[PermAt(i)] == 0
    ensures AllItemsWritable(b.pre, b.items)
    ensures Expand(b.items) == Some(b.trees.lit + b.trees.dst)
    ensures 257 <= |b.trees.lit| <= LIT_MAX && 1 <= |b.trees.dst| <= OFF_MAX
    ensures Fits(b.trees.lit) && Fits(b.trees.dst) && |b.trees.lit| + |b.trees.dst| <= MAX_LENS
  {
  }

  /** Unfolding of a dynamic block header. */
  lemma HeaderDyn(S: bits, p: nat, out: seq<byte>, cap: nat, pre: Lens, q: nat)
    requires p + 17 <= q <= |S| && Field(S, p + 1, 2) == 2
    requires q == p + 17 + 3 * PreCount(S, p + 3) && PreLens(S, p + 17, PreCount(S, p + 3)) == pre
    requires Fits(pre)
    ensures Header(S, p, out, cap) == DynLens(S, p + 3, pre, q, S[p])
  {
    hide Field, PreCount, PreLens, Fits, DynLens, RawStep, FixedTrees;
  }

  lemma PreCountIs(S: bits, p: nat)
    requires p + 14 <= |S|
    ensures PreCount(S, p) == 4 + Field(S, p + 10, 4)
  {
  }

  /** A dynamic block header is read back. */
  lemma DynReads(S: bits, p: nat, out: seq<byte>, cap: nat, b: Block, last: bool)
    requires b.Dynamic? && BlockOk(b) && At(S, p, HeaderBits(b, last))
    ensures p < p + |HeaderBits(b, last)| <= |S|
    ensures Header(S, p, out, cap) == Enter(b.trees, p + |HeaderBits(b, last)|, last)
  {
    hide *;
    DynFields(S, p, b, last);
    PreCountIs(S, p + 3);
    DynParts(b);
    PreRead(S, p + 17, b.pre, b.npre);
    var q := p + 17 + 3 * b.npre;
    DynLensReads(S, p + 3, b.trees, b.pre, q, b.items, last);
    HeaderDyn(S, p, out, cap, b.pre, q);
  }

  // ------------------------------------------------------------ block body

  /** No literal and match that follow each other without a refill between them are wider than
      the bit buffer then is.  `p` is the offset at which the tokens begin. */
  predicate InBudget(h: Trees, toks: seq<Token>, p: nat)
    requires AllWritable(h, toks)
    decreases |toks|
  {
    if toks == [] then true
    else if toks[0].Match? || |toks| == 1 then
      InBudget(h, toks[1..], p + |TokenBits(h, toks[0])|)
    else
      var n := |TokenBits(h, toks[0])| + |TokenBits(h, toks[1])|;
      && (toks[1].Match? ==> n <= Budget(p))
      && InBudget(h, toks[2..], p + n)
  }

  /** A codeword and extra bits. */
  lemma PairReads(lens: Lens, S: bits, p: nat, s: nat, w: nat, n: nat)
    requires Complete(lens) && IsUsed(lens, s) && w < Pow2(n)
    requires At(S, p, Codeword(lens, s) + IntBits(w, n))
    ensures SymAt(lens, S, p) == Some(s) && SymLen(lens, s) == lens[s]
    ensures p + lens[s] + n <= |S| && Field(S, p + lens[s], n) == w
    ensures lens[s] <= 15
  {
    hide Codeword, SymAt, At, Complete, IntBits, Pow2;
    AtConcat(S, p, Codeword(lens, s), IntBits(w, n));
    SymReads(lens, S, p, s);
    FieldReads(S, p + lens[s], w, n);
  }

  /** The four fields of a match. */
  lemma MatchParts(h: Trees, S: bits, p: nat, t: Token)
    requires t.Match? && Writable(h, t) && Complete(h.lit) && Complete(h.dst)
    requires At(S, p, TokenBits(h, t))
    ensures 1 <= t.dist <= WIN_SIZ
    ensures var k := Codes(t.dist, t.len);
      && k.ls < 29 && k.lc == 257 + k.ls && k.dc < 30 && k.dx == DistExtra(k.dc)
      && k.lc < |h.lit| && k.dc < |h.dst|
    ensures var k := Codes(t.dist, t.len);
      var q := p + h.lit[k.lc];
      var r := q + LengthExtra(k.ls);
      var u := r + h.dst[k.dc];
      && SymAt(h.lit, S, p) == Some(k.lc) && SymLen(h.lit, k.lc) == h.lit[k.lc]
      && r <= |S| && LengthBase(k.ls) + Field(S, q, LengthExtra(k.ls)) == t.len
      && SymAt(h.dst, S, r) == Some(k.dc) && SymLen(h.dst, k.dc) == h.dst[k.dc]
      && u + k.dx == p + |TokenBits(h, t)| <= |S| && DistBase(k.dc) + Field(S, u, k.dx) == t.dist
      && |TokenBits(h, t)| <= 48
  {
    hide *;
    MatchShape(h, t);
    var k := Codes(t.dist, t.len);
    var w, x := t.len - LengthBase(k.ls), t.dist - DistBase(k.dc);
    var lp, dp := Codeword(h.lit, k.lc) + IntBits(w, LengthExtra(k.ls)), Codeword(h.dst, k.dc) + IntBits(x, k.dx);
    AtConcat(S, p, lp, dp);
    PairReads(h.lit, S, p, k.lc, w, LengthExtra(k.ls));
    PairReads(h.dst, S, p + |lp|, k.dc, x, k.dx);
  }

  lemma MatchShape(h: Trees, t: Token)
    requires t.Match? && Writable(h, t)
    ensures 1 <= t.dist <= WIN_SIZ
    ensures var k := Codes(t.dist, t.len);
      && k.ls < 29 && k.lc == 257 + k.ls && k.dc < 30 && k.dx == DistExtra(k.dc)
      && IsUsed(h.lit, k.lc) && IsUsed(h.dst, k.dc) && k.lc < |h.lit| && k.dc < |h.dst|
      && LengthBase(k.ls) <= t.len < LengthBase(k.ls) + Pow2(LengthExtra(k.ls))
      && DistBase(k.dc) <= t.dist < DistBase(k.dc) + Pow2(k.dx)
      && TokenBits(h, t) ==
         (Codeword(h.lit, k.lc) + IntBits(t.len - LengthBase(k.ls), LengthExtra(k.ls)))
         + (Codeword(h.dst, k.dc) + IntBits(t.dist - DistBase(k.dc), k.dx))
  {
    LengthCode(t.len);
    DistCode(t.dist, t.len);
    CodesShape(t.dist, t.len);
    hide Codes, Codeword, LengthBase, LengthExtra, DistBase, DistExtra;
  }

  lemma CodesShape(dist: nat, len: nat)
    requires 1 <= dist <= WIN_SIZ
    ensures Codes(dist, len).ls == LengthSlot(len) && Codes(dist, len).lc == 257 + LengthSlot(len)
  {
  }

  lemma TailUnfold(h: Trees, S: bits, sym: nat, origin: nat, q: nat, out: seq<byte>, cap: nat, len: nat, d: nat)
    requires 257 <= sym < 286 && q + LengthExtra(sym - 257) <= |S|
    requires LengthBase(sym - 257) + Field(S, q, LengthExtra(sym - 257)) == len
    requires SymAt(h.dst, S, q + LengthExtra(sym - 257)) == Some(d)
    ensures Tail(h, S, sym, origin, q, out, cap) ==
      TailDist(S, len, d, origin, q + LengthExtra(sym - 257) + SymLen(h.dst, d), out, cap)
  {
    hide SymAt, SymLen, Field, TailDist;
  }

  lemma DistUnfold(S: bits, len: nat, d: nat, origin: nat, p: nat, out: seq<byte>, cap: nat, dist: nat)
    requires d < 30 && p + DistExtra(d) <= |S| && dist == DistBase(d) + Field(S, p, DistExtra(d))
    requires 1 <= dist <= |out| && |out| + len <= cap
    ensures TailDist(S, len, d, origin, p, out, cap) ==
      if p + DistExtra(d) <= origin + Budget(origin)
      then More(CopyBack(out, dist, len), p + DistExtra(d)) else Halt(Undefined)
  {
    hide Field, Budget, CopyBack;
  }

  lemma LegalMatch(out: seq<byte>, t: Token)
    requires t.Match? && LegalToken(out, t)
    ensures 1 <= t.dist <= |out| && PlayToken(out, t) == CopyBack(out, t.dist, t.len)
    ensures |PlayToken(out, t)| == |out| + t.len
  {
  }

  /** A match is read back if it fits in the bit buffer. */
  lemma MatchReads(h: Trees, S: bits, origin: nat, p: nat, out: seq<byte>, cap: nat, t: Token)
    requires t.Match? && Writable(h, t) && LegalToken(out, t) && Complete(h.lit) && Complete(h.dst)
    requires At(S, p, TokenBits(h, t)) && |PlayToken(out, t)| <= cap
    ensures p + |TokenBits(h, t)| <= |S| && |TokenBits(h, t)| <= 48
    ensures SymAt(h.lit, S, p).Some?
    ensures var s := SymAt(h.lit, S, p).value;
      && s >= 256 && p + SymLen(h.lit, s) <= |S|
      && Tail(h, S, s, origin, p + SymLen(h.lit, s), out, cap) ==
         if p + |TokenBits(h, t)| <= origin + Budget(origin)
         then More(PlayToken(out, t), p + |TokenBits(h, t)|) else Halt(Undefined)
  {
    hide *;
    MatchParts(h, S, p, t);
    LegalMatch(out, t);
    var k := Codes(t.dist, t.len);
    var q := p + h.lit[k.lc];
    TailUnfold(h, S, k.lc, origin, q, out, cap, t.len, k.dc);
    DistUnfold(S, t.len, k.dc, origin, q + LengthExtra(k.ls) + h.dst[k.dc], out, cap, t.dist);
  }

  /** A literal is read back. */
  lemma LitReads(h: Trees, S: bits, p: nat, t: Token)
    requires t.Lit? && Writable(h, t) && Complete(h.lit) && At(S, p, TokenBits(h, t))
    ensures SymAt(h.lit, S, p) == Some(t.c) && SymLen(h.lit, t.c) == |TokenBits(h, t)|
    ensures p + |TokenBits(h, t)| <= |S|
  {
    SymReads(h.lit, S, p, t.c);
  }

  /** The end-of-block symbol is read back. */
  lemma EndReads(h: Trees, S: bits, p: nat)
    requires Complete(h.lit) && IsUsed(h.lit, END_OF_BLOCK) && At(S, p, Codeword(h.lit, END_OF_BLOCK))
    ensures SymAt(h.lit, S, p) == Some(256) && SymLen(h.lit, 256) == |Codeword(h.lit, END_OF_BLOCK)|
    ensures p + |Codeword(h.lit, END_OF_BLOCK)| <= |S|
  {
    SymReads(h.lit, S, p, END_OF_BLOCK);
  }

  lemma TailEnd(h: Trees, S: bits, origin: nat, p: nat, out: seq<byte>, cap: nat)
    requires p <= |S|
    ensures Tail(h, S, 256, origin, p, out, cap) == End(out, p)
  {
  }

  /** Unfolding of one step that begins with a symbol that is not a literal. */
  lemma SymbolsOther(h: Trees, S: bits, p: nat, out: seq<byte>, cap: nat, s: nat)
    requires s >= 256 && SymAt(h.lit, S, p) == Some(s)
    ensures Symbols(h, S, p, out, cap) == Tail(h, S, s, p, p + SymLen(h.lit, s), out, cap)
  {
    hide SymAt, SymLen, Tail;
  }

  /** Unfolding of one step that begins with a literal. */
  lemma SymbolsLit(h: Trees, S: bits, p: nat, out: seq<byte>, cap: nat, c: byte)
    requires SymAt(h.lit, S, p) == Some(c) && |out| < cap
    ensures Symbols(h, S, p, out, cap) == Second(h, S, p, p + SymLen(h.lit, c), out + [c], cap)
  {
    hide SymAt, SymLen, Second;
  }

  lemma SecondOther(h: Trees, S: bits, origin: nat, p: nat, out: seq<byte>, cap: nat, s: nat)
    requires s >= 256 && SymAt(h.lit, S, p) == Some(s)
    ensures Second(h, S, origin, p, out, cap) == Tail(h, S, s, origin, p + SymLen(h.lit, s), out, cap)
  {
    hide SymAt, SymLen, Tail;
  }

  lemma SecondLit(h: Trees, S: bits, origin: nat, p: nat, out: seq<byte>, cap: nat, c: byte)
    requires SymAt(h.lit, S, p) == Some(c) && |out| < cap
    ensures Second(h, S, origin, p, out, cap) == More(out + [c], p + SymLen(h.lit, c))
  {
    hide SymAt, SymLen, Tail;
  }

  /** What happens behind a block. */
  ghost function After(S: bits, q: nat, out: seq<byte>, cap: nat, last: bool): Outcome
    requires q <= |S|
  {
    if last then Returns(out) else Run(S, q, out, cap)
  }

  lemma BodyUnfold(h: Trees, S: bits, p: nat, out: seq<byte>, cap: nat, last: bool)
    requires p <= |S|
    ensures var r := Symbols(h, S, p, out, cap);
      && (r.Halt? ==> Body(h, S, p, out, cap, last) == r.o)
      && (r.More? ==> Body(h, S, p, out, cap, last) == Body(h, S, r.p, r.out, cap, last))
      && (r.End? ==> Body(h, S, p, out, cap, last) == After(S, r.p, r.out, cap, last))
  {
    hide Symbols, Run;
  }

  lemma BodyShape(h: Trees, toks: seq<Token>)
    requires toks != [] && AllWritable(h, toks) && IsUsed(h.lit, END_OF_BLOCK)
    ensures Writable(h, toks[0]) && AllWritable(h, toks[1..])
    ensures BodyBits(h, toks) == TokenBits(h, toks[0]) + BodyBits(h, toks[1..])
  {
    AppendAssoc(TokenBits(h, toks[0]), TokensBits(h, toks[1..]), Codeword(h.lit, END_OF_BLOCK));
    hide TokenBits, Codeword;
  }

  /** Taking the first token off. */
  lemma BodySplit(h: Trees, S: bits, p: nat, toks: seq<Token>)
    requires toks != [] && AllWritable(h, toks) && IsUsed(h.lit, END_OF_BLOCK)
    requires At(S, p, BodyBits(h, toks))
    ensures Writable(h, toks[0]) && AllWritable(h, toks[1..])
    ensures At(S, p, TokenBits(h, toks[0]))
    ensures At(S, p + |TokenBits(h, toks[0])|, BodyBits(h, toks[1..]))
    ensures |BodyBits(h, toks)| == |TokenBits(h, toks[0])| + |BodyBits(h, toks[1..])|
  {
    hide *;
    BodyShape(h, toks);
    AtConcat(S, p, TokenBits(h, toks[0]), BodyBits(h, toks[1..]));
  }

  lemma PlaySplit(out: seq<byte>, toks: seq<Token>)
    requires toks != [] && Legal(out, toks)
    ensures LegalToken(out, toks[0]) && Legal(PlayToken(out, toks[0]), toks[1..])
    ensures Play(out, toks) == Play(PlayToken(out, toks[0]), toks[1..])
    ensures |out| < |PlayToken(out, toks[0])| <= |Play(out, toks)|
  {
  }

  lemma BudgetSingle(h: Trees, toks: seq<Token>, p: nat)
    requires toks != [] && AllWritable(h, toks) && (toks[0].Match? || |toks| == 1)
    ensures AllWritable(h, toks[1..])
    ensures InBudget(h, toks, p) == InBudget(h, toks[1..], p + |TokenBits(h, toks[0])|)
  {
    hide TokenBits;
  }

  lemma BudgetPair(h: Trees, toks: seq<Token>, p: nat)
    requires |toks| >= 2 && AllWritable(h, toks) && toks[0].Lit?
    ensures AllWritable(h, toks[2..])
    ensures var n := |TokenBits(h, toks[0])| + |TokenBits(h, toks[1])|;
      InBudget(h, toks, p) == ((toks[1].Match? ==> n <= Budget(p)) && InBudget(h, toks[2..], p + n))
  {
    hide TokenBits, Budget;
  }

  lemma LitPlays(out: seq<byte>, t: Token)
    requires t.Lit?
    ensures LegalToken(out, t) && PlayToken(out, t) == out + [t.c]
  {
  }

  /** Width and effect of a token, where it has them. */
  function Width(h: Trees, t: Token): nat { if Writable(h, t) then |TokenBits(h, t)| else 0 }

  function Played(out: seq<byte>, t: Token): seq<byte> { if LegalToken(out, t) then PlayToken(out, t) else out }

  ghost predicate BodyReady(h: Trees, S: bits, p: nat, toks: seq<Token>, out: seq<byte>, cap: nat) {
    && Complete(h.lit) && IsUsed(h.lit, END_OF_BLOCK) && TokensOk(h, toks)
    && Legal(out, toks) && |Play(out, toks)| <= cap && At(S, p, BodyBits(h, toks))
  }

  /** The claim about the body of a block: it decodes to what it says, or overruns the budget. */
  ghost predicate BodyDecodes(h: Trees, S: bits, p: nat, toks: seq<Token>, out: seq<byte>, cap: nat, last: bool) {
    && AllWritable(h, toks) && IsUsed(h.lit, END_OF_BLOCK) && Legal(out, toks)
    && var q := p + |BodyBits(h, toks)|;
    && p <= q <= |S|
    && Body(h, S, p, out, cap, last) ==
       if InBudget(h, toks, p) then After(S, q, Play(out, toks), cap, last) else Undefined
  }

  lemma ReadyElim(h: Trees, S: bits, p: nat, toks: seq<Token>, out: seq<byte>, cap: nat)
    requires BodyReady(h, S, p, toks, out, cap)
    ensures AllWritable(h, toks) && IsUsed(h.lit, END_OF_BLOCK) && Legal(out, toks) && Complete(h.lit)
  {
  }

  lemma ReadyRest(h: Trees, S: bits, p: nat, toks: seq<Token>, out: seq<byte>, cap: nat)
    requires toks != [] && BodyReady(h, S, p, toks, out, cap)
    ensures Writable(h, toks[0]) && LegalToken(out, toks[0]) && (toks[0].Match? ==> Complete(h.dst))
    ensures Width(h, toks[0]) == |TokenBits(h, toks[0])| && Played(out, toks[0]) == PlayToken(out, toks[0])
    ensures |PlayToken(out, toks[0])| <= cap && |out| < cap
    ensures At(S, p, TokenBits(h, toks[0]))
    ensures BodyReady(h, S, p + Width(h, toks[0]), toks[1..], Played(out, toks[0]), cap)
  {
    hide At, BodyBits, Play, PlayToken, Legal, LegalToken, Complete, TokenBits, Writable, IsUsed;
    BodySplit(h, S, p, toks);
    PlaySplit(out, toks);
  }

  /** Widths and outputs add up. */
  lemma RestSums(h: Trees, S: bits, p: nat, toks: seq<Token>, out: seq<byte>, cap: nat)
    requires toks != [] && BodyReady(h, S, p, toks, out, cap)
    ensures AllWritable(h, toks) && AllWritable(h, toks[1..]) && IsUsed(h.lit, END_OF_BLOCK)
    ensures Legal(out, toks) && Legal(Played(out, toks[0]), toks[1..])
    ensures |BodyBits(h, toks)| == Width(h, toks[0]) + |BodyBits(h, toks[1..])|
    ensures Play(out, toks) == Play(Played(out, toks[0]), toks[1..])
  {
    hide At, BodyBits, Play, PlayToken, Legal, LegalToken, Complete, TokenBits, Writable, IsUsed;
    BodySplit(h, S, p, toks);
    PlaySplit(out, toks);
  }

  lemma EndReady(h: Trees, S: bits, p: nat, out: seq<byte>, cap: nat)
    requires BodyReady(h, S, p, [], out, cap)
    ensures Complete(h.lit) && IsUsed(h.lit, END_OF_BLOCK) && AllWritable(h, [])
    ensures BodyBits(h, []) == Codeword(h.lit, END_OF_BLOCK) && InBudget(h, [], p)
    ensures At(S, p, Codeword(h.lit, END_OF_BLOCK)) && Legal(out, []) && Play(out, []) == out
  {
    assert TokensBits(h, []) == [];
    AppendNil(Codeword(h.lit, END_OF_BLOCK));
  }

  lemma BudgetNil(h: Trees, p: nat)
    ensures AllWritable(h, []) && InBudget(h, [], p)
  {
  }

  lemma DecodesBy(h: Trees, S: bits, p: nat, toks: seq<Token>, out: seq<byte>, cap: nat, last: bool)
    requires AllWritable(h, toks) && IsUsed(h.lit, END_OF_BLOCK) && Legal(out, toks)
    requires p <= p + |BodyBits(h, toks)| <= |S|
    requires Body(h, S, p, out, cap, last) ==
      if InBudget(h, toks, p) then After(S, p + |BodyBits(h, toks)|, Play(out, toks), cap, last) else Undefined
    ensures BodyDecodes(h, S, p, toks, out, cap, last)
  {
    hide Body, After, InBudget, BodyBits, Play;
  }

  lemma DecodesElim(h: Trees, S: bits, p: nat, toks: seq<Token>, out: seq<byte>, cap: nat, last: bool)
    requires BodyDecodes(h, S, p, toks, out, cap, last)
    ensures AllWritable(h, toks) && IsUsed(h.lit, END_OF_BLOCK) && Legal(out, toks)
    ensures p <= p + |BodyBits(h, toks)| <= |S|
    ensures Body(h, S, p, out, cap, last) ==
      if InBudget(h, toks, p) then After(S, p + |BodyBits(h, toks)|, Play(out, toks), cap, last) else Undefined
  {
    hide Body, After, InBudget, BodyBits, Play;
  }

  /** The end of the block. */
  lemma DecodeEnd(h: Trees, S: bits, p: nat, out: seq<byte>, cap: nat, last: bool)
    requires BodyReady(h, S, p, [], out, cap)
    ensures BodyDecodes(h, S, p, [], out, cap, last)
  {
    hide *;
    EndReady(h, S, p, out, cap);
    EndReads(h, S, p);
    SymbolsOther(h, S, p, out, cap, 256);
    TailEnd(h, S, p, p + SymLen(h.lit, 256), out, cap);
    BodyUnfold(h, S, p, out, cap, last);
    DecodesBy(h, S, p, [], out, cap, last);
  }

  /** A match at the beginning always fits. */
  lemma DecodeMatch(h: Trees, S: bits, p: nat, toks: seq<Token>, out: seq<byte>, cap: nat, last: bool,
                    q: nat, out': seq<byte>)
    requires toks != [] && toks[0].Match? && BodyReady(h, S, p, toks, out, cap)
    requires q == p + Width(h, toks[0]) && out' == Played(out, toks[0])
    requires BodyDecodes(h, S, q, toks[1..], out', cap, last)
    ensures BodyDecodes(h, S, p, toks, out, cap, last)
  {
    hide *;
    ReadyElim(h, S, p, toks, out, cap);
    ReadyRest(h, S, p, toks, out, cap);
    MatchReads(h, S, p, p, out, cap, toks[0]);
    SymbolsOther(h, S, p, out, cap, SymAt(h.lit, S, p).value);
    BudgetAtLeast(p);
    BodyUnfold(h, S, p, out, cap, last);
    assert Body(h, S, p, out, cap, last) == Body(h, S, q, out', cap, last);
    DecodesElim(h, S, q, toks[1..], out', cap, last);
    BudgetSingle(h, toks, p);
    RestSums(h, S, p, toks, out, cap);
    DecodesBy(h, S, p, toks, out, cap, last);
  }

  /** A single literal before the end of the block. */
  lemma DecodeLast(h: Trees, S: bits, p: nat, toks: seq<Token>, out: seq<byte>, cap: nat, last: bool)
    requires |toks| == 1 && toks[0].Lit? && BodyReady(h, S, p, toks, out, cap)
    ensures BodyDecodes(h, S, p, toks, out, cap, last)
  {
    hide *;
    ReadyElim(h, S, p, toks, out, cap);
    ReadyRest(h, S, p, toks, out, cap);
    assert toks[1..] == [];
    var t := toks[0];
    var q, out' := p + |TokenBits(h, t)|, out + [t.c];
    LitPlays(out, t);
    LitReads(h, S, p, t);
    SymbolsLit(h, S, p, out, cap, t.c);
    EndReady(h, S, q, out', cap);
    EndReads(h, S, q);
    SecondOther(h, S, p, q, out', cap, 256);
    TailEnd(h, S, p, q + SymLen(h.lit, 256), out', cap);
    BodyUnfold(h, S, p, out, cap, last);
    BudgetSingle(h, toks, p);
    BudgetNil(h, q);
    RestSums(h, S, p, toks, out, cap);
    DecodesBy(h, S, p, toks, out, cap, last);
  }

  /** Two literals in a row. */
  lemma DecodeLits(h: Trees, S: bits, p: nat, toks: seq<Token>, out: seq<byte>, cap: nat, last: bool,
                   q: nat, r: nat)
    requires |toks| >= 2 && toks[0].Lit? && toks[1].Lit? && BodyReady(h, S, p, toks, out, cap)
    requires q == p + Width(h, toks[0]) && r == q + Width(h, toks[1])
    requires BodyDecodes(h, S, r, toks[2..], out + [toks[0].c] + [toks[1].c], cap, last)
    ensures BodyDecodes(h, S, p, toks, out, cap, last)
  {
    hide *;
    var t, u := toks[0], toks[1];
    var out1 := out + [t.c];
    var out2 := out1 + [u.c];
    ReadyElim(h, S, p, toks, out, cap);
    ReadyRest(h, S, p, toks, out, cap);
    LitPlays(out, t);
    LitReads(h, S, p, t);
    SymbolsLit(h, S, p, out, cap, t.c);
    assert toks[1..][0] == u && toks[1..][1..] == toks[2..];
    ReadyRest(h, S, q, toks[1..], out1, cap);
    LitPlays(out1, u);
    LitReads(h, S, q, u);
    SecondLit(h, S, p, q, out1, cap, u.c);
    BodyUnfold(h, S, p, out, cap, last);
    assert Body(h, S, p, out, cap, last) == Body(h, S, r, out2, cap, last);
    BudgetPair(h, toks, p);
    PairSums(h, S, p, toks, out, cap, q, out1);
    DecodesElim(h, S, r, toks[2..], out2, cap, last);
    DecodesBy(h, S, p, toks, out, cap, last);
  }

  lemma PairSums(h: Trees, S: bits, p: nat, toks: seq<Token>, out: seq<byte>, cap: nat, q: nat, out1: seq<byte>)
    requires |toks| >= 2 && BodyReady(h, S, p, toks, out, cap)
    requires q == p + Width(h, toks[0]) && out1 == Played(out, toks[0])
    ensures AllWritable(h, toks) && AllWritable(h, toks[2..]) && IsUsed(h.lit, END_OF_BLOCK)
    ensures Legal(out, toks) && Legal(Played(out1, toks[1]), toks[2..])
    ensures |BodyBits(h, toks)| == Width(h, toks[0]) + Width(h, toks[1]) + |BodyBits(h, toks[2..])|
    ensures Play(out, toks) == Play(Played(out1, toks[1]), toks[2..])
  {
    hide *;
    ReadyRest(h, S, p, toks, out, cap);
    RestSums(h, S, p, toks, out, cap);
    assert toks[1..][0] == toks[1] && toks[1..][1..] == toks[2..];
    RestSums(h, S, q, toks[1..], out1, cap);
  }

  /** A literal and a match: the only place where the bit buffer can run short. */
  lemma DecodePair(h: Trees, S: bits, p: nat, toks: seq<Token>, out: seq<byte>, cap: nat, last: bool,
                   q: nat, r: nat, out2: seq<byte>)
    requires |toks| >= 2 && toks[0].Lit? && toks[1].Match? && BodyReady(h, S, p, toks, out, cap)
    requires q == p + Width(h, toks[0]) && r == q + Width(h, toks[1])
    requires out2 == Played(out + [toks[0].c], toks[1])
    requires BodyDecodes(h, S, r, toks[2..], out2, cap, last)
    ensures BodyDecodes(h, S, p, toks, out, cap, last)
  {
    hide *;
    var t, u := toks[0], toks[1];
    var out1 := out + [t.c];
    ReadyElim(h, S, p, toks, out, cap);
    ReadyRest(h, S, p, toks, out, cap);
    LitPlays(out, t);
    LitReads(h, S, p, t);
    SymbolsLit(h, S, p, out, cap, t.c);
    assert toks[1..][0] == u && toks[1..][1..] == toks[2..];
    ReadyRest(h, S, q, toks[1..], out1, cap);
    MatchReads(h, S, p, q, out1, cap, u);
    SecondOther(h, S, p, q, out1, cap, SymAt(h.lit, S, q).value);
    BodyUnfold(h, S, p, out, cap, last);
    assert Body(h, S, p, out, cap, last) ==
      if r <= p + Budget(p) then Body(h, S, r, out2, cap, last) else Undefined;
    BudgetPair(h, toks, p);
    PairSums(h, S, p, toks, out, cap, q, out1);
    DecodesElim(h, S, r, toks[2..], out2, cap, last);
    DecodesBy(h, S, p, toks, out, cap, last);
  }

  /** The body of a block decodes to what it says, exactly when it stays in budget. */
  lemma {:induction false} BodyReads(h: Trees, S: bits, p: nat, toks: seq<Token>, out: seq<byte>, cap: nat, last: bool)
    requires BodyReady(h, S, p, toks, out, cap)
    ensures BodyDecodes(h, S, p, toks, out, cap, last)
    decreases |toks|
  {
    hide *;
    if toks == [] {
      DecodeEnd(h, S, p, out, cap, last);
    } else {
      ReadyRest(h, S, p, toks, out, cap);
      var q, out1 := p + Width(h, toks[0]), Played(out, toks[0]);
      if toks[0].Match? {
        BodyReads(h, S, q, toks[1..], out1, cap, last);
        DecodeMatch(h, S, p, toks, out, cap, last, q, out1);
      } else if |toks| == 1 {
        DecodeLast(h, S, p, toks, out, cap, last);
      } else {
        assert toks[1..][0] == toks[1] && toks[1..][1..] == toks[2..];
        LitPlays(out, toks[0]);
        ReadyRest(h, S, q, toks[1..], out1, cap);
        var r, out2 := q + Width(h, toks[1]), Played(out1, toks[1]);
        BodyReads(h, S, r, toks[2..], out2, cap, last);
        if toks[1].Lit? {
          LitPlays(out1, toks[1]);
          DecodeLits(h, S, p, toks, out, cap, last, q, r);
        } else {
          DecodePair(h, S, p, toks, out, cap, last, q, r, out2);
        }
      }
    }
  }

  // ---------------------------------------------------------------- blocks

  /** Whether the tokens of a block that begins at offset `p` stay in budget. */
  ghost predicate BlockInBudget(b: Block, last: bool, p: nat)
    requires BlockOk(b)
  {
    b.Dynamic? ==> InBudget(b.trees, b.toks, p + |HeaderBits(b, last)|)
  }

  ghost predicate BlocksInBudget(bs: seq<Block>, fin: bool, p: nat)
    requires BlocksOk(bs)
    decreases |bs|
  {
    if bs == [] then true
    else
      var last := fin && |bs| == 1;
      BlockInBudget(bs[0], last, p) && BlocksInBudget(bs[1..], fin, p + |BlockBits(bs[0], last, p)|)
  }

  /** A block that is found at offset `p` and has room in the output. */
  ghost predicate BlockReady(b: Block, S: bits, p: nat, out: seq<byte>, cap: nat, last: bool) {
    && BlockOk(b) && LegalBlock(out, b) && |PlayBlock(out, b)| <= cap
    && |S| % 8 == 0 && At(S, p, BlockBits(b, last, p))
  }

  lemma RunRaw(S: bits, p: nat, out: seq<byte>, cap: nat, out': seq<byte>, q: nat, last: bool)
    requires p <= |S| && Header(S, p, out, cap) == Raw(out', q, last)
    ensures q <= |S| && Run(S, p, out, cap) == After(S, q, out', cap, last)
  {
    hide Header, Body;
  }

  lemma RunEnter(S: bits, p: nat, out: seq<byte>, cap: nat, h: Trees, q: nat, last: bool)
    requires p <= |S| && Header(S, p, out, cap) == Enter(h, q, last)
    ensures q <= |S| && Run(S, p, out, cap) == Body(h, S, q, out, cap, last)
  {
    hide Header, Body;
  }

  lemma StoredParts(data: seq<byte>, S: bits, p: nat, out: seq<byte>, cap: nat, last: bool)
    requires BlockReady(Stored(data), S, p, out, cap, last)
    ensures |S| % 8 == 0 && 1 <= |data| <= RAW_BLK_SIZE && |out| + |data| <= cap && p <= |S|
    ensures BlockOk(Stored(data)) && LegalBlock(out, Stored(data))
    ensures At(S, p, BlockBits(Stored(data), last, p)) && PlayBlock(out, Stored(data)) == out + data
    ensures BlockInBudget(Stored(data), last, p)
  {
    hide BlockBits;
  }

  lemma DynamicParts(b: Block, S: bits, p: nat, out: seq<byte>, cap: nat, last: bool)
    requires b.Dynamic? && BlockReady(b, S, p, out, cap, last)
    ensures BlockOk(b) && LegalBlock(out, b) && At(S, p, HeaderBits(b, last)) && p <= |S|
    ensures AllWritable(b.trees, b.toks) && IsUsed(b.trees.lit, END_OF_BLOCK) && Legal(out, b.toks)
    ensures BodyReady(b.trees, S, p + |HeaderBits(b, last)|, b.toks, out, cap)
    ensures |BlockBits(b, last, p)| == |HeaderBits(b, last)| + |BodyBits(b.trees, b.toks)|
    ensures PlayBlock(out, b) == Play(out, b.toks)
    ensures BlockInBudget(b, last, p) == InBudget(b.trees, b.toks, p + |HeaderBits(b, last)|)
  {
    hide HeaderBits, BodyBits, InBudget, Play, Legal, PreOk, AllWritable, At, Complete, Bounded, IsUsed, Expand;
    AtConcat(S, p, HeaderBits(b, last), BodyBits(b.trees, b.toks));
    AtWithinBounds(S, p, HeaderBits(b, last));
  }

  lemma AtWithinBounds(S: bits, p: nat, x: bits)
    requires At(S, p, x)
    ensures p + |x| <= |S|
  {
  }

  /** One block is read back. */
  lemma BlockReads(b: Block, S: bits, p: nat, out: seq<byte>, cap: nat, last: bool)
    requires BlockReady(b, S, p, out, cap, last)
    ensures BlockOk(b) && LegalBlock(out, b) && p <= p + |BlockBits(b, last, p)| <= |S|
    ensures Run(S, p, out, cap) ==
      if BlockInBudget(b, last, p) then After(S, p + |BlockBits(b, last, p)|, PlayBlock(out, b), cap, last)
      else Undefined
  {
    hide *;
    match b
    case Stored(data) =>
      StoredParts(data, S, p, out, cap, last);
      RawReads(S, p, out, cap, last, data);
      RunRaw(S, p, out, cap, out + data, p + |BlockBits(b, last, p)|, last);
    case Dynamic(h, pre, npre, items, toks) =>
      DynamicParts(b, S, p, out, cap, last);
      DynReads(S, p, out, cap, b, last);
      var q := p + |HeaderBits(b, last)|;
      RunEnter(S, p, out, cap, h, q, last);
      BodyReads(h, S, q, toks, out, cap, last);
      DecodesElim(h, S, q, toks, out, cap, last);
  }

  lemma BlocksSplit(bs: seq<Block>, S: bits, p: nat, out: seq<byte>, cap: nat)
    requires bs != [] && BlocksOk(bs) && LegalBlocks(out, bs) && |PlayBlocks(out, bs)| <= cap
    requires |S| % 8 == 0 && At(S, p, BlocksBits(bs, true, p))
    ensures BlockOk(bs[0]) && BlocksOk(bs[1..])
    ensures var last := |bs| == 1;
      && BlockReady(bs[0], S, p, out, cap, last)
      && At(S, p + |BlockBits(bs[0], last, p)|, BlocksBits(bs[1..], true, p + |BlockBits(bs[0], last, p)|))
      && (BlocksInBudget(bs, true, p) == (BlockInBudget(bs[0], last, p)
           && BlocksInBudget(bs[1..], true, p + |BlockBits(bs[0], last, p)|)))
    ensures LegalBlock(out, bs[0]) && LegalBlocks(PlayBlock(out, bs[0]), bs[1..])
    ensures PlayBlocks(out, bs) == PlayBlocks(PlayBlock(out, bs[0]), bs[1..])
  {
    hide BlockBits, BlockInBudget, PlayBlock, LegalBlock, At, BlockOk;
    var last := |bs| == 1;
    var x := BlockBits(bs[0], last, p);
    AtConcat(S, p, x, BlocksBits(bs[1..], true, p + |x|));
  }

  lemma LastOnly(bs: seq<Block>, out: seq<byte>, p: nat)
    requires |bs| == 1
    ensures BlocksOk(bs[1..]) && LegalBlocks(out, bs[1..]) && PlayBlocks(out, bs[1..]) == out
    ensures BlocksInBudget(bs[1..], true, p)
  {
    assert bs[1..] == [];
  }

  lemma AfterIs(S: bits, q: nat, out: seq<byte>, cap: nat, last: bool)
    requires q <= |S|
    ensures After(S, q, out, cap, last) == if last then Returns(out) else Run(S, q, out, cap)
  {
    hide Run;
  }

  /** Every well-formed block sequence inflates to its meaning, exactly when it stays in budget. */
  lemma {:induction false} BlocksRead(bs: seq<Block>, S: bits, p: nat, out: seq<byte>, cap: nat)
    requires bs != [] && BlocksOk(bs) && LegalBlocks(out, bs) && |PlayBlocks(out, bs)| <= cap
    requires |S| % 8 == 0 && At(S, p, BlocksBits(bs, true, p))
    ensures p <= |S|
    ensures Run(S, p, out, cap) ==
      if BlocksInBudget(bs, true, p) then Returns(PlayBlocks(out, bs)) else Undefined
    decreases |bs|
  {
    hide *;
    BlocksSplit(bs, S, p, out, cap);
    var last := |bs| == 1;
    BlockReads(bs[0], S, p, out, cap, last);
    var q := p + |BlockBits(bs[0], last, p)|;
    AfterIs(S, q, PlayBlock(out, bs[0]), cap, last);
    if last {
      LastOnly(bs, PlayBlock(out, bs[0]), q);
    } else {
      BlocksRead(bs[1..], S, q, PlayBlock(out, bs[0]), cap);
    }
  }
}
