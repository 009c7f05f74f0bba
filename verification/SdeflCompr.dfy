/** The compressor (`sdefl_compr`, `sdeflate`). */
module SdeflCompr {
  import opened Bits
  import opened MatchCodes
  import opened Format
  import opened SdeflCodes
  import opened SdeflFlush
  import opened SdeflParse
  import opened SdeflMatch

  // --------------------------------------------------------- factorisation

  /** The recorded sequences, then the literals that are not recorded yet. */
  ghost function Pending(input: seq<byte>, seqs: seq<Seq>, i: nat, litlen: nat): seq<Token>
    requires SeqsOk(input, seqs) && litlen <= i <= |input|
  {
    Toks(input, seqs) + LitRun(input, i - litlen, litlen)
  }

  /** `toks`, then the parse from `i` on. */
  ghost function Resumed(input: seq<byte>, toks: seq<Token>, K: set<nat>, i: nat, end: nat, lvl: nat): Parsed
    requires end <= |input| && lvl <= LVL_MAX
  {
    var rest := Parse(input, K, i, end, lvl);
    Parsed(toks + rest.toks, rest.seen)
  }

  /** What has been recorded is counted, and it is the parse `all` of the block as far as `i`. */
  ghost predicate Progress(input: seq<byte>, K: set<nat>, i: nat, litlen: nat, end: nat, lvl: nat, all: Parsed,
                           seqs: seq<Seq>, lit: seq<nat>, off: seq<nat>)
  {
    && SeqsOk(input, seqs) && litlen <= i <= end <= |input| && lvl <= LVL_MAX
    && Tallied(lit, off, Pending(input, seqs, i, litlen))
    && Resumed(input, Pending(input, seqs, i, litlen), K, i, end, lvl) == all
  }

  lemma ProgressStart(input: seq<byte>, K: set<nat>, begin: nat, end: nat, lvl: nat, lit: seq<nat>, off: seq<nat>)
    requires begin <= end <= |input| && lvl <= LVL_MAX && Tallied(lit, off, [])
    ensures Progress(input, K, begin, 0, end, lvl, Parse(input, K, begin, end, lvl), [], lit, off)
  {
    hide Tallied, Parse;
    assert Pending(input, [], begin, 0) == [];
  }

  lemma ProgressBound(input: seq<byte>, K: set<nat>, i: nat, litlen: nat, end: nat, lvl: nat, all: Parsed,
                      seqs: seq<Seq>, lit: seq<nat>, off: seq<nat>)
    requires Progress(input, K, i, litlen, end, lvl, all, seqs, lit, off)
    ensures litlen <= i <= end <= |input| && lvl <= LVL_MAX && SeqsOk(input, seqs)
  {
  }

  /** The parse goes on with the next token. */
  lemma ResumedNext(input: seq<byte>, toks: seq<Token>, K: set<nat>, i: nat, end: nat, lvl: nat)
    requires i < end <= |input| && lvl <= LVL_MAX
    ensures var t := NextToken(input, K, i, end - i, lvl);
      && Width(t) <= end - i
      && Resumed(input, toks, K, i, end, lvl)
         == Resumed(input, toks + [t], K + Inserted(input, i, t, end - i, lvl), i + Width(t), end, lvl)
  {
    hide NextToken, Inserted;
    var t := NextToken(input, K, i, end - i, lvl);
    TokenMeans(input, K, i, end - i, lvl);
    var rest := Parse(input, K + Inserted(input, i, t, end - i, lvl), i + Width(t), end, lvl);
    assert toks + ([t] + rest.toks) == (toks + [t]) + rest.toks;
  }

  /** Counting a literal. */
  lemma ProgressLit(input: seq<byte>, K: set<nat>, i: nat, litlen: nat, end: nat, lvl: nat, all: Parsed,
                    seqs: seq<Seq>, lit: seq<nat>, off: seq<nat>)
    requires Progress(input, K, i, litlen, end, lvl, all, seqs, lit, off) && i < end
    requires NextToken(input, K, i, end - i, lvl).Lit?
    ensures var t := Lit(input[i]);
      && input[i] < |lit| && NextToken(input, K, i, end - i, lvl) == t
      && Progress(input, K + Inserted(input, i, t, end - i, lvl), i + 1, litlen + 1, end, lvl, all, seqs,
                  lit[input[i] := lit[input[i]] + 1], off)
  {
    hide Tallied, Toks, SeqsOk, Inserted, Resumed;
    var toks, c := Pending(input, seqs, i, litlen), input[i];
    LitIs(input, K, i, end - i, lvl);
    hide NextToken;
    ResumedNext(input, toks, K, i, end, lvl);
    assert LitRun(input, i - litlen, litlen + 1) == LitRun(input, i - litlen, litlen) + [Lit(c)];
    assert Pending(input, seqs, i + 1, litlen + 1) == toks + [Lit(c)];
    TallyLit(lit, off, toks, c);
  }

  lemma LitIs(input: seq<byte>, K: set<nat>, i: nat, left: nat, lvl: nat)
    requires i < |input| && lvl <= LVL_MAX && NextToken(input, K, i, left, lvl).Lit?
    ensures NextToken(input, K, i, left, lvl) == Lit(input[i])
  {
    hide FirstMatch, GivenUp;
  }

  lemma ToksNext(input: seq<byte>, seqs: seq<Seq>, q: Seq)
    requires SeqsOk(input, seqs) && SeqOk(input, q)
    ensures SeqsOk(input, seqs + [q]) && Toks(input, seqs + [q]) == Toks(input, seqs) + SeqToks(input, q)
  {
    hide SeqOk, SeqToks;
    assert (seqs + [q])[..|seqs|] == seqs;
  }

  /** Recording the pending literals. */
  lemma ProgressRun(input: seq<byte>, K: set<nat>, i: nat, litlen: nat, end: nat, lvl: nat, all: Parsed,
                    seqs: seq<Seq>, lit: seq<nat>, off: seq<nat>)
    requires Progress(input, K, i, litlen, end, lvl, all, seqs, lit, off)
    ensures litlen <= i && Progress(input, K, i, 0, end, lvl, all, seqs + [Seq(i - litlen, litlen)], lit, off)
  {
    hide Tallied, Toks, SeqsOk, Resumed;
    var q := Seq(i - litlen, litlen);
    ToksNext(input, seqs, q);
    assert Pending(input, seqs + [q], i, 0) == Pending(input, seqs, i, litlen);
  }

  /** Recording a match. */
  lemma ProgressMatch(input: seq<byte>, K: set<nat>, i: nat, end: nat, lvl: nat, all: Parsed, seqs: seq<Seq>,
                      lit: seq<nat>, off: seq<nat>, dist: nat, len: nat)
    requires Progress(input, K, i, 0, end, lvl, all, seqs, lit, off) && i < end
    requires NextToken(input, K, i, end - i, lvl) == Match(dist, len)
    ensures 1 <= dist <= WIN_SIZ && 4 <= len <= MAX_MATCH
    ensures var k, t := Codes(dist, len), Match(dist, len);
      && k.lc < |lit| && k.dc < |off|
      && Progress(input, K + Inserted(input, i, t, end - i, lvl), i + len, 0, end, lvl, all,
                  seqs + [Seq(-(dist as int), len)], lit[k.lc := lit[k.lc] + 1], off[k.dc := off[k.dc] + 1])
  {
    hide Tallied, Toks, SeqsOk, Codes, Inserted, Resumed, LegalToken, PlayToken;
    var toks, t := Pending(input, seqs, i, 0), Match(dist, len);
    TokenMeans(input, K, i, end - i, lvl);
    MatchRange(input[..i], t);
    hide NextToken;
    ToksNext(input, seqs, Seq(-(dist as int), len));
    assert Pending(input, seqs + [Seq(-(dist as int), len)], i + len, 0) == toks + [t];
    ResumedNext(input, toks, K, i, end, lvl);
    TallyMatch(lit, off, toks, dist, len);
  }

  lemma MatchRange(out: seq<byte>, t: Token)
    requires LegalToken(out, t) && t.Match?
    ensures 1 <= t.dist <= WIN_SIZ && t.len <= MAX_MATCH
  {
  }

  /** At the end of the block the sequences are its parse. */
  lemma ProgressEnd(input: seq<byte>, K: set<nat>, end: nat, lvl: nat, all: Parsed, seqs: seq<Seq>, lit: seq<nat>,
                    off: seq<nat>)
    requires Progress(input, K, end, 0, end, lvl, all, seqs, lit, off)
    ensures SeqsOk(input, seqs) && Tallied(lit, off, Toks(input, seqs)) && Toks(input, seqs) == all.toks && K == all.seen
  {
    hide Tallied, Toks, SeqsOk;
    assert Pending(input, seqs, end, 0) == Toks(input, seqs);
  }

  // ------------------------------------------------------------ one position

  /** `sdefl_seq` and `sdefl_reg_match` for the match found at `i`. */
  method RegMatch(s: Sdefl, input: seq<byte>, i: nat, litlen: nat, dist: nat, len: nat, ghost K: set<nat>,
                  ghost end: nat, ghost lvl: nat, ghost all: Parsed)
    requires s.Shape() && Progress(input, K, i, litlen, end, lvl, all, s.seqs, s.freqLit[..], s.freqOff[..])
    requires i < end && NextToken(input, K, i, end - i, lvl) == Match(dist, len)
    modifies s, s.freqLit, s.freqOff
    ensures s.seqs == old(s.seqs) + (if litlen > 0 then [Seq(i - litlen, litlen)] else []) + [Seq(-(dist as int), len)]
    ensures Progress(input, K + Inserted(input, i, Match(dist, len), end - i, lvl), i + len, 0, end, lvl, all, s.seqs,
                     s.freqLit[..], s.freqOff[..])
  {
    hide *;
    ShapeParts(s);
    ProgressBound(input, K, i, litlen, end, lvl, all, s.seqs, s.freqLit[..], s.freqOff[..]);
    if litlen > 0 {
      ProgressRun(input, K, i, litlen, end, lvl, all, s.seqs, s.freqLit[..], s.freqOff[..]);
      s.seqs := s.seqs + [Seq(i - litlen, litlen)];
    }
    ghost var seqs, lit, off := s.seqs, s.freqLit[..], s.freqOff[..];
    ProgressMatch(input, K, i, end, lvl, all, seqs, lit, off, dist, len);
    s.seqs := s.seqs + [Seq(-(dist as int), len)];
    var cod := Codes(dist, len);
    s.freqLit[cod.lc] := s.freqLit[cod.lc] + 1;
    s.freqOff[cod.dc] := s.freqOff[cod.dc] + 1;
    assert s.freqLit[..] == lit[cod.lc := lit[cod.lc] + 1] && s.freqOff[..] == off[cod.dc := off[cod.dc] + 1];
  }

  /** The match to use at `i`, if any: from level 5 on it is dropped for a longer one that begins a byte later. */
  method Choose(s: Sdefl, input: seq<byte>, i: nat, left: nat, lvl: nat, ghost K: set<nat>)
    returns (dist: nat, len: nat)
    requires Chains(s.tbl[..], s.prv[..], input, K, i) && lvl <= LVL_MAX && 0 < left && i + left <= |input|
    ensures len == 0 || 4 <= len <= left
    ensures NextToken(input, K, i, left, lvl) == if len == 0 then Lit(input[i]) else Match(dist, len)
  {
    hide *;
    Limits(left, lvl);
    TokenIs(input, K, i, left, lvl);
    var max := MaxMatch(left);
    var nice := Nice(left, lvl);
    dist, len := 0, 0;
    if max > 4 {
      dist, len := Find(s, MaxChain(lvl), max, input, i, K, i);
    }
    if lvl >= 5 && len >= 4 && len + 1 < nice {
      var _, len2 := Find(s, MaxChain(lvl), len + 1, input, i + 1, K, i);
      if len2 > len {
        len := 0;
      }
    }
  }

  lemma Limits(left: nat, lvl: nat)
    requires lvl <= LVL_MAX
    ensures MaxMatch(left) <= left && MaxMatch(left) <= 258 && Nice(left, lvl) <= MaxMatch(left)
  {
  }

  lemma TokenIs(input: seq<byte>, K: set<nat>, i: nat, left: nat, lvl: nat)
    requires i < |input| && lvl <= LVL_MAX
    ensures var max, nice := MaxMatch(left), Nice(left, lvl);
      var m := if max > 4 then Search(input, K, i, MaxChain(lvl), max) else Found(0, 0);
      var drop := lvl >= 5 && m.len >= 4 && m.len + 1 < nice
        && Search(input, K, i + 1, MaxChain(lvl), m.len + 1).len > m.len;
      NextToken(input, K, i, left, lvl) == if m.len < 4 || drop then Lit(input[i]) else Match(m.off, m.len)
  {
    hide Search, MaxChain, Nice, MaxMatch;
  }

  /** Inserts the positions passed in the hash chains, unless the end of the input is too near. */
  method Pass(s: Sdefl, input: seq<byte>, i: nat, run: nat, inc: nat, ghost K: set<nat>)
    returns (i': nat, ghost K': set<nat>)
    requires s.Shape() && Chains(s.tbl[..], s.prv[..], input, K, i) && inc > 0
    modifies s.tbl, s.prv
    ensures i' == i + run * inc && Chains(s.tbl[..], s.prv[..], input, K', i')
    ensures K' == K + if |input| - i' > 4 then Stops(i, i', inc) else {}
  {
    hide *;
    ProductNat(run, inc);
    if |input| - (i + run * inc) > 4 {
      i', K' := Insert(s, input, i, run, inc, K);
      StopsAre(i, i', inc);
    } else {
      i', K' := i + run * inc, K;
      ChainsLater(s.tbl[..], s.prv[..], input, K, i, i');
    }
  }

  lemma ProductNat(run: nat, inc: nat)
    ensures run * inc >= 0
  {
  }

  /** The positions passed with a token. */
  lemma InsertedIs(input: seq<byte>, i: nat, t: Token, left: nat, lvl: nat, run: nat, inc: nat)
    requires lvl <= LVL_MAX && (t.Match? ==> t.len >= 4)
    requires if t.Match? && lvl < 2 && t.len >= Nice(left, lvl) then run == 1 && inc == t.len
             else run == Width(t) && inc == 1
    ensures run * inc == Width(t) > 0 && inc > 0
    ensures Inserted(input, i, t, left, lvl) == if |input| - (i + Width(t)) > 4 then Stops(i, i + Width(t), inc) else {}
  {
    hide Nice;
    if inc > 1 {
      forall j: nat | i < j < i + inc ensures !OnGrid(i, inc, j) { SmallMod(j - i, inc); }
      assert Stops(i, i + inc, inc) == {i} by { assert OnGrid(i, inc, i); }
    }
  }

  lemma SmallMod(d: nat, inc: nat)
    requires 0 < d < inc
    ensures d % inc != 0
  {
  }

  /** The bytes from `i` up to the end of the block: one literal or one match. */
  method Advance(s: Sdefl, input: seq<byte>, i: nat, litlen: nat, blkEnd: nat, lvl: nat, ghost K: set<nat>,
                 ghost all: Parsed) returns (i': nat, litlen': nat, ghost K': set<nat>)
    requires s.Shape() && i < blkEnd <= |input| && lvl <= LVL_MAX && Chains(s.tbl[..], s.prv[..], input, K, i)
    requires Progress(input, K, i, litlen, blkEnd, lvl, all, s.seqs, s.freqLit[..], s.freqOff[..])
    modifies s, s.freqLit, s.freqOff, s.tbl, s.prv
    ensures i < i' <= blkEnd && Chains(s.tbl[..], s.prv[..], input, K', i')
    ensures var t := NextToken(input, K, i, blkEnd - i, lvl);
      && i' == i + Width(t) && litlen' == (if t.Match? then 0 else litlen + 1)
      && K' == K + Inserted(input, i, t, blkEnd - i, lvl)
      && s.seqs == old(s.seqs) + if t.Lit? then []
                                 else (if litlen > 0 then [Seq(i - litlen, litlen)] else []) + [Seq(-(t.dist as int), t.len)]
    ensures Progress(input, K', i', litlen', blkEnd, lvl, all, s.seqs, s.freqLit[..], s.freqOff[..])
  {
    hide *;
    ShapeParts(s);
    var left := blkEnd - i;
    ghost var t := NextToken(input, K, i, left, lvl);
    var dist, len := Choose(s, input, i, left, lvl, K);
    TokenWidth(t, len);
    var run, inc := 1, 1;
    if len >= 4 {
      RegMatch(s, input, i, litlen, dist, len, K, blkEnd, lvl, all);
      litlen' := 0;
      if lvl < 2 && len >= Nice(left, lvl) {
        inc := len;
      } else {
        run := len;
      }
    } else {
      ghost var lit := s.freqLit[..];
      ProgressLit(input, K, i, litlen, blkEnd, lvl, all, s.seqs, lit, s.freqOff[..]);
      s.freqLit[input[i]] := s.freqLit[input[i]] + 1;
      assert s.freqLit[..] == lit[input[i] := lit[input[i]] + 1];
      litlen' := litlen + 1;
    }
    InsertedIs(input, i, t, left, lvl, run, inc);
    i', K' := Pass(s, input, i, run, inc, K);
  }

  lemma TokenWidth(t: Token, len: nat)
    requires if len == 0 then t.Lit? else t.Match? && t.len == len
    ensures Width(t) == if len == 0 then 1 else len
  {
  }

  // ------------------------------------------------------------------ blocks

  lemma {:induction false} BlocksConcat(bs: seq<Block>, cs: seq<Block>, fin: bool, p: nat)
    requires BlocksOk(bs) && BlocksOk(cs) && cs != []
    ensures BlocksOk(bs + cs)
    ensures BlocksBits(bs + cs, fin, p) == BlocksBits(bs, false, p) + BlocksBits(cs, fin, p + |BlocksBits(bs, false, p)|)
    decreases |bs|
  {
    hide BlockBits, BlockOk;
    if bs == [] {
      assert bs + cs == cs;
    } else {
      var b, rest := bs[0], bs[1..];
      assert bs == [b] + rest && bs + cs == [b] + (rest + cs);
      var x := BlockBits(b, false, p);
      BlocksConcat(rest, cs, fin, p + |x|);
      hide BlocksBits, BlocksOk;
      BlocksCons(b, rest, false, p);
      BlocksCons(b, rest + cs, fin, p);
      var y := BlocksBits(rest, false, p + |x|);
      AppendAssoc(x, y, BlocksBits(cs, fin, p + |x| + |y|));
    }
  }

  lemma {:induction false} PlayConcat(out: seq<byte>, bs: seq<Block>, cs: seq<Block>)
    requires LegalBlocks(out, bs) && LegalBlocks(PlayBlocks(out, bs), cs)
    ensures LegalBlocks(out, bs + cs) && PlayBlocks(out, bs + cs) == PlayBlocks(PlayBlocks(out, bs), cs)
    decreases |bs|
  {
    if bs == [] {
      assert bs + cs == cs;
    } else {
      assert (bs + cs)[1..] == bs[1..] + cs;
      PlayConcat(PlayBlock(out, bs[0]), bs[1..], cs);
    }
  }

  /** Blocks written one after the other. */
  lemma WroteMore(x: bits, y: bits, z: bits, bs: seq<Block>, cs: seq<Block>, last: bool)
    requires Wrote(x, y, bs, false) && Wrote(y, z, cs, last) && (cs != [] || bs == [])
    ensures Wrote(x, z, bs + cs, last)
  {
    hide BlocksOk, BlocksBits;
    if cs != [] {
      BlocksConcat(bs, cs, last, |x|);
      AppendAssoc(x, BlocksBits(bs, false, |x|), BlocksBits(cs, last, |y|));
    } else {
      assert bs + cs == [];
      NoBlocks(last, |x|);
      NoBlocks(last, |y|);
      NoBlocks(false, |x|);
    }
  }

  lemma NoBlocks(last: bool, p: nat)
    ensures BlocksOk([]) && BlocksBits([], last, p) == []
  {
  }

  lemma MeansMore(input: seq<byte>, i: nat, k: nat, bs: seq<Block>, cs: seq<Block>)
    requires Means(input, 0, i, bs) && Means(input, i, k, cs)
    ensures Means(input, 0, k, bs + cs) && (cs != [] || (bs == [] <==> i == 0))
  {
    hide LegalBlocks, PlayBlocks;
    PlayConcat(input[..0], bs, cs);
  }

  lemma MeansNothing(input: seq<byte>, x: bits)
    ensures Means(input, 0, 0, []) && Wrote(x, x, [], false) && Short([])
  {
    assert input[..0] == [];
  }

  lemma MeansBound(input: seq<byte>, begin: nat, i: nat, bs: seq<Block>)
    requires Means(input, begin, i, bs)
    ensures begin <= i <= |input| && (bs == [] <==> begin == i)
  {
  }

  lemma ShortMore(bs: seq<Block>, cs: seq<Block>)
    requires Short(bs) && Short(cs)
    ensures Short(bs + cs)
  {
  }

  /** One block of at most 256 KiB: the candidate is its parse, and it or the stored pieces are written, whichever
      is reckoned cheaper. */
  method OneBlock(s: Sdefl, input: seq<byte>, begin: nat, blkEnd: nat, lvl: nat, ghost K: set<nat>)
    returns (ghost bs: seq<Block>, ghost cand: Block, ghost K': set<nat>)
    requires s.Shape() && s.w.Valid() && s.seqs == [] && begin <= blkEnd <= |input| && lvl <= LVL_MAX
    requires Tallied(s.freqLit[..], s.freqOff[..], []) && Chains(s.tbl[..], s.prv[..], input, K, begin)
    modifies s, s.w, s.tbl, s.prv, s.freqLit, s.freqOff, s.wordLit, s.wordOff, s.lenLit, s.lenOff
    ensures s.w.Valid() && s.seqs == [] && Tallied(s.freqLit[..], s.freqOff[..], [])
    ensures K' == Parse(input, K, begin, blkEnd, lvl).seen && Chains(s.tbl[..], s.prv[..], input, K', blkEnd)
    ensures Wrote(old(s.w.Written()), s.w.Written(), bs, blkEnd == |input|) && Means(input, begin, blkEnd, bs)
    ensures Short(bs)
    ensures Candidate(cand, Parse(input, K, begin, blkEnd, lvl).toks)
    ensures bs == Cheaper(cand, input[begin..blkEnd])
    ensures |s.w.Written()| <= old(|s.w.Written()|) + 8 * (5 * ((blkEnd - begin + 65534) / 65535) + (blkEnd - begin) + 3) + 2
  {
    hide *;
    ShapeParts(s);
    Lengths(s);
    ghost var all := Parse(input, K, begin, blkEnd, lvl);
    ProgressStart(input, K, begin, blkEnd, lvl, s.freqLit[..], s.freqOff[..]);
    var i, litlen := begin, 0;
    K' := K;
    while i < blkEnd
      invariant begin <= i <= blkEnd && Chains(s.tbl[..], s.prv[..], input, K', i)
      invariant Progress(input, K', i, litlen, blkEnd, lvl, all, s.seqs, s.freqLit[..], s.freqOff[..])
      invariant s.w.Valid() && s.w.Written() == old(s.w.Written())
    {
      i, litlen, K' := Advance(s, input, i, litlen, blkEnd, lvl, K', all);
    }
    ProgressBound(input, K', i, litlen, blkEnd, lvl, all, s.seqs, s.freqLit[..], s.freqOff[..]);
    if litlen > 0 {
      ProgressRun(input, K', i, litlen, blkEnd, lvl, all, s.seqs, s.freqLit[..], s.freqOff[..]);
      s.seqs := s.seqs + [Seq(i - litlen, litlen)];
    }
    ProgressEnd(input, K', blkEnd, lvl, all, s.seqs, s.freqLit[..], s.freqOff[..]);
    ParseMeans(input, K, begin, blkEnd, lvl);
    bs, cand := Flush(s, blkEnd == |input|, input, begin, blkEnd);
  }

  /** Empties the hash table. */
  method ClearTbl(s: Sdefl, ghost input: seq<byte>)
    requires s.Shape()
    modifies s.tbl
    ensures Chains(s.tbl[..], s.prv[..], input, {}, 0)
  {
    forall n | 0 <= n < s.tbl.Length { s.tbl[n] := NIL; }
    ChainsEmpty(s.tbl[..], s.prv[..], input);
  }

  // ------------------------------------------------------------- whole input

  /** Where block `n` begins; the input is cut every 256 KiB. */
  function Bound(input: seq<byte>, n: nat): (i: nat)
    ensures i <= |input|
  {
    if n * 262144 < |input| then n * 262144 else |input|
  }

  /** The parse of block `n`. Positions inserted in earlier blocks are still found. */
  ghost function Plan(input: seq<byte>, lvl: nat, n: nat): Parsed
    requires lvl <= LVL_MAX
    decreases n
  {
    Parse(input, if n == 0 then {} else Plan(input, lvl, n - 1).seen, Bound(input, n), Bound(input, n + 1), lvl)
  }

  /** The blocks written for the candidates. */
  ghost function Emitted(input: seq<byte>, cands: seq<Block>): seq<Block> {
    if cands == [] then []
    else
      var n := |cands| - 1;
      Emitted(input, cands[..n])
      + Cheaper(cands[n], if Bound(input, n) <= Bound(input, n + 1) then input[Bound(input, n)..Bound(input, n + 1)] else [])
  }

  /** Every candidate is made from the parse of its block. */
  ghost predicate Planned(input: seq<byte>, lvl: nat, cands: seq<Block>)
    requires lvl <= LVL_MAX
  {
    forall n :: 0 <= n < |cands| ==> Candidate(cands[n], Plan(input, lvl, n).toks)
  }

  /** `bs` are the blocks for the whole input: one for every 256 KiB begun, and one if it is empty. */
  ghost predicate Compressed(input: seq<byte>, lvl: nat, bs: seq<Block>, cands: seq<Block>) {
    && lvl <= LVL_MAX && Planned(input, lvl, cands) && bs == Emitted(input, cands)
    && |cands| == if input == [] then 1 else (|input| + 262143) / 262144
  }

  /** What the loop has done after some blocks. */
  ghost predicate Underway(input: seq<byte>, lvl: nat, i: nat, K: set<nat>, bs: seq<Block>, cands: seq<Block>) {
    && lvl <= LVL_MAX && Planned(input, lvl, cands) && bs == Emitted(input, cands) && i == |cands| * 262144
    && K == if cands == [] then {} else Plan(input, lvl, |cands| - 1).seen
  }

  lemma UnderwayStart(input: seq<byte>, lvl: nat)
    requires lvl <= LVL_MAX
    ensures Underway(input, lvl, 0, {}, [], [])
  {
  }

  lemma BlockDone(input: seq<byte>, lvl: nat, i: nat, K: set<nat>, bs: seq<Block>, cands: seq<Block>, cs: seq<Block>,
                  cand: Block)
    requires Underway(input, lvl, i, K, bs, cands) && (i < |input| || i == 0)
    requires var end := if i + 262144 < |input| then i + 262144 else |input|;
      Candidate(cand, Parse(input, K, i, end, lvl).toks) && cs == Cheaper(cand, input[i..end])
    ensures var end := if i + 262144 < |input| then i + 262144 else |input|;
      && (end < |input| ==> Underway(input, lvl, end, Parse(input, K, i, end, lvl).seen, bs + cs, cands + [cand]))
      && (end == |input| ==> Compressed(input, lvl, bs + cs, cands + [cand]))
  {
    hide Candidate, Cheaper, Parse;
    var all, n := cands + [cand], |cands|;
    assert all[..n] == cands && all[n] == cand;
    assert Bound(input, n) == i && Bound(input, n + 1) == if i + 262144 < |input| then i + 262144 else |input|;
    assert Plan(input, lvl, n) == Parse(input, K, i, Bound(input, n + 1), lvl);
    hide Plan;
    forall k | 0 <= k < |all| ensures Candidate(all[k], Plan(input, lvl, k).toks) {
      if k < n { assert all[k] == cands[k]; }
    }
    hide Bound;
    if Bound(input, n + 1) == |input| { BlocksNeeded(|input|, n); }
  }

  lemma BlocksNeeded(len: nat, n: nat)
    requires n * 262144 < len || n == 0
    requires (n + 1) * 262144 >= len
    ensures n + 1 == if len == 0 then 1 else (len + 262143) / 262144
  {
  }

  /** `sdefl_compr`: the blocks written are those of the parse and mean the input; there are none only if it is
      empty. */
  method Compr(s: Sdefl, input: seq<byte>, lvl: nat) returns (ghost bs: seq<Block>, ghost cands: seq<Block>)
    requires s.Shape() && s.w.Valid() && s.w.bitcnt == 0 && s.seqs == [] && lvl <= LVL_MAX
    requires Tallied(s.freqLit[..], s.freqOff[..], [])
    modifies s, s.w, s.tbl, s.prv, s.freqLit, s.freqOff, s.wordLit, s.wordOff, s.lenLit, s.lenOff
    ensures s.w.Valid() && s.w.bitcnt == 0 && s.seqs == [] && Tallied(s.freqLit[..], s.freqOff[..], [])
    ensures Means(input, 0, |input|, bs) && Short(bs) && Compressed(input, lvl, bs, cands)
    ensures exists y :: Wrote(old(s.w.Written()), y, bs, true) && s.w.Written() == y + IntBits(0, Align(|y|))
  {
    hide *;
    ghost var x := s.w.Written();
    ClearTbl(s, input);
    ghost var K: set<nat> := {};
    var i: nat := 0;
    bs, cands := [], [];
    MeansNothing(input, x);
    UnderwayStart(input, lvl);
    var going := true;
    while going
      invariant s.w.Valid() && s.seqs == [] && Tallied(s.freqLit[..], s.freqOff[..], [])
      invariant i <= |input| && Chains(s.tbl[..], s.prv[..], input, K, i) && Means(input, 0, i, bs)
      invariant Wrote(x, s.w.Written(), bs, !going) && (!going ==> i == |input|) && Short(bs)
      invariant going ==> (i < |input| || i == 0) && Underway(input, lvl, i, K, bs, cands)
      invariant !going ==> Compressed(input, lvl, bs, cands)
      decreases going, |input| - i
    {
      var begin := i;
      var blkEnd := if i + 262144 < |input| then i + 262144 else |input|;
      ghost var y := s.w.Written();
      ghost var cs, cand, L := OneBlock(s, input, begin, blkEnd, lvl, K);
      MeansBound(input, begin, blkEnd, cs);
      MeansBound(input, 0, begin, bs);
      WroteMore(x, y, s.w.Written(), bs, cs, blkEnd == |input|);
      MeansMore(input, begin, blkEnd, bs, cs);
      ShortMore(bs, cs);
      BlockDone(input, lvl, begin, K, bs, cands, cs, cand);
      K, bs, cands := L, bs + cs, cands + [cand];
      i := blkEnd;
      going := i < |input|;
    }
    ghost var y := s.w.Written();
    s.w.PutAlign();
    assert Wrote(x, y, bs, true) && s.w.Written() == y + IntBits(0, Align(|y|));
  }
}
