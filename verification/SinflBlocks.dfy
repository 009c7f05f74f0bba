/** The state machine of the inflater (`sinfl_decompress`), block by block. */
module SinflBlocks {
  import opened Bits
  import opened Options
  import opened Canonical
  import opened Precode
  import opened Format
  import opened Reference
  import opened SinflBuild
  import opened SinflBits
  import opened Sinfl
  import RoundTrip

  // ----------------------------------------------------------------- stored

  lemma AlignedCount(s: Sinfl)
    requires s.Valid()
    ensures s.bitcnt % 8 == Align(s.Pos())
    ensures s.bitcnt % 8 == 0 ==> s.bitcnt / 8 <= s.bitptr && 8 * (s.bitptr - s.bitcnt / 8) == s.Pos()
    ensures s.bitcnt < 64
    ensures |s.S()| == 8 * s.size && s.size + SLACK <= |s.mem|
  {
    hide BufOk, BytesToBits;
    var p := s.Pos();
    assert p == 8 * s.bitptr - s.bitcnt;
  }

  /** Dropping the buffer at a byte boundary. */
  method Rewind(s: Sinfl)
    requires s.Valid() && s.bitcnt % 8 == 0
    modifies s
    ensures s.Valid() && s.Pos() == old(s.Pos()) && s.bitcnt == 0 && 8 * s.bitptr == s.Pos()
  {
    hide BytesToBits;
    AlignedCount(s);
    BufEmpty(BytesToBits(s.mem), s.Pos());
    s.bitptr := s.bitptr - s.bitcnt / 8;
    s.bitbuf, s.bitcnt := 0, 0;
  }

  /** The bytes of a stored block. */
  lemma InputBytes(s: Sinfl, i: nat, len: nat)
    requires s.Valid() && 8 * i + 8 * len <= |s.S()|
    ensures i + len <= |s.mem| && forall k :: 0 <= k < len ==> BytesAt(s.S(), 8 * i, len)[k] == s.mem[i + k]
  {
    hide BufOk, BytesToBits, BytesAt;
    var data := s.mem[..s.size];
    BytesSlice(data, i, len);
    RoundTrip.BytesRead(s.S(), 8 * i, data[i..i + len]);
  }

  lemma RawUnfold(S: bits, p: nat, out: seq<byte>, cap: nat, last: bool)
    requires RawStep(S, p, out, cap, last) != Stop(Undefined)
    ensures var q := p + Align(p);
      && q + 32 <= |S|
      && var len := Field(S, q, 16);
         var r := RawStep(S, p, out, cap, last);
         if len + Field(S, q + 16, 16) != 65535 || 8 * len > |S| - (q + 32) || len == 0 then r == Stop(Returns(out))
         else |out| + len <= cap && r == Raw(out + BytesAt(S, q + 32, len), q + 32 + 8 * len, last)
  {
    hide Field, BytesAt;
  }

  /** A stored block behind its header bits: `more` unless its length is bad. */
  method StoredBlock(s: Sinfl, out: array<byte>, o: nat, cap: nat, ghost last: bool) returns (n: nat, more: bool)
    requires s.Valid() && s.bitcnt >= 53 && o <= cap <= out.Length
    requires RawStep(s.S(), s.Pos(), out[..o], cap, last) != Stop(Undefined)
    modifies s, out
    ensures s.Valid() && n <= cap && out[cap..] == old(out[cap..])
    ensures RawStep(s.S(), old(s.Pos()), old(out[..o]), cap, last) ==
      if more then Raw(out[..n], s.Pos(), last) else Stop(Returns(out[..n]))
  {
    hide *;
    ghost var p, was := s.Pos(), out[..o];
    RawUnfold(s.S(), p, was, cap, last);
    AlignedCount(s);
    var skip := s.Get(s.bitcnt % 8);
    AlignedCount(s);
    AlignedZero(p);
    Pow2Values();
    var len := s.Get(16);
    var nlen := s.Get(16);
    AlignedCount(s);
    Rewind(s);
    if len != 65535 - nlen { return o, false; }
    if s.bitptr + len > s.size || len == 0 { return o, false; }
    InputBytes(s, s.bitptr, len);
    forall i | 0 <= i < len { out[o + i] := s.mem[s.bitptr + i]; }
    assert out[..o + len] == was + BytesAt(s.S(), 8 * s.bitptr, len);
    s.Skip(len);
    return o + len, true;
  }

  lemma AlignedZero(p: nat)
    ensures Align(p + Align(p)) == 0 && Align(p) < 8
  {
  }

  // ---------------------------------------------------------------- dynamic

  /** The lengths of the code length code, in the order in which they are sent. */
  method ReadPre(s: Sinfl, cnt: nat) returns (nlens: array<nat>)
    requires s.Valid() && cnt <= PRE_MAX && s.Pos() + 3 * cnt <= |s.S()|
    modifies s
    ensures s.Valid() && s.Pos() == old(s.Pos()) + 3 * cnt
    ensures fresh(nlens) && nlens[..] == PreLens(s.S(), old(s.Pos()), cnt)
  {
    hide *;
    ghost var p := s.Pos();
    nlens := new nat[19](_ => 0);
    PreNone(s.S(), p, nlens[..]);
    var n := 0;
    while n < cnt
      invariant n <= cnt && s.Valid() && s.Pos() == p + 3 * n
      invariant nlens[..] == PreLens(s.S(), p, n)
    {
      PreNext(s.S(), p, n);
      ghost var was := nlens[..];
      var len := s.RefillGet(3);
      nlens[PermAt(n)] := len;
      assert nlens[..] == was[PermAt(n) := len];
      n := n + 1;
    }
  }

  lemma PreNone(S: bits, p: nat, nlens: seq<nat>)
    requires p <= |S| && |nlens| == 19 && forall i :: 0 <= i < 19 ==> nlens[i] == 0
    ensures nlens == PreLens(S, p, 0)
  {
  }

  lemma PreNext(S: bits, p: nat, n: nat)
    requires n < PRE_MAX && p + 3 * (n + 1) <= |S|
    ensures PermAt(n) < |PreLens(S, p, n)| == 19
    ensures PreLens(S, p, n + 1) == PreLens(S, p, n)[PermAt(n) := Field(S, p + 3 * n, 3)]
  {
    hide Field;
  }

  /** Copies the last length `cnt` times. */
  method RepeatLast(lens: array<nat>, n: nat, cnt: nat)
    requires 0 < n && n + cnt <= lens.Length
    modifies lens
    ensures lens[..n + cnt] == old(lens[..n]) + Repeat(cnt, old(lens[n - 1]))
  {
    hide Repeat;
    var i, k := cnt, n;
    while i > 0
      invariant 0 <= i <= cnt && k == n + (cnt - i)
      invariant forall j :: 0 <= j < n ==> lens[j] == old(lens[j])
      invariant forall j :: n <= j < k ==> lens[j] == old(lens[n - 1])
    {
      lens[k] := lens[k - 1];
      i, k := i - 1, k + 1;
    }
  }

  method AppendZeros(lens: array<nat>, n: nat, cnt: nat)
    requires n + cnt <= lens.Length
    modifies lens
    ensures lens[..n + cnt] == old(lens[..n]) + Repeat(cnt, 0)
  {
    hide Repeat;
    forall i | n <= i < n + cnt { lens[i] := 0; }
  }

  lemma ReadUnfold(pre: Lens, S: bits, p: nat, acc: seq<nat>, total: nat)
    requires |pre| == PRE_MAX && p <= |S| && |acc| < total && ReadLens(pre, S, p, acc, total).Some?
    ensures SymAt(pre, S, p).Some? && SymAt(pre, S, p).value < 19
    ensures var sym := SymAt(pre, S, p).value;
      var q := p + SymLen(pre, sym);
      && q + ExtraBits(sym) <= |S| && (sym == 16 ==> acc != [])
      && var x := Field(S, q, ExtraBits(sym));
         var acc' := Longer(acc, sym, x);
         |acc'| <= MAX_LENS && ReadLens(pre, S, p, acc, total) == ReadLens(pre, S, q + ExtraBits(sym), acc', total)
  {
    hide Field, SymAt, SymLen, ItemSym, ItemExtra, Item, RunLength, RunValue;
    var sym := SymAt(pre, S, p).value;
    var q := p + SymLen(pre, sym);
    ItemReadable(sym, Field(S, q, ExtraBits(sym)));
    LongerExtend(acc, sym, Field(S, q, ExtraBits(sym)));
  }

  /** The lengths after one more code length symbol with the extra bits `x`. */
  function Longer(acc: seq<nat>, sym: nat, x: nat): (r: seq<nat>)
    requires sym == 16 ==> acc != []
  {
    if sym == 16 then acc + Repeat(3 + x, acc[|acc| - 1])
    else if sym == 17 then acc + Repeat(3 + x, 0)
    else if sym == 18 then acc + Repeat(11 + x, 0)
    else acc + [sym]
  }

  lemma LongerExtend(acc: seq<nat>, sym: nat, x: nat)
    requires sym < PRE_MAX && x < Pow2(ExtraBits(sym)) && (sym == 16 ==> acc != [])
    ensures ItemSym(Item(sym, x)) == sym && Longer(acc, sym, x) == Extend(acc, Item(sym, x))
  {
    ItemReadable(sym, x);
  }

  /** The lengths of the literal and distance codes. */
  method ReadLensLoop(s: Sinfl, hlens: array<nat>, lens: array<nat>, total: nat, ghost pre: Lens)
    requires s.Valid() && s.Pos() <= |s.S()| && TableOk(hlens[..], PRE_BITS, pre) && |pre| == PRE_MAX
    requires hlens.Length <= 65536 && lens.Length == MAX_LENS && hlens != lens
    requires ReadLens(pre, s.S(), s.Pos(), [], total).Some?
    modifies s, lens
    ensures s.Valid() && total <= MAX_LENS && s.Pos() <= |s.S()|
    ensures var r := ReadLens(pre, s.S(), old(s.Pos()), [], total).value;
      |r.0| >= total && r.0[..total] == lens[..total] && r.1 == s.Pos()
  {
    hide *;
    ghost var r := ReadLens(pre, s.S(), s.Pos(), [], total);
    var n := 0;
    assert lens[..0] == [];
    MaxLens();
    while n < total
      invariant n <= lens.Length && s.Valid() && s.Pos() <= |s.S()|
      invariant r == ReadLens(pre, s.S(), s.Pos(), lens[..n], total) && TableOk(hlens[..], PRE_BITS, pre)
      decreases total - n
    {
      s.Refill();
      BudgetAtLeast(s.Pos());
      ReadUnfold(pre, s.S(), s.Pos(), lens[..n], total);
      ghost var acc := lens[..n];
      var sym := s.Decode(hlens, PRE_BITS, pre);
      ExtraIs(sym);
      if sym == 16 {
        var i := s.RefillGet(2);
        LongerLast(acc, i);
        RepeatLast(lens, n, 3 + i);
        n := n + 3 + i;
      } else if sym == 17 {
        var i := s.RefillGet(3);
        LongerZeros(acc, 17, i, 3);
        AppendZeros(lens, n, 3 + i);
        n := n + 3 + i;
      } else if sym == 18 {
        var i := s.RefillGet(7);
        LongerZeros(acc, 18, i, 11);
        AppendZeros(lens, n, 11 + i);
        n := n + 11 + i;
      } else {
        LongerOne(acc, sym, Field(s.S(), s.Pos(), 0));
        lens[n] := sym;
        assert lens[..n + 1] == acc + [sym];
        n := n + 1;
      }
    }
    ReadEnd(pre, s.S(), s.Pos(), lens[..n], total);
  }

  lemma MaxLens()
    ensures MAX_LENS == 320 && PRE_MAX == 19
  {
  }

  lemma ReadEnd(pre: Lens, S: bits, p: nat, acc: seq<nat>, total: nat)
    requires |pre| == PRE_MAX && p <= |S| && |acc| >= total
    ensures ReadLens(pre, S, p, acc, total) == Some((acc, p))
  {
  }

  lemma ExtraIs(sym: nat)
    ensures ExtraBits(sym) == if sym == 16 then 2 else if sym == 17 then 3 else if sym == 18 then 7 else 0
  {
  }

  lemma LongerLast(acc: seq<nat>, x: nat)
    requires acc != []
    ensures Longer(acc, 16, x) == acc + Repeat(3 + x, acc[|acc| - 1])
  {
  }

  lemma LongerZeros(acc: seq<nat>, sym: nat, x: nat, base: nat)
    requires (sym == 17 && base == 3) || (sym == 18 && base == 11)
    ensures Longer(acc, sym, x) == acc + Repeat(base + x, 0)
  {
  }

  lemma LongerOne(acc: seq<nat>, sym: nat, x: nat)
    requires sym != 16 && sym != 17 && sym != 18
    ensures Longer(acc, sym, x) == acc + [sym]
  {
  }

  /** Code lengths that are read are lengths. */
  lemma {:induction false} ReadBounded(pre: Lens, S: bits, p: nat, acc: seq<nat>, total: nat)
    requires |pre| == PRE_MAX && p <= |S| && Bounded(acc, 15) && ReadLens(pre, S, p, acc, total).Some?
    ensures Bounded(ReadLens(pre, S, p, acc, total).value.0, 15)
    decreases total - |acc|
  {
    hide Field, SymAt, SymLen, Longer;
    if |acc| < total {
      ReadUnfold(pre, S, p, acc, total);
      var sym := SymAt(pre, S, p).value;
      var q := p + SymLen(pre, sym);
      LongerBounded(acc, sym, Field(S, q, ExtraBits(sym)));
      ReadBounded(pre, S, q + ExtraBits(sym), Longer(acc, sym, Field(S, q, ExtraBits(sym))), total);
    }
  }

  lemma LongerBounded(acc: seq<nat>, sym: nat, x: nat)
    requires Bounded(acc, 15) && sym < 19 && (sym == 16 ==> acc != [])
    ensures Bounded(Longer(acc, sym, x), 15) && |Longer(acc, sym, x)| > |acc|
  {
  }

  /** The tables are those of the two codes `h`. */
  ghost predicate Tables(s: Sinfl, h: Trees)
    reads s.lits, s.dsts
  {
    && TablesRoom(s.lits, s.dsts) && |h.lit| <= LIT_MAX && |h.dst| <= OFF_MAX
    && TableOk(s.lits[..], LIT_BITS, h.lit) && TableOk(s.dsts[..], OFF_BITS, h.dst)
  }

  /** Builds the tables of a block (`sinfl_build` twice). */
  method BuildTables(s: Sinfl, lens: array<nat>, nlit: nat, ndist: nat)
    requires TablesRoom(s.lits, s.dsts) && lens != s.lits && lens != s.dsts
    requires nlit <= LIT_MAX && ndist <= OFF_MAX && nlit + ndist <= lens.Length
    requires Bounded(lens[..nlit], 15) && Bounded(lens[nlit..nlit + ndist], 15)
    requires Fits(lens[..nlit]) && Fits(lens[nlit..nlit + ndist])
    modifies s.lits, s.dsts
    ensures Tables(s, Trees(lens[..nlit], lens[nlit..nlit + ndist]))
  {
    hide Fits, Bounded, TableOk, Pow2;
    Build(s.lits, lens[..nlit], LIT_BITS, 15);
    Build(s.dsts, lens[nlit..nlit + ndist], OFF_BITS, 15);
  }

  lemma DynStart(S: bits, p: nat, last: bool)
    requires DynStep(S, p, last) != Stop(Undefined)
    ensures p + 14 <= |S| && p + 14 + 3 * PreCount(S, p) <= |S|
    ensures PreCount(S, p) == 4 + Field(S, p + 10, 4) && PreCount(S, p) <= 19
    ensures var pre := PreLens(S, p + 14, PreCount(S, p));
      Fits(pre) && Bounded(pre, 7)
      && DynStep(S, p, last) == DynLens(S, p, pre, p + 14 + 3 * PreCount(S, p), last)
  {
    hide Field, PreLens, DynLens, Fits;
  }

  /** What a dynamic header without errors holds. */
  ghost predicate DynRead(S: bits, p: nat, pre: Lens, q: nat, last: bool, nlit: nat, ndist: nat) {
    && |pre| == PRE_MAX && p + 14 <= q <= |S| && 257 <= nlit <= 288 && 1 <= ndist <= 32
    && nlit == 257 + Field(S, p, 5) && ndist == 1 + Field(S, p + 5, 5)
    && var r := ReadLens(pre, S, q, [], nlit + ndist);
       && r.Some? && |r.value.0| >= nlit + ndist && Bounded(r.value.0, 15)
       && Fits(r.value.0[..nlit]) && Fits(r.value.0[nlit..nlit + ndist])
       && DynLens(S, p, pre, q, last) == Enter(Trees(r.value.0[..nlit], r.value.0[nlit..nlit + ndist]), r.value.1, last)
  }

  lemma DynRest(S: bits, p: nat, pre: Lens, q: nat, last: bool)
    requires p + 14 <= q <= |S| && |pre| == PRE_MAX && DynLens(S, p, pre, q, last) != Stop(Undefined)
    ensures DynRead(S, p, pre, q, last, 257 + Field(S, p, 5), 1 + Field(S, p + 5, 5))
  {
    hide Field, ReadLens, Fits, Bounded;
    Pow2Values();
    var nlit, ndist := 257 + Field(S, p, 5), 1 + Field(S, p + 5, 5);
    EmptyBounded();
    ReadBounded(pre, S, q, [], nlit + ndist);
  }

  lemma EmptyBounded()
    ensures Bounded([], 15)
  {
  }

  lemma DynParts(S: bits, p: nat, pre: Lens, q: nat, last: bool, nlit: nat, ndist: nat)
    requires DynRead(S, p, pre, q, last, nlit, ndist)
    ensures |pre| == PRE_MAX && p + 14 <= q <= |S| && 257 <= nlit <= 288 && 1 <= ndist <= 32
    ensures var r := ReadLens(pre, S, q, [], nlit + ndist);
      && r.Some? && |r.value.0| >= nlit + ndist && Bounded(r.value.0, 15)
      && Fits(r.value.0[..nlit]) && Fits(r.value.0[nlit..nlit + ndist])
      && DynLens(S, p, pre, q, last) == Enter(Trees(r.value.0[..nlit], r.value.0[nlit..nlit + ndist]), r.value.1, last)
  {
    hide Field, ReadLens, Fits, Bounded, DynLens;
  }

  /** The header of a dynamic block: both tables are built. */
  method DynBlock(s: Sinfl, ghost last: bool) returns (ghost h: Trees)
    requires s.Valid() && s.Pos() <= |s.S()| && TablesRoom(s.lits, s.dsts)
    requires DynStep(s.S(), s.Pos(), last) != Stop(Undefined)
    modifies s, s.lits, s.dsts
    ensures s.Valid() && Tables(s, h) && s.Pos() <= |s.S()|
    ensures DynStep(s.S(), old(s.Pos()), last) == Enter(h, s.Pos(), last)
  {
    hide *;
    ghost var S, p := s.S(), s.Pos();
    DynStart(S, p, last);
    DynRest(S, p, PreLens(S, p + 14, PreCount(S, p)), p + 14 + 3 * PreCount(S, p), last);
    MaxLens();
    s.Refill();
    BudgetAtLeast(p);
    var nlit := s.Get(5);
    nlit := 257 + nlit;
    var ndist := s.Get(5);
    ndist := 1 + ndist;
    var nlen := s.Get(4);
    nlen := 4 + nlen;
    var nlens := ReadPre(s, nlen);
    var hlens := new nat[PRE_TBL_SIZE];
    PreRoom();
    Build(hlens, nlens[..], PRE_BITS, 7);
    var lens := new nat[MAX_LENS];
    DynParts(S, p, nlens[..], s.Pos(), last, nlit, ndist);
    ReadLensLoop(s, hlens, lens, nlit + ndist, nlens[..]);
    ghost var r := ReadLens(nlens[..], S, p + 14 + 3 * nlen, [], nlit + ndist).value;
    SliceSame(r.0, lens[..], nlit, nlit + ndist);
    LensSlices(r.0, nlit, nlit + ndist);
    BuildTables(s, lens, nlit, ndist);
    h := Trees(lens[..nlit], lens[nlit..nlit + ndist]);
  }

  lemma PreRoom()
    ensures PRE_TBL_SIZE <= 65536 && PRE_TBL_SIZE >= Pow2(PRE_BITS) + Pow2(MAX_CODE_LEN)
    ensures PRE_BITS == 7 && MAX_CODE_LEN == 15 && SinflBuild.SYM_MAX == 288 && LIT_MAX == 288 && OFF_MAX == 32
  {
    Pow2Values();
  }

  lemma SliceSame(a: seq<nat>, b: seq<nat>, n: nat, m: nat)
    requires n <= m <= |a| && m <= |b| && a[..m] == b[..m]
    ensures a[..n] == b[..n] && a[n..m] == b[n..m]
  {
    assert a[..n] == a[..m][..n] && b[..n] == b[..m][..n];
    assert a[n..m] == a[..m][n..] && b[n..m] == b[..m][n..];
  }

  lemma LensSlices(a: seq<nat>, n: nat, m: nat)
    requires n <= m <= |a| && Bounded(a, 15)
    ensures Bounded(a[..n], 15) && Bounded(a[n..m], 15)
  {
  }
}
