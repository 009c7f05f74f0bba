/** Block bodies and the whole inflater (`sinfl_decompress`, `sinflate`). */
module SinflDecompress {
  import opened Bits
  import opened Canonical
  import opened MatchCodes
  import opened Format
  import opened Reference
  import opened SinflTables
  import opened SinflBuild
  import opened Sinfl
  import opened SinflBlocks
  import CopyMatch

  // ------------------------------------------------------------------ fixed

  lemma {:induction false} CountAppend(a: Lens, b: Lens, l: nat)
    ensures Count(a + b, l) == Count(a, l) + Count(b, l)
  {
    if b == [] {
      assert a + b == a;
    } else {
      assert (a + b)[..|a + b| - 1] == a + b[..|b| - 1];
      CountAppend(a, b[..|b| - 1], l);
    }
  }

  lemma {:induction false} CountRepeat(n: nat, v: nat, l: nat)
    ensures Count(Repeat(n, v), l) == if v == l then n else 0
  {
    if n > 0 {
      assert Repeat(n, v)[..n - 1] == Repeat(n - 1, v);
      CountRepeat(n - 1, v, l);
    }
  }

  lemma FixedCounts(l: nat)
    ensures Count(FixedTrees().lit, l) == if l == 7 then 24 else if l == 8 then 152 else if l == 9 then 112 else 0
    ensures Count(FixedTrees().dst, l) == if l == 5 then 32 else 0
  {
    hide Count, Repeat;
    var a, b, c, d := Repeat(144, 8), Repeat(112, 9), Repeat(24, 7), Repeat(8, 8);
    CountAppend(a + b + c, d, l);
    CountAppend(a + b, c, l);
    CountAppend(a, b, l);
    CountRepeat(144, 8, l);
    CountRepeat(112, 9, l);
    CountRepeat(24, 7, l);
    CountRepeat(8, 8, l);
    CountRepeat(32, 5, l);
  }

  /** The counts of the fixed codes up to length nine. */
  lemma FixedCovered()
    ensures Covered(FixedTrees().lit, 9) == 512 && Covered(FixedTrees().dst, 9) == 512
  {
    hide Count, FixedTrees;
    var lit, dst := FixedTrees().lit, FixedTrees().dst;
    forall l: nat | 1 <= l <= 9
      ensures Count(lit, l) == if l == 7 then 24 else if l == 8 then 152 else if l == 9 then 112 else 0
      ensures Count(dst, l) == if l == 5 then 32 else 0
    {
      FixedCounts(l);
    }
    assert Covered(lit, 6) == 0 by { CoveredNone(lit, 6); }
    assert Covered(dst, 4) == 0 by { CoveredNone(dst, 4); }
    CoveredNext(lit, 7); CoveredNext(lit, 8); CoveredNext(lit, 9);
    CoveredNext(dst, 5); CoveredNext(dst, 6); CoveredNext(dst, 7); CoveredNext(dst, 8); CoveredNext(dst, 9);
  }

  lemma CoveredNext(lens: Lens, l: nat)
    requires l > 0
    ensures Covered(lens, l) == 2 * Covered(lens, l - 1) + Count(lens, l)
  {
  }

  lemma {:induction false} CoveredNone(lens: Lens, l: nat)
    requires forall k :: 1 <= k <= l ==> Count(lens, k) == 0
    ensures Covered(lens, l) == 0
  {
    if l > 0 { CoveredNone(lens, l - 1); }
  }

  /** The fixed codes are complete. */
  lemma FixedComplete()
    ensures Complete(FixedTrees().lit) && Complete(FixedTrees().dst)
    ensures Bounded(FixedTrees().lit, 15) && Bounded(FixedTrees().dst, 15)
    ensures |FixedTrees().lit| == 288 && |FixedTrees().dst| == 32
  {
    FixedCovered();
    FixedBounded();
    hide Count, FixedTrees, Covered;
    Pow2Values();
    CoveredTop(FixedTrees().lit, 9, 15);
    CoveredTop(FixedTrees().dst, 9, 15);
  }

  lemma FixedBounded()
    ensures Bounded(FixedTrees().lit, 9) && Bounded(FixedTrees().dst, 9)
    ensures |FixedTrees().lit| == 288 && |FixedTrees().dst| == 32
  {
  }

  /** The tables of a block with fixed codes. */
  method FixedBlock(s: Sinfl) returns (ghost h: Trees)
    requires TablesRoom(s.lits, s.dsts)
    modifies s.lits, s.dsts
    ensures h == FixedTrees() && Tables(s, h)
  {
    var lens := new nat[320];
    forall n | 0 <= n <= 143 { lens[n] := 8; }
    forall n | 144 <= n <= 255 { lens[n] := 9; }
    forall n | 256 <= n <= 279 { lens[n] := 7; }
    forall n | 280 <= n <= 287 { lens[n] := 8; }
    forall n | 0 <= n < 32 { lens[288 + n] := 5; }
    FixedSlices(lens[..]);
    hide FixedTrees, TableOk, Pow2, Complete;
    FixedComplete();
    CompleteFits(FixedTrees().lit);
    CompleteFits(FixedTrees().dst);
    h := Trees(lens[..288], lens[288..288 + 32]);
    BuildTables(s, lens, 288, 32);
  }

  lemma FixedSlices(a: seq<nat>)
    requires |a| == 320 && forall n :: 0 <= n < 320 ==>
      a[n] == if n <= 143 then 8 else if n <= 255 then 9 else if n <= 279 then 7 else if n <= 287 then 8 else 5
    ensures a[..288] == FixedTrees().lit && a[288..320] == FixedTrees().dst
  {
    assert |FixedTrees().lit| == 288;
    forall n | 0 <= n < 288 ensures a[n] == FixedTrees().lit[n] { }
  }

  // ------------------------------------------------------------- block body

  datatype Kind = Halted | Going | Ended

  /** The step `r` ends with `n` bytes of output in `out`, at offset `p`. */
  ghost predicate StepIs(r: BlockStep, kind: Kind, out: seq<byte>, p: nat) {
    match kind
    case Halted => r == Halt(Returns(out))
    case Going => r == More(out, p)
    case Ended => r == End(out, p)
  }

  lemma SymbolsUnfold(h: Trees, S: bits, p: nat, out: seq<byte>, cap: nat)
    requires Symbols(h, S, p, out, cap) != Halt(Undefined)
    ensures SymAt(h.lit, S, p).Some?
    ensures var s := SymAt(h.lit, S, p).value;
      var q := p + SymLen(h.lit, s);
      q <= |S| && Symbols(h, S, p, out, cap) ==
        if s >= 256 then Tail(h, S, s, p, q, out, cap)
        else if |out| >= cap then Halt(Returns(out))
        else Second(h, S, p, q, out + [s], cap)
  {
    hide SymAt, SymLen, Tail, Second;
  }

  lemma SecondUnfold(h: Trees, S: bits, origin: nat, p: nat, out: seq<byte>, cap: nat)
    requires Second(h, S, origin, p, out, cap) != Halt(Undefined)
    ensures SymAt(h.lit, S, p).Some?
    ensures var t := SymAt(h.lit, S, p).value;
      var q := p + SymLen(h.lit, t);
      q <= |S| && (t < 256 ==> |out| < cap)
      && Second(h, S, origin, p, out, cap) ==
        if t >= 256 then Tail(h, S, t, origin, q, out, cap) else More(out + [t], q)
  {
    hide SymAt, SymLen, Tail;
  }

  /** The length of a match, behind its symbol. */
  lemma TailUnfold(h: Trees, S: bits, sym: nat, origin: nat, p: nat, out: seq<byte>, cap: nat)
    requires 256 < sym < 286 && p <= |S| && Tail(h, S, sym, origin, p, out, cap) != Halt(Undefined)
    ensures var lx := LengthExtra(sym - 257);
      && p + lx <= |S| && SymAt(h.dst, S, p + lx).Some?
      && var d := SymAt(h.dst, S, p + lx).value;
         var q := p + lx + SymLen(h.dst, d);
         q <= |S| && Tail(h, S, sym, origin, p, out, cap) ==
           TailDist(S, LengthBase(sym - 257) + Field(S, p, lx), d, origin, q, out, cap)
  {
    hide SymAt, SymLen, TailDist, Field, LengthBase, LengthExtra;
  }

  lemma DistUnfold(S: bits, len: nat, d: nat, origin: nat, p: nat, out: seq<byte>, cap: nat)
    requires p <= |S| && TailDist(S, len, d, origin, p, out, cap) != Halt(Undefined)
    ensures d < 30
    ensures var dx := DistExtra(d);
      && p + dx <= |S| && p + dx <= origin + Budget(origin)
      && var dist := DistBase(d) + Field(S, p, dx);
         1 <= dist && (dist <= |out| ==> |out| + len <= cap)
         && TailDist(S, len, d, origin, p, out, cap) ==
           if dist > |out| then Halt(Returns(out)) else More(CopyBack(out, dist, len), p + dx)
  {
    hide Field, DistBase, DistExtra;
  }

  lemma TailPlain(h: Trees, S: bits, sym: nat, origin: nat, p: nat, out: seq<byte>, cap: nat)
    requires sym >= 256 && p <= |S|
    ensures sym == 256 ==> Tail(h, S, sym, origin, p, out, cap) == End(out, p)
    ensures sym >= 286 ==> Tail(h, S, sym, origin, p, out, cap) == Halt(Returns(out))
  {
  }

  lemma LengthRange(sym: nat)
    requires 256 < sym < 286
    ensures LengthBase(sym - 257) >= 3 && LengthExtra(sym - 257) <= 5
  {
  }

  lemma TablesParts(s: Sinfl, h: Trees)
    requires Tables(s, h)
    ensures s.lits.Length <= 65536 && s.dsts.Length <= 65536 && |h.lit| <= 4096 && |h.dst| <= 4096
    ensures TableOk(s.lits[..], LIT_BITS, h.lit) && TableOk(s.dsts[..], OFF_BITS, h.dst)
  {
    hide TableOk, Pow2;
  }

  /** What follows a symbol that is not a literal. */
  method Rest(s: Sinfl, out: array<byte>, o: nat, cap: nat, sym: nat, simd: bool, ghost h: Trees, ghost origin: nat)
    returns (n: nat, kind: Kind)
    requires s.Valid() && Tables(s, h) && o <= cap <= out.Length && s.Pos() <= |s.S()| && sym >= 256
    requires s.bitcnt >= 26 && s.Pos() + s.bitcnt == origin + Budget(origin)
    requires Tail(h, s.S(), sym, origin, s.Pos(), out[..o], cap) != Halt(Undefined)
    modifies s, out
    ensures s.Valid() && Tables(s, h) && n <= cap && out[cap..] == old(out[cap..])
    ensures StepIs(Tail(h, s.S(), sym, origin, old(s.Pos()), old(out[..o]), cap), kind, out[..n], s.Pos())
  {
    hide *;
    ghost var S, p, was := s.S(), s.Pos(), out[..o];
    TailPlain(h, S, sym, origin, p, was, cap);
    if sym == 256 {
      StepIntro(End(was, p), Ended, was, p);
      return o, Ended;
    }
    if sym >= 286 {
      StepIntro(Halt(Returns(was)), Halted, was, p);
      return o, Halted;
    }
    TailUnfold(h, S, sym, origin, p, was, cap);
    LengthRange(sym);
    TablesParts(s, h);
    var len := s.Get(LengthExtra(sym - 257));
    len := LengthBase(sym - 257) + len;
    var dsym := s.Decode(s.dsts, OFF_BITS, h.dst);
    DistUnfold(S, len, dsym, origin, s.Pos(), was, cap);
    var offs := s.Get(DistExtra(dsym));
    offs := DistBase(dsym) + offs;
    if offs > o {
      StepIntro(Halt(Returns(was)), Halted, was, s.Pos());
      return o, Halted;
    }
    CopyMatch.Copy(out, o, len, offs, cap, simd);
    StepIntro(More(CopyBack(was, offs, len), s.Pos()), Going, CopyBack(was, offs, len), s.Pos());
    return o + len, Going;
  }

  lemma StepIntro(r: BlockStep, kind: Kind, out: seq<byte>, p: nat)
    requires match kind case Halted => r == Halt(Returns(out)) case Going => r == More(out, p) case Ended => r == End(out, p)
    ensures StepIs(r, kind, out, p)
  {
  }

  /** What is decoded after a refill. */
  method Step(s: Sinfl, out: array<byte>, o: nat, cap: nat, simd: bool, ghost h: Trees)
    returns (n: nat, kind: Kind)
    requires s.Valid() && Tables(s, h) && o <= cap <= out.Length && s.Pos() <= |s.S()|
    requires Symbols(h, s.S(), s.Pos(), out[..o], cap) != Halt(Undefined)
    modifies s, out
    ensures s.Valid() && Tables(s, h) && n <= cap && out[cap..] == old(out[cap..])
    ensures StepIs(Symbols(h, s.S(), old(s.Pos()), old(out[..o]), cap), kind, out[..n], s.Pos())
  {
    hide *;
    ghost var S, p, was := s.S(), s.Pos(), out[..o];
    SymbolsUnfold(h, S, p, was, cap);
    TablesParts(s, h);
    s.Refill();
    BudgetAtLeast(p);
    var sym := s.Decode(s.lits, LIT_BITS, h.lit);
    n := o;
    if sym < 256 {
      if o >= cap {
        StepIntro(Halt(Returns(was)), Halted, was, s.Pos());
        return o, Halted;
      }
      out[o] := sym;
      n := o + 1;
      assert out[..n] == was + [sym];
      SecondUnfold(h, S, p, s.Pos(), was + [sym], cap);
      sym := s.Decode(s.lits, LIT_BITS, h.lit);
      if sym < 256 {
        ghost var was2 := out[..n];
        out[n] := sym;
        assert out[..n + 1] == was2 + [sym];
        StepIntro(More(was2 + [sym], s.Pos()), Going, was2 + [sym], s.Pos());
        return n + 1, Going;
      }
    }
    n, kind := Rest(s, out, n, cap, sym, simd, h, p);
  }

  // ---------------------------------------------------------- state machine

  datatype State = Hdr | InStored | InFixed | InDyn | Blk

  /** What a block header leads to. */
  ghost function Follow(step: HeaderStep, S: bits, out: seq<byte>, cap: nat): Outcome {
    match step
    case Stop(o) => o
    case Raw(out', q, last) => if q > |S| then Undefined else if last then Returns(out') else Run(S, q, out', cap)
    case Enter(h, q, last) => if q > |S| then Undefined else Body(h, S, q, out, cap, last)
  }

  /** What the inflater returns when it goes on from this state. */
  ghost function FromState(state: State, S: bits, p: nat, out: seq<byte>, cap: nat, last: bool, h: Trees): Outcome
    requires p <= |S|
  {
    match state
    case Hdr => Run(S, p, out, cap)
    case InStored => Follow(RawStep(S, p, out, cap, last), S, out, cap)
    case InFixed => Body(FixedTrees(), S, p, out, cap, last)
    case InDyn => Follow(DynStep(S, p, last), S, out, cap)
    case Blk => Body(h, S, p, out, cap, last)
  }

  /** The three header bits. */
  lemma HdrUnfold(S: bits, p: nat, out: seq<byte>, cap: nat, h: Trees)
    requires p <= |S| && FromState(Hdr, S, p, out, cap, false, h) != Undefined
    ensures p + 3 <= |S| && Field(S, p, 1) < 2 && S[p] == (Field(S, p, 1) == 1)
    ensures var r, kind, last := FromState(Hdr, S, p, out, cap, false, h), Field(S, p + 1, 2), S[p];
      && (kind == 0 ==> r == FromState(InStored, S, p + 3, out, cap, last, h))
      && (kind == 1 ==> r == FromState(InFixed, S, p + 3, out, cap, last, h))
      && (kind == 2 ==> r == FromState(InDyn, S, p + 3, out, cap, last, h))
      && (kind >= 3 ==> r == Returns(out))
  {
    hide RawStep, DynStep, Body, Field;
    OneBit(S, p);
    RunFollow(S, p, out, cap);
  }

  lemma RunFollow(S: bits, p: nat, out: seq<byte>, cap: nat)
    requires p <= |S|
    ensures Run(S, p, out, cap) == Follow(Header(S, p, out, cap), S, out, cap)
  {
    hide Header, Body;
  }

  lemma OneBit(S: bits, p: nat)
    requires p < |S|
    ensures Field(S, p, 1) < 2 && S[p] == (Field(S, p, 1) == 1)
  {
    var s := S[p..p + 1];
    assert s[1..] == [];
    assert Word(s) == if s[0] then 1 else 0;
  }

  lemma StoredUnfold(S: bits, p: nat, out: seq<byte>, cap: nat, last: bool, h: Trees, out': seq<byte>, q: nat, more: bool)
    requires p <= |S| && FromState(InStored, S, p, out, cap, last, h) != Undefined
    requires RawStep(S, p, out, cap, last) == if more then Raw(out', q, last) else Stop(Returns(out'))
    ensures more ==> p < q <= |S|
    ensures FromState(InStored, S, p, out, cap, last, h) ==
      if !more || last then Returns(out') else FromState(Hdr, S, q, out', cap, false, h)
  {
    hide Run, Body, Field, BytesAt;
  }

  lemma DynFollow(S: bits, p: nat, out: seq<byte>, cap: nat, last: bool, h0: Trees, h: Trees, q: nat)
    requires p <= |S| && DynStep(S, p, last) == Enter(h, q, last)
    ensures p < q <= |S| && FromState(InDyn, S, p, out, cap, last, h0) == FromState(Blk, S, q, out, cap, last, h)
  {
    hide Body, DynLens;
  }

  lemma DynDefined(S: bits, p: nat, out: seq<byte>, cap: nat, last: bool, h: Trees)
    requires p <= |S| && FromState(InDyn, S, p, out, cap, last, h) != Undefined
    ensures DynStep(S, p, last) != Stop(Undefined)
  {
    hide Body, DynStep;
  }

  lemma StoredDefined(S: bits, p: nat, out: seq<byte>, cap: nat, last: bool, h: Trees)
    requires p <= |S| && FromState(InStored, S, p, out, cap, last, h) != Undefined
    ensures RawStep(S, p, out, cap, last) != Stop(Undefined)
  {
    hide Body, Run, RawStep;
  }

  lemma FixedFollow(S: bits, p: nat, out: seq<byte>, cap: nat, last: bool, h: Trees)
    requires p <= |S|
    ensures FromState(InFixed, S, p, out, cap, last, h) == FromState(Blk, S, p, out, cap, last, FixedTrees())
  {
    hide Body;
  }

  lemma BlkDefined(S: bits, p: nat, out: seq<byte>, cap: nat, last: bool, h: Trees)
    requires p <= |S| && FromState(Blk, S, p, out, cap, last, h) != Undefined
    ensures Symbols(h, S, p, out, cap) != Halt(Undefined)
  {
    hide Symbols, Run;
  }

  lemma BlkFollow(S: bits, p: nat, out: seq<byte>, cap: nat, last: bool, h: Trees, kind: Kind, out': seq<byte>, q: nat)
    requires p <= |S| && StepIs(Symbols(h, S, p, out, cap), kind, out', q)
    ensures kind.Halted? ==> FromState(Blk, S, p, out, cap, last, h) == Returns(out')
    ensures kind.Going? ==> p < q <= |S| && FromState(Blk, S, p, out, cap, last, h) == FromState(Blk, S, q, out', cap, last, h)
    ensures kind.Ended? ==> p < q <= |S|
    ensures kind.Ended? ==> (FromState(Blk, S, p, out, cap, last, h) ==
      if last then Returns(out') else FromState(Hdr, S, q, out', cap, false, h))
  {
    hide Symbols;
  }

  /** `sinfl_decompress`: whenever the reference reading of the first `size` bytes of `mem` is defined,
      this is what the inflater returns; it writes nothing from `cap` on. */
  method Decompress(out: array<byte>, cap: nat, mem: seq<byte>, size: nat, simd: bool) returns (n: nat)
    requires size + SLACK <= |mem| && cap <= out.Length
    requires Inflate(BytesToBits(mem[..size]), cap) != Undefined
    modifies out
    ensures n <= cap && Inflate(BytesToBits(mem[..size]), cap) == Returns(out[..n])
    ensures out[cap..] == old(out[cap..])
  {
    hide *;
    ghost var S := BytesToBits(mem[..size]);
    ghost var goal := Inflate(S, cap);
    ghost var h := Trees([], []);
    var s := new Sinfl(mem, size);
    assert s.S() == S by { InputIs(s); }
    Start(S, cap, h);
    n := 0;
    assert out[..0] == [];
    var state, last := Hdr, false;
    while true
      invariant s.Valid() && s.S() == S && s.Pos() <= |S| && TablesRoom(s.lits, s.dsts)
      invariant fresh(s) && fresh(s.lits) && fresh(s.dsts)
      invariant n <= cap && out[cap..] == old(out[cap..]) && goal != Undefined
      invariant goal == FromState(state, S, s.Pos(), out[..n], cap, state != Hdr && last, h)
      invariant state == InStored ==> s.bitcnt >= 53
      invariant state == Blk ==> Tables(s, h)
      decreases |S| - s.Pos(), state == InFixed
    {
      ghost var p, was := s.Pos(), out[..n];
      if state == Hdr {
        HdrUnfold(S, p, was, cap, h);
        s.Refill();
        BudgetAtLeast(p);
        var flag := s.Get(1);
        last := flag == 1;
        var kind := s.Get(2);
        if kind == 0 {
          state := InStored;
        } else if kind == 1 {
          state := InFixed;
        } else if kind == 2 {
          state := InDyn;
        } else {
          return;
        }
      } else if state == InStored {
        StoredDefined(S, p, was, cap, last, h);
        var more;
        n, more := StoredBlock(s, out, n, cap, last);
        StoredUnfold(S, p, was, cap, last, h, out[..n], s.Pos(), more);
        if !more || last { return; }
        state := Hdr;
      } else if state == InFixed {
        FixedFollow(S, p, was, cap, last, h);
        h := FixedBlock(s);
        state := Blk;
      } else if state == InDyn {
        DynDefined(S, p, was, cap, last, h);
        ghost var h0 := h;
        h := DynBlock(s, last);
        DynFollow(S, p, was, cap, last, h0, h, s.Pos());
        state := Blk;
      } else {
        BlkDefined(S, p, was, cap, last, h);
        var kind;
        n, kind := Step(s, out, n, cap, simd, h);
        BlkFollow(S, p, was, cap, last, h, kind, out[..n], s.Pos());
        if kind == Halted || (kind == Ended && last) { return; }
        if kind == Ended { state := Hdr; }
      }
    }
  }

  lemma Start(S: bits, cap: nat, h: Trees)
    ensures Inflate(S, cap) == FromState(Hdr, S, 0, [], cap, false, h)
  {
    hide Run;
  }

  lemma InputIs(s: Sinfl)
    requires s.size <= |s.mem|
    ensures s.S() == BytesToBits(s.mem[..s.size])
  {
  }
}
