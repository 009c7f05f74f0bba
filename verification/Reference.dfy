/** What the inflater returns for any bit string, read directly off the stream: codewords are
    recognised as prefixes, without tables or bit buffers (sections 3.2.3 to 3.2.7 of RFC 1951).

  `Undefined` stands for the inputs on which the source goes wrong: it reads past the end of
  its input, fails an assertion, overruns a table or overruns the output. */
module Reference {
  import opened Bits
  import opened Options
  import opened Canonical
  import opened Precode
  import opened MatchCodes
  import opened Format

  datatype Outcome = Returns(out: seq<byte>) | Undefined

  const MAX_LENS: nat := LIT_MAX + OFF_MAX

  // ---------------------------------------------------------------- fields

  /** The `n`-bit number at offset `p`. */
  function Field(S: bits, p: nat, n: nat): (w: nat)
    requires p + n <= |S|
    ensures w < Pow2(n)
  {
    Word(S[p..p + n])
  }

  /** The byte at offset `p`. */
  function ByteAt(S: bits, p: nat): byte
    requires p + 8 <= |S|
  {
    Pow2Values();
    Field(S, p, 8)
  }

  function BytesAt(S: bits, p: nat, n: nat): (b: seq<byte>)
    requires p + 8 * n <= |S|
    ensures |b| == n
  {
    seq(n, i requires 0 <= i < n => ByteAt(S, p + 8 * i))
  }

  /** The symbol read at offset `p`.  An incomplete code reads symbol 0 from any bit. */
  ghost function SymAt(lens: Lens, S: bits, p: nat): (r: Option<nat>)
    ensures r.Some? ==> p + SymLen(lens, r.value) <= |S| && (|lens| > 0 ==> r.value < |lens|)
  {
    if Complete(lens) then
      if exists s: nat :: IsSym(lens, S, p, s) then
        var s: nat :| IsSym(lens, S, p, s); Some(s)
      else None
    else if Incomplete(lens) && p < |S| then Some(0)
    else None
  }

  /** How many bits that symbol takes. */
  function SymLen(lens: Lens, s: nat): (n: nat)
    ensures n >= 1
  {
    if Complete(lens) && IsUsed(lens, s) then lens[s] else 1
  }

  // ---------------------------------------------------------- block header

  /** The lengths of the code length code. */
  function PreLens(S: bits, p: nat, n: nat): (pre: Lens)
    requires n <= PRE_MAX && p + 3 * n <= |S|
    ensures |pre| == PRE_MAX && Bounded(pre, 7)
  {
    Pow2Values();
    if n == 0 then seq(PRE_MAX, _ => 0)
    else PreLens(S, p, n - 1)[PermAt(n - 1) := Field(S, p + 3 * (n - 1), 3)]
  }

  /** The lengths of the two other codes, read until there are `total` of them. */
  ghost function ReadLens(pre: Lens, S: bits, p: nat, acc: seq<nat>, total: nat): (r: Option<(seq<nat>, nat)>)
    requires |pre| == PRE_MAX && p <= |S|
    ensures r.Some? ==> p <= r.value.1 <= |S| && |r.value.0| >= total
    decreases total - |acc|
  {
    if |acc| >= total then Some((acc, p))
    else
      match SymAt(pre, S, p)
      case None => None
      case Some(sym) =>
        var q := p + SymLen(pre, sym);
        if q + ExtraBits(sym) > |S| then None
        else
          var it := ReadItem(S, q, sym);
          if (sym == 16 && acc == []) || |acc| + RunLength(it) > MAX_LENS then None
          else ReadLens(pre, S, q + ExtraBits(sym), Extend(acc, it), total)
  }

  /** A code length symbol and its extra bits. */
  function ReadItem(S: bits, q: nat, sym: nat): (it: nat)
    requires sym < PRE_MAX && q + ExtraBits(sym) <= |S|
    ensures ItemOk(it) && ItemSym(it) == sym
  {
    ItemReadable(sym, Field(S, q, ExtraBits(sym)));
    Item(sym, Field(S, q, ExtraBits(sym)))
  }

  lemma ItemReadable(sym: nat, extra: nat)
    requires sym < PRE_MAX && extra < Pow2(ExtraBits(sym))
    ensures ItemOk(Item(sym, extra))
    ensures ItemSym(Item(sym, extra)) == sym && ItemExtra(Item(sym, extra)) == extra
  {
    Pow2Values();
    ItemParts(sym, extra);
  }

  function Repeat(n: nat, v: nat): (s: seq<nat>)
    ensures |s| == n && forall i :: 0 <= i < n ==> s[i] == v
  {
    seq(n, _ => v)
  }

  /** The fixed code of section 3.2.6 of RFC 1951. */
  function FixedTrees(): Trees {
    Trees(Repeat(144, 8) + Repeat(112, 9) + Repeat(24, 7) + Repeat(8, 8), Repeat(32, 5))
  }

  datatype HeaderStep =
    | Stop(o: Outcome)
    | Raw(out: seq<byte>, p: nat, last: bool)
    | Enter(h: Trees, p: nat, last: bool)

  /** A stored block; `p` is the offset behind its three header bits. */
  function RawStep(S: bits, p: nat, out: seq<byte>, cap: nat, last: bool): HeaderStep {
    var q := p + Align(p);
    if q + 32 > |S| then Stop(Undefined)
    else
      var len, nlen := Field(S, q, 16), Field(S, q + 16, 16);
      if len + nlen != 65535 || 8 * len > |S| - (q + 32) || len == 0 then Stop(Returns(out))
      else if |out| + len > cap then Stop(Undefined)
      else Raw(out + BytesAt(S, q + 32, len), q + 32 + 8 * len, last)
  }

  /** How many code length code lengths follow. */
  function PreCount(S: bits, p: nat): (n: nat)
    requires p + 14 <= |S|
    ensures 4 <= n <= PRE_MAX
  {
    Pow2Values();
    4 + Field(S, p + 10, 4)
  }

  /** The header of a dynamic block. */
  ghost function DynStep(S: bits, p: nat, last: bool): (r: HeaderStep)
    ensures r.Stop? || (r.Enter? && p < r.p <= |S|)
  {
    if p + 14 > |S| || p + 14 + 3 * PreCount(S, p) > |S| then Stop(Undefined)
    else
      var pre := PreLens(S, p + 14, PreCount(S, p));
      if !Fits(pre) then Stop(Undefined)
      else DynLens(S, p, pre, p + 14 + 3 * PreCount(S, p), last)
  }

  /** The two codes of a dynamic block, read with the code length code `pre` from offset `q`. */
  ghost function DynLens(S: bits, p: nat, pre: Lens, q: nat, last: bool): (r: HeaderStep)
    requires p + 14 <= q <= |S| && |pre| == PRE_MAX
    ensures r.Stop? || (r.Enter? && q <= r.p <= |S|)
  {
    var nlit, ndist := 257 + Field(S, p, 5), 1 + Field(S, p + 5, 5);
    var r := ReadLens(pre, S, q, [], nlit + ndist);
    if r.None? then Stop(Undefined)
    else
      var lens := r.value.0;
      var h := Trees(lens[..nlit], lens[nlit..nlit + ndist]);
      if Fits(h.lit) && Fits(h.dst) then Enter(h, r.value.1, last) else Stop(Undefined)
  }

  ghost function Header(S: bits, p: nat, out: seq<byte>, cap: nat): (r: HeaderStep)
    ensures r.Raw? || r.Enter? ==> p < r.p <= |S|
  {
    if p + 3 > |S| then Stop(Undefined)
    else
      match Field(S, p + 1, 2)
      case 0 => RawStep(S, p + 3, out, cap, S[p])
      case 1 => Enter(FixedTrees(), p + 3, S[p])
      case 2 => DynStep(S, p + 3, S[p])
      case _ => Stop(Returns(out))
  }

  // ------------------------------------------------------------ block body

  datatype BlockStep =
    | Halt(o: Outcome)
    | More(out: seq<byte>, p: nat)
    | End(out: seq<byte>, p: nat)

  /** Bits known to be in the bit buffer after a refill at offset `p`. */
  function Budget(p: nat): nat { 56 + Align(p) }

  lemma BudgetAtLeast(p: nat)
    ensures 56 <= Budget(p) <= 63
  {
  }

  /** What follows a symbol that is not a literal; `origin` is where the buffer was refilled. */
  ghost function Tail(h: Trees, S: bits, sym: nat, origin: nat, p: nat, out: seq<byte>, cap: nat): (r: BlockStep)
    requires sym >= 256 && p <= |S|
    ensures !r.Halt? ==> p <= r.p <= |S|
  {
    if sym == END_OF_BLOCK then End(out, p)
    else if sym >= 286 then Halt(Returns(out))
    else
      var lx := LengthExtra(sym - 257);
      if p + lx > |S| then Halt(Undefined)
      else
        var len := LengthBase(sym - 257) + Field(S, p, lx);
        match SymAt(h.dst, S, p + lx)
        case None => Halt(Undefined)
        case Some(d) => TailDist(S, len, d, origin, p + lx + SymLen(h.dst, d), out, cap)
  }

  /** The distance of a match, behind its symbol `d`. */
  function TailDist(S: bits, len: nat, d: nat, origin: nat, p: nat, out: seq<byte>, cap: nat): (r: BlockStep)
    requires p <= |S|
    ensures !r.Halt? ==> p <= r.p <= |S|
  {
    if d >= 30 then Halt(Undefined)
    else
      var dx := DistExtra(d);
      if p + dx > |S| || p + dx > origin + Budget(origin) then Halt(Undefined)
      else
        var dist := DistBase(d) + Field(S, p, dx);
        if dist > |out| then Halt(Returns(out))
        else if |out| + len > cap then Halt(Undefined)
        else More(CopyBack(out, dist, len), p + dx)
  }

  /** What is decoded between two refills: a match, the end of the block, or a literal
      followed by one more symbol. */
  ghost function Symbols(h: Trees, S: bits, p: nat, out: seq<byte>, cap: nat): (r: BlockStep)
    ensures !r.Halt? ==> p < r.p <= |S|
  {
    match SymAt(h.lit, S, p)
    case None => Halt(Undefined)
    case Some(s) =>
      var p1 := p + SymLen(h.lit, s);
      if s >= 256 then Tail(h, S, s, p, p1, out, cap)
      else if |out| >= cap then Halt(Returns(out))
      else Second(h, S, p, p1, out + [s], cap)
  }

  /** The symbol behind a literal. */
  ghost function Second(h: Trees, S: bits, origin: nat, p: nat, out: seq<byte>, cap: nat): (r: BlockStep)
    ensures !r.Halt? ==> p < r.p <= |S|
  {
    match SymAt(h.lit, S, p)
    case None => Halt(Undefined)
    case Some(t) =>
      var q := p + SymLen(h.lit, t);
      if t >= 256 then Tail(h, S, t, origin, q, out, cap)
      else if |out| >= cap then Halt(Undefined)
      else More(out + [t], q)
  }

  /** The rest of a block and of the stream. */
  ghost function Body(h: Trees, S: bits, p: nat, out: seq<byte>, cap: nat, last: bool): Outcome
    requires p <= |S|
    decreases |S| - p, 0
  {
    match Symbols(h, S, p, out, cap)
    case Halt(o) => o
    case More(out', q) => Body(h, S, q, out', cap, last)
    case End(out', q) => if last then Returns(out') else Run(S, q, out', cap)
  }

  /** The stream from a block header on. */
  ghost function Run(S: bits, p: nat, out: seq<byte>, cap: nat): Outcome
    requires p <= |S|
    decreases |S| - p, 1
  {
    match Header(S, p, out, cap)
    case Stop(o) => o
    case Raw(out', q, last) => if last then Returns(out') else Run(S, q, out', cap)
    case Enter(h, q, last) => Body(h, S, q, out, cap, last)
  }

  /** The result of inflating `S` into a buffer of `cap` bytes. */
  ghost function Inflate(S: bits, cap: nat): Outcome { Run(S, 0, [], cap) }
}
