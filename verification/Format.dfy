/** The Deflate stream: what the blocks are, how they are written as bits, and what they mean
    (sections 3.2.3 to 3.2.7 of RFC 1951). */
module Format {
  import opened Bits
  import opened Options
  import opened Canonical
  import opened Precode
  import opened MatchCodes

  const END_OF_BLOCK: nat := 256
  const RAW_BLK_SIZE: nat := 65535

  /** The order in which the lengths of the code length code are sent. */
  const PERM: seq<nat> := [16, 17, 18, 0, 8, 7, 9, 6, 10, 5, 11, 4, 12, 3, 13, 2, 14, 1, 15]

  datatype Token = Lit(c: byte) | Match(dist: nat, len: nat)

  datatype Trees = Trees(lit: Lens, dst: Lens)

  datatype Block =
    | Stored(data: seq<byte>)
    | Dynamic(trees: Trees, pre: Lens, npre: nat, items: seq<nat>, toks: seq<Token>)

  // --------------------------------------------------------------- meaning

  /** The byte-by-byte rule: every byte is the one `dist` places before it. */
  function CopyBack(out: seq<byte>, dist: nat, len: nat): (r: seq<byte>)
    requires 1 <= dist <= |out|
    ensures |r| == |out| + len && out <= r
    decreases len
  {
    if len == 0 then out else CopyBack(out + [out[|out| - dist]], dist, len - 1)
  }

  predicate LegalToken(out: seq<byte>, t: Token) {
    t.Match? ==> 1 <= t.dist <= |out| && t.dist <= WIN_SIZ && 3 <= t.len <= MAX_MATCH
  }

  function PlayToken(out: seq<byte>, t: Token): (r: seq<byte>)
    requires LegalToken(out, t)
    ensures out <= r && |r| > |out|
  {
    match t
    case Lit(c) => out + [c]
    case Match(dist, len) => CopyBack(out, dist, len)
  }

  predicate Legal(out: seq<byte>, toks: seq<Token>)
    decreases toks
  {
    toks == [] || (LegalToken(out, toks[0]) && Legal(PlayToken(out, toks[0]), toks[1..]))
  }

  /** The output after all tokens. */
  function Play(out: seq<byte>, toks: seq<Token>): (r: seq<byte>)
    requires Legal(out, toks)
    ensures out <= r
    decreases toks
  {
    if toks == [] then out else Play(PlayToken(out, toks[0]), toks[1..])
  }

  // ------------------------------------------------------------------ bits

  /** All codewords the token needs exist. */
  predicate Writable(h: Trees, t: Token) {
    match t
    case Lit(c) => IsUsed(h.lit, c)
    case Match(dist, len) =>
      && 1 <= dist <= WIN_SIZ && 3 <= len <= MAX_MATCH
      && IsUsed(h.lit, Codes(dist, len).lc) && IsUsed(h.dst, Codes(dist, len).dc)
  }

  function TokenBits(h: Trees, t: Token): bits
    requires Writable(h, t)
  {
    match t
    case Lit(c) => Codeword(h.lit, c)
    case Match(dist, len) =>
      var k := Codes(dist, len);
      LengthCode(len);
      DistCode(dist, len);
      Codeword(h.lit, k.lc) + IntBits(len - LengthBase(k.ls), LengthExtra(k.ls))
      + (Codeword(h.dst, k.dc) + IntBits(dist - DistBase(k.dc), k.dx))
  }

  predicate AllWritable(h: Trees, toks: seq<Token>) {
    forall i :: 0 <= i < |toks| ==> Writable(h, toks[i])
  }

  function TokensBits(h: Trees, toks: seq<Token>): bits
    requires AllWritable(h, toks)
  {
    if toks == [] then [] else TokenBits(h, toks[0]) + TokensBits(h, toks[1..])
  }

  /** The symbol whose length is sent in place `i`. */
  function PermAt(i: nat): (s: nat)
    requires i < PRE_MAX
    ensures s < PRE_MAX
  {
    PERM[i]
  }

  function PreBits(pre: Lens, n: nat): bits
    requires |pre| == PRE_MAX && n <= PRE_MAX
  {
    if n == 0 then [] else PreBits(pre, n - 1) + IntBits(pre[PermAt(n - 1)], 3)
  }

  predicate ItemWritable(pre: Lens, it: nat) {
    ItemOk(it) && IsUsed(pre, ItemSym(it))
  }

  function ItemBits(pre: Lens, it: nat): bits
    requires ItemWritable(pre, it)
  {
    Codeword(pre, ItemSym(it)) + IntBits(ItemExtra(it), ExtraBits(ItemSym(it)))
  }

  predicate AllItemsWritable(pre: Lens, items: seq<nat>) {
    forall i :: 0 <= i < |items| ==> ItemWritable(pre, items[i])
  }

  function ItemsBits(pre: Lens, items: seq<nat>): bits
    requires AllItemsWritable(pre, items)
  {
    if items == [] then []
    else ItemsBits(pre, items[..|items| - 1]) + ItemBits(pre, items[|items| - 1])
  }

  /** The code length code can be written and read back. */
  ghost predicate PreOk(pre: Lens, npre: nat, items: seq<nat>) {
    && |pre| == PRE_MAX && Bounded(pre, 7) && Complete(pre)
    && 4 <= npre <= PRE_MAX && (forall i :: npre <= i < PRE_MAX ==> pre[PermAt(i)] == 0)
    && AllItemsWritable(pre, items)
  }

  /** So can the literal/length and distance codes. */
  ghost predicate TreesOk(h: Trees) {
    && 257 <= |h.lit| <= LIT_MAX && 1 <= |h.dst| <= OFF_MAX
    && Bounded(h.lit, MAX_CODE_LEN) && Bounded(h.dst, MAX_CODE_LEN)
    && Complete(h.lit) && IsUsed(h.lit, END_OF_BLOCK)
    && (Complete(h.dst) || Incomplete(h.dst))
  }

  /** The tokens have codewords, and the distance code is complete if it is needed. */
  ghost predicate TokensOk(h: Trees, toks: seq<Token>) {
    AllWritable(h, toks) && (Complete(h.dst) || forall i :: 0 <= i < |toks| ==> toks[i].Lit?)
  }

  /** A block that can be written and read back. */
  ghost predicate BlockOk(b: Block) {
    match b
    case Stored(data) => 1 <= |data| <= RAW_BLK_SIZE
    case Dynamic(h, pre, npre, items, toks) =>
      && PreOk(pre, npre, items) && TreesOk(h) && TokensOk(h, toks)
      && Expand(items) == Some(h.lit + h.dst)
  }

  /** Everything of a dynamic block that comes before its tokens. */
  function HeaderBits(b: Block, last: bool): bits
    requires b.Dynamic? && BlockOk(b)
  {
    IntBits(if last then 1 else 0, 1) + IntBits(2, 2)
    + (IntBits(|b.trees.lit| - 257, 5) + IntBits(|b.trees.dst| - 1, 5) + IntBits(b.npre - 4, 4)
       + (PreBits(b.pre, b.npre) + ItemsBits(b.pre, b.items)))
  }

  /** The tokens and the end-of-block symbol. */
  function BodyBits(h: Trees, toks: seq<Token>): bits
    requires AllWritable(h, toks) && IsUsed(h.lit, END_OF_BLOCK)
  {
    TokensBits(h, toks) + Codeword(h.lit, END_OF_BLOCK)
  }

  /** The bits of block `b` when it begins at stream offset `p`. */
  ghost function BlockBits(b: Block, last: bool, p: nat): bits
    requires BlockOk(b)
  {
    match b
    case Stored(data) =>
      IntBits(if last then 1 else 0, 1) + IntBits(0, 2) + IntBits(0, Align(p + 3))
      + (IntBits(|data|, 16) + IntBits(65535 - |data|, 16) + BytesToBits(data))
    case Dynamic(h, _, _, _, toks) => HeaderBits(b, last) + BodyBits(h, toks)
  }

  lemma RawShape(data: seq<byte>, last: bool, p: nat)
    requires 1 <= |data| <= 65535
    ensures BlockOk(Stored(data))
    ensures BlockBits(Stored(data), last, p) ==
      (IntBits(if last then 1 else 0, 1) + IntBits(0, 2) + IntBits(0, Align(p + 3)))
      + (IntBits(|data|, 16) + IntBits(65535 - |data|, 16) + BytesToBits(data))
  {
  }

  predicate LegalBlock(out: seq<byte>, b: Block) {
    b.Dynamic? ==> Legal(out, b.toks)
  }

  function PlayBlock(out: seq<byte>, b: Block): (r: seq<byte>)
    requires LegalBlock(out, b)
    ensures out <= r
  {
    match b
    case Stored(data) => out + data
    case Dynamic(_, _, _, _, toks) => Play(out, toks)
  }

  ghost predicate BlocksOk(bs: seq<Block>) {
    forall i :: 0 <= i < |bs| ==> BlockOk(bs[i])
  }

  /** A sequence of blocks; `fin` tells whether the last one is flagged as the last. */
  ghost function BlocksBits(bs: seq<Block>, fin: bool, p: nat): bits
    requires BlocksOk(bs)
    decreases |bs|
  {
    if bs == [] then []
    else
      var x := BlockBits(bs[0], fin && |bs| == 1, p);
      x + BlocksBits(bs[1..], fin, p + |x|)
  }

  predicate LegalBlocks(out: seq<byte>, bs: seq<Block>)
    decreases |bs|
  {
    bs == [] || (LegalBlock(out, bs[0]) && LegalBlocks(PlayBlock(out, bs[0]), bs[1..]))
  }

  function PlayBlocks(out: seq<byte>, bs: seq<Block>): (r: seq<byte>)
    requires LegalBlocks(out, bs)
    ensures out <= r
    decreases |bs|
  {
    if bs == [] then out else PlayBlocks(PlayBlock(out, bs[0]), bs[1..])
  }

  // -------------------------------------------------- appending at the end

  lemma TokensCons(h: Trees, t: Token, toks: seq<Token>)
    requires AllWritable(h, toks) && Writable(h, t)
    ensures AllWritable(h, [t] + toks) && TokensBits(h, [t] + toks) == TokenBits(h, t) + TokensBits(h, toks)
  {
    hide TokenBits, Writable;
    assert ([t] + toks)[1..] == toks;
  }

  lemma {:induction false} TokensAppend(h: Trees, toks: seq<Token>, t: Token)
    requires AllWritable(h, toks) && Writable(h, t)
    ensures AllWritable(h, toks + [t])
    ensures TokensBits(h, toks + [t]) == TokensBits(h, toks) + TokenBits(h, t)
    decreases toks
  {
    hide TokenBits, Writable;
    if toks == [] {
      assert toks + [t] == [t] && [t][1..] == [];
    } else {
      TokensAppend(h, toks[1..], t);
      assert toks + [t] == [toks[0]] + (toks[1..] + [t]);
      TokensCons(h, toks[0], toks[1..] + [t]);
      TokensCons(h, toks[0], toks[1..]);
      assert toks == [toks[0]] + toks[1..];
      AppendAssoc(TokenBits(h, toks[0]), TokensBits(h, toks[1..]), TokenBits(h, t));
    }
  }

  lemma BlocksCons(b: Block, bs: seq<Block>, fin: bool, p: nat)
    requires BlockOk(b) && BlocksOk(bs)
    ensures BlocksOk([b] + bs)
    ensures var x := BlockBits(b, fin && bs == [], p);
      BlocksBits([b] + bs, fin, p) == x + BlocksBits(bs, fin, p + |x|)
  {
    hide BlockBits, BlockOk;
    assert ([b] + bs)[1..] == bs;
  }

  lemma AppendNil(x: bits)
    ensures x + [] == x && [] + x == x
  {
  }

  lemma AppendAssoc(x: bits, y: bits, z: bits)
    ensures x + (y + z) == (x + y) + z
  {
  }

}
