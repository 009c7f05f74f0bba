/** Length and distance symbols (section 3.2.5 of RFC 1951; `sdefl_match_codes`). */
module MatchCodes {
  import opened Bits

  const MAX_MATCH: nat := 258
  const WIN_SIZ: nat := 32768

  /** Smallest length and number of extra bits of each length symbol, counted from 257. */
  const LENGTH_BASE: seq<nat> := [3, 4, 5, 6, 7, 8, 9, 10, 11, 13, 15, 17, 19, 23, 27, 31, 35, 43,
    51, 59, 67, 83, 99, 115, 131, 163, 195, 227, 258]
  const LENGTH_EXTRA: seq<nat> := [0, 0, 0, 0, 0, 0, 0, 0, 1, 1, 1, 1, 2, 2, 2, 2, 3, 3, 3, 3, 4,
    4, 4, 4, 5, 5, 5, 5, 0]

  /** Smallest distance and number of extra bits of each distance symbol. */
  const DIST_BASE: seq<nat> := [1, 2, 3, 4, 5, 7, 9, 13, 17, 25, 33, 49, 65, 97, 129, 193, 257, 385,
    513, 769, 1025, 1537, 2049, 3073, 4097, 6145, 8193, 12289, 16385, 24577]
  const DIST_EXTRA: seq<nat> := [0, 0, 0, 0, 1, 1, 2, 2, 3, 3, 4, 4, 5, 5, 6, 6, 7, 7, 8, 8, 9, 9,
    10, 10, 11, 11, 12, 12, 13, 13]

  function LengthBase(s: nat): (b: nat)
    requires s < 29
    ensures b >= 3
  {
    LENGTH_BASE[s]
  }

  function LengthExtra(s: nat): (n: nat)
    requires s < 29
    ensures n <= 5
  {
    LENGTH_EXTRA[s]
  }

  function DistBase(d: nat): (b: nat)
    requires d < 30
    ensures b >= 1
  {
    DIST_BASE[d]
  }

  function DistExtra(d: nat): (n: nat)
    requires d < 30
    ensures n <= 13
  {
    DIST_EXTRA[d]
  }

  /** Where the distances of a given number of extra bits pass to the next symbol. */
  const DIST_SPLIT: seq<nat> := [0, 6, 12, 24, 48, 96, 192, 384, 768, 1536, 3072, 6144, 12288, 24576]

  /** The 259-entry table from lengths to length slots. */
  function LengthSlot(len: nat): nat {
    if len <= 3 then 0
    else if len <= 10 then len - 3
    else if len <= 12 then 8 else if len <= 14 then 9
    else if len <= 16 then 10 else if len <= 18 then 11
    else if len <= 22 then 12 else if len <= 26 then 13
    else if len <= 30 then 14 else if len <= 34 then 15
    else if len <= 42 then 16 else if len <= 50 then 17
    else if len <= 58 then 18 else if len <= 66 then 19
    else if len <= 82 then 20 else if len <= 98 then 21
    else if len <= 114 then 22 else if len <= 130 then 23
    else if len <= 162 then 24 else if len <= 194 then 25
    else if len <= 226 then 26 else if len <= 257 then 27 else 28
  }

  /** Index of the highest set bit; 0 for 0. */
  function Ilog2(n: nat): nat {
    if n <= 1 then 0 else 1 + Ilog2(n / 2)
  }

  function NextPow2(n: nat): nat
    requires n >= 1
  {
    Pow2(Ilog2(n - 1) + 1)
  }

  datatype MatchCode = MatchCode(ls: nat, lc: nat, dc: nat, dx: nat)

  function Codes(dist: nat, len: nat): MatchCode
    requires 1 <= dist <= WIN_SIZ
  {
    var ls := LengthSlot(len);
    var dx := Ilog2(NextPow2(dist) / 4);
    var dc :=
      if dx != 0 then (dx + 1) * 2 + (if dx < |DIST_SPLIT| && dist > DIST_SPLIT[dx] then 1 else 0)
      else dist - 1;
    MatchCode(ls, 257 + ls, dc, dx)
  }

  lemma {:induction false} Ilog2Range(n: nat)
    requires n > 0
    ensures Pow2(Ilog2(n)) <= n < Pow2(Ilog2(n) + 1)
  {
    if n > 1 { Ilog2Range(n / 2); }
  }

  lemma {:induction false} Ilog2Pow2(j: nat)
    ensures Ilog2(Pow2(j)) == j
  {
    if j > 0 { Ilog2Pow2(j - 1); }
  }

  /** The slots tile the lengths in order, in groups of four with one extra bit more each; the greatest length
      has a slot of its own (the table of section 3.2.5 of RFC 1951). */
  lemma LengthTable(s: nat)
    requires s < 29
    ensures LengthExtra(s) == if s < 8 || s == 28 then 0 else s / 4 - 1
    ensures LengthBase(0) == 3 && LengthBase(28) == MAX_MATCH
    ensures s < 27 ==> LengthBase(s + 1) == LengthBase(s) + Pow2(LengthExtra(s))
  {
    Pow2Values();
    if s < 10 { LengthRows(s); } else if s < 20 { LengthRows(s); } else { LengthRows(s); }
  }

  lemma LengthRows(s: nat)
    requires s < 29
    ensures LENGTH_EXTRA[s] == if s < 8 || s == 28 then 0 else s / 4 - 1
    ensures s < 8 ==> LENGTH_BASE[s] == s + 3
    ensures s == 28 ==> LENGTH_BASE[s] == 258
    ensures s < 27 ==> LENGTH_BASE[s + 1] - LENGTH_BASE[s] == (if s < 8 then 1 else if s < 12 then 2 else
      if s < 16 then 4 else if s < 20 then 8 else if s < 24 then 16 else 32)
  {
  }

  /** The symbols tile the distances in order, in pairs with one extra bit more each. */
  lemma DistTable(d: nat)
    requires d < 30
    ensures DistExtra(d) == if d < 4 then 0 else d / 2 - 1
    ensures DistBase(0) == 1 && DistBase(29) + Pow2(DistExtra(29)) == WIN_SIZ + 1
    ensures d < 29 ==> DistBase(d + 1) == DistBase(d) + Pow2(DistExtra(d))
  {
    Pow2Values();
    DistRows(d);
  }

  lemma DistRows(d: nat)
    requires d < 30
    ensures DIST_EXTRA[d] == if d < 4 then 0 else d / 2 - 1
    ensures d < 29 ==> DIST_BASE[d + 1] - DIST_BASE[d] == (if d < 4 then 1 else if d < 6 then 2 else if d < 8 then 4
      else if d < 10 then 8 else if d < 12 then 16 else if d < 14 then 32 else if d < 16 then 64
      else if d < 18 then 128 else if d < 20 then 256 else if d < 22 then 512 else if d < 24 then 1024
      else if d < 26 then 2048 else if d < 28 then 4096 else 8192)
  {
  }

  /** Only the greatest length uses the last slot. */
  lemma LastSlot(len: nat)
    requires 3 <= len <= MAX_MATCH
    ensures LengthSlot(len) == 28 <==> len == MAX_MATCH
  {
  }

  /** The length is its slot's base plus extra bits. */
  lemma LengthCode(len: nat)
    requires 3 <= len <= MAX_MATCH
    ensures var s := LengthSlot(len);
      s < 29 && LengthBase(s) <= len < LengthBase(s) + Pow2(LengthExtra(s))
  {
    Pow2Values();
    var s := LengthSlot(len);
    if s < 8 {
    } else if s < 16 {
      SlotsLow(len, s);
    } else {
      SlotsHigh(len, s);
    }
  }

  lemma SlotsLow(len: nat, s: nat)
    requires 3 <= len <= MAX_MATCH && s == LengthSlot(len) && 8 <= s < 16
    ensures LengthBase(s) <= len < LengthBase(s) + Pow2(LengthExtra(s))
  {
    Pow2Values();
    if s == 8 {} else if s == 9 {} else if s == 10 {} else if s == 11 {}
    else if s == 12 {} else if s == 13 {} else if s == 14 {} else {}
  }

  lemma SlotsHigh(len: nat, s: nat)
    requires 3 <= len <= MAX_MATCH && s == LengthSlot(len) && 16 <= s
    ensures s < 29 && LengthBase(s) <= len < LengthBase(s) + Pow2(LengthExtra(s))
  {
    Pow2Values();
    if s == 16 {} else if s == 17 {} else if s == 18 {} else if s == 19 {}
    else if s == 20 {} else if s == 21 {} else if s == 22 {} else if s == 23 {}
    else if s == 24 {} else if s == 25 {} else if s == 26 {} else if s == 27 {} else {}
  }

  /** The distance is its symbol's base plus extra bits, as many as the symbol says. */
  lemma DistCode(dist: nat, len: nat)
    requires 1 <= dist <= WIN_SIZ
    ensures var c := Codes(dist, len);
      && c.dc < 30 && c.dx == DistExtra(c.dc)
      && DistBase(c.dc) <= dist < DistBase(c.dc) + Pow2(c.dx)
  {
    Pow2Values();
    if dist <= 2 {
      assert Ilog2(NextPow2(dist) / 4) == 0;
    } else {
      hide Pow2, Ilog2;
      var k := Ilog2(dist - 1);
      Ilog2Range(dist - 1);
      if k > 14 { Pow2Mono(15, k); }
      QuarterPow(k);
      Ilog2Pow2(k - 1);
      hide LengthSlot, DistBase, DistExtra;
      DistRange(dist, len, k);
    }
  }

  lemma QuarterPow(k: nat)
    requires k >= 1
    ensures Pow2(k + 1) / 4 == Pow2(k - 1)
  {
    assert Pow2(k + 1) == 4 * Pow2(k - 1);
  }

  lemma DistRange(dist: nat, len: nat, k: nat)
    requires 1 <= k <= 14 && Pow2(k) < dist <= Pow2(k + 1) && dist <= WIN_SIZ
    requires Codes(dist, len).dx == k - 1
    ensures var c := Codes(dist, len);
      && c.dc < 30 && c.dx == DistExtra(c.dc)
      && DistBase(c.dc) <= dist < DistBase(c.dc) + Pow2(c.dx)
  {
    Pow2Values();
    if k == 1 {} else if k == 2 {} else if k == 3 {} else if k == 4 {} else if k == 5 {}
    else if k == 6 {} else if k == 7 {} else if k == 8 {} else if k == 9 {} else if k == 10 {}
    else if k == 11 {} else if k == 12 {} else if k == 13 {} else {}
  }
}
