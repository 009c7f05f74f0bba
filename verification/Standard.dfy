/** What the standards fix and both sides share: a mistake in one of these definitions would go unnoticed in a round
    trip, but no other program could read the stream (RFC 1950 and RFC 1951). */
module Standard {
  import opened Bits
  import opened Options
  import opened Canonical
  import opened Precode
  import opened MatchCodes
  import opened Format
  import opened Reference
  import opened SinflDecompress
  import opened Adler

  // ------------------------------------------------------------ code lengths

  /** The order of the code length code lengths: the run symbols and 0, then outwards from 8 (section 3.2.7). */
  lemma PreOrder()
    ensures PermAt(0) == 16 && PermAt(1) == 17 && PermAt(2) == 18 && PermAt(3) == 0
    ensures forall i: nat :: 4 <= i < 19 && i % 2 == 0 ==> PermAt(i) == 8 + (i - 4) / 2
    ensures forall i: nat :: 4 <= i < 19 && i % 2 == 1 ==> PermAt(i) == 7 - (i - 5) / 2
  {
    assert forall i: nat :: 4 <= i < 19 ==> PermAt(i) == if i % 2 == 0 then 8 + (i - 4) / 2 else 7 - (i - 5) / 2;
  }

  /** No length is sent twice. */
  lemma PreOnce(i: nat, k: nat)
    requires i < k < 19
    ensures PermAt(i) != PermAt(k)
  {
    PreOrder();
    hide PermAt;
  }

  /** What an item adds to the lengths before it, and how large its extra bits can be (section 3.2.7). */
  lemma Runs(items: seq<nat>, acc: seq<nat>, sym: nat, x: nat)
    requires Expand(items) == Some(acc) && sym < 19 && x < Pow2(ExtraBits(sym)) && (sym == 16 ==> acc != [])
    ensures sym < 16 ==> Expand(items + [Item(sym, x)]) == Some(acc + [sym])
    ensures sym == 16 ==> x < 4 && Expand(items + [Item(sym, x)]) == Some(acc + seq(3 + x, _ => acc[|acc| - 1]))
    ensures sym == 17 ==> x < 8 && Expand(items + [Item(sym, x)]) == Some(acc + seq(3 + x, _ => 0))
    ensures sym == 18 ==> x < 128 && Expand(items + [Item(sym, x)]) == Some(acc + seq(11 + x, _ => 0))
    ensures sym < 16 ==> x == 0
  {
    hide Expand, Extend, Pow2, Item;
    Pow2Values();
    ExtendIs(acc, sym, x);
    ExpandNext(items, acc, Item(sym, x));
  }

  lemma ExpandNext(items: seq<nat>, acc: seq<nat>, it: nat)
    requires Expand(items) == Some(acc) && ItemOk(it) && (ItemSym(it) == 16 ==> acc != [])
    ensures Expand(items + [it]) == Some(Extend(acc, it))
  {
    hide ItemOk, ItemSym, Extend;
    assert (items + [it])[..|items|] == items;
  }

  lemma ExtendIs(acc: seq<nat>, sym: nat, x: nat)
    requires sym < 19 && (sym < 16 ==> x == 0) && (sym == 16 ==> acc != [])
    requires (sym == 16 ==> x < 4) && (sym == 17 ==> x < 8) && (sym == 18 ==> x < 128)
    ensures ItemSym(Item(sym, x)) == sym && ItemOk(Item(sym, x))
    ensures sym < 16 ==> Extend(acc, Item(sym, x)) == acc + [sym]
    ensures sym == 16 ==> Extend(acc, Item(sym, x)) == acc + seq(3 + x, _ => acc[|acc| - 1])
    ensures sym == 17 ==> Extend(acc, Item(sym, x)) == acc + seq(3 + x, _ => 0)
    ensures sym == 18 ==> Extend(acc, Item(sym, x)) == acc + seq(11 + x, _ => 0)
  {
    ItemParts(sym, x);
    hide ItemSym, ItemExtra, Item;
  }

  // ------------------------------------------------------------------- codes

  /** Codes of one length are consecutive in the order of their symbols, shorter codes come before longer ones, and the
      first code is all zeros (section 3.2.2). */
  lemma CodeOrder(lens: Lens, s: nat, t: nat)
    requires IsUsed(lens, s) && IsUsed(lens, t)
    ensures lens[s] == lens[t] && s < t ==> Code(lens, s) < Code(lens, t)
    ensures lens[s] == lens[t] && s < t && (forall k :: s < k < t ==> lens[k] != lens[s])
      ==> Code(lens, t) == Code(lens, s) + 1
    ensures lens[s] < lens[t] ==> (Code(lens, s) + 1) * Pow2(lens[t] - lens[s]) <= Code(lens, t)
    ensures (forall k :: 0 <= k < |lens| ==> lens[k] == 0 || lens[k] > lens[s] || (lens[k] == lens[s] && k >= s))
      ==> Code(lens, s) == 0
  {
    hide Pow2, Covered, Count, Code;
    if lens[s] == lens[t] && s < t { SameLength(lens, s, t); }
    if lens[s] < lens[t] { LongerCode(lens, s, t); }
    if forall k :: 0 <= k < |lens| ==> lens[k] == 0 || lens[k] > lens[s] || (lens[k] == lens[s] && k >= s) {
      FirstIsZero(lens, s);
    }
  }

  lemma SameLength(lens: Lens, s: nat, t: nat)
    requires IsUsed(lens, s) && IsUsed(lens, t) && lens[s] == lens[t] && s < t
    ensures Code(lens, s) < Code(lens, t)
    ensures (forall k :: s < k < t ==> lens[k] != lens[s]) ==> Code(lens, t) == Code(lens, s) + 1
  {
    hide Count, Covered;
    RankOrder(lens, s, t);
    if forall k :: s < k < t ==> lens[k] != lens[s] { CountGap(lens, s, t); }
  }

  lemma {:induction false} CountGap(lens: Lens, s: nat, t: nat)
    requires s < t <= |lens| && forall k :: s < k < t ==> lens[k] != lens[s]
    ensures Count(lens[..t], lens[s]) == Count(lens[..s], lens[s]) + 1
    decreases t
  {
    assert lens[..t][..t - 1] == lens[..t - 1];
    if s < t - 1 { CountGap(lens, s, t - 1); }
  }

  lemma LongerCode(lens: Lens, s: nat, t: nat)
    requires IsUsed(lens, s) && IsUsed(lens, t) && lens[s] < lens[t]
    ensures (Code(lens, s) + 1) * Pow2(lens[t] - lens[s]) <= Code(lens, t)
  {
    hide Covered, Code, Count, Pow2, Complete, Incomplete;
    var l, m := lens[s], lens[t];
    CodeBelow(lens, s);
    CoveredGrows(lens, l, m - 1);
    CodeAtLeast(lens, t);
    PowTwice(m - 1 - l);
    TwiceBelow(Code(lens, s), Covered(lens, l), Pow2(m - 1 - l), Covered(lens, m - 1), Code(lens, t));
    assert m - 1 - l + 1 == m - l;
  }

  lemma TwiceBelow(c: nat, covered: nat, d: nat, more: nat, later: nat)
    requires c < covered && covered * d <= more && later >= 2 * more
    ensures (c + 1) * (2 * d) <= later
  {
    MulMono(c + 1, covered, d);
    assert (c + 1) * (2 * d) == 2 * ((c + 1) * d);
  }

  lemma FirstIsZero(lens: Lens, s: nat)
    requires IsUsed(lens, s)
    requires forall k :: 0 <= k < |lens| ==> lens[k] == 0 || lens[k] > lens[s] || (lens[k] == lens[s] && k >= s)
    ensures Code(lens, s) == 0
  {
    hide Count, Covered;
    forall k: nat | 1 <= k < lens[s] ensures Count(lens, k) == 0 { CountAbsent(lens, k); }
    CoveredNone(lens, lens[s] - 1);
    CountAbsent(lens[..s], lens[s]);
  }

  lemma {:induction false} CountAbsent(lens: Lens, l: nat)
    requires forall k :: 0 <= k < |lens| ==> lens[k] != l
    ensures Count(lens, l) == 0
  {
    if lens != [] { CountAbsent(lens[..|lens| - 1], l); }
  }

  /** The codes of the fixed literal/length code (the table of section 3.2.6). */
  lemma FixedLitCodes(s: nat)
    requires s < 288
    ensures IsUsed(FixedTrees().lit, s)
    ensures var h := FixedTrees().lit;
      if s < 144 then h[s] == 8 && Code(h, s) == 48 + s
      else if s < 256 then h[s] == 9 && Code(h, s) == 400 + (s - 144)
      else if s < 280 then h[s] == 7 && Code(h, s) == s - 256
      else h[s] == 8 && Code(h, s) == 192 + (s - 280)
  {
    var h := FixedTrees().lit;
    FixedFirst();
    FixedPart(s);
    var a, b, c := Repeat(144, 8), Repeat(112, 9), Repeat(24, 7);
    hide Count, Covered, FixedTrees;
    if s < 144 {
      CountRepeat(s, 8, 8);
    } else if s < 256 {
      CountAppend(a, Repeat(s - 144, 9), 9);
      CountRepeat(144, 8, 9);
      CountRepeat(s - 144, 9, 9);
    } else if s < 280 {
      CountAppend(a + b, Repeat(s - 256, 7), 7);
      CountAppend(a, b, 7);
      CountRepeat(144, 8, 7);
      CountRepeat(112, 9, 7);
      CountRepeat(s - 256, 7, 7);
    } else {
      CountAppend(a + b + c, Repeat(s - 280, 8), 8);
      CountAppend(a + b, c, 8);
      CountAppend(a, b, 8);
      CountRepeat(144, 8, 8);
      CountRepeat(112, 9, 8);
      CountRepeat(24, 7, 8);
      CountRepeat(s - 280, 8, 8);
    }
  }

  lemma FixedPart(s: nat)
    requires s < 288
    ensures var h := FixedTrees().lit;
      var a, b, c := Repeat(144, 8), Repeat(112, 9), Repeat(24, 7);
      && |h| == 288
      && h[s] == (if s < 144 then 8 else if s < 256 then 9 else if s < 280 then 7 else 8)
      && h[..s] == (if s < 144 then Repeat(s, 8) else if s < 256 then a + Repeat(s - 144, 9)
                    else if s < 280 then a + b + Repeat(s - 256, 7) else a + b + c + Repeat(s - 280, 8))
  {
  }

  lemma FixedFirst()
    ensures var h := FixedTrees().lit;
      FirstCode(h, 7) == 0 && FirstCode(h, 8) == 48 && FirstCode(h, 9) == 400
  {
    hide Count, FixedTrees;
    var lit := FixedTrees().lit;
    forall l: nat | 1 <= l <= 9
      ensures Count(lit, l) == if l == 7 then 24 else if l == 8 then 152 else if l == 9 then 112 else 0
    {
      FixedCounts(l);
    }
    assert Covered(lit, 6) == 0 by { CoveredNone(lit, 6); }
    CoveredNext(lit, 7);
    CoveredNext(lit, 8);
  }

  /** The fixed distance codes are the five-bit numbers. */
  lemma FixedDstCodes(s: nat)
    requires s < 32
    ensures IsUsed(FixedTrees().dst, s) && FixedTrees().dst[s] == 5 && Code(FixedTrees().dst, s) == s
  {
    var h := FixedTrees().dst;
    forall l: nat | 1 <= l <= 4 ensures Count(h, l) == 0 { FixedCounts(l); }
    hide Count, Covered;
    CoveredNone(h, 4);
    assert h[..s] == Repeat(s, 5);
    CountRepeat(s, 5, 5);
  }

  // ------------------------------------------------------------------ headers

  /** Every block begins with the last-block flag and its two-bit type; stored blocks have type 0, dynamic ones 2
      (section 3.2.3). */
  lemma BlockHead(b: Block, last: bool, p: nat)
    requires BlockOk(b)
    ensures |BlockBits(b, last, p)| >= 3
    ensures BlockBits(b, last, p)[0] == last && !BlockBits(b, last, p)[1] && BlockBits(b, last, p)[2] == b.Dynamic?
  {
    hide TokensBits, Codeword, PreBits, ItemsBits, BytesToBits, Complete, AllWritable, AllItemsWritable;
    assert !Bit(0, 0) && Bit(1, 0) && !Bit(0, 1);
    assert Bit(1, 0) && !Bit(2, 0) && Bit(2, 1);
  }

  // ----------------------------------------------------------------- checksum

  function Total(data: seq<byte>): nat { if data == [] then 0 else data[0] + Total(data[1..]) }

  /** Every byte counts as often as there are bytes from it on. */
  function Weighted(data: seq<byte>): nat { if data == [] then 0 else |data| * data[0] + Weighted(data[1..]) }

  lemma {:induction false} PlainFront(init: Sums, data: seq<byte>)
    requires data != []
    ensures Plain(init, data) == Plain(Sums(init.s1 + data[0], init.s2 + init.s1 + data[0]), data[1..])
    decreases |data|
  {
    var n := |data| - 1;
    if n == 0 {
      assert data[..0] == [] && data[1..] == [];
    } else {
      PlainFront(init, data[..n]);
      assert data[..n][1..] == data[1..][..n - 1];
    }
  }

  lemma {:induction false} PlainIs(init: Sums, data: seq<byte>)
    ensures Plain(init, data) == Sums(init.s1 + Total(data), init.s2 + |data| * init.s1 + Weighted(data))
    decreases |data|
  {
    if data != [] {
      var b := data[0];
      var next := Sums(init.s1 + b, init.s2 + init.s1 + b);
      PlainFront(init, data);
      PlainIs(next, data[1..]);
      Distribute(|data| - 1, init.s1, b);
    }
  }

  lemma Distribute(n: nat, a: nat, b: nat)
    ensures n * (a + b) + a + b == (n + 1) * a + (n + 1) * b
  {
  }

  /** The two sums in closed form (section 8.2 of RFC 1950): one plus the bytes, and the sum of all values that the
      first sum takes. */
  lemma ChecksumIs(data: seq<byte>)
    ensures Checksum(Sums(1, 0), data).s1 == (1 + Total(data)) % 65521
    ensures Checksum(Sums(1, 0), data).s2 == (|data| + Weighted(data)) % 65521
  {
    PlainIs(Sums(1, 0), data);
    PlainReduces(Sums(1, 0), data);
  }
}
