/** The sub-tables for codewords longer than the index of the main table (`sinfl_build_subtbl`). */
module SinflSubTables {
  import opened Bits
  import opened Canonical
  import opened SinflTables

  /** The leading `bits` bits of the code of `t`. */
  function Top(lens: Lens, t: nat, bits: nat): (r: nat)
    requires IsUsed(lens, t) && bits < lens[t]
  {
    ShrDiv(Code(lens, t), lens[t] - bits);
    Shr(Code(lens, t), lens[t] - bits)
  }

  /** The long codeword of `t` is found through a sub-table that ends before `start`, or through
      the one of `subBits` index bits at `start` if that is the one of its leading bits. */
  ghost predicate SubOk(tbl: seq<nat>, bits: nat, lens: Lens, t: nat, nb: nat, start: nat, subBits: nat)
    requires IsUsed(lens, t) && bits < lens[t] && Pow2(bits) <= |tbl|
  {
    && Top(lens, t, bits) < nb
    && exists st: nat, sb: nat {:trigger LongOk(tbl, bits, lens, t, st, sb)} :: LongOk(tbl, bits, lens, t, st, sb) && Pow2(bits) <= st
        && (if Top(lens, t, bits) + 1 == nb then st == start && sb == subBits else st + Pow2(sb) <= start)
  }

  /** All symbols before the given one are entered. */
  ghost predicate TblOk(tbl: seq<nat>, bits: nat, lens: Lens, l: nat, r: nat, nb: nat, start: nat, subBits: nat) {
    && Pow2(bits) <= |tbl|
    && forall t: nat :: Before(lens, t, l, r) ==>
         if lens[t] <= bits then ShortOk(tbl, bits, lens, t) else SubOk(tbl, bits, lens, t, nb, start, subBits)
  }

  // ------------------------------------------------------------ arithmetic

  lemma RevTop(lens: Lens, t: nat, bits: nat)
    requires Fits(lens) && IsUsed(lens, t) && bits < lens[t]
    ensures RevCode(lens, t) % Pow2(bits) == Rev(Top(lens, t, bits), bits)
    ensures Top(lens, t, bits) < Pow2(bits)
  {
    hide Code, Rev, Covered, Count, Pow2, Fits, Shr;
    var c, l := Code(lens, t), lens[t];
    CodeBelow(lens, t);
    RevPrefix(c, l, bits);
    ShrDiv(c, l - bits);
    ShiftBelow(c, bits, l);
  }

  /** The bits of a word, split at `b`. */
  lemma SplitMod(w: nat, b: nat, k: nat)
    ensures w % Pow2(b + k) == Low(Shr(w, b), k) * Pow2(b) + w % Pow2(b)
  {
    Pow2Add(b, k);
    ShrDiv(w, b);
    SplitDiv(w, Pow2(b), Pow2(k));
  }

  lemma SplitDiv(w: nat, x: nat, y: nat)
    requires x > 0 && y > 0
    ensures x * y > 0 && w % (x * y) == ((w / x) % y) * x + w % x
  {
    DivMod(w, x);
    DivMod(w / x, y);
    SplitParts(w, x, y, w / x, w % x, (w / x) / y, (w / x) % y);
  }

  lemma DivMod(w: nat, x: nat)
    requires x > 0
    ensures w / x >= 0 && 0 <= w % x < x && w == x * (w / x) + w % x
  {
  }

  lemma SplitParts(w: nat, x: nat, y: nat, q: nat, lo: nat, g: nat, h: nat)
    requires lo < x && h < y && w == x * q + lo && q == y * g + h
    ensures x * y > 0 && w % (x * y) == h * x + lo
  {
    Distribute(x, y, g, h);
    PairBelow(lo, x, h, y);
    DivUnique(w, x * y, g, h * x + lo);
  }

  lemma Distribute(x: nat, y: nat, g: nat, h: nat)
    ensures x * (y * g + h) == (x * y) * g + h * x
  {
  }

  lemma ModMod(w: nat, a: nat, b: nat)
    requires b <= a
    ensures (w % Pow2(a)) % Pow2(b) == w % Pow2(b)
    ensures Low(Low(w, a), b) == Low(w, b)
  {
    Pow2Add(b, a - b);
    ModFactor(w, Pow2(b), Pow2(a - b));
  }

  lemma ModFactor(w: nat, x: nat, y: nat)
    requires x > 0 && y > 0
    ensures x * y > 0 && (w % (x * y)) % x == w % x
  {
    SplitDiv(w, x, y);
    DivMod(w, x);
    DivMod(w / x, y);
    LowPart((w / x) % y, x, w % x);
  }

  lemma LowPart(h: nat, x: nat, lo: nat)
    requires lo < x
    ensures (h * x + lo) % x == lo
  {
    DivUnique(h * x + lo, x, h, lo);
  }

  /** Two codewords that agree on the index of the main table differ in the sub-table. */
  lemma SubDiffers(lens: Lens, s: nat, t: nat, bits: nat)
    requires Fits(lens) && IsUsed(lens, s) && IsUsed(lens, t) && s != t && bits < lens[t] <= lens[s]
    requires Top(lens, s, bits) == Top(lens, t, bits)
    ensures Low(Shr(RevCode(lens, s), bits), lens[t] - bits) != Shr(RevCode(lens, t), bits)
  {
    hide Code, Rev, Covered, Count, Shr, Pow2, Fits, Low, Top, RevCode;
    NoPrefix(lens, s, t);
    RevTop(lens, s, bits);
    RevTop(lens, t, bits);
    var k := lens[t] - bits;
    SplitMod(RevCode(lens, s), bits, k);
    SplitMod(RevCode(lens, t), bits, k);
    ModBelow(RevCode(lens, t), Pow2(bits + k));
    assert Shr(RevCode(lens, t), bits) < Pow2(k) by { ShrBelow(RevCode(lens, t), bits, k); }
    LowBelow(Shr(RevCode(lens, t), bits), k);
  }

  lemma LowBelow(w: nat, n: nat)
    requires w < Pow2(n)
    ensures Low(w, n) == w
  {
    ModBelow(w, Pow2(n));
  }

  lemma ShrBelow(w: nat, b: nat, k: nat)
    requires w < Pow2(b + k)
    ensures Shr(w, b) < Pow2(k)
  {
    ShrDiv(w, b);
    Pow2Add(k, b);
    DivBelow(w, Pow2(k), Pow2(b));
  }

  // -------------------------------------------------------------- new table

  /** Linking a new sub-table. */
  lemma LinkOther(tbl: seq<nat>, bits: nat, lens: Lens, s: nat, t: nat, nb: nat, start: nat, subBits: nat, v: nat,
                  start': nat, subBits': nat)
    requires Fits(lens) && IsUsed(lens, s) && IsUsed(lens, t) && bits < lens[t] && bits < lens[s]
    requires Pow2(bits) <= |tbl| && Top(lens, s, bits) == nb && SubOk(tbl, bits, lens, t, nb, start, subBits)
    requires start + Pow2(subBits) <= start'
    ensures RevCode(lens, s) % Pow2(bits) < |tbl|
    ensures SubOk(tbl[RevCode(lens, s) % Pow2(bits) := v], bits, lens, t, nb + 1, start', subBits')
  {
    hide Code, Rev, Covered, Count, Shr, Pow2, Fits;
    RevTop(lens, s, bits);
    RevTop(lens, t, bits);
    var p := RevCode(lens, s) % Pow2(bits);
    if RevCode(lens, t) % Pow2(bits) == p { RevInjective(Top(lens, s, bits), Top(lens, t, bits), bits); }
    var st: nat, sb: nat :| LongOk(tbl, bits, lens, t, st, sb) && Pow2(bits) <= st
        && (if Top(lens, t, bits) + 1 == nb then st == start && sb == subBits else st + Pow2(sb) <= start);
    LongKeeps(tbl, bits, lens, t, st, sb, p, v);
  }

  lemma LongKeeps(tbl: seq<nat>, bits: nat, lens: Lens, t: nat, st: nat, sb: nat, p: nat, v: nat)
    requires IsUsed(lens, t) && bits < lens[t] && Pow2(bits) <= |tbl| && p < Pow2(bits) <= st
    requires LongOk(tbl, bits, lens, t, st, sb) && RevCode(lens, t) % Pow2(bits) != p
    ensures LongOk(tbl[p := v], bits, lens, t, st, sb)
  {
    hide RevCode, Shr, Pow2;
  }

  lemma LinkShort(tbl: seq<nat>, bits: nat, lens: Lens, s: nat, t: nat, v: nat)
    requires Fits(lens) && IsUsed(lens, s) && IsUsed(lens, t) && lens[t] <= bits < lens[s]
    requires Pow2(bits) <= |tbl| && ShortOk(tbl, bits, lens, t)
    ensures RevCode(lens, s) % Pow2(bits) < |tbl|
    ensures ShortOk(tbl[RevCode(lens, s) % Pow2(bits) := v], bits, lens, t)
  {
    hide RevCode, Pow2, Fits;
    NoPrefix(lens, s, t);
    ModBelow(RevCode(lens, s), Pow2(bits));
    ModMod(RevCode(lens, s), bits, lens[t]);
  }

  /** Starting the sub-table of symbol `s`. */
  lemma LinkAll(tbl: seq<nat>, bits: nat, lens: Lens, l: nat, r: nat, s: nat, nb: nat, start: nat, subBits: nat,
                v: nat, start': nat, subBits': nat)
    requires Fits(lens) && Current(lens, s, l, r) && bits < l && Top(lens, s, bits) == nb
    requires TblOk(tbl, bits, lens, l, r, nb, start, subBits)
    requires start + Pow2(subBits) <= start' || forall t: nat :: Before(lens, t, l, r) ==> lens[t] <= bits
    ensures RevCode(lens, s) % Pow2(bits) < |tbl|
    ensures TblOk(tbl[RevCode(lens, s) % Pow2(bits) := v], bits, lens, l, r, nb + 1, start', subBits')
  {
    hide RevCode, Pow2, Fits, ShortOk, SubOk, Count, Top;
    ModBelow(RevCode(lens, s), Pow2(bits));
    var tbl' := tbl[RevCode(lens, s) % Pow2(bits) := v];
    forall t: nat | Before(lens, t, l, r)
      ensures if lens[t] <= bits then ShortOk(tbl', bits, lens, t)
              else SubOk(tbl', bits, lens, t, nb + 1, start', subBits')
    {
      if lens[t] <= bits {
        LinkShort(tbl, bits, lens, s, t, v);
      } else {
        LinkOther(tbl, bits, lens, s, t, nb, start, subBits, v, start', subBits');
      }
    }
  }

  // ---------------------------------------------------------------- filling

  /** The places of a sub-table that continue a codeword. */
  ghost predicate Filled(old_: seq<nat>, new_: seq<nat>, start: nat, end: nat, k: nat, off: nat, e: nat) {
    && |new_| == |old_|
    && forall i :: 0 <= i < |old_| ==>
         new_[i] == if i < end && Hit(i, start, k, off) then e else old_[i]
  }

  /** Place `i` of the sub-table at `start` belongs to the codeword with the `k` further bits `off`. */
  predicate Hit(i: int, start: nat, k: nat, off: nat) { start <= i && Low(i - start, k) == off }

  /** One symbol entered in its sub-table. */
  lemma FillSelf(tbl: seq<nat>, tbl': seq<nat>, bits: nat, lens: Lens, s: nat, start: nat, subBits: nat)
    requires IsUsed(lens, s) && bits < lens[s] <= bits + subBits <= MAX_CODE_LEN && Pow2(bits) <= start
    requires start + Pow2(subBits) <= |tbl| && tbl[RevCode(lens, s) % Pow2(bits)] == Link(start, subBits)
    requires Filled(tbl, tbl', start, start + Pow2(subBits), lens[s] - bits, Shr(RevCode(lens, s), bits),
                    Entry(s, lens[s] - bits))
    ensures LongOk(tbl', bits, lens, s, start, subBits)
  {
    hide RevCode, Shr, Pow2, Link, Entry, Low;
    ModBelow(RevCode(lens, s), Pow2(bits));
  }

  lemma FillOther(tbl: seq<nat>, tbl': seq<nat>, bits: nat, lens: Lens, s: nat, t: nat, nb: nat, start: nat,
                  subBits: nat, e: nat)
    requires Fits(lens) && IsUsed(lens, s) && IsUsed(lens, t) && s != t && bits < lens[t] <= lens[s]
    requires Pow2(bits) <= start && start + Pow2(subBits) <= |tbl|
    requires Top(lens, s, bits) + 1 == nb && SubOk(tbl, bits, lens, t, nb, start, subBits)
    requires Filled(tbl, tbl', start, start + Pow2(subBits), lens[s] - bits, Shr(RevCode(lens, s), bits), e)
    ensures SubOk(tbl', bits, lens, t, nb, start, subBits)
  {
    hide RevCode, Shr, Pow2, Fits, Link, Entry, Top, LongOk, Filled;
    FilledLen(tbl, tbl', start, start + Pow2(subBits), lens[s] - bits, Shr(RevCode(lens, s), bits), e);
    var st: nat, sb: nat :| LongOk(tbl, bits, lens, t, st, sb) && Pow2(bits) <= st
        && (if Top(lens, t, bits) + 1 == nb then st == start && sb == subBits else st + Pow2(sb) <= start);
    if Top(lens, t, bits) + 1 == nb {
      SubDiffers(lens, s, t, bits);
      FillSame(tbl, tbl', bits, lens, s, t, start, subBits, e);
    } else {
      FillDisjoint(tbl, tbl', bits, lens, t, st, sb, start, start + Pow2(subBits), lens[s] - bits,
                   Shr(RevCode(lens, s), bits), e);
    }
  }

  lemma FilledLen(old_: seq<nat>, new_: seq<nat>, start: nat, end: nat, k: nat, off: nat, e: nat)
    requires Filled(old_, new_, start, end, k, off, e)
    ensures |new_| == |old_|
  {
  }

  lemma FillDisjoint(tbl: seq<nat>, tbl': seq<nat>, bits: nat, lens: Lens, t: nat, st: nat, sb: nat, start: nat,
                     end: nat, k: nat, off: nat, e: nat)
    requires IsUsed(lens, t) && bits < lens[t] && Pow2(bits) <= |tbl| && Pow2(bits) <= start
    requires LongOk(tbl, bits, lens, t, st, sb) && st + Pow2(sb) <= start
    requires Filled(tbl, tbl', start, end, k, off, e)
    ensures LongOk(tbl', bits, lens, t, st, sb)
  {
    hide RevCode, Shr, Pow2, Link, Entry, Low;
    ModBelow(RevCode(lens, t), Pow2(bits));
  }

  lemma FillSame(tbl: seq<nat>, tbl': seq<nat>, bits: nat, lens: Lens, s: nat, t: nat, start: nat, subBits: nat,
                 e: nat)
    requires IsUsed(lens, s) && IsUsed(lens, t) && bits < lens[t] <= lens[s] && Pow2(bits) <= start
    requires Pow2(bits) <= |tbl| && LongOk(tbl, bits, lens, t, start, subBits)
    requires Low(Shr(RevCode(lens, s), bits), lens[t] - bits) != Shr(RevCode(lens, t), bits)
    requires Filled(tbl, tbl', start, start + Pow2(subBits), lens[s] - bits, Shr(RevCode(lens, s), bits), e)
    ensures LongOk(tbl', bits, lens, t, start, subBits)
  {
    hide RevCode, Shr, Pow2, Link, Entry, Low;
    var r, k := RevCode(lens, t), lens[t] - bits;
    ModBelow(r, Pow2(bits));
    forall i | start <= i < start + Pow2(subBits) && Low(i - start, k) == Shr(r, bits)
      ensures tbl'[i] == Entry(t, k)
    {
      ModMod(i - start, lens[s] - bits, k);
    }
  }

  lemma FillShort(tbl: seq<nat>, tbl': seq<nat>, bits: nat, lens: Lens, t: nat, start: nat, end: nat, k: nat,
                  off: nat, e: nat)
    requires IsUsed(lens, t) && Pow2(bits) <= |tbl| && Pow2(bits) <= start && ShortOk(tbl, bits, lens, t)
    requires Filled(tbl, tbl', start, end, k, off, e)
    ensures ShortOk(tbl', bits, lens, t)
  {
    hide RevCode, Pow2, Entry;
  }

  /** Entering symbol `s` in its sub-table. */
  lemma FillAll(tbl: seq<nat>, tbl': seq<nat>, bits: nat, lens: Lens, l: nat, r: nat, s: nat, nb: nat, start: nat,
                subBits: nat)
    requires Fits(lens) && Current(lens, s, l, r) && bits < l <= bits + subBits <= MAX_CODE_LEN
    requires Top(lens, s, bits) + 1 == nb && TblOk(tbl, bits, lens, l, r, nb, start, subBits)
    requires Pow2(bits) <= start && start + Pow2(subBits) <= |tbl|
    requires RevCode(lens, s) % Pow2(bits) < |tbl| && tbl[RevCode(lens, s) % Pow2(bits)] == Link(start, subBits)
    requires Filled(tbl, tbl', start, start + Pow2(subBits), l - bits, Shr(RevCode(lens, s), bits),
                    Entry(s, l - bits))
    ensures TblOk(tbl', bits, lens, l, r + 1, nb, start, subBits)
  {
    hide RevCode, Shr, Pow2, Fits, Link, Entry, LongOk, Filled, Count, ShortOk, Top, SubOk;
    FilledLen(tbl, tbl', start, start + Pow2(subBits), l - bits, Shr(RevCode(lens, s), bits), Entry(s, l - bits));
    forall t: nat | Before(lens, t, l, r + 1)
      ensures if lens[t] <= bits then ShortOk(tbl', bits, lens, t)
              else SubOk(tbl', bits, lens, t, nb, start, subBits)
    {
      BeforeNext(lens, s, l, r, t);
      if t == s {
        FillSelf(tbl, tbl', bits, lens, s, start, subBits);
        SubIntro(tbl', bits, lens, s, nb, start, subBits);
      } else {
        NotBeforeSelf(lens, s, l, r, t);
        if lens[t] <= bits {
          FillShort(tbl, tbl', bits, lens, t, start, start + Pow2(subBits), l - bits,
                    Shr(RevCode(lens, s), bits), Entry(s, l - bits));
        } else {
          FillOther(tbl, tbl', bits, lens, s, t, nb, start, subBits, Entry(s, l - bits));
        }
      }
    }
  }

  lemma SubIntro(tbl: seq<nat>, bits: nat, lens: Lens, s: nat, nb: nat, start: nat, subBits: nat)
    requires IsUsed(lens, s) && bits < lens[s] && Pow2(bits) <= |tbl| && Pow2(bits) <= start
    requires LongOk(tbl, bits, lens, s, start, subBits) && Top(lens, s, bits) + 1 == nb
    ensures SubOk(tbl, bits, lens, s, nb, start, subBits)
  {
    hide LongOk, Top, Pow2;
  }

  // ------------------------------------------------------------------ zones

  /** Code `c` of length `l` lies in the last one of the first `nb` zones of equal leading bits,
      or, with `fresh`, right behind them. */
  predicate Zone(c: nat, l: nat, bits: nat, nb: nat, open: bool) {
    && bits < l && c <= nb * Pow2(l - bits)
    && (open ==> nb > 0 && (nb - 1) * Pow2(l - bits) <= c)
    && (!open ==> c == nb * Pow2(l - bits))
  }

  lemma ZoneTop(c: nat, l: nat, bits: nat, nb: nat, open: bool)
    requires Zone(c, l, bits, nb, open)
    ensures Shr(c, l - bits) == nb || (open && Shr(c, l - bits) + 1 == nb)
    ensures Shr(c, l - bits) == nb ==> c == nb * Pow2(l - bits)
    ensures Shr(c, l - bits) + 1 == nb ==> c + 1 <= nb * Pow2(l - bits)
  {
    var d := Pow2(l - bits);
    ShrDiv(c, l - bits);
    if c == nb * d {
      DivUnique(c, d, nb, 0);
    } else {
      ZoneParts(c, d, nb);
    }
  }

  lemma ZoneParts(c: nat, d: nat, nb: nat)
    requires nb > 0 && d > 0 && (nb - 1) * d <= c < nb * d
    ensures c / d == nb - 1
  {
    assert nb * d == (nb - 1) * d + d;
    DivUnique(c, d, nb - 1, c - (nb - 1) * d);
  }

  /** Codes of a longer length. */
  lemma {:induction false} ZoneLonger(c: nat, l: nat, bits: nat, nb: nat, open: bool, k: nat)
    requires Zone(c, l, bits, nb, open)
    ensures Zone(c * Pow2(k), l + k, bits, nb, open)
  {
    Pow2Add(l - bits, k);
    var d, e := Pow2(l - bits), Pow2(k);
    ScaleMono(c, nb, d, e);
    if open { ScaleBelow(c, nb - 1, d, e); }
    ScaleAssoc(nb, d, e);
  }

  lemma ScaleMono(c: nat, nb: nat, d: nat, e: nat)
    requires c <= nb * d
    ensures c * e <= nb * (d * e)
  {
    MulMono(c, nb * d, e);
    ScaleAssoc(nb, d, e);
  }

  lemma ScaleBelow(c: nat, nb: nat, d: nat, e: nat)
    requires nb * d <= c
    ensures nb * (d * e) <= c * e
  {
    MulMono(nb * d, c, e);
    ScaleAssoc(nb, d, e);
  }

  lemma ScaleAssoc(a: nat, d: nat, e: nat)
    ensures a * (d * e) == (a * d) * e
  {
  }

  /** Between two lengths in use. */
  lemma {:induction false} CoveredGap(lens: Lens, l: nat, m: nat)
    requires l <= m && forall k :: l < k <= m ==> Count(lens, k) == 0
    ensures Covered(lens, m) == Covered(lens, l) * Pow2(m - l)
    decreases m
  {
    if l < m {
      CoveredGap(lens, l, m - 1);
      TwiceProduct(Covered(lens, l), Pow2(m - 1 - l));
    }
  }

  /** The sub-table covers what is left of its zone. */
  predicate Covers(lens: Lens, bits: nat, nb: nat, subBits: nat) {
    bits + subBits <= MAX_CODE_LEN && Covered(lens, bits + subBits) >= nb * Pow2(subBits)
  }

  /** Symbols of the current zone are no longer than its sub-table allows. */
  lemma ZoneFits(lens: Lens, l: nat, r: nat, bits: nat, nb: nat, subBits: nat)
    requires bits < l && Covers(lens, bits, nb, subBits)
    requires FirstCode(lens, l) + r < nb * Pow2(l - bits)
    ensures l <= bits + subBits
  {
    var m := bits + subBits;
    if l > m {
      CoveredGrows(lens, m, l - 1);
      Pow2Add(subBits, l - m);
      ZoneOver(Covered(lens, m), nb, Pow2(subBits), Pow2(l - 1 - m), FirstCode(lens, l) + r);
    }
  }

  lemma ZoneOver(covered: nat, nb: nat, d: nat, e: nat, c: nat)
    requires covered >= nb * d && c >= 2 * (covered * e)
    ensures c >= nb * (d * (2 * e))
  {
    MulMono(nb * d, covered, e);
    assert 2 * ((nb * d) * e) == (nb * d) * (2 * e);
    ScaleAssoc(nb, d, 2 * e);
  }

  // ------------------------------------------------------------- the state

  /** The state of the generator, `r` symbols into length `len`, with `nb` zones begun. */
  ghost predicate SubInv(tbl: seq<nat>, bits: nat, lens: Lens, l: nat, r: nat, nb: nat, open: bool,
                         prefix: int, start: nat, subBits: nat, tblEnd: nat)
  {
    && TblOk(tbl, bits, lens, l, r, nb, start, subBits)
    && 0 < bits < MAX_CODE_LEN && |tbl| >= Pow2(bits) + Pow2(MAX_CODE_LEN)
    && l > 0 && Zone(FirstCode(lens, l) + r, l, bits, nb, open)
    && EndOk(bits, nb, tblEnd)
    && (open ==> LinkedOk(tbl, bits, lens, nb, prefix, start, subBits, tblEnd))
    && (!open ==> prefix == -1 && forall t: nat :: Before(lens, t, l, r) ==> lens[t] <= bits)
  }

  /** The sub-tables take no more room than `nb` of them can. */
  predicate EndOk(bits: nat, nb: nat, tblEnd: nat) {
    bits <= MAX_CODE_LEN && Pow2(bits) <= tblEnd <= Pow2(bits) + nb * Pow2(MAX_CODE_LEN - bits)
  }

  ghost predicate LinkedOk(tbl: seq<nat>, bits: nat, lens: Lens, nb: nat, prefix: int, start: nat, subBits: nat,
                           tblEnd: nat)
  {
    && Pow2(bits) <= start && start + Pow2(subBits) == tblEnd
    && 0 < nb <= Pow2(bits) && prefix == Rev(nb - 1, bits) < |tbl| && tbl[prefix] == Link(start, subBits)
    && Covers(lens, bits, nb, subBits)
  }

  lemma SubInit(tbl: seq<nat>, bits: nat, lens: Lens, l: nat)
    requires MainOk'(tbl, bits, lens, l) && 0 < bits < MAX_CODE_LEN && bits < l <= MAX_CODE_LEN
    requires |tbl| >= Pow2(bits) + Pow2(MAX_CODE_LEN)
    ensures SubInv(tbl, bits, lens, l, 0, Covered(lens, bits), false, -1, 0, 0, Pow2(bits))
  {
    hide Pow2, Count, ShortOk, SubOk, Covered;
    forall k | bits < k <= l - 1 ensures Count(lens, k) == 0 {
      if Count(lens, k) > 0 {
        var t := CurrentExists(lens, k, 0);
        NoLonger(tbl, bits, lens, l, t);
      }
    }
    CoveredGap(lens, bits, l - 1);
    var c := Covered(lens, bits);
    assert Pow2(l - bits) == 2 * Pow2(l - 1 - bits) by { PowTwice(l - 1 - bits); }
    TwiceProduct(c, Pow2(l - 1 - bits));
  }

  lemma NoLonger(tbl: seq<nat>, bits: nat, lens: Lens, l: nat, t: nat)
    requires MainOk'(tbl, bits, lens, l) && IsUsed(lens, t) && lens[t] < l
    ensures lens[t] <= bits
  {
    assert Before(lens, t, l, 0);
  }

  ghost predicate MainOk'(tbl: seq<nat>, bits: nat, lens: Lens, l: nat) {
    Pow2(bits) <= |tbl| && MainOk(tbl, bits, lens, l, 0)
  }

  /** The word tells whether the zone of the current symbol already has its sub-table. */
  lemma SubZone(tbl: seq<nat>, bits: nat, lens: Lens, l: nat, r: nat, s: nat, nb: nat, open: bool,
                prefix: int, start: nat, subBits: nat, tblEnd: nat)
    requires SubInv(tbl, bits, lens, l, r, nb, open, prefix, start, subBits, tblEnd)
    requires Fits(lens) && Current(lens, s, l, r)
    ensures bits < l <= MAX_CODE_LEN && nb <= Pow2(bits)
    ensures RevCode(lens, s) % Pow2(bits) == prefix <==> (open && Top(lens, s, bits) + 1 == nb)
    ensures RevCode(lens, s) % Pow2(bits) != prefix ==>
      Top(lens, s, bits) == nb && FirstCode(lens, l) + r == nb * Pow2(l - bits) && nb < Pow2(bits)
    ensures RevCode(lens, s) % Pow2(bits) < |tbl|
  {
    hide TblOk, Count, Covered, Pow2, Rev, Covers, Fits, Shr;
    assert Code(lens, s) == FirstCode(lens, l) + r;
    ZoneTop(FirstCode(lens, l) + r, l, bits, nb, open);
    RevTop(lens, s, bits);
    ModBelow(RevCode(lens, s), Pow2(bits));
    if open && RevCode(lens, s) % Pow2(bits) == prefix {
      RevInjective(Top(lens, s, bits), nb - 1, bits);
    }
  }

  /** A sub-table is begun. */
  lemma SubLink(tbl: seq<nat>, bits: nat, lens: Lens, l: nat, r: nat, s: nat, nb: nat, open: bool,
                prefix: int, start: nat, subBits: nat, tblEnd: nat, subBits': nat)
    requires SubInv(tbl, bits, lens, l, r, nb, open, prefix, start, subBits, tblEnd)
    requires Fits(lens) && Current(lens, s, l, r) && RevCode(lens, s) % Pow2(bits) != prefix
    requires Covers(lens, bits, nb + 1, subBits')
    ensures RevCode(lens, s) % Pow2(bits) < |tbl|
    ensures var p := RevCode(lens, s) % Pow2(bits);
      SubInv(tbl[p := Link(tblEnd, subBits')], bits, lens, l, r, nb + 1, true, p, tblEnd, subBits',
             tblEnd + Pow2(subBits'))
  {
    hide TblOk, Count, Covered, Pow2, Rev, Covers, Fits, Shr, Link, FirstCode, RevCode, Current, Top, Before;
    SubZone(tbl, bits, lens, l, r, s, nb, open, prefix, start, subBits, tblEnd);
    CurrentParts(lens, s, l, r);
    var p := RevCode(lens, s) % Pow2(bits);
    LinkAll(tbl, bits, lens, l, r, s, nb, start, subBits, Link(tblEnd, subBits'), tblEnd, subBits');
    RevTop(lens, s, bits);
    CoversLen(lens, bits, nb + 1, subBits');
    Pow2Mono(subBits', MAX_CODE_LEN - bits);
    assert (nb + 1) * Pow2(MAX_CODE_LEN - bits) == nb * Pow2(MAX_CODE_LEN - bits) + Pow2(MAX_CODE_LEN - bits);
    assert (nb + 1) * Pow2(l - bits) == nb * Pow2(l - bits) + Pow2(l - bits);
    assert Zone(FirstCode(lens, l) + r, l, bits, nb + 1, true);
  }

  lemma CurrentParts(lens: Lens, s: nat, l: nat, r: nat)
    requires Current(lens, s, l, r)
    ensures IsUsed(lens, s) && lens[s] == l && 0 < l <= MAX_CODE_LEN && r < Count(lens, l)
    ensures Code(lens, s) == FirstCode(lens, l) + r
  {
    RankBelow(lens, s);
  }

  lemma CoversLen(lens: Lens, bits: nat, nb: nat, subBits: nat)
    requires Covers(lens, bits, nb, subBits)
    ensures bits + subBits <= MAX_CODE_LEN
  {
  }

  /** The sub-table has room for the codeword. */
  lemma SubRoom(tbl: seq<nat>, bits: nat, lens: Lens, l: nat, r: nat, s: nat, nb: nat,
                prefix: int, start: nat, subBits: nat, tblEnd: nat)
    requires SubInv(tbl, bits, lens, l, r, nb, true, prefix, start, subBits, tblEnd)
    requires Fits(lens) && Current(lens, s, l, r) && RevCode(lens, s) % Pow2(bits) == prefix
    ensures bits < l <= bits + subBits <= MAX_CODE_LEN && tblEnd <= |tbl| && start + Pow2(subBits) == tblEnd
    ensures Shr(RevCode(lens, s), bits) < Pow2(l - bits) <= Pow2(subBits)
    ensures FirstCode(lens, l) + r + 1 <= nb * Pow2(l - bits)
  {
    hide EndOk, Zone, TblOk, Count, Covered, Pow2, Rev, Covers, Fits, Shr, Link, FirstCode, RevCode, Current, Top, Before;
    SubZone(tbl, bits, lens, l, r, s, nb, true, prefix, start, subBits, tblEnd);
    CurrentParts(lens, s, l, r);
    ZoneTop(FirstCode(lens, l) + r, l, bits, nb, true);
    assert Top(lens, s, bits) == Shr(FirstCode(lens, l) + r, l - bits) by { TopIs(lens, s, bits); }
    ZoneFits(lens, l, r, bits, nb, subBits);
    CoversLen(lens, bits, nb, subBits);
    ShrBelow(RevCode(lens, s), bits, l - bits);
    Pow2Mono(l - bits, subBits);
    EndRoom(bits, nb, tblEnd);
  }

  lemma EndRoom(bits: nat, nb: nat, tblEnd: nat)
    requires EndOk(bits, nb, tblEnd) && nb <= Pow2(bits)
    ensures tblEnd <= Pow2(bits) + Pow2(MAX_CODE_LEN)
  {
    Pow2Add(bits, MAX_CODE_LEN - bits);
    MulMono(nb, Pow2(bits), Pow2(MAX_CODE_LEN - bits));
  }

  lemma TopIs(lens: Lens, s: nat, bits: nat)
    requires IsUsed(lens, s) && bits < lens[s]
    ensures Top(lens, s, bits) == Shr(Code(lens, s), lens[s] - bits)
  {
  }

  /** The symbol is entered. */
  lemma SubFill(tbl: seq<nat>, tbl': seq<nat>, bits: nat, lens: Lens, l: nat, r: nat, s: nat, nb: nat,
                prefix: int, start: nat, subBits: nat, tblEnd: nat)
    requires SubInv(tbl, bits, lens, l, r, nb, true, prefix, start, subBits, tblEnd)
    requires Fits(lens) && Current(lens, s, l, r) && RevCode(lens, s) % Pow2(bits) == prefix
    requires bits < l && Filled(tbl, tbl', start, tblEnd, l - bits, Shr(RevCode(lens, s), bits), Entry(s, l - bits))
    ensures TblOk(tbl', bits, lens, l, r + 1, nb, start, subBits)
    ensures SubStep(tbl', bits, lens, FirstCode(lens, l) + r + 1, l, nb, prefix, start, subBits, tblEnd)
  {
    hide TblOk, Count, Covered, Pow2, Rev, Covers, Fits, Shr, Link, FirstCode, RevCode, Current, Top, Before, Filled, Entry;
    hide Zone, EndOk;
    SubZone(tbl, bits, lens, l, r, s, nb, true, prefix, start, subBits, tblEnd);
    SubRoom(tbl, bits, lens, l, r, s, nb, prefix, start, subBits, tblEnd);
    CurrentParts(lens, s, l, r);
    ZoneStep(FirstCode(lens, l) + r, l, bits, nb);
    FillAll(tbl, tbl', bits, lens, l, r, s, nb, start, subBits);
    RevTop(lens, s, bits);
    ModBelow(RevCode(lens, s), Pow2(bits));
    FilledAt(tbl, tbl', start, tblEnd, l - bits, Shr(RevCode(lens, s), bits), Entry(s, l - bits), prefix);
  }

  lemma ZoneStep(c: nat, l: nat, bits: nat, nb: nat)
    requires Zone(c, l, bits, nb, true) && c + 1 <= nb * Pow2(l - bits)
    ensures Zone(c + 1, l, bits, nb, true)
  {
    hide Pow2;
  }

  lemma FilledAt(old_: seq<nat>, new_: seq<nat>, start: nat, end: nat, k: nat, off: nat, e: nat, i: nat)
    requires Filled(old_, new_, start, end, k, off, e) && i < start && i < |old_|
    ensures |new_| == |old_| && new_[i] == old_[i]
  {
  }

  /** Between two symbols: `c` is the next code of length `l`. */
  ghost predicate SubStep(tbl: seq<nat>, bits: nat, lens: Lens, c: nat, l: nat, nb: nat, prefix: int, start: nat,
                          subBits: nat, tblEnd: nat)
  {
    && 0 < bits < MAX_CODE_LEN && |tbl| >= Pow2(bits) + Pow2(MAX_CODE_LEN)
    && Zone(c, l, bits, nb, true)
    && EndOk(bits, nb, tblEnd)
    && LinkedOk(tbl, bits, lens, nb, prefix, start, subBits, tblEnd)
  }

  /** On to the next symbol of the same length. */
  lemma SubNext(tbl: seq<nat>, bits: nat, lens: Lens, l: nat, r: nat, nb: nat, prefix: int, start: nat,
                subBits: nat, tblEnd: nat)
    requires l > 0 && TblOk(tbl, bits, lens, l, r, nb, start, subBits)
    requires SubStep(tbl, bits, lens, FirstCode(lens, l) + r, l, nb, prefix, start, subBits, tblEnd)
    ensures SubInv(tbl, bits, lens, l, r, nb, true, prefix, start, subBits, tblEnd)
  {
    hide TblOk, Covered, Pow2, LinkedOk, Zone, FirstCode;
  }

  /** On to the next length in use. */
  lemma SubLonger(tbl: seq<nat>, bits: nat, lens: Lens, l: nat, m: nat, nb: nat, prefix: int, start: nat,
                  subBits: nat, tblEnd: nat)
    requires 0 < l < m && TblOk(tbl, bits, lens, l, Count(lens, l), nb, start, subBits)
    requires SubStep(tbl, bits, lens, Covered(lens, l), l, nb, prefix, start, subBits, tblEnd)
    requires forall k :: l < k < m ==> Count(lens, k) == 0
    ensures SubInv(tbl, bits, lens, m, 0, nb, true, prefix, start, subBits, tblEnd)
  {
    hide Count, Covered, Pow2, LinkedOk, Zone, ShortOk, SubOk;
    forall t: nat | Before(lens, t, m, 0) ensures Before(lens, t, l, Count(lens, l)) {
      RankBelow(lens, t);
    }
    CoveredGap(lens, l, m - 1);
    ZoneLonger(Covered(lens, l), l, bits, nb, true, m - l);
    assert Pow2(m - l) == 2 * Pow2(m - 1 - l) by { PowTwice(m - 1 - l); }
    TwiceProduct(Covered(lens, l), Pow2(m - 1 - l));
  }

  // ---------------------------------------------------------------- methods

  /** How wide the sub-table of the current zone must be. */
  method SubSize(cnt: nat, len: nat, bits: nat, cnts: array<nat>, ghost lens: Lens, ghost r: nat, ghost nb: nat)
    returns (subBits: nat)
    requires 0 < bits < len <= MAX_CODE_LEN && Complete(lens) && Counted(cnts[..], lens)
    requires r <= Count(lens, len) && cnt == Count(lens, len) - r
    requires FirstCode(lens, len) + r == nb * Pow2(len - bits) && nb < Pow2(bits)
    ensures Covers(lens, bits, nb + 1, subBits)
  {
    hide Pow2, Count, Covered, Counted, Complete;
    subBits := len - bits;
    var used: nat := cnt;
    assert used + nb * Pow2(subBits) == Covered(lens, bits + subBits) by { CoveredLast(lens, len); }
    while used < Pow2(subBits)
      invariant subBits <= MAX_CODE_LEN - bits && used + nb * Pow2(subBits) == Covered(lens, bits + subBits)
      decreases MAX_CODE_LEN - subBits
    {
      if subBits == MAX_CODE_LEN - bits { LastZone(lens, bits, nb, used); }
      CountedAt(cnts[..], lens, bits + subBits + 1);
      CoveredLast(lens, bits + subBits + 1);
      PowTwice(subBits);
      TwiceProduct(nb, Pow2(subBits));
      subBits := subBits + 1;
      used := 2 * used + cnts[bits + subBits];
    }
    assert (nb + 1) * Pow2(subBits) == nb * Pow2(subBits) + Pow2(subBits);
  }

  lemma CoveredLast(lens: Lens, l: nat)
    requires l > 0
    ensures Covered(lens, l) == FirstCode(lens, l) + Count(lens, l) == 2 * Covered(lens, l - 1) + Count(lens, l)
  {
  }

  lemma LastZone(lens: Lens, bits: nat, nb: nat, used: nat)
    requires 0 < bits < MAX_CODE_LEN && Complete(lens) && nb < Pow2(bits)
    requires used + nb * Pow2(MAX_CODE_LEN - bits) == Covered(lens, MAX_CODE_LEN)
    ensures used >= Pow2(MAX_CODE_LEN - bits)
  {
    hide Covered, Pow2;
    var d := Pow2(MAX_CODE_LEN - bits);
    Pow2Add(bits, MAX_CODE_LEN - bits);
    MulMono(nb + 1, Pow2(bits), d);
    assert (nb + 1) * d == nb * d + d;
  }

  lemma HitStep(i: nat, start: nat, k: nat, off: nat, j: nat)
    requires Hit(i, start, k, off) && i < j < i + Pow2(k)
    ensures !Hit(j, start, k, off)
  {
    var d := Pow2(k);
    var q, e := (i - start) / d, off + (j - i);
    DivMod(i - start, d);
    assert j - start == d * q + e;
    if e < d {
      DivUnique(j - start, d, q, e);
    } else {
      assert d * (q + 1) == d * q + d;
      DivUnique(j - start, d, q + 1, e - d);
    }
  }

  lemma HitAgain(i: nat, start: nat, k: nat, off: nat)
    requires Hit(i, start, k, off)
    ensures Hit(i + Pow2(k), start, k, off)
  {
    AddMultiple(i - start, Pow2(k), 1);
  }

  lemma HitFirst(start: nat, k: nat, off: nat, j: int)
    requires off < Pow2(k)
    ensures Hit(start + off, start, k, off)
    ensures j < start + off ==> !Hit(j, start, k, off)
  {
    LowBelow(off, k);
    if start <= j < start + off { LowBelow(j - start, k); }
  }

  /** Enters a symbol in all its places of a sub-table. */
  method FillSub(tbl: array<nat>, first: nat, stride: nat, tblEnd: nat, entry: nat, ghost start: nat, ghost k: nat)
    requires stride == Pow2(k) && start <= first < start + stride && first < tblEnd <= tbl.Length
    modifies tbl
    ensures Filled(old(tbl[..]), tbl[..], start, tblEnd, k, first - start, entry)
  {
    hide Low, Pow2, Hit;
    ghost var off: nat := first - start;
    HitFirst(start, k, off, 0);
    forall j | j < first ensures !Hit(j, start, k, off) { HitFirst(start, k, off, j); }
    var i := first;
    while i < tblEnd
      invariant Hit(i, start, k, off)
      invariant forall j :: 0 <= j < tbl.Length ==>
        tbl[j] == if j < tblEnd && j < i && Hit(j, start, k, off) then entry else old(tbl[j])
      decreases tblEnd - i
    {
      forall j: nat | i < j < i + stride ensures !Hit(j, start, k, off) { HitStep(i, start, k, off, j); }
      HitAgain(i, start, k, off);
      tbl[i] := entry;
      i := i + stride;
    }
  }

  /** Begins the sub-table of the current symbol `s`. */
  method StartSub(gen: Gen, tbl: array<nat>, bits: nat, cnts: array<nat>, ghost lens: Lens, ghost r: nat, ghost s: nat,
                  ghost nb: nat, ghost open: bool, prefix: int, start: nat, subBits: nat, tblEnd: nat)
    returns (prefix': int, start': nat, subBits': nat, tblEnd': nat, ghost nb': nat, ghost open': bool)
    requires Complete(lens) && Counted(cnts[..], lens) && Cursor(lens, gen.len, gen.cnt, gen.word, gen.next, r)
    requires SubInv(tbl[..], bits, lens, gen.len, r, nb, open, prefix, start, subBits, tblEnd)
    requires 0 < bits < gen.len && Current(lens, s, gen.len, r) && RevCode(lens, s) == gen.word
    requires gen.word % Pow2(bits) != prefix && cnts != tbl
    modifies tbl
    ensures SubInv(tbl[..], bits, lens, gen.len, r, nb', open', prefix', start', subBits', tblEnd')
    ensures open' && prefix' == gen.word % Pow2(bits)
  {
    hide *;
    CompleteFits(lens);
    CursorLen(lens, gen.len, gen.cnt, gen.word, gen.next, r);
    MaxLen();
    SubZone(tbl[..], bits, lens, gen.len, r, s, nb, open, prefix, start, subBits, tblEnd);
    subBits' := SubSize(gen.cnt, gen.len, bits, cnts, lens, r, nb);
    SubLink(tbl[..], bits, lens, gen.len, r, s, nb, open, prefix, start, subBits, tblEnd, subBits');
    prefix' := gen.word % Pow2(bits);
    ghost var was := tbl[..];
    tbl[prefix'] := Link(tblEnd, subBits');
    assert tbl[..] == was[prefix' := Link(tblEnd, subBits')];
    start', tblEnd' := tblEnd, tblEnd + Pow2(subBits');
    nb', open' := nb + 1, true;
  }

  /** `sinfl_build_subtbl`. */
  method BuildSubTbl(gen: Gen, tbl: array<nat>, bits: nat, cnts: array<nat>, sort: array<nat>, ghost lens: Lens)
    requires Complete(lens) && Counted(cnts[..], lens) && Sorted(sort[..], lens) && cnts != tbl && sort != tbl
    requires 0 < bits < MAX_CODE_LEN && tbl.Length >= Pow2(bits) + Pow2(MAX_CODE_LEN)
    requires bits < gen.len && Cursor(lens, gen.len, gen.cnt, gen.word, gen.next, 0)
    requires MainOk'(tbl[..], bits, lens, gen.len)
    modifies gen, tbl
    ensures LookupOk(tbl[..], bits, lens)
  {
    hide *;
    CompleteFits(lens);
    CursorLen(lens, gen.len, gen.cnt, gen.word, gen.next, 0);
    MaxLen();
    SubInit(tbl[..], bits, lens, gen.len);
    var subBits: nat, start: nat, prefix: int, tblEnd: nat := 0, 0, -1, Pow2(bits);
    ghost var nb, open, r: nat := Covered(lens, bits), false, 0;
    while true
      invariant Cursor(lens, gen.len, gen.cnt, gen.word, gen.next, r)
      invariant SubInv(tbl[..], bits, lens, gen.len, r, nb, open, prefix, start, subBits, tblEnd)
      invariant Counted(cnts[..], lens) && Sorted(sort[..], lens)
      decreases 16 - gen.len, gen.cnt
    {
      CursorLen(lens, gen.len, gen.cnt, gen.word, gen.next, r);
      ghost var s := CursorSym(sort[..], lens, gen.len, gen.cnt, gen.word, gen.next, r);
      SubZone(tbl[..], bits, lens, gen.len, r, s, nb, open, prefix, start, subBits, tblEnd);
      if gen.word % Pow2(bits) != prefix {
        prefix, start, subBits, tblEnd, nb, open :=
          StartSub(gen, tbl, bits, cnts, lens, r, s, nb, open, prefix, start, subBits, tblEnd);
      }
      SubRoom(tbl[..], bits, lens, gen.len, r, s, nb, prefix, start, subBits, tblEnd);
      ghost var was := tbl[..];
      FillSub(tbl, start + Shr(gen.word, bits), Pow2(gen.len - bits), tblEnd, Entry(sort[gen.next], gen.len - bits),
              start, gen.len - bits);
      SubFill(was, tbl[..], bits, lens, gen.len, r, s, nb, prefix, start, subBits, tblEnd);
      if gen.word == Pow2(gen.len) - 1 {
        CursorLast(lens, gen.len, gen.cnt, gen.word, gen.next, r);
        SubDone(tbl[..], bits, lens, gen.len, r + 1, nb, start, subBits);
        return;
      }
      Advance(lens, gen.len, gen.cnt, gen.word, gen.next, r);
      gen.word := NextWord(gen.word, gen.len);
      gen.next := gen.next + 1;
      gen.cnt := gen.cnt - 1;
      if gen.cnt > 0 {
        SubNext(tbl[..], bits, lens, gen.len, r + 1, nb, prefix, start, subBits, tblEnd);
        r := r + 1;
      } else {
        ghost var l := gen.len;
        gen.len := gen.len + 1;
        gen.NextLen(cnts, lens);
        CoveredLast(lens, l);
        CursorLen(lens, gen.len, gen.cnt, gen.word, gen.next, 0);
        SubLonger(tbl[..], bits, lens, l, gen.len, nb, prefix, start, subBits, tblEnd);
        r := 0;
      }
    }
  }

  // ----------------------------------------------------------------- result

  /** Every codeword is found: directly if it is short, through a sub-table if it is long. */
  ghost predicate LookupOk(tbl: seq<nat>, bits: nat, lens: Lens) {
    && Pow2(bits) <= |tbl|
    && forall t: nat :: IsUsed(lens, t) ==>
         if lens[t] <= bits then ShortOk(tbl, bits, lens, t)
         else exists st: nat, sb: nat :: LongOk(tbl, bits, lens, t, st, sb)
  }

  lemma SubDone(tbl: seq<nat>, bits: nat, lens: Lens, l: nat, r: nat, nb: nat, start: nat, subBits: nat)
    requires TblOk(tbl, bits, lens, l, r, nb, start, subBits)
    requires Fits(lens) && 0 < l <= MAX_CODE_LEN && r <= Count(lens, l) && FirstCode(lens, l) + r == Pow2(l)
    ensures LookupOk(tbl, bits, lens)
  {
    hide Pow2, Count, Fits, ShortOk, LongOk, FirstCode, Before;
    forall t: nat | IsUsed(lens, t) ensures Before(lens, t, l, r) { AllBefore(lens, l, r, t); }
  }

  lemma MainDone(tbl: seq<nat>, bits: nat, lens: Lens)
    requires Pow2(bits) <= |tbl| && MainOk(tbl, bits, lens, 16, 0)
    ensures LookupOk(tbl, bits, lens)
  {
    hide Pow2, Count, ShortOk, LongOk;
    forall t: nat | IsUsed(lens, t) ensures Before(lens, t, 16, 0) { }
  }
}
