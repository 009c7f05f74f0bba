/** The bit buffer of the inflater (`sinfl_refill`, `sinfl_peek`, `sinfl_eat`) and symbol lookup. */
module SinflBits {
  import opened Bits
  import opened Canonical
  import opened SinflTables
  import opened SinflSubTables
  import opened SinflBuild
  import opened Reference

  // ---------------------------------------------------------- the invariant

  /** The `cnt` low bits of the buffer are the next bits of the stream; every bit above them is zero
      or already the right one. */
  ghost predicate BufOk(stream: bits, p: nat, buf: nat, cnt: nat) {
    && buf < Pow2(64) && cnt < 64 && p + cnt <= |stream|
    && (forall k :: 0 <= k < cnt ==> Bit(buf, k) == stream[p + k])
    && (forall k :: 0 <= k < 64 && Bit(buf, k) ==> p + k < |stream| && stream[p + k])
  }

  lemma BufEmpty(stream: bits, p: nat)
    requires p <= |stream|
    ensures BufOk(stream, p, 0, 0)
  {
    forall k: nat | k < 64 ensures !Bit(0, k) { BitZero(k); }
  }

  lemma PeekOk(stream: bits, p: nat, buf: nat, cnt: nat, n: nat)
    requires BufOk(stream, p, buf, cnt) && n <= cnt
    ensures p + n <= |stream| && buf % Pow2(n) == Field(stream, p, n)
  {
    hide Pow2, Word, Bit;
    var s := stream[p..p + n];
    ModBelow(buf, Pow2(n));
    forall k | 0 <= k < n ensures Bit(buf % Pow2(n), k) == Bit(Word(s), k) {
      BitMod(buf, n, k);
      WordBit(s, k);
    }
    SameBits(buf % Pow2(n), Word(s), n);
  }

  lemma EatOk(stream: bits, p: nat, buf: nat, cnt: nat, n: nat)
    requires BufOk(stream, p, buf, cnt) && n <= cnt
    ensures BufOk(stream, p + n, Shr(buf, n), cnt - n)
  {
    hide Pow2;
    ShrSmaller(buf, n);
    forall k | 0 <= k < 64 ensures Bit(Shr(buf, n), k) == Bit(buf, k + n) { BitShift(buf, n, k); }
    forall k | 0 <= k < cnt - n ensures Bit(Shr(buf, n), k) == stream[p + n + k] {
      assert Bit(buf, k + n) == stream[p + (k + n)];
    }
    forall k | 0 <= k < 64 && Bit(Shr(buf, n), k) ensures p + n + k < |stream| && stream[p + n + k] {
      assert Bit(buf, k + n);
      if k + n >= 64 { BitsBeyond(buf, 64, k + n); }
      assert stream[p + (k + n)];
    }
  }

  lemma {:induction false} ShrSmaller(w: nat, n: nat)
    ensures Shr(w, n) <= w
    decreases n
  {
    if n > 0 { ShrSmaller(w / 2, n - 1); }
  }

  // ----------------------------------------------------------------- refill

  /** `sinfl_read64`, little endian. */
  function Read64(mem: seq<byte>, i: nat): (w: nat)
    requires i + 8 <= |mem|
    ensures w < Pow2(64)
  {
    Word(BytesToBits(mem[i..i + 8]))
  }

  lemma ReadBit(mem: seq<byte>, i: nat, k: nat)
    requires i + 8 <= |mem| && k < 64
    ensures Bit(Read64(mem, i), k) == BytesToBits(mem)[8 * i + k]
  {
    BytesSlice(mem, i, 8);
    var s := BytesToBits(mem[i..i + 8]);
    WordBit(s, k);
    assert s[k] == BytesToBits(mem)[8 * i..8 * i + 64][k];
  }

  /** The bits that are shifted in are the right ones. */
  lemma ShiftedBit(mem: seq<byte>, i: nat, cnt: nat, k: nat)
    requires i + 8 <= |mem| && cnt < 64 && cnt <= 8 * i && k < 64
    ensures var n := Read64(mem, i) * Pow2(cnt) % Pow2(64);
      n >= 0 && Bit(n, k) == (k >= cnt && BytesToBits(mem)[8 * i - cnt + k])
  {
    hide Read64, Pow2, BytesToBits, Bit;
    assert |BytesToBits(mem)| == 8 * |mem|;
    var w := Read64(mem, i) * Pow2(cnt);
    ModBelow(w, Pow2(64));
    BitMod(w, 64, k);
    BitShl(Read64(mem, i), cnt, k);
    if k >= cnt { ReadBit(mem, i, k - cnt); }
  }

  lemma {:induction false} OrSmall(a: nat, b: nat, n: nat)
    requires a < Pow2(n) && b < Pow2(n)
    ensures Or(a, b) < Pow2(n)
  {
    if n > 0 && a > 0 { OrSmall(a / 2, b / 2, n - 1); }
  }

  lemma OrSeven(x: nat)
    requires x < 8
    ensures Or(x, 7) == 7
  {
    if x == 0 {} else if x == 1 {} else if x == 2 {} else if x == 3 {}
    else if x == 4 {} else if x == 5 {} else if x == 6 {} else {}
  }

  /** `bitcnt |= 56` counts exactly the whole bytes that fit. */
  lemma OrCount(cnt: nat)
    requires cnt < 64
    ensures Or(cnt, 56) == 56 + cnt % 8 == cnt + 8 * ((63 - cnt) / 8)
  {
    assert Or(cnt, 56) == 8 * Or(cnt / 8, 7) + cnt % 8 by { OrEights(cnt); }
    OrSeven(cnt / 8);
  }

  lemma OrEights(cnt: nat)
    ensures Or(cnt, 56) == 8 * Or(cnt / 8, 7) + cnt % 8
  {
    hide Or;
    OrHalf(cnt, 56);
    OrHalf(cnt / 2, 28);
    OrHalf(cnt / 4, 14);
    assert cnt / 2 / 2 == cnt / 4 && cnt / 4 / 2 == cnt / 8;
  }

  lemma OrHalf(a: nat, b: nat)
    ensures Or(a, b) == 2 * Or(a / 2, b / 2) + (if a % 2 == 1 || b % 2 == 1 then 1 else 0)
  {
  }

  /** OR-ing the overlapping word in does no harm. */
  lemma RefillOk(mem: seq<byte>, i: nat, buf: nat, cnt: nat)
    requires cnt <= 8 * i && i + 8 <= |mem| && BufOk(BytesToBits(mem), 8 * i - cnt, buf, cnt)
    ensures var n := Read64(mem, i) * Pow2(cnt) % Pow2(64);
      n >= 0 && Or(cnt, 56) == 56 + Align(8 * i - cnt) == cnt + 8 * ((63 - cnt) / 8)
      && BufOk(BytesToBits(mem), 8 * i - cnt, Or(buf, n), Or(cnt, 56))
  {
    hide Read64, BytesToBits, Pow2, Or;
    var stream, p := BytesToBits(mem), 8 * i - cnt;
    var n := Read64(mem, i) * Pow2(cnt) % Pow2(64);
    ModBelow(Read64(mem, i) * Pow2(cnt), Pow2(64));
    OrCount(cnt);
    assert |stream| == 8 * |mem|;
    OrSmall(buf, n, 64);
    forall k | 0 <= k < 64 ensures Bit(Or(buf, n), k) == stream[p + k] {
      BitOr(buf, n, k);
      ShiftedBit(mem, i, cnt, k);
    }
  }

  // ----------------------------------------------------------------- lookup

  /** `S` is the part of the stream that counts. */
  predicate Leads(S: bits, stream: bits) { |S| <= |stream| && stream[..|S|] == S }

  lemma FieldLeads(S: bits, stream: bits, p: nat, n: nat)
    requires Leads(S, stream) && p + n <= |S|
    ensures Field(stream, p, n) == Field(S, p, n)
  {
    SliceLeads(stream, |S|, p, n);
  }

  lemma SliceLeads(stream: bits, m: nat, p: nat, n: nat)
    requires p + n <= m <= |stream|
    ensures stream[p..p + n] == stream[..m][p..p + n]
  {
  }

  /** The next bits in the buffer are a codeword. */
  lemma BufSym(lens: Lens, S: bits, stream: bits, p: nat, buf: nat, cnt: nat, v: nat)
    requires BufOk(stream, p, buf, cnt) && cnt >= 15 && Leads(S, stream) && IsSym(lens, S, p, v)
    ensures buf % Pow2(lens[v]) == RevCode(lens, v)
  {
    hide Rev, Code;
    var l, r := lens[v], RevCode(lens, v);
    ModBelow(buf, Pow2(l));
    forall k | 0 <= k < l ensures Bit(buf % Pow2(l), k) == Bit(r, k) {
      BitMod(buf, l, k);
      assert S[p..p + l][k] == IntBits(r, l)[k] == Bit(r, k);
      assert stream[p + k] == stream[..|S|][p + k];
    }
    SameBits(buf % Pow2(l), r, l);
  }

  /** What is in a table entry. */
  lemma KeyParts(hi: nat, lo: nat)
    requires lo < 32
    ensures var key := hi * 65536 + lo;
      key / 65536 == hi && key % 16 == lo % 16 && (Bit(key, 4) <==> lo >= 16)
  {
    hide Bit;
    BitFour(hi * 65536 + lo);
    KeyArith(hi, lo);
  }

  lemma KeyArith(hi: nat, lo: nat)
    requires lo < 32
    ensures (hi * 65536 + lo) / 65536 == hi && (hi * 65536 + lo) % 16 == lo % 16
    ensures (hi * 65536 + lo) / 16 % 2 == lo / 16
  {
  }

  lemma BitFour(key: nat)
    ensures Bit(key, 4) <==> key / 16 % 2 == 1
  {
    Pow2Values();
    BitShr(key, 4, 0);
  }

  /** The table entry for the next symbol `v` of `n` bits: found directly or through a sub-table. */
  ghost predicate Found(tbl: seq<nat>, bits: nat, buf: nat, v: nat, n: nat) {
    && Pow2(bits) <= |tbl| && Low(buf, bits) < |tbl|
    && var key := tbl[Low(buf, bits)];
       if Bit(key, 4) then
         && bits + key % 16 <= MAX_CODE_LEN && key / 65536 % 65536 + Pow2(key % 16) <= |tbl|
         && FoundSub(tbl[key / 65536 % 65536 + Low(Shr(buf, bits), key % 16)], v, n - bits)
       else FoundSub(key, v, n)
  }

  predicate FoundSub(key: nat, v: nat, n: int) { key % 16 == n && key / 65536 % 4096 == v }

  lemma EntryFound(v: nat, n: nat)
    requires v < 4096 && n <= MAX_CODE_LEN
    ensures FoundSub(Entry(v, n), v, n) && !Bit(Entry(v, n), 4)
  {
    KeyParts(v, n);
  }

  lemma LookupFound(tbl: seq<nat>, bits: nat, lens: Lens, v: nat, buf: nat)
    requires LookupOk(tbl, bits, lens) && 0 < bits < MAX_CODE_LEN && |tbl| <= 65536 && v < 4096
    requires IsUsed(lens, v) && buf % Pow2(lens[v]) == RevCode(lens, v)
    ensures Found(tbl, bits, buf, v, lens[v])
  {
    hide ShortOk, LongOk, Pow2, Low, Shr, Bit, Entry, RevCode, FoundSub, Found;
    if lens[v] <= bits {
      FoundShort(tbl, bits, lens, v, buf);
    } else {
      var st: nat, sb: nat :| LongOk(tbl, bits, lens, v, st, sb);
      FoundLong(tbl, bits, lens, v, buf, st, sb);
    }
  }

  lemma FoundShort(tbl: seq<nat>, bits: nat, lens: Lens, v: nat, buf: nat)
    requires IsUsed(lens, v) && Pow2(bits) <= |tbl| && lens[v] <= bits && v < 4096
    requires ShortOk(tbl, bits, lens, v) && buf % Pow2(lens[v]) == RevCode(lens, v)
    ensures Found(tbl, bits, buf, v, lens[v])
  {
    hide Pow2, Shr, Bit, Entry, RevCode, FoundSub;
    ModMod(buf, bits, lens[v]);
    EntryFound(v, lens[v]);
  }

  lemma FoundLong(tbl: seq<nat>, bits: nat, lens: Lens, v: nat, buf: nat, st: nat, sb: nat)
    requires IsUsed(lens, v) && 0 < bits < lens[v] && Pow2(bits) <= |tbl| <= 65536 && v < 4096
    requires LongOk(tbl, bits, lens, v, st, sb) && buf % Pow2(lens[v]) == RevCode(lens, v)
    ensures Found(tbl, bits, buf, v, lens[v])
  {
    hide Pow2, Shr, Bit, Entry, RevCode, FoundSub, Low, Found;
    var r, k := RevCode(lens, v), lens[v] - bits;
    assert r % Pow2(bits) == Low(buf, bits) by { LowLow(buf, lens[v], bits); }
    assert Low(Low(Shr(buf, bits), sb), k) == Shr(r, bits) by {
      ModMod(Shr(buf, bits), sb, k);
      ShrLow(buf, bits, k);
    }
    var i := Low(Shr(buf, bits), sb);
    assert (st + i) - st == i;
    EntryFound(v, k);
    FoundIntro(tbl, bits, buf, v, lens[v], st, sb);
  }

  lemma FoundIntro(tbl: seq<nat>, bits: nat, buf: nat, v: nat, n: nat, st: nat, sb: nat)
    requires Pow2(bits) <= |tbl| <= 65536 && tbl[Low(buf, bits)] == Link(st, sb)
    requires bits + sb <= MAX_CODE_LEN && sb < 16 && st + Pow2(sb) <= |tbl|
    requires FoundSub(tbl[st + Low(Shr(buf, bits), sb)], v, n - bits)
    ensures Found(tbl, bits, buf, v, n)
  {
    hide Pow2, Shr, Bit, FoundSub, Low;
    KeyParts(st, 16 + sb);
  }

  lemma LowLow(buf: nat, a: nat, b: nat)
    requires b <= a
    ensures (buf % Pow2(a)) % Pow2(b) == Low(buf, b)
  {
    ModMod(buf, a, b);
  }

  /** Shifting the low bits. */
  lemma ShrLow(buf: nat, b: nat, k: nat)
    ensures buf % Pow2(b + k) >= 0 && Low(Shr(buf, b), k) == Shr(buf % Pow2(b + k), b)
  {
    hide Pow2, Low, Shr;
    var m := buf % Pow2(b + k);
    ModBelow(buf, Pow2(b + k));
    SplitMod(buf, b, k);
    ShrDiv(m, b);
    ModBelow(buf, Pow2(b));
    DivPart(Low(Shr(buf, b), k), Pow2(b), buf % Pow2(b));
  }

  lemma DivPart(h: nat, x: nat, lo: nat)
    requires lo < x
    ensures (h * x + lo) / x == h
  {
    DivUnique(h * x + lo, x, h, lo);
  }

  /** Looking the buffer up in a table gives the next symbol of the stream. */
  lemma SymFound(tbl: seq<nat>, bits: nat, lens: Lens, S: bits, stream: bits, p: nat, buf: nat, cnt: nat)
    requires TableOk(tbl, bits, lens) && |tbl| <= 65536 && |lens| <= 4096
    requires BufOk(stream, p, buf, cnt) && cnt >= 15 && Leads(S, stream) && SymAt(lens, S, p).Some?
    ensures var v := SymAt(lens, S, p).value;
      Found(tbl, bits, buf, v, SymLen(lens, v)) && SymLen(lens, v) <= 15
  {
    hide BufOk, LookupOk, Found, Covered, Pow2;
    var v := SymAt(lens, S, p).value;
    if Complete(lens) {
      BufSym(lens, S, stream, p, buf, cnt, v);
      LookupFound(tbl, bits, lens, v, buf);
    } else {
      OneFound(tbl, bits, buf);
    }
  }

  lemma OneFound(tbl: seq<nat>, bits: nat, buf: nat)
    requires Pow2(bits) <= |tbl| && forall i :: 0 <= i < Pow2(bits) ==> tbl[i] == 1
    ensures Found(tbl, bits, buf, 0, 1)
  {
    hide Pow2, Low;
    KeyParts(0, 1);
    assert tbl[Low(buf, bits)] == 1;
  }
}
