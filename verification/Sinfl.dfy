/** The inflater (`sinfl_decompress`): its bit buffer, tables and word copies give what reading the
    stream symbol by symbol gives. */
module Sinfl {
  import opened Bits
  import opened Options
  import opened Canonical
  import opened Reference
  import opened SinflTables
  import opened SinflBuild
  import opened SinflBits

  /** How far past the end of its input the inflater may read. */
  const SLACK: nat := 15

  /** The tables are as large as their index and sub-tables of the greatest size can ask for. */
  const PRE_TBL_SIZE: nat := 128 + 32768
  const LIT_TBL_SIZE: nat := 1024 + 32768
  const OFF_TBL_SIZE: nat := 256 + 32768

  const PRE_BITS: nat := 7
  const LIT_BITS: nat := 10
  const OFF_BITS: nat := 8

  /** The prefix of the memory that is the input, as bits. */
  function Input(mem: seq<byte>, size: nat): (s: bits)
    requires size <= |mem|
    ensures |s| == 8 * size
  {
    BytesToBits(mem[..size])
  }

  lemma InputLeads(mem: seq<byte>, size: nat)
    requires size <= |mem|
    ensures Leads(Input(mem, size), BytesToBits(mem))
  {
    BytesSlice(mem, 0, size);
    assert mem[0..size] == mem[..size];
  }

  /** The two tables are distinct and large enough. */
  ghost predicate TablesRoom(lits: array<nat>, dsts: array<nat>) {
    && lits != dsts && lits.Length <= 65536 && dsts.Length <= 65536
    && lits.Length >= Pow2(10) + Pow2(MAX_CODE_LEN) && dsts.Length >= Pow2(8) + Pow2(MAX_CODE_LEN)
  }

  /** `struct sinfl`: the bit buffer. */
  class Sinfl {
    const mem: seq<byte>
    const size: nat
    var bitptr: nat
    var bitbuf: nat
    var bitcnt: nat
    const lits: array<nat>
    const dsts: array<nat>

    constructor (mem: seq<byte>, size: nat)
      requires size + SLACK <= |mem|
      ensures Valid() && Pos() == 0 && this.mem == mem && this.size == size && fresh(lits) && fresh(dsts)
      ensures TablesRoom(lits, dsts)
    {
      this.mem, this.size := mem, size;
      lits := new nat[LIT_TBL_SIZE](_ => 0);
      dsts := new nat[OFF_TBL_SIZE](_ => 0);
      bitptr, bitbuf, bitcnt := 0, 0, 0;
      new;
      BufEmpty(BytesToBits(mem), 0);
      Pow2Values();
    }

    ghost predicate Valid()
      reads this
    {
      && size + SLACK <= |mem| && bitcnt < 64 && bitcnt <= 8 * bitptr
      && BufOk(BytesToBits(mem), 8 * bitptr - bitcnt, bitbuf, bitcnt)
    }

    /** The input as a bit string. */
    ghost function S(): bits {
      if size <= |mem| then Input(mem, size) else []
    }

    /** How many bits have been consumed. */
    ghost function Pos(): nat
      reads this
    {
      if bitcnt <= 8 * bitptr then 8 * bitptr - bitcnt else 0
    }

    method Refill()
      requires Valid() && Pos() <= |S()|
      modifies this
      ensures Valid() && Pos() == old(Pos()) && bitcnt == Budget(Pos())
    {
      hide BufOk, Read64, Pow2, BytesToBits, Or;
      RefillOk(mem, bitptr, bitbuf, bitcnt);
      bitbuf := Or(bitbuf, Read64(mem, bitptr) * Pow2(bitcnt) % Pow2(64));
      bitptr := bitptr + (63 - bitcnt) / 8;
      bitcnt := Or(bitcnt, 56);
    }

    method Peek(cnt: nat) returns (r: nat)
      requires Valid() && cnt <= 56 && cnt <= bitcnt
      ensures r == Low(bitbuf, cnt)
      ensures Pos() + cnt <= |S()| ==> r == Field(S(), Pos(), cnt)
    {
      hide BufOk, Pow2, BytesToBits, Field;
      ModBelow(bitbuf, Pow2(cnt));
      PeekOk(BytesToBits(mem), Pos(), bitbuf, bitcnt, cnt);
      InputLeads(mem, size);
      if Pos() + cnt <= |S()| { FieldLeads(S(), BytesToBits(mem), Pos(), cnt); }
      r := bitbuf % Pow2(cnt);
    }

    method Eat(cnt: nat)
      requires Valid() && cnt <= bitcnt
      modifies this
      ensures Valid() && Pos() == old(Pos()) + cnt && bitcnt == old(bitcnt) - cnt && bitptr == old(bitptr)
      ensures bitbuf == Shr(old(bitbuf), cnt)
    {
      hide BufOk, BytesToBits, Shr;
      EatOk(BytesToBits(mem), Pos(), bitbuf, bitcnt, cnt);
      bitbuf := Shr(bitbuf, cnt);
      bitcnt := bitcnt - cnt;
    }

    /** `sinfl__get`. */
    method Get(cnt: nat) returns (r: nat)
      requires Valid() && cnt <= 56 && cnt <= bitcnt && Pos() + cnt <= |S()|
      modifies this
      ensures Valid() && Pos() == old(Pos()) + cnt && bitcnt == old(bitcnt) - cnt && bitptr == old(bitptr)
      ensures r == Field(S(), old(Pos()), cnt)
    {
      hide *;
      r := Peek(cnt);
      Eat(cnt);
    }

    /** Passes `len` bytes of a stored block. */
    method Skip(len: nat)
      requires Valid() && bitcnt == 0 && 8 * (bitptr + len) <= |S()|
      modifies this
      ensures Valid() && Pos() == old(Pos()) + 8 * len
    {
      hide BytesToBits;
      BufEmpty(BytesToBits(mem), 8 * (bitptr + len));
      bitbuf, bitptr := 0, bitptr + len;
    }

    /** `sinfl_get`. */
    method RefillGet(cnt: nat) returns (r: nat)
      requires Valid() && cnt <= 56 && Pos() + cnt <= |S()|
      modifies this
      ensures Valid() && Pos() == old(Pos()) + cnt && r == Field(S(), old(Pos()), cnt)
    {
      hide *;
      Refill();
      BudgetAtLeast(Pos());
      r := Get(cnt);
    }

    lemma DecodeFound(tbl: seq<nat>, bits: nat, lens: Lens)
      requires Valid() && bitcnt >= 15 && TableOk(tbl, bits, lens) && |tbl| <= 65536 && |lens| <= 4096
      requires SymAt(lens, S(), Pos()).Some?
      ensures var v := SymAt(lens, S(), Pos()).value;
        Found(tbl, bits, bitbuf, v, SymLen(lens, v)) && SymLen(lens, v) <= 15
      ensures bits < 15
    {
      hide BufOk, BytesToBits, SymAt, SymLen, TableOk, Found, Leads;
      TableBits(tbl, bits, lens);
      InputLeads(mem, size);
      SymFound(tbl, bits, lens, S(), BytesToBits(mem), Pos(), bitbuf, bitcnt);
    }

    /** `sinfl_decode`: the next symbol of the code with lengths `lens`. */
    method Decode(tbl: array<nat>, bits: nat, ghost lens: Lens) returns (sym: nat)
      requires Valid() && bitcnt >= 15 && TableOk(tbl[..], bits, lens) && tbl.Length <= 65536 && |lens| <= 4096
      requires SymAt(lens, S(), Pos()).Some?
      modifies this
      ensures Valid() && SymAt(lens, S(), old(Pos())) == Some(sym)
      ensures Pos() == old(Pos()) + SymLen(lens, sym) && bitcnt == old(bitcnt) - SymLen(lens, sym)
      ensures SymLen(lens, sym) <= 15
    {
      hide *;
      DecodeFound(tbl[..], bits, lens);
      ghost var v := SymAt(lens, S(), Pos()).value;
      FoundParts(tbl[..], bits, bitbuf, v, SymLen(lens, v));
      var idx := Peek(bits);
      var key := tbl[idx];
      if Bit(key, 4) {
        var len := key % 16;
        Eat(bits);
        idx := Peek(len);
        key := tbl[key / 65536 % 65536 + idx];
      }
      Eat(key % 16);
      sym := key / 65536 % 4096;
    }
  }

  lemma TableBits(tbl: seq<nat>, bits: nat, lens: Lens)
    requires TableOk(tbl, bits, lens)
    ensures 0 < bits < 15
  {
  }

  lemma FoundParts(tbl: seq<nat>, bits: nat, buf: nat, v: nat, n: nat)
    requires Found(tbl, bits, buf, v, n)
    ensures Low(buf, bits) < |tbl|
    ensures var key := tbl[Low(buf, bits)];
      if !Bit(key, 4) then key % 16 == n && key / 65536 % 4096 == v
      else
        && bits + key % 16 <= 15 && key / 65536 % 65536 + Low(Shr(buf, bits), key % 16) < |tbl|
        && var sub := tbl[key / 65536 % 65536 + Low(Shr(buf, bits), key % 16)];
           sub % 16 + bits == n && sub / 65536 % 4096 == v
  {
    hide Low, Shr, Bit, Pow2;
  }
}
