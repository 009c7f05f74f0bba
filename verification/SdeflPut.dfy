/** The bit accumulator of the compressor (`sdefl_put`). */
module SdeflPut {
  import opened Bits

  /** What has been written: whole bytes, then the accumulator. */
  function Stream(out: seq<byte>, acc: nat, cnt: nat): (s: bits) {
    BytesToBits(out) + IntBits(acc, cnt)
  }

  /** Moving the low byte of the accumulator to the output changes nothing. */
  lemma SpillByte(out: seq<byte>, acc: nat, cnt: nat)
    requires cnt >= 8 && acc < Pow2(cnt)
    ensures acc / 256 < Pow2(cnt - 8)
    ensures Stream(out + [acc % 256], acc / 256, cnt - 8) == Stream(out, acc, cnt)
  {
    Pow2Values();
    Pow2Add(8, cnt - 8);
    DivLess(acc, 256, Pow2(cnt - 8));
    BytesConcat(out, [acc % 256]);
    BytesOne(acc % 256);
    forall k | 0 <= k < cnt ensures IntBits(acc, cnt)[k] == (IntBits(acc % 256, 8) + IntBits(acc / 256, cnt - 8))[k] {
      if k < 8 { BitMod(acc, 8, k); } else { BitShr(acc, 8, k - 8); }
    }
    assert IntBits(acc, cnt) == IntBits(acc % 256, 8) + IntBits(acc / 256, cnt - 8);
  }

  lemma DivLess(w: nat, d: nat, x: nat)
    requires d > 0 && w < d * x
    ensures w / d < x
  {
  }

  /** A code goes above the bits that are there. */
  lemma PutOne(out: seq<byte>, acc: nat, cnt: nat, code: nat, n: nat)
    requires acc < Pow2(cnt) && code < Pow2(n)
    ensures Or(acc, code * Pow2(cnt)) < Pow2(cnt + n)
    ensures Stream(out, Or(acc, code * Pow2(cnt)), cnt + n) == Stream(out, acc, cnt) + IntBits(code, n)
  {
    OrAppend(acc, cnt, code, n);
  }

  /** The part of `struct sdefl` that collects bits, and the output. */
  class BitWriter {
    var acc: nat
    var bitcnt: nat
    var out: seq<byte>

    constructor ()
      ensures Valid() && Written() == [] && bitcnt == 0 && out == []
    {
      acc, bitcnt, out := 0, 0, [];
    }

    ghost predicate Valid()
      reads this
    {
      bitcnt < 8 && acc < Pow2(bitcnt)
    }

    /** The bits written so far. */
    ghost function Written(): bits
      reads this
    {
      Stream(out, acc, bitcnt)
    }

    /** `sdefl_put`: appends the `cnt` low bits of `code`. */
    method Put(code: nat, cnt: nat)
      requires Valid() && code < Pow2(cnt) && cnt <= 16
      modifies this
      ensures Valid() && Written() == old(Written()) + IntBits(code, cnt)
    {
      hide Stream, Pow2, IntBits;
      PutOne(out, acc, bitcnt, code, cnt);
      acc := Or(acc, code * Pow2(bitcnt));
      bitcnt := bitcnt + cnt;
      while bitcnt >= 8
        invariant acc < Pow2(bitcnt) && Stream(out, acc, bitcnt) == old(Stream(out, acc, bitcnt)) + IntBits(code, cnt)
      {
        SpillByte(out, acc, bitcnt);
        out := out + [acc % 256];
        acc := acc / 256;
        bitcnt := bitcnt - 8;
      }
    }

    /** Begins a new output. */
    method Reset()
      modifies this
      ensures Valid() && Written() == [] && bitcnt == 0 && out == []
    {
      acc, bitcnt, out := 0, 0, [];
    }

    /** At a byte boundary. */
    lemma Aligned()
      requires Valid()
      ensures |Written()| % 8 == bitcnt && Align(|Written()|) == if bitcnt == 0 then 0 else 8 - bitcnt
      ensures bitcnt == 0 ==> Written() == BytesToBits(out) && acc == 0
    {
    }

    /** Zero bits up to the next byte boundary. */
    method PutAlign()
      requires Valid()
      modifies this
      ensures Valid() && Written() == old(Written()) + IntBits(0, Align(old(|Written()|))) && bitcnt == 0
    {
      hide Stream, Pow2, IntBits;
      Aligned();
      Bits.Pow2Values();
      if bitcnt != 0 {
        Put(0, 8 - bitcnt);
        Aligned();
      }
    }

    /** Whole bytes at a byte boundary (`sdefl_put16`, `memcpy`). */
    method PutBytes(data: seq<byte>)
      requires Valid() && bitcnt == 0
      modifies this
      ensures Valid() && bitcnt == 0 && Written() == old(Written()) + BytesToBits(data)
      ensures out == old(out) + data
    {
      hide BytesToBits;
      BytesConcat(out, data);
      Aligned();
      out := out + data;
      Aligned();
    }
  }
}
