/** Bit strings and machine words.

  A word is a `nat`; its bits are observed through `Bit`.  A bit string is a
  `seq<bool>` with the first transmitted bit first, which for Deflate means
  the least significant bit of every byte comes first.
*/
module Bits {
  type byte = x: int | 0 <= x < 256
  type bits = seq<bool>

  function Pow2(n: nat): (r: nat)
    ensures r >= 1
  {
    if n == 0 then 1 else 2 * Pow2(n - 1)
  }

  predicate Bit(w: nat, k: nat) {
    if k == 0 then w % 2 == 1 else Bit(w / 2, k - 1)
  }

  /** Right shift. */
  function Shr(w: nat, n: nat): nat {
    if n == 0 then w else Shr(w / 2, n - 1)
  }

  function Or(a: nat, b: nat): nat {
    if a == 0 then b
    else 2 * Or(a / 2, b / 2) + (if a % 2 == 1 || b % 2 == 1 then 1 else 0)
  }

  function And(a: nat, b: nat): nat {
    if a == 0 then 0
    else 2 * And(a / 2, b / 2) + (if a % 2 == 1 && b % 2 == 1 then 1 else 0)
  }

  function Xor(a: nat, b: nat): nat {
    if a == 0 then b
    else 2 * Xor(a / 2, b / 2) + (if a % 2 != b % 2 then 1 else 0)
  }

  /** The `n` low bits of `w`, least significant first. */
  function IntBits(w: nat, n: nat): (s: bits)
    ensures |s| == n
  {
    seq(n, k requires 0 <= k => Bit(w, k))
  }

  /** The number whose bits are `s`, least significant first. */
  function Word(s: bits): (w: nat)
    ensures w < Pow2(|s|)
  {
    if s == [] then 0 else (if s[0] then 1 else 0) + 2 * Word(s[1..])
  }

  function BytesToBits(b: seq<byte>): (s: bits)
    ensures |s| == 8 * |b|
  {
    seq(8 * |b|, q requires 0 <= q < 8 * |b| => Bit(b[q / 8], q % 8))
  }

  /** `x` is found in `s` at offset `p`. */
  predicate At(s: bits, p: nat, x: bits) {
    p + |x| <= |s| && s[p..p + |x|] == x
  }

  /** Number of bits from offset `p` up to the next multiple of eight. */
  function Align(p: nat): (r: nat)
    ensures r < 8
    ensures (p + r) % 8 == 0
  {
    (8 - p % 8) % 8
  }

  // ---------------------------------------------------------------- powers

  lemma {:induction false} Pow2Add(a: nat, b: nat)
    ensures Pow2(a + b) == Pow2(a) * Pow2(b)
  {
    if a == 0 {
    } else {
      Pow2Add(a - 1, b);
      assert 2 * (Pow2(a - 1) * Pow2(b)) == (2 * Pow2(a - 1)) * Pow2(b);
    }
  }

  lemma PowTwice(n: nat)
    ensures Pow2(n + 1) == 2 * Pow2(n)
  {
  }

  lemma {:induction false} Pow2Mono(a: nat, b: nat)
    requires a <= b
    ensures Pow2(a) <= Pow2(b)
  {
    if a < b { Pow2Mono(a, b - 1); }
  }

  lemma Pow2Values()
    ensures Pow2(0) == 1 && Pow2(1) == 2 && Pow2(2) == 4 && Pow2(3) == 8
    ensures Pow2(4) == 16 && Pow2(5) == 32 && Pow2(6) == 64 && Pow2(7) == 128
    ensures Pow2(8) == 256 && Pow2(9) == 512 && Pow2(10) == 1024 && Pow2(11) == 2048
    ensures Pow2(12) == 4096 && Pow2(13) == 8192 && Pow2(14) == 16384 && Pow2(15) == 32768
    ensures Pow2(16) == 65536
  {
    assert Pow2(4) == 16;
    assert Pow2(8) == 256;
    assert Pow2(12) == 4096;
  }

  // ------------------------------------------------------------- observing

  lemma {:induction false} BitZero(k: nat)
    ensures !Bit(0, k)
  {
    if k > 0 { BitZero(k - 1); }
  }

  lemma {:induction false} BitOr(a: nat, b: nat, k: nat)
    ensures Bit(Or(a, b), k) == (Bit(a, k) || Bit(b, k))
    decreases k
  {
    if a == 0 {
      BitZero(k);
    } else if k > 0 {
      BitOr(a / 2, b / 2, k - 1);
    }
  }

  lemma {:induction false} BitAnd(a: nat, b: nat, k: nat)
    ensures Bit(And(a, b), k) == (Bit(a, k) && Bit(b, k))
    decreases k
  {
    if a == 0 {
      BitZero(k);
    } else if k > 0 {
      BitAnd(a / 2, b / 2, k - 1);
    }
  }

  lemma {:induction false} BitXor(a: nat, b: nat, k: nat)
    ensures Bit(Xor(a, b), k) == (Bit(a, k) != Bit(b, k))
    decreases k
  {
    if a == 0 {
      BitZero(k);
    } else if k > 0 {
      BitXor(a / 2, b / 2, k - 1);
    }
  }

  /** Left shift. */
  lemma {:induction false} BitShl(w: nat, n: nat, k: nat)
    ensures Bit(w * Pow2(n), k) == (k >= n && Bit(w, k - n))
    decreases n
  {
    if n > 0 {
      assert w * Pow2(n) == 2 * (w * Pow2(n - 1));
      if k > 0 { BitShl(w, n - 1, k - 1); }
    }
  }

  lemma {:induction false} ShrDiv(w: nat, n: nat)
    ensures Shr(w, n) == w / Pow2(n)
    decreases n
  {
    if n > 0 {
      DivDiv(w, Pow2(n - 1));
      ShrDiv(w / 2, n - 1);
    }
  }

  lemma {:induction false} BitShift(w: nat, n: nat, k: nat)
    ensures Bit(Shr(w, n), k) == Bit(w, k + n)
    decreases n
  {
    if n > 0 { BitShift(w / 2, n - 1, k); }
  }

  lemma BitShr(w: nat, n: nat, k: nat)
    ensures w / Pow2(n) >= 0 && Bit(w / Pow2(n), k) == Bit(w, k + n)
  {
    ShrDiv(w, n);
    BitShift(w, n, k);
  }

  lemma DivDiv(w: nat, d: nat)
    requires d > 0
    ensures w / (2 * d) == (w / 2) / d
  {
    var q, r := (w / 2) / d, (w / 2) % d;
    assert w / 2 == d * q + r;
    assert w == (2 * d) * q + (2 * r + w % 2);
    assert 0 <= 2 * r + w % 2 < 2 * d;
    DivUnique(w, 2 * d, q, 2 * r + w % 2);
  }

  lemma MulAtLeast(d: int, k: int)
    requires d > 0 && k >= 1
    ensures d * k >= d
  {
  }

  lemma DivUnique(w: int, d: int, q: int, r: int)
    requires d > 0 && 0 <= r < d && w == d * q + r
    ensures w / d == q && w % d == r
  {
    var q' := w / d;
    var r' := w - d * q';
    assert 0 <= r' < d && r' == w % d;
    assert d * (q - q') == d * q - d * q' == r' - r;
    assert d * (q' - q) == d * q' - d * q == r - r';
    if q > q' {
      MulAtLeast(d, q - q');
    } else if q < q' {
      MulAtLeast(d, q' - q);
    }
  }

  lemma AddMultiple(v: nat, d: nat, k: nat)
    requires d > 0
    ensures (d * k + v) % d == v % d
  {
    var q, r := v / d, v % d;
    assert v == d * q + r;
    assert d * k + v == d * (k + q) + r;
    DivUnique(d * k + v, d, k + q, r);
  }

  /** Masking with 2^n - 1. */
  lemma {:induction false} BitMod(w: nat, n: nat, k: nat)
    ensures Bit(w % Pow2(n), k) == (k < n && Bit(w, k))
    decreases n
  {
    if n == 0 {
      BitZero(k);
    } else {
      hide Pow2;
      PowTwice(n - 1);
      HalfMod(w, Pow2(n - 1));
      if k > 0 { BitMod(w / 2, n - 1, k - 1); }
    }
  }

  lemma HalfMod(w: nat, d: nat)
    requires d > 0
    ensures w % (2 * d) % 2 == w % 2 && w % (2 * d) / 2 == (w / 2) % d
  {
    ModDouble(w, d);
  }

  lemma ModDouble(w: nat, d: nat)
    requires d > 0
    ensures w % (2 * d) == 2 * ((w / 2) % d) + w % 2
  {
    DivDiv(w, d);
    var q := (w / 2) / d;
    assert w / 2 == d * q + (w / 2) % d;
    assert w == (2 * d) * q + (2 * ((w / 2) % d) + w % 2);
    DivUnique(w, 2 * d, q, 2 * ((w / 2) % d) + w % 2);
  }

  lemma {:induction false} BitsBeyond(w: nat, n: nat, k: nat)
    requires w < Pow2(n) && k >= n
    ensures !Bit(w, k)
    decreases n
  {
    if n == 0 { BitZero(k); } else { BitsBeyond(w / 2, n - 1, k - 1); }
  }

  /** Two words below 2^n with the same bits are the same word. */
  lemma {:induction false} SameBits(a: nat, b: nat, n: nat)
    requires a < Pow2(n) && b < Pow2(n)
    requires forall k :: 0 <= k < n ==> Bit(a, k) == Bit(b, k)
    ensures a == b
  {
    if n > 0 {
      assert Bit(a, 0) == Bit(b, 0);
      forall k | 0 <= k < n - 1 ensures Bit(a / 2, k) == Bit(b / 2, k) {
        assert Bit(a, k + 1) == Bit(b, k + 1);
      }
      SameBits(a / 2, b / 2, n - 1);
    }
  }

  lemma {:induction false} WordBit(s: bits, k: nat)
    requires k < |s|
    ensures Bit(Word(s), k) == s[k]
  {
    if k > 0 { WordBit(s[1..], k - 1); }
  }

  lemma ModBelow(w: nat, m: nat)
    requires m > 0
    ensures 0 <= w % m < m
    ensures w < m ==> w % m == w
  {
    if w < m { DivUnique(w, m, 0, w); }
  }

  lemma WordIntBits(w: nat, n: nat)
    ensures Word(IntBits(w, n)) == w % Pow2(n)
    ensures w < Pow2(n) ==> Word(IntBits(w, n)) == w
  {
    var s, m := IntBits(w, n), Pow2(n);
    ModBelow(w, m);
    forall k | 0 <= k < n ensures Bit(Word(s), k) == Bit(w % m, k) {
      WordBit(s, k);
      BitMod(w, n, k);
    }
    SameBits(Word(s), w % m, n);
  }

  /** OR into the free upper part of a word is addition, and appends the bits. */
  lemma OrAppend(a: nat, na: nat, b: nat, nb: nat)
    requires a < Pow2(na) && b < Pow2(nb)
    ensures Or(a, b * Pow2(na)) < Pow2(na + nb)
    ensures IntBits(Or(a, b * Pow2(na)), na + nb) == IntBits(a, na) + IntBits(b, nb)
  {
    var w := Or(a, b * Pow2(na));
    assert w < Pow2(na + nb) by { OrBelow(a, na, b, nb); }
    forall k | 0 <= k < na + nb
      ensures IntBits(w, na + nb)[k] == (IntBits(a, na) + IntBits(b, nb))[k]
    {
      BitOr(a, b * Pow2(na), k);
      BitShl(b, na, k);
      if k >= na { BitsBeyond(a, na, k); }
    }
  }

  lemma OrBelow(a: nat, na: nat, b: nat, nb: nat)
    requires a < Pow2(na) && b < Pow2(nb)
    ensures Or(a, b * Pow2(na)) < Pow2(na + nb)
  {
    OrDisjoint(a, b, na);
    Pow2Add(na, nb);
    PairBelow(a, Pow2(na), b, Pow2(nb));
  }

  lemma PairBelow(a: nat, x: nat, b: nat, y: nat)
    requires a < x && b < y
    ensures a + b * x < x * y
  {
    MulMono(b + 1, y, x);
    assert (b + 1) * x == b * x + x;
  }

  lemma MulCancel(a: nat, b: nat, d: nat)
    requires d > 0 && a * d <= b * d
    ensures a <= b
  {
    assert (b + 1) * d == b * d + d;
    if a > b { MulMono(b + 1, a, d); }
  }

  lemma MulMono(a: int, b: int, d: int)
    requires a <= b && d >= 0
    ensures a * d <= b * d
  {
  }

  lemma {:induction false} OrDisjoint(a: nat, b: nat, n: nat)
    requires a < Pow2(n)
    ensures Or(a, b * Pow2(n)) == a + b * Pow2(n)
  {
    if n > 0 && a > 0 {
      var h := b * Pow2(n - 1);
      assert b * Pow2(n) == 2 * h;
      OrDisjoint(a / 2, b, n - 1);
    }
  }

  // ----------------------------------------------------------- bit strings

  lemma AtConcat(s: bits, p: nat, x: bits, y: bits)
    ensures At(s, p, x + y) <==> At(s, p, x) && At(s, p + |x|, y)
  {
    if At(s, p, x + y) {
      assert s[p..p + |x|] == (x + y)[..|x|] == x by {
        assert s[p..p + |x + y|][..|x|] == s[p..p + |x|];
      }
      assert s[p + |x|..p + |x| + |y|] == (x + y)[|x|..] == y by {
        assert s[p..p + |x + y|][|x|..] == s[p + |x|..p + |x| + |y|];
      }
    }
    if At(s, p, x) && At(s, p + |x|, y) {
      assert s[p..p + |x + y|] == s[p..p + |x|] + s[p + |x|..p + |x| + |y|];
    }
  }

  lemma AtConcat3(s: bits, p: nat, x: bits, y: bits, z: bits)
    requires At(s, p, x + y + z)
    ensures At(s, p, x) && At(s, p + |x|, y) && At(s, p + |x| + |y|, z)
  {
    hide At;
    AtConcat(s, p, x + y, z);
    AtConcat(s, p, x, y);
  }

  /** Bit strings found at the same place, the one no longer than the other, are prefixes. */
  lemma AtSame(s: bits, p: nat, x: bits, y: bits)
    requires At(s, p, x) && At(s, p, y) && |x| <= |y|
    ensures x == y[..|x|]
  {
    assert s[p..p + |y|][..|x|] == s[p..p + |x|];
  }

  lemma BytesConcat(a: seq<byte>, b: seq<byte>)
    ensures BytesToBits(a + b) == BytesToBits(a) + BytesToBits(b)
  {
    forall q | 0 <= q < 8 * |a + b|
      ensures BytesToBits(a + b)[q] == (BytesToBits(a) + BytesToBits(b))[q]
    {
      if q >= 8 * |a| {
        assert q / 8 - |a| == (q - 8 * |a|) / 8 && q % 8 == (q - 8 * |a|) % 8;
      }
    }
  }

  lemma BytesOne(b: byte)
    ensures BytesToBits([b]) == IntBits(b, 8)
  {
  }

  lemma BytesSlice(b: seq<byte>, i: nat, n: nat)
    requires i + n <= |b|
    ensures At(BytesToBits(b), 8 * i, BytesToBits(b[i..i + n]))
  {
    assert b == b[..i] + b[i..i + n] + b[i + n..];
    BytesConcat(b[..i] + b[i..i + n], b[i + n..]);
    BytesConcat(b[..i], b[i..i + n]);
  }

  /** Bytes are determined by their bits. */
  lemma BytesInjective(a: seq<byte>, b: seq<byte>)
    requires BytesToBits(a) == BytesToBits(b)
    ensures a == b
  {
    assert |a| == |b| by { assert |BytesToBits(a)| == |BytesToBits(b)|; }
    forall i | 0 <= i < |a| ensures a[i] == b[i] {
      forall k | 0 <= k < 8 ensures Bit(a[i], k) == Bit(b[i], k) {
        assert BytesToBits(a)[8 * i + k] == BytesToBits(b)[8 * i + k];
        assert (8 * i + k) / 8 == i && (8 * i + k) % 8 == k;
      }
      Pow2Values();
      SameBits(a[i], b[i], 8);
    }
  }

  lemma {:induction false} AndBelow(a: nat, b: nat)
    ensures And(a, b) <= b
    decreases a
  {
    if a != 0 { AndBelow(a / 2, b / 2); }
  }

  lemma ModShift(x: int, d: nat, k: int)
    requires d > 0
    ensures (x + d * k) % d == x % d
  {
    var q, r := x / d, x % d;
    assert x == d * q + r;
    assert x + d * k == d * (q + k) + r by { assert d * (q + k) == d * q + d * k; }
    DivUnique(x + d * k, d, q + k, r);
  }
}
