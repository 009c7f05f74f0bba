/** The Adler-32 checksum (`sdefl_adler32`, `sinfl_adler32`; section 2.2 of RFC 1950). */
module Adler {
  import opened Bits

  const ADLER_MOD: nat := 65521

  datatype Sums = Sums(s1: nat, s2: nat)

  /** The definition: both sums are reduced with every byte. */
  function Checksum(init: Sums, data: seq<byte>): Sums {
    if data == [] then Sums(init.s1 % ADLER_MOD, init.s2 % ADLER_MOD)
    else
      var c := Checksum(init, data[..|data| - 1]);
      var s1 := (c.s1 + data[|data| - 1]) % ADLER_MOD;
      Sums(s1, (c.s2 + s1) % ADLER_MOD)
  }

  /** The sums without any reduction. */
  function Plain(init: Sums, data: seq<byte>): Sums {
    if data == [] then init
    else
      var c := Plain(init, data[..|data| - 1]);
      Sums(c.s1 + data[|data| - 1], c.s2 + c.s1 + data[|data| - 1])
  }

  lemma PlainNext(init: Sums, data: seq<byte>, i: nat)
    requires i < |data|
    ensures Plain(init, data[..i + 1]) ==
      Sums(Plain(init, data[..i]).s1 + data[i], Plain(init, data[..i]).s2 + (Plain(init, data[..i]).s1 + data[i]))
  {
    assert data[..i + 1][..i] == data[..i];
  }

  /** Reducing late gives the same sums. */
  lemma {:induction false} PlainReduces(init: Sums, data: seq<byte>)
    ensures Plain(init, data).s1 % ADLER_MOD == Checksum(init, data).s1
    ensures Plain(init, data).s2 % ADLER_MOD == Checksum(init, data).s2
  {
    if data != [] {
      hide ADLER_MOD;
      PlainReduces(init, data[..|data| - 1]);
      var p, c := Plain(init, data[..|data| - 1]), Checksum(init, data[..|data| - 1]);
      var b := data[|data| - 1];
      SumMod(p.s1, b, c.s1, b);
      SumMod(p.s2, p.s1 + b, c.s2, (c.s1 + b) % ADLER_MOD);
    }
  }

  lemma SumMod(x: nat, y: nat, x': nat, y': nat)
    requires x % ADLER_MOD == x' % ADLER_MOD || x % ADLER_MOD == x'
    requires y % ADLER_MOD == y' % ADLER_MOD || y % ADLER_MOD == y'
    ensures (x + y) % ADLER_MOD == (x' + y') % ADLER_MOD
  {
    hide ADLER_MOD;
    ModTwice(x);
    ModTwice(y);
    SumReduced(x, y);
    SumReduced(x', y');
  }

  lemma SumReduced(x: nat, y: nat)
    ensures (x + y) % ADLER_MOD == (x % ADLER_MOD + y % ADLER_MOD) % ADLER_MOD
  {
    var r := x % ADLER_MOD + y % ADLER_MOD;
    var q := x / ADLER_MOD + y / ADLER_MOD;
    assert x + y == ADLER_MOD * q + r;
    AddMultiple(r, ADLER_MOD, q);
  }

  lemma ModTwice(x: nat)
    ensures (x % ADLER_MOD) % ADLER_MOD == x % ADLER_MOD
  {
  }

  lemma {:induction false} ReducedStart(init: Sums, reduced: Sums, data: seq<byte>)
    requires reduced == Sums(init.s1 % ADLER_MOD, init.s2 % ADLER_MOD)
    ensures Checksum(init, data) == Checksum(reduced, data)
  {
    if data != [] { ReducedStart(init, reduced, data[..|data| - 1]); }
  }

  /** A checksum can be continued. */
  lemma {:induction false} ChecksumConcat(init: Sums, a: seq<byte>, b: seq<byte>)
    ensures Checksum(init, a + b) == Checksum(Checksum(init, a), b)
  {
    if b == [] {
      assert a + b == a;
      Reduced(init, a);
    } else {
      assert (a + b)[..|a + b| - 1] == a + b[..|b| - 1];
      ChecksumConcat(init, a, b[..|b| - 1]);
    }
  }

  lemma Reduced(init: Sums, data: seq<byte>)
    ensures Checksum(init, data).s1 < ADLER_MOD && Checksum(init, data).s2 < ADLER_MOD
    ensures Checksum(init, data) ==
      Sums(Checksum(init, data).s1 % ADLER_MOD, Checksum(init, data).s2 % ADLER_MOD)
  {
  }

  /** How large the unreduced sums can become. */
  lemma {:induction false} PlainBound(init: Sums, data: seq<byte>)
    requires init.s1 < 65536 && init.s2 < 65536
    ensures Plain(init, data).s1 <= init.s1 + 255 * |data|
    ensures 2 * Plain(init, data).s2 <= 2 * init.s2 + 2 * (|data| * 65535) + 255 * (|data| * (|data| + 1))
  {
    if data != [] {
      var n := |data| - 1;
      PlainBound(init, data[..n]);
      assert |data| * (|data| + 1) == n * (n + 1) + 2 * |data|;
      assert |data| * 65535 == n * 65535 + 65535;
    }
  }

  lemma NoOverflow(init: Sums, data: seq<byte>)
    requires init.s1 < 65536 && init.s2 < 65536 && |data| <= 5552
    ensures Plain(init, data).s1 < 0x1_0000_0000 && Plain(init, data).s2 < 0x1_0000_0000
  {
    hide Plain;
    PlainBound(init, data);
    var n := |data|;
    MulMono(n, 5552, n + 1);
    assert 5552 * (n + 1) <= 5552 * 5553;
  }

  /** Adds `n` bytes to the sums, eight at a time as long as that is possible; nothing overflows 32 bits. */
  method AddChunk(init: Sums, data: seq<byte>) returns (s1: nat, s2: nat)
    requires init.s1 < 65536 && init.s2 < 65536 && |data| <= 5552
    ensures Sums(s1, s2) == Plain(init, data) && s1 < 0x1_0000_0000 && s2 < 0x1_0000_0000
  {
    hide *;
    PlainNone(init, data);
    s1, s2 := init.s1, init.s2;
    var i := 0;
    while i + 7 < |data|
      invariant i <= |data| && Sums(s1, s2) == Plain(init, data[..i])
    {
      PlainNext(init, data, i);     s1 := s1 + data[i];     s2 := s2 + s1;
      PlainNext(init, data, i + 1); s1 := s1 + data[i + 1]; s2 := s2 + s1;
      PlainNext(init, data, i + 2); s1 := s1 + data[i + 2]; s2 := s2 + s1;
      PlainNext(init, data, i + 3); s1 := s1 + data[i + 3]; s2 := s2 + s1;
      PlainNext(init, data, i + 4); s1 := s1 + data[i + 4]; s2 := s2 + s1;
      PlainNext(init, data, i + 5); s1 := s1 + data[i + 5]; s2 := s2 + s1;
      PlainNext(init, data, i + 6); s1 := s1 + data[i + 6]; s2 := s2 + s1;
      PlainNext(init, data, i + 7); s1 := s1 + data[i + 7]; s2 := s2 + s1;
      NoOverflow(init, data[..i + 8]);
      assert s1 < 0x1_0000_0000 && s2 < 0x1_0000_0000;
      i := i + 8;
    }
    while i < |data|
      invariant i <= |data| && Sums(s1, s2) == Plain(init, data[..i])
    {
      PlainNext(init, data, i);
      s1 := s1 + data[i];
      s2 := s2 + s1;
      NoOverflow(init, data[..i + 1]);
      assert s1 < 0x1_0000_0000 && s2 < 0x1_0000_0000;
      i := i + 1;
    }
    assert data[..i] == data;
    NoOverflow(init, data);
  }

  lemma PlainNone(init: Sums, data: seq<byte>)
    ensures Plain(init, data[..0]) == init
  {
  }

  lemma ChunkReduces(init: Sums, s: Sums, whole: seq<byte>, k: nat, n: nat)
    requires k + n <= |whole| && s.s1 < 65536 && s.s2 < 65536
    requires Checksum(s, []) == Checksum(init, whole[..k])
    ensures var p := Plain(s, whole[k..k + n]);
      Checksum(init, whole[..k + n]) == Sums(p.s1 % ADLER_MOD, p.s2 % ADLER_MOD)
  {
    hide Plain, Checksum;
    var seg := whole[k..k + n];
    assert whole[..k] + seg == whole[..k + n];
    ChecksumConcat(init, whole[..k], seg);
    StartIs(s);
    ReducedStart(s, Checksum(s, []), seg);
    PlainReduces(s, seg);
    SumsOf(Checksum(s, seg), Plain(s, seg));
  }

  lemma SumsOf(c: Sums, p: Sums)
    requires p.s1 % ADLER_MOD == c.s1 && p.s2 % ADLER_MOD == c.s2
    ensures c == Sums(p.s1 % ADLER_MOD, p.s2 % ADLER_MOD)
  {
  }

  lemma StartIs(s: Sums)
    ensures Checksum(s, []) == Sums(s.s1 % ADLER_MOD, s.s2 % ADLER_MOD)
  {
  }

  lemma ModSmall(x: nat)
    ensures 0 <= x % ADLER_MOD < 65536 && (x % ADLER_MOD) % ADLER_MOD == x % ADLER_MOD
  {
  }

  /** `sdefl_adler32` and `sinfl_adler32`: an incomplete chunk first, then whole ones. */
  method Adler32(adler: nat, data: seq<byte>) returns (r: nat)
    requires adler < 0x1_0000_0000
    ensures data != [] ==>
      r == Checksum(Sums(adler % 65536, adler / 65536), data).s2 * 65536
           + Checksum(Sums(adler % 65536, adler / 65536), data).s1
    ensures data == [] ==> r == adler
    ensures r < 0x1_0000_0000
  {
    hide *;
    var s1: nat, s2: nat := adler % 65536, adler / 65536;
    ghost var init := Sums(s1, s2);
    var left: nat := |data|;
    var blkLen: nat := left % 5552;
    var at: nat := 0;
    assert data[..0] == [];
    ChunksStart(left);
    while left > 0
      invariant at + left == |data| && s1 < 65536 && s2 < 65536 && (left > 0 ==> blkLen <= left) && blkLen <= 5552
      invariant Checksum(Sums(s1, s2), []) == Checksum(init, data[..at]) && Chunks(left, blkLen)
      invariant left == 0 && at > 0 ==> Sums(s1, s2) == Checksum(init, data[..at])
      invariant |data| == 0 ==> s1 == adler % 65536 && s2 == adler / 65536
      decreases left + (if blkLen == 0 then 1 else 0)
    {
      ChunksNext(left, blkLen);
      ghost var was := Sums(s1, s2);
      var p1, p2 := AddChunk(Sums(s1, s2), data[at..at + blkLen]);
      ChunkReduces(init, was, data, at, blkLen);
      ModIs();
      s1, s2 := p1 % 65521, p2 % 65521;
      ModSmall(p1);
      ModSmall(p2);
      StartIs(Sums(s1, s2));
      at := at + blkLen;
      left := left - blkLen;
      blkLen := 5552;
    }
    assert data[..at] == data;
    r := s2 * 65536 + s1;
  }

  predicate Chunks(left: nat, blkLen: nat) { (left - blkLen) % 5552 == 0 }

  lemma ChunksStart(left: nat)
    ensures Chunks(left, left % 5552) && left % 5552 <= left
  {
  }

  lemma ChunksNext(left: nat, blkLen: nat)
    requires Chunks(left, blkLen) && blkLen <= left
    ensures left - blkLen > 0 ==> left - blkLen >= 5552 && Chunks(left - blkLen, 5552)
    ensures left - blkLen == 0 ==> Chunks(0, 5552)
  {
  }

  lemma ModIs()
    ensures ADLER_MOD == 65521
  {
  }
}
