/** The zlib wrapper (`zsdeflate`, `zsinflate`; RFC 1950). */
module Zlib {
  import opened Bits
  import opened Format
  import opened Reference
  import opened SdeflPut
  import opened SdeflCodes
  import opened SdeflFlush
  import opened SdeflParse
  import opened SdeflCompr
  import opened Deflate
  import opened Adler
  import RoundTrip
  import Sinfl
  import SinflDecompress

  /** Bytes behind a zlib stream that may be read: the size passed on counts the two header bytes twice. */
  const Z_SLACK: nat := 17

  /** The checksum of a zlib stream. */
  function AdlerOf(data: seq<byte>): (a: nat)
    ensures a < 0x1_0000_0000
  {
    var c := Checksum(Sums(1, 0), data);
    Reduced(Sums(1, 0), data);
    c.s2 * 65536 + c.s1
  }

  /** Four bytes, most significant first. */
  function BigEndian(a: nat): (b: seq<byte>)
    requires a < 0x1_0000_0000
    ensures |b| == 4
  {
    [a / 16777216, a / 65536 % 256, a / 256 % 256, a % 256]
  }

  function FromBigEndian(a: byte, b: byte, c: byte, d: byte): nat {
    var w: nat, x: nat, y: nat, z: nat := a, b, c, d;
    w * 16777216 + x * 65536 + y * 256 + z
  }

  lemma BigEndianBack(a: nat)
    requires a < 0x1_0000_0000
    ensures var b := BigEndian(a); FromBigEndian(b[0], b[1], b[2], b[3]) == a
  {
    FourDigits(a);
  }

  lemma FourDigits(a: nat)
    ensures a == a / 16777216 * 16777216 + a / 65536 % 256 * 65536 + a / 256 % 256 * 256 + a % 256
  {
    assert a / 256 / 256 == a / 65536;
    assert a / 65536 / 256 == a / 16777216;
  }

  // ------------------------------------------------------------- compression

  lemma {:induction false} BlocksShift(bs: seq<Block>, fin: bool, p: nat, q: nat)
    requires BlocksOk(bs) && p % 8 == q % 8
    ensures BlocksBits(bs, fin, p) == BlocksBits(bs, fin, q)
    decreases |bs|
  {
    hide BlockBits, BlockOk;
    if bs != [] {
      var b, rest := bs[0], bs[1..];
      assert bs == [b] + rest;
      hide BlocksBits, BlocksOk;
      BlockShift(b, fin && rest == [], p, q);
      BlocksCons(b, rest, fin, p);
      BlocksCons(b, rest, fin, q);
      var x := BlockBits(b, fin && rest == [], p);
      BlocksShift(rest, fin, p + |x|, q + |x|);
    }
  }

  /** Padding depends on the place within a byte only. */
  lemma BlockShift(b: Block, last: bool, p: nat, q: nat)
    requires BlockOk(b) && p % 8 == q % 8
    ensures BlockBits(b, last, p) == BlockBits(b, last, q)
  {
    hide PreOk, TreesOk, TokensOk, HeaderBits, BodyBits;
    AlignShift(p + 3, q + 3);
  }

  lemma AlignShift(p: nat, q: nat)
    requires p % 8 == q % 8
    ensures Align(p) == Align(q)
  {
  }

  lemma BytesPrefix(a: seq<byte>, b: seq<byte>, x: bits)
    requires BytesToBits(b) == BytesToBits(a) + x
    ensures a <= b && BytesToBits(b[|a|..]) == x
  {
    assert |a| <= |b|;
    var c, d := b[..|a|], b[|a|..];
    assert b == c + d;
    BytesConcat(c, d);
    assert BytesToBits(c) == BytesToBits(b)[..8 * |a|] == BytesToBits(a);
    BytesInjective(c, a);
    assert BytesToBits(d) == BytesToBits(b)[8 * |a|..] == x;
  }

  /** One whole byte at a byte boundary. */
  method PutByte(w: BitWriter, b: byte)
    requires w.Valid() && w.bitcnt == 0
    modifies w
    ensures w.Valid() && w.bitcnt == 0 && w.out == old(w.out) + [b]
  {
    hide *;
    Pow2Values();
    ghost var was := w.out;
    w.Aligned();
    BytesOne(b);
    w.Put(b, 8);
    w.Aligned();
    BytesSame(w.Written(), was, b, w.bitcnt);
    BytesPrefix(was, w.out, IntBits(b, 8));
    BytesInjective(w.out[|was|..], [b]);
    assert w.out == was + w.out[|was|..];
  }

  lemma BytesSame(x: bits, was: seq<byte>, b: byte, cnt: nat)
    requires x == BytesToBits(was) + IntBits(b, 8) && |x| % 8 == cnt
    ensures cnt == 0
  {
  }

  /** What a zlib stream holds between its header and its checksum. */
  ghost predicate ZEncodes(out: seq<byte>, input: seq<byte>, bs: seq<Block>) {
    && |out| >= 6 && out[..2] == [0x78, 0x01] && out[|out| - 4..] == BigEndian(AdlerOf(input))
    && Encodes(BytesToBits(out[2..|out| - 4]), input, bs)
  }

  lemma BodyEncodes(head: seq<byte>, out: seq<byte>, input: seq<byte>, bs: seq<Block>, y: bits)
    requires |head| == 2 && Means(input, 0, |input|, bs) && Short(bs) && Wrote(BytesToBits(head), y, bs, true)
    requires BytesToBits(out) == y + IntBits(0, Align(|y|))
    ensures head <= out && Encodes(BytesToBits(out[2..]), input, bs)
  {
    hide BlocksOk, BlocksBits, LegalBlocks, PlayBlocks, Short, BytesToBits, IntBits, Align;
    var x := BytesToBits(head);
    assert |x| == 16;
    BlocksShift(bs, true, |x|, 0);
    var z := BlocksBits(bs, true, 0);
    AlignShift(|y|, |z|);
    AppendAssoc(x, z, IntBits(0, Align(|y|)));
    BytesPrefix(head, out, z + IntBits(0, Align(|z|)));
    assert input[..0] == [] && input[..|input|] == input;
  }

  lemma ZEncodesIntro(body: seq<byte>, out: seq<byte>, input: seq<byte>, bs: seq<Block>)
    requires [0x78, 0x01] <= body && Encodes(BytesToBits(body[2..]), input, bs)
    requires out == body + BigEndian(AdlerOf(input))
    ensures ZEncodes(out, input, bs)
  {
    hide Encodes, BytesToBits, AdlerOf, BigEndian;
    assert out[2..|out| - 4] == body[2..];
    assert out[..2] == [0x78, 0x01];
  }

  lemma TopByte(a: nat)
    requires a < 0x1_0000_0000
    ensures 0 <= a / 16777216 < 256 && a * 256 % 0x1_0000_0000 < 0x1_0000_0000
    ensures var a1 := a * 256 % 0x1_0000_0000;
      var a2 := a1 * 256 % 0x1_0000_0000;
      var a3 := a2 * 256 % 0x1_0000_0000;
      BigEndian(a) == [a / 16777216] + [a1 / 16777216] + [a2 / 16777216] + [a3 / 16777216]
  {
    var w, x, y, z := a / 16777216, a / 65536 % 256, a / 256 % 256, a % 256;
    FourDigits(a);
    ShiftByte(w, x * 65536 + y * 256 + z);
    ShiftByte(x, y * 65536 + z * 256);
    ShiftByte(y, z * 65536);
    ShiftByte(z, 0);
  }

  lemma ShiftByte(top: nat, rest: nat)
    requires top < 256 && rest < 16777216
    ensures (top * 16777216 + rest) / 16777216 == top
    ensures (top * 16777216 + rest) * 256 % 0x1_0000_0000 == rest * 256
  {
  }

  /** The checksum, most significant byte first. */
  method PutAdler(w: BitWriter, a: nat)
    requires w.Valid() && w.bitcnt == 0 && a < 0x1_0000_0000
    modifies w
    ensures w.Valid() && w.bitcnt == 0 && w.out == old(w.out) + BigEndian(a)
  {
    hide *;
    ghost var was := w.out;
    var rest: nat := a;
    TopByte(rest);
    PutByte(w, rest / 16777216);
    rest := rest * 256 % 0x1_0000_0000;
    TopByte(rest);
    PutByte(w, rest / 16777216);
    rest := rest * 256 % 0x1_0000_0000;
    TopByte(rest);
    PutByte(w, rest / 16777216);
    rest := rest * 256 % 0x1_0000_0000;
    TopByte(rest);
    PutByte(w, rest / 16777216);
  }

  /** `zsdeflate`. */
  method Zsdeflate(s: Sdefl, input: seq<byte>, lvl: nat)
    returns (out: seq<byte>, ghost bs: seq<Block>, ghost cands: seq<Block>)
    requires s.Shape() && s.seqs == [] && Tallied(s.freqLit[..], s.freqOff[..], []) && lvl <= LVL_MAX
    modifies s, s.w, s.tbl, s.prv, s.freqLit, s.freqOff, s.wordLit, s.wordOff, s.lenLit, s.lenOff
    ensures s.seqs == [] && Tallied(s.freqLit[..], s.freqOff[..], [])
    ensures ZEncodes(out, input, bs) && Compressed(input, lvl, bs, cands)
  {
    hide *;
    s.w.Reset();
    PutByte(s.w, 0x78);
    PutByte(s.w, 0x01);
    assert s.w.out == [0x78, 0x01];
    ghost var x := s.w.Written();
    s.w.Aligned();
    bs, cands := Compr(s, input, lvl);
    ghost var y :| Wrote(x, y, bs, true) && s.w.Written() == y + IntBits(0, Align(|y|));
    s.w.Aligned();
    ghost var body := s.w.out;
    BodyEncodes([0x78, 0x01], body, input, bs, y);
    var a := Adler32(1, input);
    AdlerIs(input, a);
    PutAdler(s.w, a);
    out := s.w.out;
    ZEncodesIntro(body, out, input, bs);
  }

  lemma AdlerIs(data: seq<byte>, r: nat)
    requires data != [] ==> r == Checksum(Sums(1 % 65536, 1 / 65536), data).s2 * 65536
                                 + Checksum(Sums(1 % 65536, 1 / 65536), data).s1
    requires data == [] ==> r == 1
    ensures r == AdlerOf(data)
  {
  }

  // --------------------------------------------------------------- expansion

  /** `zsinflate`: the number of bytes, or -1 if the checksum does not fit. */
  method Zsinflate(out: array<byte>, cap: nat, mem: seq<byte>, size: nat, simd: bool) returns (r: int)
    requires size + Z_SLACK <= |mem| && cap <= out.Length
    requires size >= 6 ==> Inflate(BytesToBits(mem[2..2 + size]), cap) != Undefined
    modifies out
    ensures size < 6 ==> r == -1
    ensures size >= 6 ==> r <= cap
    ensures size >= 6 && r >= 0 ==>
      Inflate(BytesToBits(mem[2..2 + size]), cap) == Returns(out[..r])
      && FromBigEndian(mem[size - 4], mem[size - 3], mem[size - 2], mem[size - 1]) == AdlerOf(out[..r])
    ensures size >= 6 && r < 0 ==>
      r == -1 && Inflate(BytesToBits(mem[2..2 + size]), cap).Returns?
      && FromBigEndian(mem[size - 4], mem[size - 3], mem[size - 2], mem[size - 1])
         != AdlerOf(Inflate(BytesToBits(mem[2..2 + size]), cap).out)
  {
    hide *;
    SlackSum();
    if size >= 6 {
      assert mem[2..][..size] == mem[2..2 + size];
      var n := SinflDecompress.Decompress(out, cap, mem[2..], size, simd);
      var a := Adler32(1, out[..n]);
      AdlerIs(out[..n], a);
      var h := FromBigEndian(mem[size - 4], mem[size - 3], mem[size - 2], mem[size - 1]);
      return if a == h then n else -1;
    }
    return -1;
  }

  lemma SlackSum()
    ensures Z_SLACK == 17 && Sinfl.SLACK == 15
  {
    SlackIs();
  }

  // --------------------------------------------------------------- both ways

  lemma StreamAt(packed: seq<byte>, tail: seq<byte>, input: seq<byte>, bs: seq<Block>)
    requires ZEncodes(packed, input, bs) && |tail| == 2
    ensures BlocksOk(bs)
    ensures var S := BytesToBits(packed[2..] + tail);
      |S| % 8 == 0 && At(S, 0, BlocksBits(bs, true, 0))
    ensures packed[2..] + tail == packed[2..|packed| - 4] + (BigEndian(AdlerOf(input)) + tail)
  {
    hide BlocksOk, BlocksBits, LegalBlocks, PlayBlocks, Short, BytesToBits, AdlerOf, BigEndian;
    var body, rest := packed[2..|packed| - 4], BigEndian(AdlerOf(input)) + tail;
    assert packed[2..] == body + packed[|packed| - 4..];
    assert packed[2..] + tail == body + rest;
    BytesConcat(body, rest);
    EncodesParts(BytesToBits(body), input, bs);
    AtPrefix(BytesToBits(body), BytesToBits(rest), BlocksBits(bs, true, 0));
    WholeBytes(packed[2..] + tail);
  }

  lemma WholeBytes(b: seq<byte>)
    ensures |BytesToBits(b)| % 8 == 0
  {
  }

  lemma AtPrefix(s: bits, t: bits, x: bits)
    requires At(s, 0, x)
    ensures At(s + t, 0, x)
  {
    assert (s + t)[0..|x|] == s[0..|x|];
  }

  /** The checksum of nothing, read as a block, is a stored block without bytes. */
  lemma EmptyStream(tail: seq<byte>, cap: nat)
    requires |tail| == 2
    ensures BigEndian(AdlerOf([])) == [0, 0, 0, 1]
    ensures Inflate(BytesToBits([0, 0, 0, 1] + tail), cap) == Returns([])
  {
    var b := [0, 0, 0, 1] + tail;
    var S := BytesToBits(b);
    assert |S| == 48;
    TwoBytes(0);
    assert b[1..1 + 2] == [0, 0];
    BytesSlice(b, 1, 2);
    hide IntBits, Field, Body, Run;
    Pow2Values();
    RoundTrip.FieldReads(S, 8, 0, 16);
    FirstBits(S, b);
    EmptyHeader(S, cap);
  }

  lemma FirstBits(S: bits, b: seq<byte>)
    requires S == BytesToBits(b) && |b| >= 1 && b[0] == 0
    ensures !S[0] && Field(S, 1, 2) == 0
  {
    BitZero(0);
    BitZero(1);
    BitZero(2);
    assert S[0] == Bit(0, 0) && S[1] == Bit(0, 1) && S[2] == Bit(0, 2);
    assert S[1..3] == [false, false];
    assert Word([false, false]) == 0 by { assert [false, false][1..] == [false]; assert [false][1..] == []; }
  }

  lemma EmptyHeader(S: bits, cap: nat)
    requires |S| == 48 && !S[0] && Field(S, 1, 2) == 0 && Field(S, 8, 16) == 0
    ensures Inflate(S, cap) == Returns([])
  {
    hide Field, Body;
    assert RawStep(S, 3, [], cap, false) == Stop(Returns([])) by { assert Align(3) == 5; }
  }

  /** A zlib stream expands to the input, also an empty one. */
  lemma ZRoundTrip(packed: seq<byte>, tail: seq<byte>, input: seq<byte>, bs: seq<Block>, cap: nat)
    requires ZEncodes(packed, input, bs) && |tail| == 2 && |input| <= cap
    ensures BlocksOk(bs)
    ensures Inflate(BytesToBits(packed[2..] + tail), cap) ==
      if RoundTrip.BlocksInBudget(bs, true, 0) then Returns(input) else Undefined
  {
    hide *;
    ZParts(packed, input, bs);
    var S := BytesToBits(packed[2..] + tail);
    StreamAt(packed, tail, input, bs);
    EncodesParts(BytesToBits(packed[2..|packed| - 4]), input, bs);
    if input == [] {
      EmptyStream(tail, cap);
      EmptyBody(packed, tail);
      NoneInBudget(0);
    } else {
      InflateIs(S, cap);
      RoundTrip.BlocksRead(bs, S, 0, [], cap);
    }
  }

  lemma ZParts(packed: seq<byte>, input: seq<byte>, bs: seq<Block>)
    requires ZEncodes(packed, input, bs)
    ensures |packed| >= 6 && packed[|packed| - 4..] == BigEndian(AdlerOf(input))
    ensures Encodes(BytesToBits(packed[2..|packed| - 4]), input, bs)
  {
    hide Encodes, BytesToBits, AdlerOf, BigEndian;
  }

  lemma EmptyBody(packed: seq<byte>, tail: seq<byte>)
    requires |packed| >= 6 && BytesToBits(packed[2..|packed| - 4]) == [] && packed[|packed| - 4..] == [0, 0, 0, 1]
    ensures packed[2..] + tail == [0, 0, 0, 1] + tail
  {
    assert |packed| == 6;
  }

  lemma ChecksumAt(packed: seq<byte>, mem: seq<byte>, input: seq<byte>)
    requires |packed| >= 6 && packed <= mem && packed[|packed| - 4..] == BigEndian(AdlerOf(input))
    ensures var n := |packed|; FromBigEndian(mem[n - 4], mem[n - 3], mem[n - 2], mem[n - 1]) == AdlerOf(input)
  {
    hide AdlerOf, FromBigEndian, BigEndian;
    BigEndianBack(AdlerOf(input));
    var n, b := |packed|, BigEndian(AdlerOf(input));
    assert mem[n - 4] == packed[n - 4] == packed[n - 4..][0] == b[0];
    assert mem[n - 3] == packed[n - 3] == packed[n - 4..][1] == b[1];
    assert mem[n - 2] == packed[n - 2] == packed[n - 4..][2] == b[2];
    assert mem[n - 1] == packed[n - 1] == packed[n - 4..][3] == b[3];
  }

  /** Any input of up to 3947 bytes survives the zlib wrapper, and its checksum is accepted. */
  method ZCompressExpand(input: seq<byte>, lvl: nat, slack: seq<byte>, simd: bool) returns (back: seq<byte>)
    requires |input| <= SAFE_SIZE && lvl <= LVL_MAX && |slack| >= Z_SLACK
    ensures back == input
  {
    hide *;
    SlackSum();
    var s := new Sdefl();
    var packed, bs, _ := Zsdeflate(s, input, lvl);
    ZParts(packed, input, bs);
    EncodesParts(BytesToBits(packed[2..|packed| - 4]), input, bs);
    SmallInBudget([], bs, 0);
    ZRoundTrip(packed, slack[..2], input, bs, |input|);
    var mem := packed + slack;
    assert mem[2..2 + |packed|] == packed[2..] + slack[..2];
    ChecksumAt(packed, mem, input);
    var out := new byte[|input|];
    var r := Zsinflate(out, |input|, mem, |packed|, simd);
    back := if r >= 0 then out[..r] else [];
  }
}
