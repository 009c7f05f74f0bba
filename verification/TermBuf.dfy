/** The packed record buffers of the terminfo compiler (`TBUF`, `_ti_find_cap`, `_ti_find_extra`,
    `_ti_store_extra` and the 16/32-bit encoders and decoders). */
module TermBuf {
  import opened Bits

  /** A capability value: flag, number or counted string; some values are cancellations. */
  datatype Val = F(flag: byte) | N(num: int) | S(str: seq<byte>)

  /** A record of the `flags`, `nums` or `strs` buffer. */
  datatype Cap = Cap(ind: nat, val: Val)

  /** A record of the `extras` buffer, with a name instead of an index. */
  datatype Extra = Extra(id: seq<byte>, val: Val)

  predicate ValOk(v: Val) {
    match v
    case F(_) => true
    case N(n) => -0x8000_0000 <= n < 0x8000_0000
    case S(s) => |s| < 32768
  }

  /** Neither absent nor cancelled (`VALID_BOOLEAN`, `VALID_NUMERIC`, string length above zero). */
  predicate IsValid(v: Val) {
    match v
    case F(b) => b <= 1
    case N(n) => n >= 0
    case S(s) => |s| > 0
  }

  /** The type letter. */
  function Kind(v: Val): (c: byte)
    ensures c == 102 || c == 110 || c == 115
  {
    match v case F(_) => 102 case N(_) => 110 case S(_) => 115
  }

  predicate CapOk(c: Cap, kind: byte) { c.ind < 65536 && ValOk(c.val) && Kind(c.val) == kind }

  predicate ExtraOk(e: Extra) { |e.id| < 65535 && 0 !in e.id && ValOk(e.val) }

  // --------------------------------------------------------------- encoding

  function Enc16(n: nat): (b: seq<byte>)
    requires n < 65536
    ensures |b| == 2 && n == b[0] as int + 256 * b[1] as int
  {
    [n % 256, n / 256]
  }

  function Enc32(n: int): (b: seq<byte>)
    ensures |b| == 4
    ensures n % 0x1_0000_0000 == b[0] as int + 256 * b[1] as int + 65536 * b[2] as int + 16777216 * b[3] as int
  {
    var u := n % 0x1_0000_0000;
    [u % 256, u / 256 % 256, u / 65536 % 256, u / 16777216]
  }

  function EncVal(v: Val): (b: seq<byte>)
    requires ValOk(v)
  {
    match v
    case F(flag) => [flag]
    case N(n) => Enc32(n)
    case S(s) => Enc16(|s|) + s
  }

  function EncCap(c: Cap): (b: seq<byte>)
    requires CapOk(c, Kind(c.val))
    ensures |b| == 2 + |EncVal(c.val)|
  {
    Enc16(c.ind) + EncVal(c.val)
  }

  function EncExtra(e: Extra): (b: seq<byte>)
    requires ExtraOk(e)
    ensures |b| == 4 + |e.id| + |EncVal(e.val)|
  {
    Enc16(|e.id| + 1) + (e.id + [0]) + [Kind(e.val)] + EncVal(e.val)
  }

  // --------------------------------------------------------------- decoding

  function Dec16(buf: seq<byte>, at: nat): (n: nat)
    requires at + 2 <= |buf|
    ensures n < 65536
  {
    var lo: nat, hi: nat := buf[at], buf[at + 1];
    lo + 256 * hi
  }

  function Dec32(buf: seq<byte>, at: nat): (n: int)
    requires at + 4 <= |buf|
  {
    var a: nat, b: nat, c: nat, d: nat := buf[at], buf[at + 1], buf[at + 2], buf[at + 3];
    var u := a + 256 * b + 65536 * c + 16777216 * d;
    if u < 0x8000_0000 then u else u - 0x1_0000_0000
  }

  /** `x` is found in `buf` at `at`. */
  predicate Found(buf: seq<byte>, at: nat, x: seq<byte>) { at + |x| <= |buf| && buf[at..at + |x|] == x }

  lemma FoundConcat(buf: seq<byte>, at: nat, x: seq<byte>, y: seq<byte>)
    requires Found(buf, at, x + y)
    ensures Found(buf, at, x) && Found(buf, at + |x|, y)
  {
    var z := buf[at..at + |x + y|];
    assert z[..|x|] == x && z[|x|..] == y;
  }

  lemma FoundAt(buf: seq<byte>, at: nat, x: seq<byte>, i: nat)
    requires Found(buf, at, x) && i < |x|
    ensures at + i < |buf| && buf[at + i] == x[i]
  {
    assert buf[at..at + |x|][i] == buf[at + i];
  }

  lemma Dec16Reads(buf: seq<byte>, at: nat, n: nat)
    requires n < 65536 && Found(buf, at, Enc16(n))
    ensures at + 2 <= |buf| && Dec16(buf, at) == n
  {
    FoundAt(buf, at, Enc16(n), 0);
    FoundAt(buf, at, Enc16(n), 1);
  }

  lemma Dec32Reads(buf: seq<byte>, at: nat, n: int)
    requires -0x8000_0000 <= n < 0x8000_0000 && Found(buf, at, Enc32(n))
    ensures at + 4 <= |buf| && Dec32(buf, at) == n
  {
    var x := Enc32(n);
    FoundAt(buf, at, x, 0);
    FoundAt(buf, at, x, 1);
    FoundAt(buf, at, x, 2);
    FoundAt(buf, at, x, 3);
    hide Found;
    FourBytes(n % 0x1_0000_0000);
  }

  lemma FourBytes(u: nat)
    requires u < 0x1_0000_0000
    ensures u % 256 + 256 * (u / 256 % 256) + 65536 * (u / 65536 % 256) + 16777216 * (u / 16777216) == u
  {
    assert u / 256 / 256 == u / 65536;
    assert u / 65536 / 256 == u / 16777216;
  }

  /** Where a value that begins at `at` ends. */
  function Skip(buf: seq<byte>, at: nat, kind: byte): nat
    requires kind != 102 && kind != 110 ==> at + 2 <= |buf|
  {
    if kind == 102 then at + 1 else if kind == 110 then at + 4 else at + 2 + Dec16(buf, at)
  }

  lemma SkipReads(buf: seq<byte>, at: nat, v: Val)
    requires ValOk(v) && Found(buf, at, EncVal(v))
    ensures Kind(v) == 115 ==> at + 2 <= |buf|
    ensures Skip(buf, at, Kind(v)) == at + |EncVal(v)| <= |buf|
  {
    if v.S? {
      FoundConcat(buf, at, Enc16(|v.str|), v.str);
      Dec16Reads(buf, at, |v.str|);
    }
  }

  /** Reads a value of the given kind. */
  method DecodeVal(buf: seq<byte>, at: nat, kind: byte, ghost v: Val) returns (r: Val, next: nat)
    requires ValOk(v) && kind == Kind(v) && Found(buf, at, EncVal(v))
    ensures r == v && next == at + |EncVal(v)| <= |buf|
  {
    if kind == 102 {
      FoundAt(buf, at, EncVal(v), 0);
      r, next := F(buf[at]), at + 1;
    } else if kind == 110 {
      Dec32Reads(buf, at, v.num);
      r, next := N(Dec32(buf, at)), at + 4;
    } else {
      FoundConcat(buf, at, Enc16(|v.str|), v.str);
      Dec16Reads(buf, at, |v.str|);
      var len := Dec16(buf, at);
      r, next := S(buf[at + 2..at + 2 + len]), at + 2 + len;
    }
  }

  // ------------------------------------------------------------ cap buffers

  predicate CapsOk(cs: seq<Cap>, kind: byte) { forall i :: 0 <= i < |cs| ==> CapOk(cs[i], kind) }

  function EncCaps(cs: seq<Cap>, kind: byte): seq<byte>
    requires CapsOk(cs, kind)
  {
    if cs == [] then [] else EncCaps(cs[..|cs| - 1], kind) + EncCap(cs[|cs| - 1])
  }

  lemma CapsNext(cs: seq<Cap>, kind: byte, i: nat)
    requires CapsOk(cs, kind) && i < |cs|
    ensures EncCaps(cs[..i + 1], kind) == EncCaps(cs[..i], kind) + EncCap(cs[i])
  {
    var s := cs[..i + 1];
    assert s[..|s| - 1] == cs[..i] && s[|s| - 1] == cs[i];
  }

  lemma FoundInFront(front: seq<byte>, at: nat, x: seq<byte>, y: seq<byte>)
    requires Found(front, at, x)
    ensures Found(front + y, at, x)
  {
    assert (front + y)[at..at + |x|] == front[at..at + |x|];
  }

  lemma {:induction false} CapFound(cs: seq<Cap>, kind: byte, i: nat)
    requires CapsOk(cs, kind) && i < |cs|
    ensures Found(EncCaps(cs, kind), |EncCaps(cs[..i], kind)|, EncCap(cs[i]))
  {
    hide EncCap;
    var n := |cs| - 1;
    if i == n {
    } else {
      assert cs[..n][..i] == cs[..i];
      CapFound(cs[..n], kind, i);
      FoundInFront(EncCaps(cs[..n], kind), |EncCaps(cs[..i], kind)|, EncCap(cs[i]), EncCap(cs[n]));
    }
  }

  /** Looking a capability up in a list. */
  function FindIn(cs: seq<Cap>, ind: nat): (i: nat)
    ensures i <= |cs| && (i < |cs| ==> cs[i].ind == ind)
    ensures forall j :: 0 <= j < i ==> cs[j].ind != ind
  {
    if cs == [] then 0
    else
      var i := FindIn(cs[..|cs| - 1], ind);
      if i < |cs| - 1 then i else if cs[|cs| - 1].ind == ind then |cs| - 1 else |cs|
  }

  /** `flags`, `nums` and `strs`: the records `caps` packed in `buf`. */
  class CapBuf {
    const kind: byte
    var buf: seq<byte>
    var entries: nat
    ghost var caps: seq<Cap>

    constructor (kind: byte)
      ensures Valid() && caps == [] && this.kind == kind
    {
      this.kind := kind;
      buf, entries, caps := [], 0, [];
    }

    ghost predicate Valid()
      reads this
    {
      CapsOk(caps, kind) && buf == EncCaps(caps, kind) && entries == |caps|
    }

    /** `_ti_find_cap`: the place behind the index of the first record with that index. */
    method Find(ind: nat) returns (found: bool, cap: nat)
      requires Valid()
      ensures found <==> exists i :: 0 <= i < |caps| && caps[i].ind == ind
      ensures found ==> var i := FindIn(caps, ind);
        i < |caps| && Found(buf, cap, EncVal(caps[i].val))
    {
      hide EncVal, Enc16, EncCaps, ValOk, FindIn;
      cap := 0;
      var n := entries;
      ghost var i := 0;
      assert caps[..0] == [];
      assert EncCaps([], kind) == [] by { NoCaps(kind); }
      while n > 0
        invariant 0 <= n && i + n == |caps| && cap == |EncCaps(caps[..i], kind)|
        invariant forall j :: 0 <= j < i ==> caps[j].ind != ind
      {
        CapFound(caps, kind, i);
        CapsNext(caps, kind, i);
        FoundConcat(buf, cap, Enc16(caps[i].ind), EncVal(caps[i].val));
        Dec16Reads(buf, cap, caps[i].ind);
        var num := Dec16(buf, cap);
        cap := cap + 2;
        if num == ind {
          FirstIs(caps, ind, i);
          return true, cap;
        }
        SkipReads(buf, cap, caps[i].val);
        cap := Skip(buf, cap, kind);
        i := i + 1;
        n := n - 1;
      }
      return false, 0;
    }

    /** `_ti_encode_buf_id_flags`, `_ti_encode_buf_id_num` and `_ti_encode_buf_id_count_str`. */
    method Append(c: Cap)
      requires Valid() && CapOk(c, kind)
      modifies this
      ensures Valid() && caps == old(caps) + [c]
    {
      assert (caps + [c])[..|caps|] == caps;
      buf := buf + (Enc16(c.ind) + EncVal(c.val));
      entries := entries + 1;
      caps := caps + [c];
    }
  }

  lemma NoCaps(kind: byte)
    ensures EncCaps([], kind) == []
  {
  }

  lemma {:induction false} FirstIs(cs: seq<Cap>, ind: nat, i: nat)
    requires i < |cs| && cs[i].ind == ind && forall j :: 0 <= j < i ==> cs[j].ind != ind
    ensures FindIn(cs, ind) == i
  {
    if i < |cs| - 1 { FirstIs(cs[..|cs| - 1], ind, i); }
  }

  // ---------------------------------------------------------- extra buffers

  predicate ExtrasOk(es: seq<Extra>) { forall i :: 0 <= i < |es| ==> ExtraOk(es[i]) }

  function EncExtras(es: seq<Extra>): seq<byte>
    requires ExtrasOk(es)
  {
    if es == [] then [] else EncExtras(es[..|es| - 1]) + EncExtra(es[|es| - 1])
  }

  lemma ExtrasNext(es: seq<Extra>, i: nat)
    requires ExtrasOk(es) && i < |es|
    ensures EncExtras(es[..i + 1]) == EncExtras(es[..i]) + EncExtra(es[i])
  {
    var s := es[..i + 1];
    assert s[..|s| - 1] == es[..i] && s[|s| - 1] == es[i];
  }

  lemma {:induction false} ExtrasConcat(a: seq<Extra>, b: seq<Extra>)
    requires ExtrasOk(a) && ExtrasOk(b)
    ensures ExtrasOk(a + b) && EncExtras(a + b) == EncExtras(a) + EncExtras(b)
  {
    hide *;
    if b == [] {
      NoExtras();
      assert a + b == a && EncExtras(a) + [] == EncExtras(a);
    } else {
      var n := |b| - 1;
      ExtrasLast(b);
      ExtrasConcat(a, b[..n]);
      assert a + b == (a + b[..n]) + [b[n]];
      ExtrasPush(a + b[..n], b[n]);
      ExtrasPush(b[..n], b[n]);
      ConcatAssoc(EncExtras(a), EncExtras(b[..n]), EncExtra(b[n]));
    }
  }

  lemma ExtrasLast(b: seq<Extra>)
    requires ExtrasOk(b) && b != []
    ensures ExtrasOk(b[..|b| - 1]) && ExtraOk(b[|b| - 1]) && b == b[..|b| - 1] + [b[|b| - 1]]
  {
    hide ExtraOk;
  }

  lemma ExtrasPush(a: seq<Extra>, e: Extra)
    requires ExtrasOk(a) && ExtraOk(e)
    ensures ExtrasOk(a + [e]) && EncExtras(a + [e]) == EncExtras(a) + EncExtra(e)
  {
    hide EncExtra, ExtraOk;
    assert (a + [e])[..|a|] == a;
  }

  lemma ConcatAssoc(x: seq<byte>, y: seq<byte>, z: seq<byte>)
    ensures (x + y) + z == x + (y + z)
  {
  }

  /** A buffer taken apart at record `i`. */
  lemma ExtrasSplit(es: seq<Extra>, i: nat)
    requires ExtrasOk(es) && i < |es|
    ensures EncExtras(es) == EncExtras(es[..i]) + EncExtra(es[i]) + EncExtras(es[i + 1..])
    ensures Found(EncExtras(es), |EncExtras(es[..i])|, EncExtra(es[i]))
  {
    hide EncExtra;
    assert es == es[..i + 1] + es[i + 1..];
    ExtrasConcat(es[..i + 1], es[i + 1..]);
    ExtrasNext(es, i);
    var a, b, c := EncExtras(es[..i]), EncExtra(es[i]), EncExtras(es[i + 1..]);
    assert (a + b + c)[|a|..|a| + |b|] == b;
  }

  /** The bytes from `at` up to the terminator are exactly `id` (`strcmp`). */
  predicate NameIs(buf: seq<byte>, at: nat, id: seq<byte>) {
    at + |id| < |buf| && buf[at..at + |id|] == id && buf[at + |id|] == 0
  }

  lemma NameReads(buf: seq<byte>, at: nat, name: seq<byte>, id: seq<byte>)
    requires Found(buf, at, name + [0]) && 0 !in name && 0 !in id
    ensures NameIs(buf, at, id) <==> name == id
  {
    FoundAt(buf, at, name + [0], |name|);
    FoundConcat(buf, at, name, [0]);
    SliceIndex(buf, at, name);
    if NameIs(buf, at, id) { SliceIndex(buf, at, id); }
  }

  lemma SliceIndex(buf: seq<byte>, at: nat, x: seq<byte>)
    requires at + |x| <= |buf| && buf[at..at + |x|] == x
    ensures forall i :: at <= i < at + |x| ==> buf[i] == x[i - at] && buf[i] in x
  {
    forall i | at <= i < at + |x| ensures buf[i] == x[i - at] { assert buf[at..at + |x|][i - at] == buf[i]; }
  }

  function UseId(): (id: seq<byte>)
    ensures |id| == 3 && 0 !in id
  {
    [117, 115, 101]
  }

  function FindExtraIn(es: seq<Extra>, id: seq<byte>): (i: nat)
    ensures i <= |es| && (i < |es| ==> es[i].id == id)
    ensures forall j :: 0 <= j < i ==> es[j].id != id
  {
    if es == [] then 0
    else
      var i := FindExtraIn(es[..|es| - 1], id);
      if i < |es| - 1 then i else if es[|es| - 1].id == id then |es| - 1 else |es|
  }

  lemma {:induction false} FirstExtraIs(es: seq<Extra>, id: seq<byte>, i: nat)
    requires i < |es| && es[i].id == id && forall j :: 0 <= j < i ==> es[j].id != id
    ensures FindExtraIn(es, id) == i
  {
    if i < |es| - 1 { FirstExtraIs(es[..|es| - 1], id, i); }
  }

  /** The parts of a record. */
  lemma ExtraParts(buf: seq<byte>, at: nat, e: Extra)
    requires ExtraOk(e) && Found(buf, at, EncExtra(e))
    ensures at + 2 <= |buf| && Dec16(buf, at) == |e.id| + 1
    ensures Found(buf, at + 2, e.id + [0])
    ensures at + 3 + |e.id| < |buf| && buf[at + 3 + |e.id|] == Kind(e.val)
    ensures Found(buf, at + 4 + |e.id|, EncVal(e.val)) && ValOk(e.val)
  {
    hide EncVal, Enc16;
    var a, b, c, d := Enc16(|e.id| + 1), e.id + [0], [Kind(e.val)], EncVal(e.val);
    FoundConcat(buf, at, a + b + c, d);
    FoundConcat(buf, at, a + b, c);
    FoundConcat(buf, at, a, b);
    Dec16Reads(buf, at, |e.id| + 1);
    FoundAt(buf, at + 3 + |e.id|, c, 0);
  }

  /** `extras`: named records packed in `buf`. */
  class ExtraBuf {
    var buf: seq<byte>
    var entries: nat
    ghost var extras: seq<Extra>

    constructor ()
      ensures Valid() && extras == []
    {
      buf, entries, extras := [], 0, [];
    }

    ghost predicate Valid()
      reads this
    {
      ExtrasOk(extras) && buf == EncExtras(extras) && entries == |extras|
    }

    /** `_ti_find_extra`: the place behind the name of the first record with that name. */
    method Find(id: seq<byte>) returns (found: bool, cap: nat)
      requires Valid() && 0 !in id
      ensures found <==> exists i :: 0 <= i < |extras| && extras[i].id == id
      ensures found ==> var i := FindExtraIn(extras, id);
        i < |extras| && cap == |EncExtras(extras[..i])| + 3 + |id| && cap < |buf|
    {
      hide EncVal, EncExtras, FindExtraIn, NameIs, EncExtra, Found;
      cap := 0;
      var n := entries;
      ghost var i := 0;
      assert extras[..0] == [];
      assert EncExtras([]) == [] by { NoExtras(); }
      while n > 0
        invariant 0 <= n && i + n == |extras| && cap == |EncExtras(extras[..i])|
        invariant forall j :: 0 <= j < i ==> extras[j].id != id
      {
        ExtrasSplit(extras, i);
        ExtrasNext(extras, i);
        ExtraParts(buf, cap, extras[i]);
        NameReads(buf, cap + 2, extras[i].id, id);
        var num := Dec16(buf, cap);
        cap := cap + 2;
        if NameIs(buf, cap, id) {
          FirstExtraIs(extras, id, i);
          return true, cap + num;
        }
        cap := cap + num;
        SkipReads(buf, cap + 1, extras[i].val);
        KindReads(buf, cap, extras[i].val);
        cap := Skip(buf, cap + 1, buf[cap]);
        i := i + 1;
        n := n - 1;
      }
      return false, 0;
    }

    /** The part of `_ti_store_extra` that appends a record. */
    method Append(e: Extra)
      requires Valid() && ExtraOk(e)
      modifies this
      ensures Valid() && extras == old(extras) + [e]
    {
      assert (extras + [e])[..|extras|] == extras;
      buf := buf + (Enc16(|e.id| + 1) + (e.id + [0]) + [Kind(e.val)] + EncVal(e.val));
      entries := entries + 1;
      extras := extras + [e];
    }

    /** Cuts out the string record whose type letter is at `cap`: the code behind `remove` in `merge_use`. */
    method Cut(cap: nat, ghost i: nat)
      requires Valid() && i < |extras| && extras[i].id == UseId() && extras[i].val.S?
      requires cap == |EncExtras(extras[..i])| + 6
      modifies this
      ensures Valid() && extras == old(extras[..i] + extras[i + 1..])
    {
      hide EncExtras, EncExtra, EncVal, Found;
      ghost var es := extras;
      ExtrasSplit(es, i);
      ExtraParts(buf, cap - 6, es[i]);
      SkipReads(buf, cap + 1, es[i].val);
      CutSplit(buf, EncExtras(es[..i]), EncExtra(es[i]), EncExtras(es[i + 1..]));
      ExtrasConcat(es[..i], es[i + 1..]);
      var scap := cap - (4 + 2);
      var num := Dec16(buf, cap + 1);
      var next := cap + 1 + 2 + num;
      buf := buf[..scap] + buf[next..];
      entries := entries - 1;
      extras := es[..i] + es[i + 1..];
    }
  }

  lemma NoExtras()
    ensures EncExtras([]) == []
  {
  }

  lemma KindReads(buf: seq<byte>, at: nat, v: Val)
    requires at < |buf| && buf[at] == Kind(v)
    ensures buf[at] != 102 && buf[at] != 110 ==> Kind(v) == 115
  {
  }

  lemma CutSplit(buf: seq<byte>, a: seq<byte>, b: seq<byte>, c: seq<byte>)
    requires buf == a + b + c
    ensures buf[..|a|] == a && buf[|a| + |b|..] == c
  {
  }
}
