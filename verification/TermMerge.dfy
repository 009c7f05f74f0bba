/** Merging the capabilities of a used terminal entry (`merge`). */
module TermMerge {
  import opened Bits
  import opened Options
  import opened TermBuf

  // ---------------------------------------------------------- the merge rule

  /** Records of `u` are taken over if they are valid and `r` has none with that index yet. */
  function MergeCaps(r: seq<Cap>, u: seq<Cap>): (m: seq<Cap>)
    ensures r <= m
  {
    if u == [] then r
    else
      var m := MergeCaps(r, u[..|u| - 1]);
      var c := u[|u| - 1];
      if IsValid(c.val) && FindIn(m, c.ind) == |m| then m + [c] else m
  }

  /** The same for named records, which are kept only if unknown capabilities are asked for. */
  function MergeExtras(r: seq<Extra>, u: seq<Extra>, keep: bool): (m: seq<Extra>)
    ensures r <= m
  {
    if u == [] then r
    else
      var m := MergeExtras(r, u[..|u| - 1], keep);
      var e := u[|u| - 1];
      if IsValid(e.val) && (e.id == UseId() || (FindExtraIn(m, e.id) == |m| && keep)) then m + [e] else m
  }

  lemma MergeCapsNext(r: seq<Cap>, u: seq<Cap>, i: nat)
    requires i < |u|
    ensures var m := MergeCaps(r, u[..i]);
      MergeCaps(r, u[..i + 1]) == if IsValid(u[i].val) && FindIn(m, u[i].ind) == |m| then m + [u[i]] else m
  {
    assert u[..i + 1][..i] == u[..i];
  }

  lemma MergeExtrasNext(r: seq<Extra>, u: seq<Extra>, keep: bool, i: nat)
    requires i < |u|
    ensures var m := MergeExtras(r, u[..i], keep);
      MergeExtras(r, u[..i + 1], keep) ==
        if IsValid(u[i].val) && (u[i].id == UseId() || (FindExtraIn(m, u[i].id) == |m| && keep)) then m + [u[i]]
        else m
  {
    assert u[..i + 1][..i] == u[..i];
  }

  // ---------------------------------------------------------------- lookups

  /** The value of a capability in a list of records. */
  function Lookup(cs: seq<Cap>, ind: nat): Option<Val> {
    if FindIn(cs, ind) < |cs| then Some(cs[FindIn(cs, ind)].val) else None
  }

  /** The first value of a capability that is not a cancellation. */
  function FirstValid(cs: seq<Cap>, ind: nat): Option<Val> {
    if cs == [] then None
    else
      var front, c := FirstValid(cs[..|cs| - 1], ind), cs[|cs| - 1];
      if front.Some? then front else if c.ind == ind && IsValid(c.val) then Some(c.val) else None
  }

  predicate NoDup(cs: seq<Cap>) { forall i, j :: 0 <= i < j < |cs| ==> cs[i].ind != cs[j].ind }

  lemma FindNext(cs: seq<Cap>, c: Cap, ind: nat)
    ensures Lookup(cs + [c], ind) ==
      if Lookup(cs, ind).Some? then Lookup(cs, ind) else if c.ind == ind then Some(c.val) else None
  {
    assert (cs + [c])[..|cs|] == cs;
  }

  /** The left-biased rule: an own value or cancellation counts first, then the first valid value of the
      used entry; cancellations are not inherited. */
  lemma {:induction false} MergeLookup(r: seq<Cap>, u: seq<Cap>, ind: nat)
    ensures Lookup(MergeCaps(r, u), ind) == if Lookup(r, ind).Some? then Lookup(r, ind) else FirstValid(u, ind)
  {
    hide FindIn, IsValid;
    if u != [] {
      var front, c := u[..|u| - 1], u[|u| - 1];
      MergeLookup(r, front, ind);
      FindNext(MergeCaps(r, front), c, ind);
    }
  }

  /** In a list without duplicates the first valid value is the value, if that is valid. */
  lemma {:induction false} UniqueValid(cs: seq<Cap>, ind: nat)
    requires NoDup(cs)
    ensures FirstValid(cs, ind) ==
      if Lookup(cs, ind).Some? && IsValid(Lookup(cs, ind).value) then Lookup(cs, ind) else None
  {
    hide FindIn, IsValid;
    if cs != [] {
      var front, c := cs[..|cs| - 1], cs[|cs| - 1];
      assert cs == front + [c];
      UniqueValid(front, ind);
      FindNext(front, c, ind);
      if c.ind == ind { NotBefore(cs, ind); }
    }
  }

  lemma NotBefore(u: seq<Cap>, ind: nat)
    requires NoDup(u) && u != [] && u[|u| - 1].ind == ind
    ensures Lookup(u[..|u| - 1], ind) == None
  {
  }

  /** Merging makes no duplicates. */
  lemma {:induction false} MergeNoDup(r: seq<Cap>, u: seq<Cap>)
    requires NoDup(r)
    ensures NoDup(MergeCaps(r, u))
  {
    if u != [] { MergeNoDup(r, u[..|u| - 1]); }
  }

  /** The value of a named record, and its first valid value. */
  function LookupExtra(es: seq<Extra>, id: seq<byte>): Option<Val> {
    if FindExtraIn(es, id) < |es| then Some(es[FindExtraIn(es, id)].val) else None
  }

  function FirstValidExtra(es: seq<Extra>, id: seq<byte>): Option<Val> {
    if es == [] then None
    else
      var front, e := FirstValidExtra(es[..|es| - 1], id), es[|es| - 1];
      if front.Some? then front else if e.id == id && IsValid(e.val) then Some(e.val) else None
  }

  lemma FindExtraNext(es: seq<Extra>, e: Extra, id: seq<byte>)
    ensures LookupExtra(es + [e], id) ==
      if LookupExtra(es, id).Some? then LookupExtra(es, id) else if e.id == id then Some(e.val) else None
  {
    assert (es + [e])[..|es|] == es;
  }

  /** The rule for a named record: nothing is inherited unless unknown capabilities are asked for. */
  lemma {:induction false} MergeLookupExtra(r: seq<Extra>, u: seq<Extra>, keep: bool, id: seq<byte>)
    requires id != UseId()
    ensures LookupExtra(MergeExtras(r, u, keep), id) ==
      if LookupExtra(r, id).Some? then LookupExtra(r, id) else if keep then FirstValidExtra(u, id) else None
  {
    hide FindExtraIn, IsValid;
    if u != [] {
      var front, e := u[..|u| - 1], u[|u| - 1];
      MergeLookupExtra(r, front, keep, id);
      FindExtraNext(MergeExtras(r, front, keep), e, id);
    }
  }

  /** An absent or a cancelled value: flags 255 and 254, numbers -1 and -2, the empty string. */
  predicate Cancelled(v: Val) { v == F(255) || v == F(254) || v == N(-1) || v == N(-2) || v == S([]) }

  /** A value that a capability can have. */
  predicate Usable(v: Val) {
    match v
    case F(b) => b == 0 || b == 1
    case N(n) => n >= 0
    case S(s) => s != []
  }

  /** Nothing absent or cancelled is ever inherited, and a usable one is found wherever it stands. */
  lemma {:induction false} CancelledBlocked(cs: seq<Cap>, ind: nat)
    ensures FirstValid(cs, ind).Some? ==> !Cancelled(FirstValid(cs, ind).value)
    ensures (exists i :: 0 <= i < |cs| && cs[i].ind == ind && Usable(cs[i].val)) ==> FirstValid(cs, ind).Some?
  {
    if cs != [] {
      var front, c := cs[..|cs| - 1], cs[|cs| - 1];
      CancelledBlocked(front, ind);
      if i :| 0 <= i < |cs| && cs[i].ind == ind && Usable(cs[i].val) {
        if i < |front| { assert front[i] == cs[i]; }
      }
    }
  }

  lemma {:induction false} CancelledBlockedExtra(es: seq<Extra>, id: seq<byte>)
    ensures FirstValidExtra(es, id).Some? ==> !Cancelled(FirstValidExtra(es, id).value)
    ensures (exists i :: 0 <= i < |es| && es[i].id == id && Usable(es[i].val)) ==> FirstValidExtra(es, id).Some?
  {
    if es != [] {
      var front, e := es[..|es| - 1], es[|es| - 1];
      CancelledBlockedExtra(front, id);
      if i :| 0 <= i < |es| && es[i].id == id && Usable(es[i].val) {
        if i < |front| { assert front[i] == es[i]; }
      }
    }
  }

  // ---------------------------------------------------------------- buffers

  /** One of the first three loops of `merge`. */
  method MergeBuf(r: CapBuf, u: CapBuf)
    requires r != u && r.Valid() && u.Valid() && r.kind == u.kind
    modifies r
    ensures r.Valid() && r.caps == MergeCaps(old(r.caps), u.caps)
  {
    hide EncVal, Enc16, EncCaps, ValOk, FindIn, MergeCaps, IsValid, Found;
    ghost var was, us := r.caps, u.caps;
    var cap := 0;
    var n := u.entries;
    ghost var i := 0;
    assert us[..0] == [];
    NoCaps(u.kind);
    MergeNone(was);
    while n > 0
      invariant 0 <= n && i + n == |us| && cap == |EncCaps(us[..i], u.kind)|
      invariant r.Valid() && u.Valid() && u.caps == us && r.caps == MergeCaps(was, us[..i])
    {
      CapFound(us, u.kind, i);
      CapsNext(us, u.kind, i);
      FoundConcat(u.buf, cap, Enc16(us[i].ind), EncVal(us[i].val));
      Dec16Reads(u.buf, cap, us[i].ind);
      MergeCapsNext(was, us, i);
      var ind := Dec16(u.buf, cap);
      var val, next := DecodeVal(u.buf, cap + 2, u.kind, us[i].val);
      cap := next;
      if IsValid(val) {
        var found, _ := r.Find(ind);
        FoundIs(r.caps, ind);
        if !found {
          assert Cap(ind, val) == us[i];
          r.Append(Cap(ind, val));
        }
      }
      i := i + 1;
      n := n - 1;
    }
    assert us[..i] == us;
  }

  lemma MergeNone(r: seq<Cap>)
    ensures MergeCaps(r, []) == r
  {
  }

  lemma FoundIs(cs: seq<Cap>, ind: nat)
    ensures FindIn(cs, ind) == |cs| <==> !exists i :: 0 <= i < |cs| && cs[i].ind == ind
  {
  }

  lemma FoundExtraIs(es: seq<Extra>, id: seq<byte>)
    ensures FindExtraIn(es, id) == |es| <==> !exists i :: 0 <= i < |es| && es[i].id == id
  {
  }

  /** `_ti_store_extra`. */
  method StoreExtra(r: ExtraBuf, e: Extra, keep: bool)
    requires r.Valid() && ExtraOk(e)
    modifies r
    ensures r.Valid()
    ensures r.extras == if e.id == UseId() || (FindExtraIn(old(r.extras), e.id) == |old(r.extras)| && keep)
      then old(r.extras) + [e] else old(r.extras)
  {
    hide FindExtraIn;
    if e.id != UseId() {
      var found, _ := r.Find(e.id);
      FoundExtraIs(r.extras, e.id);
      if found || !keep { return; }
    }
    r.Append(e);
  }

  /** The last loop of `merge`. */
  method MergeExtraBuf(r: ExtraBuf, u: ExtraBuf, keep: bool)
    requires r != u && r.Valid() && u.Valid()
    modifies r
    ensures r.Valid() && r.extras == MergeExtras(old(r.extras), u.extras, keep)
  {
    hide EncVal, Enc16, EncExtras, EncExtra, ValOk, FindExtraIn, MergeExtras, IsValid, Found;
    ghost var was, us := r.extras, u.extras;
    var cap := 0;
    var n := u.entries;
    ghost var i := 0;
    assert us[..0] == [];
    NoExtras();
    MergeNoExtras(was, keep);
    while n > 0
      invariant 0 <= n && i + n == |us| && cap == |EncExtras(us[..i])|
      invariant r.Valid() && u.Valid() && u.extras == us && r.extras == MergeExtras(was, us[..i], keep)
    {
      ExtrasSplit(us, i);
      ExtrasNext(us, i);
      ExtraParts(u.buf, cap, us[i]);
      NameAt(u.buf, cap + 2, us[i].id);
      MergeExtrasNext(was, us, keep, i);
      var num := Dec16(u.buf, cap);
      var code := u.buf[cap + 2..cap + 2 + (num - 1)];
      cap := cap + 2 + num;
      var val, next := DecodeVal(u.buf, cap + 1, u.buf[cap], us[i].val);
      cap := next;
      assert Extra(code, val) == us[i];
      if IsValid(val) {
        StoreExtra(r, Extra(code, val), keep);
      }
      i := i + 1;
      n := n - 1;
    }
    assert us[..i] == us;
  }

  lemma NameAt(buf: seq<byte>, at: nat, name: seq<byte>)
    requires Found(buf, at, name + [0])
    ensures at + |name| <= |buf| && buf[at..at + |name|] == name
  {
    FoundConcat(buf, at, name, [0]);
  }

  lemma MergeNoExtras(r: seq<Extra>, keep: bool)
    ensures MergeExtras(r, [], keep) == r
  {
  }

  // ------------------------------------------------------------------- merge

  /** The four lists of an entry. */
  datatype Rec = Rec(flags: seq<Cap>, nums: seq<Cap>, strs: seq<Cap>, extras: seq<Extra>)

  /** The lists of indexed capabilities. */
  datatype List = Flags | Nums | Strs

  function CapsOf(r: Rec, l: List): seq<Cap> {
    match l
    case Flags => r.flags
    case Nums => r.nums
    case Strs => r.strs
  }

  function MergeRec(r: Rec, u: Rec, keep: bool): Rec {
    Rec(MergeCaps(r.flags, u.flags), MergeCaps(r.nums, u.nums), MergeCaps(r.strs, u.strs),
        MergeExtras(r.extras, u.extras, keep))
  }

  /** `TIC`. */
  class Tic {
    const name: seq<byte>
    const flags: CapBuf
    const nums: CapBuf
    const strs: CapBuf
    const extras: ExtraBuf

    constructor (name: seq<byte>, flags: CapBuf, nums: CapBuf, strs: CapBuf, extras: ExtraBuf)
      ensures this.name == name && this.flags == flags && this.nums == nums && this.strs == strs
      ensures this.extras == extras
    {
      this.name, this.flags, this.nums, this.strs, this.extras := name, flags, nums, strs, extras;
    }

    ghost function Bufs(): set<object> { {flags, nums, strs, extras} }

    ghost predicate Valid()
      reads Bufs()
    {
      && flags.Valid() && nums.Valid() && strs.Valid() && extras.Valid()
      && flags.kind == 102 && nums.kind == 110 && strs.kind == 115
      && flags != nums && flags != strs && nums != strs
    }

    ghost function Records(): Rec
      reads Bufs()
    {
      Rec(flags.caps, nums.caps, strs.caps, extras.extras)
    }
  }

  /** `merge`. */
  method Merge(r: Tic, u: Tic, keep: bool)
    requires r.Valid() && u.Valid() && r.Bufs() !! u.Bufs()
    modifies r.Bufs()
    ensures r.Valid() && r.Records() == MergeRec(old(r.Records()), u.Records(), keep)
  {
    hide MergeCaps, MergeExtras;
    DisjointBufs(r, u);
    MergeBuf(r.flags, u.flags);
    MergeBuf(r.nums, u.nums);
    MergeBuf(r.strs, u.strs);
    MergeExtraBuf(r.extras, u.extras, keep);
  }

  lemma DisjointBufs(r: Tic, u: Tic)
    requires r.Bufs() !! u.Bufs()
    ensures r.flags != u.flags && r.nums != u.nums && r.strs != u.strs && r.extras != u.extras
    ensures forall x :: x in u.Bufs() ==> x !in r.Bufs()
  {
    assert r.flags in r.Bufs() && r.nums in r.Bufs() && r.strs in r.Bufs() && r.extras in r.Bufs();
    assert u.flags in u.Bufs() && u.nums in u.Bufs() && u.strs in u.Bufs() && u.extras in u.Bufs();
  }
}
