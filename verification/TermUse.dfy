/** Resolving `use` records on the packed buffers (`merge_use` and the loop around it). */
module TermUse {
  import opened Bits
  import opened Options
  import opened TermBuf
  import opened TermMerge
  import opened TermResolve

  // ------------------------------------------------- reading the use records

  function Uses(es: seq<Extra>): seq<Extra> {
    if es == [] then []
    else if es[|es| - 1].id == UseId() then Uses(es[..|es| - 1]) + [es[|es| - 1]]
    else Uses(es[..|es| - 1])
  }

  function NonUse(es: seq<Extra>): seq<Extra> {
    if es == [] then []
    else if es[|es| - 1].id == UseId() then NonUse(es[..|es| - 1])
    else NonUse(es[..|es| - 1]) + [es[|es| - 1]]
  }

  lemma {:induction false} UsesConcat(a: seq<Extra>, b: seq<Extra>)
    ensures Uses(a + b) == Uses(a) + Uses(b) && NonUse(a + b) == NonUse(a) + NonUse(b)
  {
    if b == [] {
      assert a + b == a;
    } else {
      var n := |b| - 1;
      assert (a + b)[..|a + b| - 1] == a + b[..n] && (a + b)[|a + b| - 1] == b[n];
      UsesConcat(a, b[..n]);
    }
  }

  lemma {:induction false} NoUses(es: seq<Extra>)
    requires forall i :: 0 <= i < |es| ==> es[i].id != UseId()
    ensures Uses(es) == [] && NonUse(es) == es
  {
    if es != [] { NoUses(es[..|es| - 1]); }
  }

  lemma UsesOne(e: Extra)
    ensures e.id == UseId() ==> Uses([e]) == [e] && NonUse([e]) == []
    ensures e.id != UseId() ==> Uses([e]) == [] && NonUse([e]) == [e]
  {
    assert [e][..0] == [];
  }

  /** Cutting out the first use record. */
  lemma FirstUse(es: seq<Extra>, i: nat)
    requires i < |es| && es[i].id == UseId() && forall j :: 0 <= j < i ==> es[j].id != UseId()
    ensures Uses(es) == [es[i]] + Uses(es[..i] + es[i + 1..])
    ensures NonUse(es[..i] + es[i + 1..]) == NonUse(es)
  {
    hide *;
    SplitAt(es, i);
    NoUses(es[..i]);
    MiddleUse(es[..i], es[i], es[i + 1..]);
  }

  lemma SplitAt(es: seq<Extra>, i: nat)
    requires i < |es|
    ensures es == es[..i] + [es[i]] + es[i + 1..]
  {
  }

  lemma MiddleUse(a: seq<Extra>, e: Extra, c: seq<Extra>)
    requires Uses(a) == [] && NonUse(a) == a && e.id == UseId()
    ensures Uses(a + [e] + c) == [e] + Uses(a + c) && NonUse(a + [e] + c) == NonUse(a + c)
  {
    hide *;
    UsesOne(e);
    UsesConcat(a + [e], c);
    UsesConcat(a, [e]);
    UsesConcat(a, c);
    LeftNil([e], Uses(c));
    LeftNil(a, NonUse(c));
  }

  lemma LeftNil(b: seq<Extra>, x: seq<Extra>)
    ensures [] + b == b && [] + x == x && b + [] == b
  {
  }

  lemma {:induction false} FindNonUse(m: seq<Extra>, id: seq<byte>)
    requires id != UseId()
    ensures FindExtraIn(NonUse(m), id) == |NonUse(m)| <==> FindExtraIn(m, id) == |m|
  {
    if m != [] {
      var front, e := m[..|m| - 1], m[|m| - 1];
      FindNonUse(front, id);
      if e.id != UseId() { assert (NonUse(front) + [e])[..|NonUse(front)|] == NonUse(front); }
    }
  }

  /** Merging in an entry without use records leaves the use records alone. */
  lemma {:induction false} MergeKeepsUses(r: seq<Extra>, u: seq<Extra>, keep: bool)
    requires forall i :: 0 <= i < |u| ==> u[i].id != UseId()
    ensures Uses(MergeExtras(r, u, keep)) == Uses(r)
    ensures NonUse(MergeExtras(r, u, keep)) == MergeExtras(NonUse(r), u, keep)
  {
    hide IsValid, FindExtraIn, Uses, NonUse;
    if u != [] {
      var front, e := u[..|u| - 1], u[|u| - 1];
      MergeKeepsUses(r, front, keep);
      FindNonUse(MergeExtras(r, front, keep), e.id);
      UsesConcat(MergeExtras(r, front, keep), [e]);
      UsesOne(e);
    }
  }

  // ---------------------------------------------------------------- the graph

  /** A string record holds a terminated name. */
  predicate NameOk(e: Extra) { e.val.S? ==> |e.val.str| > 0 && e.val.str[|e.val.str| - 1] == 0 }

  function NameOf(e: Extra): seq<byte>
    requires e.val.S? && NameOk(e)
  {
    e.val.str[..|e.val.str| - 1]
  }

  /** What the use record `e` of entry `t` comes to. */
  function RefOf(e: Extra, t: nat, names: seq<seq<byte>>, lookup: map<seq<byte>, nat>): Ref {
    if !e.val.S? || !NameOk(e) then Block
    else
      var name := NameOf(e);
      if t >= |names| || name == names[t] || name !in lookup then Drop
      else
        var j := lookup[name];
        if j >= |names| || names[j] == names[t] then Drop else Wait(j)
  }

  function RefsOf(us: seq<Extra>, t: nat, names: seq<seq<byte>>, lookup: map<seq<byte>, nat>): (r: seq<Ref>)
    ensures |r| == |us|
  {
    seq(|us|, i requires 0 <= i < |us| => RefOf(us[i], t, names, lookup))
  }

  /** The entry as the state machine sees it: capabilities and use records apart. */
  function NodeOf(r: Rec, t: nat, names: seq<seq<byte>>, lookup: map<seq<byte>, nat>): Node {
    Node(r.(extras := NonUse(r.extras)), RefsOf(Uses(r.extras), t, names, lookup))
  }

  function NodesOf(rs: seq<Rec>, names: seq<seq<byte>>, lookup: map<seq<byte>, nat>): (st: Nodes)
    ensures |st| == |rs|
  {
    seq(|rs|, t requires 0 <= t < |rs| => NodeOf(rs[t], t, names, lookup))
  }

  /** The record without its `i`-th named capability. */
  function CutRec(r: Rec, i: nat): Rec
    requires i < |r.extras|
  {
    r.(extras := r.extras[..i] + r.extras[i + 1..])
  }

  lemma RefsFirst(es: seq<Extra>, i: nat, t: nat, names: seq<seq<byte>>, lookup: map<seq<byte>, nat>)
    requires i < |es| && es[i].id == UseId() && forall j :: 0 <= j < i ==> es[j].id != UseId()
    ensures RefsOf(Uses(es), t, names, lookup) ==
      [RefOf(es[i], t, names, lookup)] + RefsOf(Uses(es[..i] + es[i + 1..]), t, names, lookup)
  {
    hide *;
    FirstUse(es, i);
    RefsCons(es[i], Uses(es[..i] + es[i + 1..]), t, names, lookup);
  }

  lemma RefsCons(e: Extra, us: seq<Extra>, t: nat, names: seq<seq<byte>>, lookup: map<seq<byte>, nat>)
    ensures RefsOf([e] + us, t, names, lookup) == [RefOf(e, t, names, lookup)] + RefsOf(us, t, names, lookup)
  {
    hide RefOf;
  }

  /** A record that is only removed. */
  lemma DropStep(rs: seq<Rec>, t: nat, i: nat, names: seq<seq<byte>>, lookup: map<seq<byte>, nat>, keep: bool)
    requires t < |rs| && i == FindExtraIn(rs[t].extras, UseId()) < |rs[t].extras|
    requires RefOf(rs[t].extras[i], t, names, lookup) == Drop
    ensures Follows(NodesOf(rs, names, lookup), NodesOf(rs[t := CutRec(rs[t], i)], names, lookup), keep)
  {
    hide RefOf, Uses, NonUse, RefsOf, FindExtraIn;
    var st, st' := NodesOf(rs, names, lookup), NodesOf(rs[t := CutRec(rs[t], i)], names, lookup);
    RefsFirst(rs[t].extras, i, t, names, lookup);
    FirstUse(rs[t].extras, i);
    assert Enabled(st, t);
    assert st' == Step(st, t, keep);
  }

  /** A record whose entry is merged in before it is removed. */
  lemma MergeStep(rs: seq<Rec>, t: nat, j: nat, i: nat, names: seq<seq<byte>>, lookup: map<seq<byte>, nat>, keep: bool)
    requires t < |rs| && j < |rs| && i == FindExtraIn(rs[t].extras, UseId()) < |rs[t].extras|
    requires RefOf(rs[t].extras[i], t, names, lookup) == Wait(j)
    requires FindExtraIn(rs[j].extras, UseId()) == |rs[j].extras|
    ensures var m := MergeRec(rs[t], rs[j], keep);
      && i == FindExtraIn(m.extras, UseId()) < |m.extras| && m.extras[i] == rs[t].extras[i]
      && Follows(NodesOf(rs, names, lookup), NodesOf(rs[t := CutRec(m, i)], names, lookup), keep)
  {
    hide RefOf, Uses, NonUse, RefsOf, FindExtraIn, MergeCaps, MergeExtras;
    var m := MergeRec(rs[t], rs[j], keep);
    var es, us := rs[t].extras, rs[j].extras;
    assert es <= m.extras && forall k :: 0 <= k < |es| ==> m.extras[k] == es[k];
    FirstExtraIs(m.extras, UseId(), i);
    var st, st' := NodesOf(rs, names, lookup), NodesOf(rs[t := CutRec(m, i)], names, lookup);
    NoUses(us);
    MergeKeepsUses(es, us, keep);
    RefsFirst(es, i, t, names, lookup);
    RefsFirst(m.extras, i, t, names, lookup);
    FirstUse(m.extras, i);
    assert st[j].uses == [] && st[j].vals == rs[j];
    assert Enabled(st, t);
    assert st'[t].uses == st[t].uses[1..];
    assert st' == Step(st, t, keep);
  }

  // ---------------------------------------------------------------- entries

  /** The buffers of all entries. */
  ghost function AllBufs(terms: seq<Tic>): set<object> { set t, o | t in terms && o in t.Bufs() :: o }

  /** The records of all entries. */
  ghost function RecsOf(terms: seq<Tic>): (rs: seq<Rec>)
    reads AllBufs(terms)
    ensures |rs| == |terms|
  {
    seq(|terms|, i requires 0 <= i < |terms| reads AllBufs(terms) => terms[i].Records())
  }

  function NamesOf(terms: seq<Tic>): (names: seq<seq<byte>>)
    ensures |names| == |terms|
  {
    seq(|terms|, i requires 0 <= i < |terms| => terms[i].name)
  }

  /** Every string use record holds a name. */
  predicate UsesNamed(r: Rec) { forall i :: 0 <= i < |r.extras| && r.extras[i].id == UseId() ==> NameOk(r.extras[i]) }

  /** The entries have buffers of their own. */
  ghost predicate Setup(terms: seq<Tic>)
    reads AllBufs(terms)
  {
    && (forall i :: 0 <= i < |terms| ==> terms[i].Valid() && UsesNamed(terms[i].Records()))
    && (forall i, j :: 0 <= i < j < |terms| ==> terms[i].Bufs() !! terms[j].Bufs())
  }

  /** The state of the machine. */
  ghost function StateOf(terms: seq<Tic>, lookup: map<seq<byte>, nat>): (st: Nodes)
    reads AllBufs(terms)
    ensures |st| == |terms|
  {
    NodesOf(RecsOf(terms), NamesOf(terms), lookup)
  }

  lemma UseAt(r: Rec, i: nat)
    requires UsesNamed(r) && i < |r.extras| && r.extras[i].id == UseId()
    ensures NameOk(r.extras[i])
  {
  }

  lemma CutNamed(r: Rec, i: nat)
    requires UsesNamed(r) && i < |r.extras|
    ensures UsesNamed(CutRec(r, i))
  {
    var es := CutRec(r, i).extras;
    forall k | 0 <= k < |es| && es[k].id == UseId() ensures NameOk(es[k]) {
      assert es[k] == r.extras[if k < i then k else k + 1];
    }
  }

  lemma MergeNamed(r: Rec, u: Rec, keep: bool)
    requires UsesNamed(r) && FindExtraIn(u.extras, UseId()) == |u.extras|
    ensures UsesNamed(MergeRec(r, u, keep))
  {
    MergeExtrasNamed(r.extras, u.extras, keep);
  }

  lemma {:induction false} MergeExtrasNamed(r: seq<Extra>, u: seq<Extra>, keep: bool)
    requires forall i :: 0 <= i < |r| && r[i].id == UseId() ==> NameOk(r[i])
    requires forall i :: 0 <= i < |u| ==> u[i].id != UseId()
    ensures forall i :: 0 <= i < |MergeExtras(r, u, keep)| && MergeExtras(r, u, keep)[i].id == UseId() ==>
      NameOk(MergeExtras(r, u, keep)[i])
  {
    hide IsValid, FindExtraIn, NameOk;
    if u != [] { MergeExtrasNamed(r, u[..|u| - 1], keep); }
  }

  /** What the first use record of an entry asks for; `Block` if it is not a string. */
  method FirstRef(terms: seq<Tic>, t: nat, lookup: map<seq<byte>, nat>, cap: nat, ghost i: nat) returns (ref: Ref)
    requires t < |terms| && terms[t].extras.Valid()
    requires i < |terms[t].extras.extras| && terms[t].extras.extras[i].id == UseId()
    requires NameOk(terms[t].extras.extras[i])
    requires cap == |EncExtras(terms[t].extras.extras[..i])| + 6 && cap < |terms[t].extras.buf|
    ensures ref == RefOf(terms[t].extras.extras[i], t, NamesOf(terms), lookup)
  {
    hide EncExtras, EncExtra, EncVal, Found;
    var b := terms[t].extras;
    ghost var e := b.extras[i];
    ExtrasSplit(b.extras, i);
    ExtraParts(b.buf, cap - 6, e);
    KindString(e.val);
    if b.buf[cap] != 115 { return Block; }
    var val, _ := DecodeVal(b.buf, cap + 1, 115, e.val);
    var name := val.str[..|val.str| - 1];
    if name == terms[t].name || name !in lookup { return Drop; }
    var j := lookup[name];
    if j >= |terms| || terms[j].name == terms[t].name { return Drop; }
    return Wait(j);
  }

  lemma KindString(v: Val)
    ensures Kind(v) == 115 <==> v.S?
  {
  }

  lemma RefShape(e: Extra, t: nat, names: seq<seq<byte>>, lookup: map<seq<byte>, nat>)
    requires NameOk(e)
    ensures var r := RefOf(e, t, names, lookup);
      (!r.Block? ==> e.val.S?) && (r.Wait? ==> r.j < |names| && (t < |names| ==> r.j != t))
  {
  }

  /** Cuts the first use record out of an entry. */
  method CutUse(tic: Tic, ghost i: nat)
    requires tic.Valid() && i == FindExtraIn(tic.extras.extras, UseId()) < |tic.extras.extras|
    requires tic.extras.extras[i].val.S?
    modifies tic.extras
    ensures tic.Valid() && tic.Records() == CutRec(old(tic.Records()), i)
  {
    hide FindExtraIn, EncExtras;
    var found, cap := tic.extras.Find(UseId());
    tic.extras.Cut(cap, i);
  }

  lemma BufsDisjoint(terms: seq<Tic>, t: nat, j: nat)
    requires Setup(terms) && t < |terms| && j < |terms| && t != j
    ensures terms[t].Bufs() !! terms[j].Bufs()
  {
  }

  lemma SetupAt(terms: seq<Tic>, t: nat)
    requires Setup(terms) && t < |terms|
    ensures terms[t].Valid() && UsesNamed(terms[t].Records())
    ensures RecsOf(terms)[t] == terms[t].Records()
  {
  }

  /** The other entries are as they were. */
  ghost predicate OthersKept(terms: seq<Tic>, t: nat, rs: seq<Rec>)
    reads AllBufs(terms)
  {
    |rs| == |terms| && forall i :: 0 <= i < |terms| && i != t ==> terms[i].Valid() && terms[i].Records() == rs[i]
  }

  /** The buffers of different entries are different. */
  ghost predicate Apart(terms: seq<Tic>, t: nat) {
    t < |terms| && forall i :: 0 <= i < |terms| && i != t ==> terms[i].Bufs() !! terms[t].Bufs()
  }

  /** Only entry `t` has changed. */
  lemma OneChanged(terms: seq<Tic>, t: nat, rs: seq<Rec>)
    requires (forall i, j :: 0 <= i < j < |terms| ==> terms[i].Bufs() !! terms[j].Bufs()) && t < |terms|
    requires OthersKept(terms, t, rs) && terms[t].Valid() && UsesNamed(terms[t].Records())
    requires forall i :: 0 <= i < |rs| ==> UsesNamed(rs[i])
    ensures Setup(terms) && RecsOf(terms) == rs[t := terms[t].Records()]
  {
    hide UsesNamed;
  }

  // ----------------------------------------------------------------- one use

  lemma NodesAt(rs: seq<Rec>, names: seq<seq<byte>>, lookup: map<seq<byte>, nat>, t: nat)
    requires t < |rs|
    ensures NodesOf(rs, names, lookup)[t] == NodeOf(rs[t], t, names, lookup)
  {
    hide NodeOf;
  }

  /** Whether the entry has use records left, and what the first one is. */
  lemma FirstNode(r: Rec, t: nat, names: seq<seq<byte>>, lookup: map<seq<byte>, nat>)
    ensures var i := FindExtraIn(r.extras, UseId());
      var uses := NodeOf(r, t, names, lookup).uses;
      if i < |r.extras| then uses != [] && uses[0] == RefOf(r.extras[i], t, names, lookup) else uses == []
  {
    hide RefOf, Uses, NonUse, FindExtraIn, RefsOf;
    var i := FindExtraIn(r.extras, UseId());
    if i < |r.extras| {
      RefsFirst(r.extras, i, t, names, lookup);
    } else {
      NoUses(r.extras);
    }
  }

  /** Removes the first use record of entry `t`. */
  method CutFirst(terms: seq<Tic>, t: nat, ghost i: nat)
    requires Setup(terms) && t < |terms| && i == FindExtraIn(RecsOf(terms)[t].extras, UseId())
    requires i < |RecsOf(terms)[t].extras| && RecsOf(terms)[t].extras[i].val.S?
    modifies terms[t].Bufs()
    ensures Setup(terms) && |RecsOf(terms)[t].extras| == old(|RecsOf(terms)[t].extras|) - 1
    ensures RecsOf(terms) == old(RecsOf(terms)[t := CutRec(RecsOf(terms)[t], i)])
  {
    hide UsesNamed, FindExtraIn, CutRec;
    ghost var rs := RecsOf(terms);
    SetupParts(terms, t);
    CutUse(terms[t], i);
    CutNamed(rs[t], i);
    CutLength(rs[t], i);
    assert OthersKept(terms, t, rs);
    OneChanged(terms, t, rs);
  }

  lemma CutLength(r: Rec, i: nat)
    requires i < |r.extras|
    ensures |CutRec(r, i).extras| == |r.extras| - 1
  {
  }

  /** Merges entry `u` into entry `t`, on buffers that are apart from all others. */
  method MergeAt(terms: seq<Tic>, t: nat, u: Tic, keep: bool, ghost rs: seq<Rec>)
    requires Apart(terms, t) && OthersKept(terms, t, rs) && terms[t].Valid() && u.Valid()
    requires terms[t].Bufs() !! u.Bufs()
    modifies terms[t].Bufs()
    ensures OthersKept(terms, t, rs) && terms[t].Valid()
    ensures terms[t].Records() == MergeRec(old(terms[t].Records()), u.Records(), keep)
  {
    hide MergeRec;
    Merge(terms[t], u, keep);
  }

  /** Merges entry `j` into entry `t`. */
  method MergeInto(terms: seq<Tic>, t: nat, j: nat, keep: bool)
    requires Setup(terms) && t < |terms| && j < |terms| && t != j
    requires FindExtraIn(RecsOf(terms)[j].extras, UseId()) == |RecsOf(terms)[j].extras|
    modifies terms[t].Bufs()
    ensures Setup(terms)
    ensures RecsOf(terms) == old(RecsOf(terms)[t := MergeRec(RecsOf(terms)[t], RecsOf(terms)[j], keep)])
  {
    hide *;
    ghost var rs := RecsOf(terms);
    SetupParts(terms, t);
    SetupAt(terms, t);
    SetupAt(terms, j);
    BufsDisjoint(terms, t, j);
    MergeNamed(rs[t], rs[j], keep);
    MergeAt(terms, t, terms[j], keep, rs);
    RecordsKept(terms, t, j, rs);
    OneChanged(terms, t, rs);
  }

  lemma RecordsKept(terms: seq<Tic>, t: nat, j: nat, rs: seq<Rec>)
    requires OthersKept(terms, t, rs) && j < |terms| && j != t
    ensures j < |rs| && terms[j].Records() == rs[j]
  {
  }

  /** Looks for the first use record of entry `t`. */
  method FindUse(terms: seq<Tic>, t: nat) returns (found: bool, cap: nat)
    requires Setup(terms) && t < |terms|
    ensures Setup(terms) && RecsOf(terms) == old(RecsOf(terms))
    ensures var es := RecsOf(terms)[t].extras;
      var i := FindExtraIn(es, UseId());
      && (found <==> i < |es|)
      && (found ==> ExtrasOk(es) && cap == |EncExtras(es[..i])| + 6)
  {
    hide UsesNamed, FindExtraIn, EncExtras;
    ghost var rs := RecsOf(terms);
    SetupAt(terms, t);
    found, cap := terms[t].extras.Find(UseId());
    FoundExtraIs(rs[t].extras, UseId());
    assert forall i :: 0 <= i < |terms| ==> terms[i].Records() == rs[i];
  }

  /** What it comes to. */
  method UseRef(terms: seq<Tic>, t: nat, lookup: map<seq<byte>, nat>, cap: nat) returns (ref: Ref)
    requires Setup(terms) && t < |terms|
    requires var es := RecsOf(terms)[t].extras;
      var i := FindExtraIn(es, UseId());
      i < |es| && ExtrasOk(es) && cap == |EncExtras(es[..i])| + 6
    ensures Setup(terms) && RecsOf(terms) == old(RecsOf(terms))
    ensures var es := RecsOf(terms)[t].extras;
      var i := FindExtraIn(es, UseId());
      && i < |es| && ref == RefOf(es[i], t, NamesOf(terms), lookup)
      && (!ref.Block? ==> es[i].val.S?) && (ref.Wait? ==> ref.j < |terms| && ref.j != t)
  {
    hide UsesNamed, FindExtraIn, EncExtras, RefOf, NameOk;
    ghost var rs := RecsOf(terms);
    ghost var i := FindExtraIn(rs[t].extras, UseId());
    SetupAt(terms, t);
    UseAt(rs[t], i);
    CapInside(terms[t].extras, i, cap);
    ref := FirstRef(terms, t, lookup, cap, i);
    RefShape(rs[t].extras[i], t, NamesOf(terms), lookup);
    assert forall i :: 0 <= i < |terms| ==> terms[i].Records() == rs[i];
  }

  lemma CapInside(b: ExtraBuf, i: nat, cap: nat)
    requires b.Valid() && i < |b.extras| && b.extras[i].id == UseId() && cap == |EncExtras(b.extras[..i])| + 6
    ensures cap < |b.buf|
  {
    hide EncExtra, EncVal;
    ExtrasSplit(b.extras, i);
  }

  datatype Outcome = Done | Removed | Waiting | Blocked

  /** What the loop over one entry does with its first use record. */
  method OneUse(terms: seq<Tic>, t: nat, lookup: map<seq<byte>, nat>, keep: bool) returns (r: Outcome)
    requires Setup(terms) && t < |terms|
    modifies terms[t].Bufs()
    ensures Setup(terms)
    ensures r.Removed? ==> Follows(old(StateOf(terms, lookup)), StateOf(terms, lookup), keep)
    ensures !r.Removed? ==> StateOf(terms, lookup) == old(StateOf(terms, lookup))
    ensures r.Done? <==> old(StateOf(terms, lookup))[t].uses == []
    ensures r.Waiting? ==> StateOf(terms, lookup)[t].uses[0].Wait? && !Enabled(StateOf(terms, lookup), t)
    ensures r.Blocked? ==> StateOf(terms, lookup)[t].uses[0].Block?
  {
    hide *;
    ghost var rs, names := RecsOf(terms), NamesOf(terms);
    StateIs(terms, lookup);
    NodesAt(rs, names, lookup, t);
    FirstNode(rs[t], t, names, lookup);
    var found, cap := FindUse(terms, t);
    StateIs(terms, lookup);
    if !found { return Done; }
    ghost var i := FindExtraIn(rs[t].extras, UseId());
    var ref := UseRef(terms, t, lookup, cap);
    StateIs(terms, lookup);
    if ref.Block? { return Blocked; }
    if ref.Wait? {
      var j := ref.j;
      NodesAt(rs, names, lookup, j);
      FirstNode(rs[j], j, names, lookup);
      var more, _ := FindUse(terms, j);
      if more {
        StateIs(terms, lookup);
        WaitsFor(StateOf(terms, lookup), t, j);
        return Waiting;
      }
      MergeStep(rs, t, j, i, names, lookup, keep);
      MergeInto(terms, t, j, keep);
      assert rs[t := MergeRec(rs[t], rs[j], keep)][t := CutRec(MergeRec(rs[t], rs[j], keep), i)]
        == rs[t := CutRec(MergeRec(rs[t], rs[j], keep), i)];
    } else {
      DropStep(rs, t, i, names, lookup, keep);
    }
    CutFirst(terms, t, i);
    StateIs(terms, lookup);
    return Removed;
  }

  lemma StateIs(terms: seq<Tic>, lookup: map<seq<byte>, nat>)
    ensures StateOf(terms, lookup) == NodesOf(RecsOf(terms), NamesOf(terms), lookup)
  {
  }

  lemma WaitsFor(st: Nodes, t: nat, j: nat)
    requires t < |st| && j < |st| && st[t].uses != [] && st[t].uses[0] == Wait(j) && st[j].uses != []
    ensures !Enabled(st, t)
  {
  }

  lemma SetupParts(terms: seq<Tic>, t: nat)
    requires Setup(terms) && t < |terms|
    ensures (forall i, j :: 0 <= i < j < |terms| ==> terms[i].Bufs() !! terms[j].Bufs()) && Apart(terms, t)
    ensures OthersKept(terms, t, RecsOf(terms))
    ensures forall i :: 0 <= i < |RecsOf(terms)| ==> UsesNamed(RecsOf(terms)[i])
  {
    hide UsesNamed;
  }

  // ------------------------------------------------------------------- runs

  lemma RunMore(tr: seq<Nodes>, st: Nodes, keep: bool)
    requires IsRun(tr, keep) && Follows(Last(tr), st, keep)
    ensures IsRun(tr + [st], keep) && Last(tr + [st]) == st && (tr + [st])[0] == tr[0]
  {
    hide Follows;
    var tr' := tr + [st];
    forall i | 0 <= i && i + 1 < |tr'| ensures Follows(tr'[i], tr'[i + 1], keep) {
      if i + 1 < |tr| { assert Follows(tr[i], tr[i + 1], keep); }
    }
  }

  lemma FollowsLess(st: Nodes, st': Nodes, keep: bool)
    requires Follows(st, st', keep)
    ensures TotalUses(st') < TotalUses(st) && |st'| == |st|
  {
    var t: nat :| Enabled(st, t) && st' == Step(st, t, keep);
    StepTakesOne(st, t, keep);
  }

  /** `tr` goes on from `tr0` by `n` steps. */
  ghost predicate Extends(tr0: seq<Nodes>, tr: seq<Nodes>, n: nat, keep: bool) {
    tr0 != [] && IsRun(tr, keep) && tr0 <= tr && |tr| == |tr0| + n && tr[0] == tr0[0]
  }

  lemma ExtendsSelf(tr: seq<Nodes>, keep: bool)
    requires IsRun(tr, keep)
    ensures Extends(tr, tr, 0, keep)
  {
  }

  lemma ExtendsMore(tr0: seq<Nodes>, tr: seq<Nodes>, n: nat, st: Nodes, keep: bool)
    requires Extends(tr0, tr, n, keep) && Follows(Last(tr), st, keep)
    ensures Extends(tr0, tr + [st], n + 1, keep) && Last(tr + [st]) == st
  {
    hide Follows, IsRun;
    RunMore(tr, st, keep);
  }

  lemma ExtendsTwice(tr0: seq<Nodes>, tr1: seq<Nodes>, tr2: seq<Nodes>, n: nat, m: nat, keep: bool)
    requires Extends(tr0, tr1, n, keep) && Extends(tr1, tr2, m, keep)
    ensures Extends(tr0, tr2, n + m, keep)
  {
    hide IsRun;
  }

  lemma ExtendsRun(tr0: seq<Nodes>, tr: seq<Nodes>, n: nat, keep: bool)
    requires Extends(tr0, tr, n, keep)
    ensures tr != [] && tr0 != [] && IsRun(tr, keep) && (n == 0 ==> tr == tr0)
  {
    hide Follows;
  }

  lemma DoneDisabled(st: Nodes, t: nat)
    requires t < |st| && (st[t].uses == [] || st[t].uses[0].Block?)
    ensures !Enabled(st, t) && !WaitsAt(st, t)
  {
  }

  lemma WaitingIs(st: Nodes, t: nat)
    requires t < |st| && st[t].uses != [] && st[t].uses[0].Wait?
    ensures WaitsAt(st, t)
  {
  }

  /** The loop over the use records of one entry. */
  method OneEntry(terms: seq<Tic>, t: nat, lookup: map<seq<byte>, nat>, keep: bool, ghost tr0: seq<Nodes>)
    returns (merged: nat, skipped: bool, ghost tr: seq<Nodes>)
    requires Setup(terms) && t < |terms| && IsRun(tr0, keep) && Last(tr0) == StateOf(terms, lookup)
    modifies terms[t].Bufs()
    ensures Setup(terms) && Extends(tr0, tr, merged, keep) && tr != [] && Last(tr) == StateOf(terms, lookup)
    ensures !Enabled(Last(tr), t) && (skipped <==> WaitsAt(Last(tr), t))
  {
    hide *;
    merged, skipped, tr := 0, false, tr0;
    ExtendsSelf(tr0, keep);
    ExtendsRun(tr0, tr, 0, keep);
    while true
      invariant Setup(terms) && Extends(tr0, tr, merged, keep) && tr != [] && Last(tr) == StateOf(terms, lookup)
      decreases TotalUses(StateOf(terms, lookup))
    {
      var r := OneUse(terms, t, lookup, keep);
      ghost var st := StateOf(terms, lookup);
      match r {
        case Done =>
          DoneDisabled(st, t);
          return;
        case Blocked =>
          DoneDisabled(st, t);
          return;
        case Waiting =>
          WaitingIs(st, t);
          skipped := true;
          return;
        case Removed =>
          FollowsLess(Last(tr), st, keep);
          ExtendsMore(tr0, tr, merged, st, keep);
          ExtendsRun(tr0, tr + [st], merged + 1, keep);
          tr := tr + [st];
          merged := merged + 1;
      }
    }
  }

  lemma BufsIn(terms: seq<Tic>, t: nat)
    requires t < |terms|
    ensures terms[t].Bufs() <= AllBufs(terms)
  {
    assert terms[t] in terms;
  }

  /** `merge_use`: one pass over all entries. */
  method MergeUse(terms: seq<Tic>, lookup: map<seq<byte>, nat>, keep: bool, ghost tr0: seq<Nodes>)
    returns (merged: nat, circular: bool, ghost tr: seq<Nodes>)
    requires Setup(terms) && IsRun(tr0, keep) && Last(tr0) == StateOf(terms, lookup)
    modifies AllBufs(terms)
    ensures Setup(terms) && Extends(tr0, tr, merged, keep) && tr != [] && Last(tr) == StateOf(terms, lookup)
    ensures merged > 0 ==> !circular
    ensures merged == 0 ==> Stuck(Last(tr)) && (circular <==> exists t: nat :: WaitsAt(Last(tr), t))
  {
    hide *;
    var skipped := false;
    merged, tr := 0, tr0;
    ExtendsSelf(tr0, keep);
    ExtendsRun(tr0, tr, 0, keep);
    var t := 0;
    PassStart(Last(tr));
    while t < |terms|
      invariant t <= |terms| && Setup(terms) && Extends(tr0, tr, merged, keep) && tr != []
      invariant Last(tr) == StateOf(terms, lookup)
      invariant merged == 0 ==> PassDone(Last(tr), t, skipped)
    {
      BufsIn(terms, t);
      ExtendsRun(tr0, tr, merged, keep);
      ghost var was := tr;
      var n, waits;
      n, waits, tr := OneEntry(terms, t, lookup, keep, tr);
      ExtendsTwice(tr0, was, tr, merged, n, keep);
      ExtendsRun(was, tr, n, keep);
      if merged == 0 && n == 0 { PassNext(Last(tr), t, skipped, waits); }
      merged := merged + n;
      skipped := skipped || waits;
      t := t + 1;
    }
    circular := merged == 0 && skipped;
    if merged == 0 { PassEnd(Last(tr), skipped); }
  }

  /** The first `t` entries have been visited without a change. */
  ghost predicate PassDone(st: Nodes, t: nat, skipped: bool) {
    && t <= |st| && (forall k: nat :: k < t ==> !Enabled(st, k))
    && (skipped <==> exists k: nat :: k < t && WaitsAt(st, k))
  }

  lemma PassStart(st: Nodes)
    ensures PassDone(st, 0, false)
  {
  }

  lemma PassNext(st: Nodes, t: nat, skipped: bool, waits: bool)
    requires PassDone(st, t, skipped) && t < |st| && !Enabled(st, t) && (waits <==> WaitsAt(st, t))
    ensures PassDone(st, t + 1, skipped || waits)
  {
    hide Enabled, WaitsAt;
  }

  lemma PassEnd(st: Nodes, skipped: bool)
    requires PassDone(st, |st|, skipped)
    ensures Stuck(st) && (skipped <==> exists t: nat :: WaitsAt(st, t))
  {
    hide Enabled;
  }

  /** The loop in `main`: passes are made until nothing changes.  Whatever the order of the entries, the
      passes together are a run of the state machine that comes to its end. */
  method Resolve(terms: seq<Tic>, lookup: map<seq<byte>, nat>, keep: bool)
    returns (circular: bool, ghost tr: seq<Nodes>)
    requires Setup(terms)
    modifies AllBufs(terms)
    ensures Setup(terms) && IsRun(tr, keep) && tr != [] && tr[0] == old(StateOf(terms, lookup))
    ensures Last(tr) == StateOf(terms, lookup) && Stuck(Last(tr))
    ensures circular <==> exists t: nat :: WaitsAt(Last(tr), t)
  {
    hide *;
    tr := [StateOf(terms, lookup)];
    RunStart(StateOf(terms, lookup), keep);
    circular := false;
    var merged := 1;
    while merged != 0
      invariant Setup(terms) && IsRun(tr, keep) && tr != [] && tr[0] == old(StateOf(terms, lookup))
      invariant Last(tr) == StateOf(terms, lookup)
      invariant merged == 0 ==> Stuck(Last(tr)) && (circular <==> exists t: nat :: WaitsAt(Last(tr), t))
      decreases merged != 0, TotalUses(StateOf(terms, lookup))
    {
      ghost var was := tr;
      merged, circular, tr := MergeUse(terms, lookup, keep, tr);
      ExtendsRun(was, tr, merged, keep);
      ExtendsLess(was, tr, merged, keep);
    }
  }

  lemma RunStart(st: Nodes, keep: bool)
    ensures IsRun([st], keep) && Last([st]) == st
  {
  }

  lemma ExtendsLess(tr0: seq<Nodes>, tr: seq<Nodes>, n: nat, keep: bool)
    requires Extends(tr0, tr, n, keep) && IsRun(tr0, keep)
    ensures tr != [] && tr0 != [] && tr[0] == tr0[0]
    ensures n > 0 ==> TotalUses(Last(tr)) < TotalUses(Last(tr0))
  {
    hide Follows, TotalUses;
    RunBounded(tr0, keep);
    RunBounded(tr, keep);
  }

  // --------------------------------------------------------------- the result

  /** All use records are strings. */
  predicate AllStrings(rs: seq<Rec>) {
    forall t, i :: 0 <= t < |rs| && 0 <= i < |rs[t].extras| && rs[t].extras[i].id == UseId() ==>
      rs[t].extras[i].val.S? && NameOk(rs[t].extras[i])
  }

  lemma {:induction false} UsesAre(es: seq<Extra>, i: nat)
    requires i < |Uses(es)|
    ensures Uses(es)[i] in es && Uses(es)[i].id == UseId()
  {
    var front := es[..|es| - 1];
    if i < |Uses(front)| {
      UsesAre(front, i);
      assert es == front + [es[|es| - 1]];
    }
  }

  lemma StateOk(rs: seq<Rec>, names: seq<seq<byte>>, lookup: map<seq<byte>, nat>)
    requires |names| == |rs|
    ensures NodesOk(NodesOf(rs, names, lookup))
    ensures AllStrings(rs) ==> NoBlock(NodesOf(rs, names, lookup))
  {
    hide Uses, NonUse, NameOk;
    var st := NodesOf(rs, names, lookup);
    if AllStrings(rs) {
      forall t, i | 0 <= t < |st| && 0 <= i < |st[t].uses| ensures !st[t].uses[i].Block? {
        UsesAre(rs[t].extras, i);
      }
    }
  }

  // ------------------------------------------------- the rule, on the records

  /** The record says `use=name`, the name is that of entry `j`, and neither it nor the entry's own name is `own`. */
  ghost predicate Names(e: Extra, name: seq<byte>, own: seq<byte>, names: seq<seq<byte>>, lookup: map<seq<byte>, nat>,
                        j: nat)
  {
    && e.id == [117, 115, 101] && e.val == S(name + [0])
    && name in lookup && lookup[name] == j < |names| && name != own && names[j] != own
  }

  ghost predicate Refers(e: Extra, own: seq<byte>, names: seq<seq<byte>>, lookup: map<seq<byte>, nat>, j: nat) {
    exists name: seq<byte> :: Names(e, name, own, names, lookup, j)
  }

  /** Entry `t` has a record that refers to entry `j`. */
  ghost predicate Needs(rs: seq<Rec>, names: seq<seq<byte>>, lookup: map<seq<byte>, nat>, t: nat, j: nat) {
    && t < |rs| && t < |names|
    && exists i :: 0 <= i < |rs[t].extras| && Refers(rs[t].extras[i], names[t], names, lookup, j)
  }

  /** The entries of `c` need each other in a circle, all of them in `D`. */
  ghost predicate Circle(rs: seq<Rec>, names: seq<seq<byte>>, lookup: map<seq<byte>, nat>, D: set<nat>, c: seq<nat>) {
    |c| > 0 && (forall i :: 0 <= i < |c| ==> c[i] in D) && forall i :: 0 <= i < |c| ==> NeedsNext(rs, names, lookup, c, i)
  }

  ghost predicate NeedsNext(rs: seq<Rec>, names: seq<seq<byte>>, lookup: map<seq<byte>, nat>, c: seq<nat>, i: nat) {
    i < |c| && Needs(rs, names, lookup, c[i], c[(i + 1) % |c|])
  }

  ghost predicate Circular(rs: seq<Rec>, names: seq<seq<byte>>, lookup: map<seq<byte>, nat>, D: set<nat>) {
    exists c: seq<nat> :: Circle(rs, names, lookup, D, c)
  }

  /** The entries of `D` need none outside. */
  ghost predicate ClosedUses(rs: seq<Rec>, names: seq<seq<byte>>, lookup: map<seq<byte>, nat>, D: set<nat>) {
    (forall t: nat :: t in D ==> t < |rs|) && forall t: nat, j: nat :: t in D && Needs(rs, names, lookup, t, j) ==> j in D
  }

  /** The record refers to an entry that offers `v`. */
  ghost predicate Offered(e: Extra, own: seq<byte>, names: seq<seq<byte>>, lookup: map<seq<byte>, nat>,
                          offers: seq<Option<Val>>, v: Val)
  {
    exists j: nat :: j < |offers| && Refers(e, own, names, lookup, j) && offers[j] == Some(v)
  }

  /** `w` is what the first of the records offers that offers anything. */
  ghost predicate FirstOffered(es: seq<Extra>, own: seq<byte>, names: seq<seq<byte>>, lookup: map<seq<byte>, nat>,
                               offers: seq<Option<Val>>, w: Option<Val>)
  {
    if w.None? then NoneOffered(es, own, names, lookup, offers)
    else exists i :: 0 <= i < |es| && Offered(es[i], own, names, lookup, offers, w.value)
                     && NoneOffered(es[..i], own, names, lookup, offers)
  }

  ghost predicate NoneOffered(es: seq<Extra>, own: seq<byte>, names: seq<seq<byte>>, lookup: map<seq<byte>, nat>,
                              offers: seq<Option<Val>>)
  {
    forall i, v :: 0 <= i < |es| ==> !Offered(es[i], own, names, lookup, offers, v)
  }

  /** The value of a capability of an entry, from its records at first and the values `sol` of all at the end: its
      own value or cancellation, or the first offered. */
  ghost predicate CapByRule(r: Rec, own: seq<byte>, names: seq<seq<byte>>, lookup: map<seq<byte>, nat>, sol: seq<Rec>,
                            l: List, ind: nat, w: Option<Val>)
  {
    if Lookup(CapsOf(r, l), ind).Some? then w == Lookup(CapsOf(r, l), ind)
    else FirstOffered(r.extras, own, names, lookup, Offers(sol, l, ind), w)
  }

  /** The same for a named record; these are inherited only if unknown capabilities are kept. */
  ghost predicate ExtraByRule(r: Rec, own: seq<byte>, names: seq<seq<byte>>, lookup: map<seq<byte>, nat>, sol: seq<Rec>,
                              id: seq<byte>, keep: bool, w: Option<Val>)
  {
    if LookupExtra(r.extras, id).Some? then w == LookupExtra(r.extras, id)
    else if keep then FirstOffered(r.extras, own, names, lookup, OffersExtra(sol, id), w)
    else w == None
  }

  /** The records `sol` of the entries of `D` follow from the records `rs` at first: no use record is left, every
      value is that of the rule, and no list has gained duplicates. */
  ghost predicate ByRule(rs: seq<Rec>, names: seq<seq<byte>>, lookup: map<seq<byte>, nat>, D: set<nat>, sol: seq<Rec>,
                         keep: bool)
  {
    && |sol| == |rs| == |names|
    && (forall t: nat, i :: t in D && t < |rs| && 0 <= i < |sol[t].extras| ==> sol[t].extras[i].id != UseId())
    && (forall t: nat, l: List, ind: nat :: t in D && t < |rs| ==>
          CapByRule(rs[t], names[t], names, lookup, sol, l, ind, Lookup(CapsOf(sol[t], l), ind)))
    && (forall t: nat, id: seq<byte> :: t in D && t < |rs| && id != UseId() ==>
          ExtraByRule(rs[t], names[t], names, lookup, sol, id, keep, LookupExtra(sol[t].extras, id)))
    && (forall t: nat, l: List :: t in D && t < |rs| && NoDup(CapsOf(rs[t], l)) ==> NoDup(CapsOf(sol[t], l)))
  }

  /** The record refers to an entry exactly if it waits for it. */
  lemma RefersIs(e: Extra, t: nat, names: seq<seq<byte>>, lookup: map<seq<byte>, nat>, j: nat)
    requires t < |names|
    ensures Refers(e, names[t], names, lookup, j) <==> e.id == UseId() && RefOf(e, t, names, lookup) == Wait(j)
  {
    if e.id == UseId() && RefOf(e, t, names, lookup) == Wait(j) {
      assert e.val.str == NameOf(e) + [0];
      assert Names(e, NameOf(e), names[t], names, lookup, j);
    }
    if name: seq<byte> :| Names(e, name, names[t], names, lookup, j) {
      assert NameOf(e) == name;
    }
  }

  lemma {:induction false} UsesHave(es: seq<Extra>, i: nat) returns (k: nat)
    requires i < |es| && es[i].id == UseId()
    ensures k < |Uses(es)| && Uses(es)[k] == es[i]
  {
    var n := |es| - 1;
    if i == n { k := |Uses(es)| - 1; } else { k := UsesHave(es[..n], i); }
  }

  /** The entry needs those it waits for. */
  lemma NeedsIs(rs: seq<Rec>, names: seq<seq<byte>>, lookup: map<seq<byte>, nat>, t: nat, j: nat)
    requires |names| == |rs|
    ensures Needs(rs, names, lookup, t, j) <==> UsesEntry(NodesOf(rs, names, lookup), t, j)
  {
    hide Uses, RefOf, Refers, NonUse;
    if t < |rs| {
      var es := rs[t].extras;
      var us := Uses(es);
      NodesAt(rs, names, lookup, t);
      assert NodesOf(rs, names, lookup)[t].uses == RefsOf(us, t, names, lookup);
      if i :| 0 <= i < |es| && Refers(es[i], names[t], names, lookup, j) {
        RefersIs(es[i], t, names, lookup, j);
        var k := UsesHave(es, i);
        assert RefsOf(us, t, names, lookup)[k] == Wait(j);
      }
      if k :| 0 <= k < |us| && RefsOf(us, t, names, lookup)[k] == Wait(j) {
        UsesAre(es, k);
        RefersIs(us[k], t, names, lookup, j);
      }
    }
  }

  lemma NeedsAre(rs: seq<Rec>, names: seq<seq<byte>>, lookup: map<seq<byte>, nat>)
    requires |names| == |rs|
    ensures forall t: nat, j: nat :: Needs(rs, names, lookup, t, j) <==> UsesEntry(NodesOf(rs, names, lookup), t, j)
  {
    hide Needs, UsesEntry, NodesOf;
    forall t: nat, j: nat ensures Needs(rs, names, lookup, t, j) <==> UsesEntry(NodesOf(rs, names, lookup), t, j) {
      NeedsIs(rs, names, lookup, t, j);
    }
  }

  /** The circles are the cycles of the state machine. */
  lemma CircleIs(rs: seq<Rec>, names: seq<seq<byte>>, lookup: map<seq<byte>, nat>, D: set<nat>, c: seq<nat>)
    requires |names| == |rs|
    ensures Circle(rs, names, lookup, D, c) <==> IsCycle(NodesOf(rs, names, lookup), D, c)
  {
    var st := NodesOf(rs, names, lookup);
    forall i: nat | i < |c| ensures NeedsNext(rs, names, lookup, c, i) <==> CycleAt(st, c, i) {
      NeedsIs(rs, names, lookup, c[i], c[(i + 1) % |c|]);
    }
    hide NeedsNext, NodesOf, CycleAt;
  }

  lemma CircularIs(rs: seq<Rec>, names: seq<seq<byte>>, lookup: map<seq<byte>, nat>, D: set<nat>)
    requires |names| == |rs|
    ensures Circular(rs, names, lookup, D) <==> HasCycle(NodesOf(rs, names, lookup), D)
  {
    hide Circle, IsCycle, NodesOf;
    if c: seq<nat> :| Circle(rs, names, lookup, D, c) { CircleIs(rs, names, lookup, D, c); }
    if c: seq<nat> :| IsCycle(NodesOf(rs, names, lookup), D, c) { CircleIs(rs, names, lookup, D, c); }
  }

  lemma ClosedIs(rs: seq<Rec>, names: seq<seq<byte>>, lookup: map<seq<byte>, nat>, D: set<nat>)
    requires |names| == |rs| && ClosedUses(rs, names, lookup, D)
    ensures Closed(NodesOf(rs, names, lookup), D)
  {
    NeedsAre(rs, names, lookup);
    var st := NodesOf(rs, names, lookup);
    hide Needs, NodesOf;
    forall t, i | 0 <= t < |st| && t in D && 0 <= i < |st[t].uses| && st[t].uses[i].Wait? ensures st[t].uses[i].j in D {
      assert UsesEntry(st, t, st[t].uses[i].j);
    }
  }

  lemma {:induction false} InheritedNext(uses: seq<Ref>, r: Ref, offers: seq<Option<Val>>)
    ensures Inherited(uses + [r], offers) ==
      if Inherited(uses, offers).Some? then Inherited(uses, offers)
      else if r.Wait? && r.j < |offers| then offers[r.j] else None
    decreases |uses|
  {
    if uses == [] {
      assert [] + [r] == [r] && [r][1..] == [];
    } else {
      assert (uses + [r])[1..] == uses[1..] + [r];
      InheritedNext(uses[1..], r, offers);
    }
  }

  lemma OfferedIs(e: Extra, t: nat, names: seq<seq<byte>>, lookup: map<seq<byte>, nat>, offers: seq<Option<Val>>, v: Val)
    requires t < |names|
    ensures Offered(e, names[t], names, lookup, offers, v) <==>
      e.id == UseId() && var r := RefOf(e, t, names, lookup); r.Wait? && r.j < |offers| && offers[r.j] == Some(v)
  {
    hide RefOf, Refers;
    forall j: nat
      ensures Refers(e, names[t], names, lookup, j) <==> e.id == UseId() && RefOf(e, t, names, lookup) == Wait(j)
    {
      RefersIs(e, t, names, lookup, j);
    }
  }

  lemma RefsNext(us: seq<Extra>, e: Extra, t: nat, names: seq<seq<byte>>, lookup: map<seq<byte>, nat>)
    ensures RefsOf(us + [e], t, names, lookup) == RefsOf(us, t, names, lookup) + [RefOf(e, t, names, lookup)]
  {
    hide RefOf;
  }

  lemma FirstOfferedNext(es: seq<Extra>, e: Extra, own: seq<byte>, names: seq<seq<byte>>, lookup: map<seq<byte>, nat>,
                         offers: seq<Option<Val>>, w: Option<Val>, w': Option<Val>)
    requires FirstOffered(es, own, names, lookup, offers, w)
    requires w.Some? ==> w' == w
    requires w.None? && w'.None? ==> forall v :: !Offered(e, own, names, lookup, offers, v)
    requires w.None? && w'.Some? ==> Offered(e, own, names, lookup, offers, w'.value)
    ensures FirstOffered(es + [e], own, names, lookup, offers, w')
  {
    hide Offered;
    var all := es + [e];
    assert forall k :: 0 <= k < |es| ==> all[k] == es[k];
    assert all[|es|] == e;
    if w.None? && w'.Some? {
      assert all[..|es|] == es;
      assert Offered(all[|es|], own, names, lookup, offers, w'.value);
    }
    if w.Some? {
      var i :| 0 <= i < |es| && Offered(es[i], own, names, lookup, offers, w.value)
        && NoneOffered(es[..i], own, names, lookup, offers);
      assert all[..i] == es[..i];
      assert Offered(all[i], own, names, lookup, offers, w.value);
    }
  }

  /** What the state machine inherits is what the records offer first. */
  lemma {:induction false} InheritedIs(es: seq<Extra>, t: nat, names: seq<seq<byte>>, lookup: map<seq<byte>, nat>,
                                       offers: seq<Option<Val>>)
    requires t < |names|
    ensures FirstOffered(es, names[t], names, lookup, offers, Inherited(RefsOf(Uses(es), t, names, lookup), offers))
    decreases |es|
  {
    hide RefOf, Offered, RefsOf, FirstOffered, Inherited;
    if es == [] {
      NothingOffered(t, names, lookup, offers);
    } else {
      var front, e := es[..|es| - 1], es[|es| - 1];
      InheritedIs(front, t, names, lookup, offers);
      var w := Inherited(RefsOf(Uses(front), t, names, lookup), offers);
      var w' := Inherited(RefsOf(Uses(es), t, names, lookup), offers);
      forall v ensures Offered(e, names[t], names, lookup, offers, v) <==>
        e.id == UseId() && var r := RefOf(e, t, names, lookup); r.Wait? && r.j < |offers| && offers[r.j] == Some(v)
      {
        OfferedIs(e, t, names, lookup, offers, v);
      }
      RefsNext(Uses(front), e, t, names, lookup);
      InheritedNext(RefsOf(Uses(front), t, names, lookup), RefOf(e, t, names, lookup), offers);
      assert es == front + [e];
      FirstOfferedNext(front, e, names[t], names, lookup, offers, w, w');
    }
  }

  lemma NothingOffered(t: nat, names: seq<seq<byte>>, lookup: map<seq<byte>, nat>, offers: seq<Option<Val>>)
    requires t < |names|
    ensures FirstOffered([], names[t], names, lookup, offers, Inherited(RefsOf(Uses([]), t, names, lookup), offers))
  {
    assert Uses([]) == [];
    assert RefsOf([], t, names, lookup) == [];
  }

  lemma {:induction false} NonUseLookup(es: seq<Extra>, id: seq<byte>)
    requires id != UseId()
    ensures LookupExtra(NonUse(es), id) == LookupExtra(es, id)
    ensures FirstValidExtra(NonUse(es), id) == FirstValidExtra(es, id)
  {
    hide IsValid, LookupExtra;
    if es == [] {
    } else {
      var front, e := es[..|es| - 1], es[|es| - 1];
      NonUseLookup(front, id);
      assert es == front + [e];
      FindExtraNext(front, e, id);
      FindExtraNext(NonUse(front), e, id);
      assert (NonUse(front) + [e])[..|NonUse(front)|] == NonUse(front);
    }
  }

  lemma {:induction false} NoneLeft(es: seq<Extra>, i: nat)
    requires Uses(es) == [] && i < |es|
    ensures es[i].id != UseId()
  {
    if es[i].id == UseId() { var k := UsesHave(es, i); }
  }

  /** A resolved entry of the state machine has the values of its records. */
  lemma FinalRec(rs: seq<Rec>, names: seq<seq<byte>>, lookup: map<seq<byte>, nat>, t: nat)
    requires t < |rs| && NodesOf(rs, names, lookup)[t].uses == []
    ensures ValsOf(NodesOf(rs, names, lookup))[t] == rs[t]
    ensures forall i :: 0 <= i < |rs[t].extras| ==> rs[t].extras[i].id != UseId()
  {
    NodesAt(rs, names, lookup, t);
    hide Uses, NonUse, RefOf, NodesOf;
    AllNonUse(rs[t].extras);
    forall i | 0 <= i < |rs[t].extras| ensures rs[t].extras[i].id != UseId() { NoneLeft(rs[t].extras, i); }
  }

  lemma OffersSame(rs: seq<Rec>, names: seq<seq<byte>>, lookup: map<seq<byte>, nat>, l: List, ind: nat)
    ensures Offers(ValsOf(NodesOf(rs, names, lookup)), l, ind) == Offers(rs, l, ind)
  {
    hide Uses, NonUse, RefsOf;
    var sol := ValsOf(NodesOf(rs, names, lookup));
    forall j | 0 <= j < |rs| ensures CapsOf(sol[j], l) == CapsOf(rs[j], l) { NodesAt(rs, names, lookup, j); }
  }

  lemma OffersExtraSame(rs: seq<Rec>, names: seq<seq<byte>>, lookup: map<seq<byte>, nat>, id: seq<byte>)
    requires id != UseId()
    ensures OffersExtra(ValsOf(NodesOf(rs, names, lookup)), id) == OffersExtra(rs, id)
  {
    hide Uses, NonUse, RefsOf, FirstValidExtra;
    var sol := ValsOf(NodesOf(rs, names, lookup));
    forall j | 0 <= j < |rs| ensures FirstValidExtra(sol[j].extras, id) == FirstValidExtra(rs[j].extras, id) {
      NodesAt(rs, names, lookup, j);
      NonUseLookup(rs[j].extras, id);
    }
  }

  /** A value that the state machine prescribes is that of the rule. */
  lemma CapIs(rs: seq<Rec>, names: seq<seq<byte>>, lookup: map<seq<byte>, nat>, t: nat, sol: seq<Rec>, l: List, ind: nat)
    requires |names| == |rs| && t < |rs|
    ensures var st := NodesOf(rs, names, lookup);
      CapByRule(rs[t], names[t], names, lookup, sol, l, ind, Prescribed(st[t], sol, l, ind))
  {
    hide Uses, NonUse, RefsOf, Lookup, FirstOffered, Offers, Inherited, NodesOf;
    NodesAt(rs, names, lookup, t);
    InheritedIs(rs[t].extras, t, names, lookup, Offers(sol, l, ind));
  }

  lemma ExtraIs(rs: seq<Rec>, names: seq<seq<byte>>, lookup: map<seq<byte>, nat>, t: nat, sol: seq<Rec>, id: seq<byte>,
                keep: bool)
    requires |names| == |rs| && t < |rs| && id != UseId()
    ensures var st := NodesOf(rs, names, lookup);
      ExtraByRule(rs[t], names[t], names, lookup, sol, id, keep, PrescribedExtra(st[t], sol, id, keep))
  {
    hide Uses, NonUse, RefsOf, LookupExtra, FirstOffered, OffersExtra, Inherited, NodesOf;
    NodesAt(rs, names, lookup, t);
    NonUseLookup(rs[t].extras, id);
    InheritedIs(rs[t].extras, t, names, lookup, OffersExtra(sol, id));
  }

  /** The capabilities follow the rule if they follow that of the state machine. */
  lemma CapsFollow(rs: seq<Rec>, ends: seq<Rec>, names: seq<seq<byte>>, lookup: map<seq<byte>, nat>, D: set<nat>,
                   t: nat, l: List, ind: nat, keep: bool)
    requires |names| == |rs| == |ends| && t < |rs| && t in D && Resolved(NodesOf(ends, names, lookup), D)
    requires LeftBiased(NodesOf(rs, names, lookup), D, ValsOf(NodesOf(ends, names, lookup)), keep)
    ensures CapByRule(rs[t], names[t], names, lookup, ends, l, ind, Lookup(CapsOf(ends[t], l), ind))
    ensures NoDup(CapsOf(rs[t], l)) ==> NoDup(CapsOf(ends[t], l))
  {
    var sol, st := ValsOf(NodesOf(ends, names, lookup)), NodesOf(rs, names, lookup);
    assert Lookup(CapsOf(sol[t], l), ind) == Prescribed(st[t], sol, l, ind);
    assert NoDup(CapsOf(st[t].vals, l)) ==> NoDup(CapsOf(sol[t], l));
    hide *;
    ResolvedAt(NodesOf(ends, names, lookup), D, t);
    FinalRec(ends, names, lookup, t);
    OffersSame(ends, names, lookup, l, ind);
    CapIs(rs, names, lookup, t, sol, l, ind);
    CapRuleSame(rs[t], names[t], names, lookup, sol, ends, l, ind, Lookup(CapsOf(ends[t], l), ind));
    NodeCaps(rs, names, lookup, t, l);
  }

  lemma ResolvedAt(st: Nodes, D: set<nat>, t: nat)
    requires Resolved(st, D) && t in D && t < |st|
    ensures st[t].uses == []
  {
  }

  lemma NodeCaps(rs: seq<Rec>, names: seq<seq<byte>>, lookup: map<seq<byte>, nat>, t: nat, l: List)
    requires t < |rs|
    ensures CapsOf(NodesOf(rs, names, lookup)[t].vals, l) == CapsOf(rs[t], l)
  {
  }

  lemma CapRuleSame(r: Rec, own: seq<byte>, names: seq<seq<byte>>, lookup: map<seq<byte>, nat>, sol: seq<Rec>,
                    sol': seq<Rec>, l: List, ind: nat, w: Option<Val>)
    requires Offers(sol, l, ind) == Offers(sol', l, ind) && CapByRule(r, own, names, lookup, sol, l, ind, w)
    ensures CapByRule(r, own, names, lookup, sol', l, ind, w)
  {
    hide Offers, FirstOffered, Lookup;
  }

  lemma ExtrasFollow(rs: seq<Rec>, ends: seq<Rec>, names: seq<seq<byte>>, lookup: map<seq<byte>, nat>, D: set<nat>,
                     t: nat, id: seq<byte>, keep: bool)
    requires |names| == |rs| == |ends| && t < |rs| && t in D && Resolved(NodesOf(ends, names, lookup), D)
    requires LeftBiased(NodesOf(rs, names, lookup), D, ValsOf(NodesOf(ends, names, lookup)), keep) && id != UseId()
    ensures ExtraByRule(rs[t], names[t], names, lookup, ends, id, keep, LookupExtra(ends[t].extras, id))
  {
    var sol, st := ValsOf(NodesOf(ends, names, lookup)), NodesOf(rs, names, lookup);
    assert LookupExtra(sol[t].extras, id) == PrescribedExtra(st[t], sol, id, keep);
    hide *;
    ResolvedAt(NodesOf(ends, names, lookup), D, t);
    FinalRec(ends, names, lookup, t);
    OffersExtraSame(ends, names, lookup, id);
    ExtraIs(rs, names, lookup, t, sol, id, keep);
    ExtraRuleSame(rs[t], names[t], names, lookup, sol, ends, id, keep, LookupExtra(ends[t].extras, id));
  }

  lemma ExtraRuleSame(r: Rec, own: seq<byte>, names: seq<seq<byte>>, lookup: map<seq<byte>, nat>, sol: seq<Rec>,
                      sol': seq<Rec>, id: seq<byte>, keep: bool, w: Option<Val>)
    requires OffersExtra(sol, id) == OffersExtra(sol', id) && ExtraByRule(r, own, names, lookup, sol, id, keep, w)
    ensures ExtraByRule(r, own, names, lookup, sol', id, keep, w)
  {
    hide OffersExtra, FirstOffered, LookupExtra;
  }

  lemma ByRuleIs(rs: seq<Rec>, ends: seq<Rec>, names: seq<seq<byte>>, lookup: map<seq<byte>, nat>, D: set<nat>, keep: bool)
    requires |names| == |rs| == |ends| && Resolved(NodesOf(ends, names, lookup), D)
    requires LeftBiased(NodesOf(rs, names, lookup), D, ValsOf(NodesOf(ends, names, lookup)), keep)
    ensures ByRule(rs, names, lookup, D, ends, keep)
  {
    hide Resolved, LeftBiased, NodesOf, CapByRule, ExtraByRule, Lookup, LookupExtra, NoDup, CapsOf;
    forall t: nat, i | t in D && t < |rs| && 0 <= i < |ends[t].extras| ensures ends[t].extras[i].id != UseId() {
      ResolvedAt(NodesOf(ends, names, lookup), D, t);
      FinalRec(ends, names, lookup, t);
    }
    forall t: nat, l: List, ind: nat | t in D && t < |rs|
      ensures CapByRule(rs[t], names[t], names, lookup, ends, l, ind, Lookup(CapsOf(ends[t], l), ind))
    {
      CapsFollow(rs, ends, names, lookup, D, t, l, ind, keep);
    }
    forall t: nat, id: seq<byte> | t in D && t < |rs| && id != UseId()
      ensures ExtraByRule(rs[t], names[t], names, lookup, ends, id, keep, LookupExtra(ends[t].extras, id))
    {
      ExtrasFollow(rs, ends, names, lookup, D, t, id, keep);
    }
    forall t: nat, l: List | t in D && t < |rs| && NoDup(CapsOf(rs[t], l)) ensures NoDup(CapsOf(ends[t], l)) {
      CapsFollow(rs, ends, names, lookup, D, t, l, 0, keep);
    }
  }

  /** A finished run leaves the entries of a closed set without a circle by the rule. */
  lemma RunByRule(tr: seq<Nodes>, rs: seq<Rec>, ends: seq<Rec>, names: seq<seq<byte>>, lookup: map<seq<byte>, nat>,
                  D: set<nat>, keep: bool)
    requires |names| == |rs| == |ends| && tr != [] && IsRun(tr, keep) && Stuck(Last(tr)) && AllStrings(rs)
    requires tr[0] == NodesOf(rs, names, lookup) && Last(tr) == NodesOf(ends, names, lookup)
    requires ClosedUses(rs, names, lookup, D) && !Circular(rs, names, lookup, D)
    ensures ByRule(rs, names, lookup, D, ends, keep)
  {
    hide *;
    StateOk(rs, names, lookup);
    ClosedIs(rs, names, lookup, D);
    CircularIs(rs, names, lookup, D);
    ResolvedExact(tr, D, keep);
    Confluence(tr, D, ValsOf(Last(tr)), keep);
    AgreesSelf(Last(tr), D);
    SolutionsAreLeftBiased(tr[0], D, ValsOf(Last(tr)), keep);
    ByRuleIs(rs, ends, names, lookup, D, keep);
  }

  /** With string use records, `merge_use` reports a circular use exactly if some entries use each other in a
      circle. Entries that need none of a circle end with the values of the rule; without a circle these are the only
      ones it allows. */
  method ResolveAll(terms: seq<Tic>, lookup: map<seq<byte>, nat>, keep: bool)
    returns (circular: bool, ghost first: Nodes, ghost sol: seq<Rec>)
    requires Setup(terms) && AllStrings(RecsOf(terms))
    modifies AllBufs(terms)
    ensures Setup(terms)
    ensures circular <==> Circular(old(RecsOf(terms)), NamesOf(terms), lookup, Everything(|terms|))
    ensures forall D: set<nat> | ClosedUses(old(RecsOf(terms)), NamesOf(terms), lookup, D)
                                 && !Circular(old(RecsOf(terms)), NamesOf(terms), lookup, D) ::
              ByRule(old(RecsOf(terms)), NamesOf(terms), lookup, D, RecsOf(terms), keep)
    ensures !circular ==>
      ByRule(old(RecsOf(terms)), NamesOf(terms), lookup, Everything(|terms|), RecsOf(terms), keep)
    ensures first == old(StateOf(terms, lookup)) && (circular <==> HasCycle(first, Everything(|terms|)))
    ensures !circular ==>
      Resolved(StateOf(terms, lookup), Everything(|terms|)) && Agrees(StateOf(terms, lookup), Everything(|terms|), sol)
    ensures !circular ==> forall s :: Solves(first, Everything(|terms|), s, keep) <==>
      Agrees(StateOf(terms, lookup), Everything(|terms|), s)
    ensures !circular ==> sol == RecsOf(terms) && LeftBiased(first, Everything(|terms|), sol, keep)
  {
    hide *;
    StateIs(terms, lookup);
    ghost var rs, names := RecsOf(terms), NamesOf(terms);
    StateOk(rs, names, lookup);
    ghost var tr;
    circular, tr := Resolve(terms, lookup, keep);
    first := tr[0];
    sol := ValsOf(Last(tr));
    ghost var D := Everything(|terms|);
    CircularExact(tr, keep);
    CircularIs(rs, names, lookup, D);
    EverythingClosed(first);
    StateIs(terms, lookup);
    forall E: set<nat> | ClosedUses(rs, names, lookup, E) && !Circular(rs, names, lookup, E)
      ensures ByRule(rs, names, lookup, E, RecsOf(terms), keep)
    {
      RunByRule(tr, rs, RecsOf(terms), names, lookup, E, keep);
    }
    if !circular {
      AgreesSelf(Last(tr), D);
      forall s ensures Solves(first, D, s, keep) <==> Agrees(Last(tr), D, s) { Confluence(tr, D, s, keep); }
      SolutionsAreLeftBiased(first, D, sol, keep);
      ResolvedRecs(RecsOf(terms), names, lookup);
      AllClosed(rs, names, lookup);
    }
  }

  lemma AllClosed(rs: seq<Rec>, names: seq<seq<byte>>, lookup: map<seq<byte>, nat>)
    requires |names| == |rs|
    ensures ClosedUses(rs, names, lookup, Everything(|rs|))
  {
    forall t: nat, j: nat | Needs(rs, names, lookup, t, j) ensures j < |rs| { NeedsBound(rs, names, lookup, t, j); }
  }

  lemma NeedsBound(rs: seq<Rec>, names: seq<seq<byte>>, lookup: map<seq<byte>, nat>, t: nat, j: nat)
    requires Needs(rs, names, lookup, t, j)
    ensures j < |names|
  {
    var i :| 0 <= i < |rs[t].extras| && Refers(rs[t].extras[i], names[t], names, lookup, j);
  }

  /** Without use records left, the values are all there is. */
  lemma {:induction false} ResolvedRecs(rs: seq<Rec>, names: seq<seq<byte>>, lookup: map<seq<byte>, nat>)
    requires Resolved(NodesOf(rs, names, lookup), Everything(|rs|))
    ensures ValsOf(NodesOf(rs, names, lookup)) == rs
  {
    hide Uses, NonUse, RefOf;
    forall t | 0 <= t < |rs| ensures ValsOf(NodesOf(rs, names, lookup))[t] == rs[t] {
      InEverything(t, |rs|);
      NodesAt(rs, names, lookup, t);
      AllNonUse(rs[t].extras);
    }
  }

  lemma InEverything(t: nat, n: nat)
    ensures t < n ==> t in Everything(n)
  {
  }

  lemma {:induction false} AllNonUse(es: seq<Extra>)
    ensures Uses(es) == [] ==> NonUse(es) == es
  {
    if es != [] {
      AllNonUse(es[..|es| - 1]);
      assert es == es[..|es| - 1] + [es[|es| - 1]];
    }
  }

  lemma AgreesSelf(st: Nodes, D: set<nat>)
    ensures Agrees(st, D, ValsOf(st))
  {
  }
}
