/** Resolving `use` records as a state machine: what holds over every run, in whatever order the
    entries are visited. */
module TermResolve {
  import opened Bits
  import opened Options
  import opened TermBuf
  import opened TermMerge

  /** A `use` record: one that is only removed (own name, unknown name), one that waits for an entry,
      or one that is not a string and blocks its entry. */
  datatype Ref = Drop | Wait(j: nat) | Block

  datatype Node = Node(vals: Rec, uses: seq<Ref>)

  type Nodes = seq<Node>

  predicate NodesOk(st: Nodes) {
    forall t, i :: 0 <= t < |st| && 0 <= i < |st[t].uses| && st[t].uses[i].Wait? ==> st[t].uses[i].j < |st|
  }

  /** The first `use` of entry `t` can be dealt with. */
  predicate Enabled(st: Nodes, t: nat) {
    && t < |st| && st[t].uses != []
    && match st[t].uses[0]
       case Drop => true
       case Wait(j) => j < |st| && st[j].uses == []
       case Block => false
  }

  /** Dealing with it: the used entry is merged in, the record goes. */
  function Step(st: Nodes, t: nat, keep: bool): (r: Nodes)
    requires Enabled(st, t)
    ensures |r| == |st|
  {
    var v :=
      match st[t].uses[0]
      case Wait(j) => MergeRec(st[t].vals, st[j].vals, keep)
      case _ => st[t].vals;
    st[t := Node(v, st[t].uses[1..])]
  }

  /** A run: every state follows from the one before by a step of some entry. */
  ghost predicate IsRun(tr: seq<Nodes>, keep: bool) {
    tr != [] && forall i :: 0 <= i && i + 1 < |tr| ==> Follows(tr[i], tr[i + 1], keep)
  }

  ghost predicate Follows(st: Nodes, st': Nodes, keep: bool) {
    exists t: nat :: Enabled(st, t) && st' == Step(st, t, keep)
  }

  function Last(tr: seq<Nodes>): Nodes
    requires tr != []
  {
    tr[|tr| - 1]
  }

  // ------------------------------------------------------------- termination

  /** All `use` records that are left. */
  function TotalUses(st: Nodes): nat {
    if st == [] then 0 else TotalUses(st[..|st| - 1]) + |st[|st| - 1].uses|
  }

  lemma {:induction false} TotalUpdate(st: Nodes, t: nat, x: Node)
    requires t < |st|
    ensures TotalUses(st[t := x]) + |st[t].uses| == TotalUses(st) + |x.uses|
  {
    var n := |st| - 1;
    if t < n {
      assert st[t := x][..n] == st[..n][t := x];
      TotalUpdate(st[..n], t, x);
    } else {
      assert st[t := x][..n] == st[..n];
    }
  }

  /** Every step takes exactly one record away. */
  lemma StepTakesOne(st: Nodes, t: nat, keep: bool)
    requires Enabled(st, t)
    ensures TotalUses(Step(st, t, keep)) + 1 == TotalUses(st)
  {
    TotalUpdate(st, t, Step(st, t, keep)[t]);
  }

  /** So no run is longer than the number of records at its beginning. */
  lemma {:induction false} RunBounded(tr: seq<Nodes>, keep: bool)
    requires IsRun(tr, keep)
    ensures TotalUses(Last(tr)) + (|tr| - 1) == TotalUses(tr[0])
  {
    if |tr| > 1 {
      var n := |tr| - 1;
      RunBounded(tr[..n], keep);
      assert Follows(tr[n - 1], tr[n - 1 + 1], keep);
      var t: nat :| Enabled(tr[n - 1], t) && tr[n] == Step(tr[n - 1], t, keep);
      StepTakesOne(tr[n - 1], t, keep);
    }
  }

  // -------------------------------------------------------------- confluence

  /** What an entry comes to if the entries it uses come to `sol`: own values first, then the used
      entries one after the other. */
  function Fold(v: Rec, uses: seq<Ref>, sol: seq<Rec>, keep: bool): Rec
    decreases |uses|
  {
    if uses == [] then v
    else
      match uses[0]
      case Wait(j) => Fold(if j < |sol| then MergeRec(v, sol[j], keep) else v, uses[1..], sol, keep)
      case _ => Fold(v, uses[1..], sol, keep)
  }

  /** Entry `t` uses entry `j`. */
  predicate UsesEntry(st: Nodes, t: nat, j: nat) {
    t < |st| && Wait(j) in st[t].uses
  }

  /** The entries of `D` use entries of `D` only. */
  predicate Closed(st: Nodes, D: set<nat>) {
    && (forall t: nat :: t in D ==> t < |st|)
    && forall t, i :: 0 <= t < |st| && t in D && 0 <= i < |st[t].uses| && st[t].uses[i].Wait? ==> st[t].uses[i].j in D
  }

  /** `sol` satisfies the recursive rule for every entry of `D`. */
  predicate Solves(st: Nodes, D: set<nat>, sol: seq<Rec>, keep: bool) {
    |sol| == |st| && forall t :: 0 <= t < |st| && t in D ==> sol[t] == Fold(st[t].vals, st[t].uses, sol, keep)
  }

  lemma StepClosed(st: Nodes, D: set<nat>, t: nat, keep: bool)
    requires Enabled(st, t) && Closed(st, D)
    ensures Closed(Step(st, t, keep), D)
  {
    var st' := Step(st, t, keep);
    assert forall i :: 0 <= i < |st'[t].uses| ==> st'[t].uses[i] == st[t].uses[i + 1];
  }

  /** A step neither gains nor loses solutions. */
  lemma StepSolves(st: Nodes, D: set<nat>, t: nat, sol: seq<Rec>, keep: bool)
    requires Enabled(st, t) && Closed(st, D)
    ensures Solves(st, D, sol, keep) <==> Solves(Step(st, t, keep), D, sol, keep)
  {
    var st' := Step(st, t, keep);
    if |sol| == |st| && t in D {
      if st[t].uses[0].Wait? {
        var j := st[t].uses[0].j;
        assert Fold(st[j].vals, st[j].uses, sol, keep) == st[j].vals;
        assert j != t && j in D;
        assert st'[j] == st[j];
      }
    }
  }

  lemma {:induction false} RunSolves(tr: seq<Nodes>, D: set<nat>, sol: seq<Rec>, keep: bool)
    requires IsRun(tr, keep) && Closed(tr[0], D)
    ensures Closed(Last(tr), D) && |Last(tr)| == |tr[0]|
    ensures Solves(tr[0], D, sol, keep) <==> Solves(Last(tr), D, sol, keep)
  {
    hide Solves, Closed;
    if |tr| > 1 {
      var n := |tr| - 1;
      RunSolves(tr[..n], D, sol, keep);
      assert Follows(tr[n - 1], tr[n - 1 + 1], keep);
      var t: nat :| Enabled(tr[n - 1], t) && tr[n] == Step(tr[n - 1], t, keep);
      StepClosed(tr[n - 1], D, t, keep);
      StepSolves(tr[n - 1], D, t, sol, keep);
    }
  }

  /** No entry of `D` has a `use` record left. */
  predicate Resolved(st: Nodes, D: set<nat>) { forall t :: 0 <= t < |st| && t in D ==> st[t].uses == [] }

  /** `sol` agrees with the values of the entries of `D`. */
  predicate Agrees(st: Nodes, D: set<nat>, sol: seq<Rec>) {
    |sol| == |st| && forall t :: 0 <= t < |st| && t in D ==> sol[t] == st[t].vals
  }

  /** Confluence: however the entries are ordered, a run that resolves the entries of `D` leaves them with
      the values that the recursive rule prescribes for the entries as they were at first, and the rule
      prescribes no others. */
  lemma Confluence(tr: seq<Nodes>, D: set<nat>, sol: seq<Rec>, keep: bool)
    requires IsRun(tr, keep) && Closed(tr[0], D) && Resolved(Last(tr), D)
    ensures |Last(tr)| == |tr[0]|
    ensures Solves(tr[0], D, sol, keep) <==> Agrees(Last(tr), D, sol)
  {
    RunSolves(tr, D, sol, keep);
  }

  function ValsOf(st: Nodes): (sol: seq<Rec>)
    ensures |sol| == |st|
  {
    seq(|st|, t requires 0 <= t < |st| => st[t].vals)
  }

  /** Two such runs end in the same values. */
  lemma SameResult(tr1: seq<Nodes>, tr2: seq<Nodes>, D: set<nat>, keep: bool, t: nat)
    requires IsRun(tr1, keep) && IsRun(tr2, keep) && tr1[0] == tr2[0] && Closed(tr1[0], D) && t in D
    requires Resolved(Last(tr1), D) && Resolved(Last(tr2), D)
    ensures t < |Last(tr1)| == |Last(tr2)| && Last(tr1)[t].vals == Last(tr2)[t].vals
  {
    var sol := ValsOf(Last(tr1));
    Confluence(tr1, D, sol, keep);
    Confluence(tr2, D, sol, keep);
  }

  // ------------------------------------------------------------------- the rule

  /** What every entry offers for a capability: its first valid value. */
  function Offers(sol: seq<Rec>, l: List, ind: nat): (o: seq<Option<Val>>)
    ensures |o| == |sol|
  {
    seq(|sol|, j requires 0 <= j < |sol| => FirstValid(CapsOf(sol[j], l), ind))
  }

  function OffersExtra(sol: seq<Rec>, id: seq<byte>): (o: seq<Option<Val>>)
    ensures |o| == |sol|
  {
    seq(|sol|, j requires 0 <= j < |sol| => FirstValidExtra(sol[j].extras, id))
  }

  /** The first value that the used entries offer, in their order. */
  function Inherited(uses: seq<Ref>, offers: seq<Option<Val>>): Option<Val>
    decreases |uses|
  {
    if uses == [] then None
    else if uses[0].Wait? && uses[0].j < |offers| && offers[uses[0].j].Some? then offers[uses[0].j]
    else Inherited(uses[1..], offers)
  }

  /** The value of a capability that the recursive rule prescribes: an own value or cancellation first. */
  function Prescribed(n: Node, sol: seq<Rec>, l: List, ind: nat): Option<Val> {
    if Lookup(CapsOf(n.vals, l), ind).Some? then Lookup(CapsOf(n.vals, l), ind) else Inherited(n.uses, Offers(sol, l, ind))
  }

  /** Named records are inherited only if unknown capabilities are kept. */
  function PrescribedExtra(n: Node, sol: seq<Rec>, id: seq<byte>, keep: bool): Option<Val> {
    if LookupExtra(n.vals.extras, id).Some? then LookupExtra(n.vals.extras, id)
    else if keep then Inherited(n.uses, OffersExtra(sol, id)) else None
  }

  lemma MergedCaps(v: Rec, u: Rec, keep: bool, l: List)
    ensures CapsOf(MergeRec(v, u, keep), l) == MergeCaps(CapsOf(v, l), CapsOf(u, l))
  {
  }

  lemma {:induction false} FoldLookup(v: Rec, uses: seq<Ref>, sol: seq<Rec>, keep: bool, l: List, ind: nat)
    ensures Lookup(CapsOf(Fold(v, uses, sol, keep), l), ind) == Prescribed(Node(v, uses), sol, l, ind)
    decreases |uses|
  {
    hide Lookup, FirstValid, MergeRec, CapsOf;
    if uses != [] {
      if uses[0].Wait? && uses[0].j < |sol| {
        var u := sol[uses[0].j];
        MergedCaps(v, u, keep, l);
        MergeLookup(CapsOf(v, l), CapsOf(u, l), ind);
        FoldLookup(MergeRec(v, u, keep), uses[1..], sol, keep, l, ind);
      } else {
        FoldLookup(v, uses[1..], sol, keep, l, ind);
      }
    }
  }

  lemma {:induction false} FoldLookupExtra(v: Rec, uses: seq<Ref>, sol: seq<Rec>, keep: bool, id: seq<byte>)
    requires id != UseId()
    ensures LookupExtra(Fold(v, uses, sol, keep).extras, id) == PrescribedExtra(Node(v, uses), sol, id, keep)
    decreases |uses|
  {
    hide LookupExtra, FirstValidExtra, MergeCaps, MergeExtras;
    if uses != [] {
      if uses[0].Wait? && uses[0].j < |sol| {
        var u := sol[uses[0].j];
        MergeLookupExtra(v.extras, u.extras, keep, id);
        FoldLookupExtra(MergeRec(v, u, keep), uses[1..], sol, keep, id);
      } else {
        FoldLookupExtra(v, uses[1..], sol, keep, id);
      }
    }
  }

  lemma {:induction false} FoldNoDup(v: Rec, uses: seq<Ref>, sol: seq<Rec>, keep: bool, l: List)
    requires NoDup(CapsOf(v, l))
    ensures NoDup(CapsOf(Fold(v, uses, sol, keep), l))
    decreases |uses|
  {
    hide NoDup, MergeRec, CapsOf;
    if uses != [] {
      if uses[0].Wait? && uses[0].j < |sol| {
        var u := sol[uses[0].j];
        MergedCaps(v, u, keep, l);
        MergeNoDup(CapsOf(v, l), CapsOf(u, l));
        FoldNoDup(MergeRec(v, u, keep), uses[1..], sol, keep, l);
      } else {
        FoldNoDup(v, uses[1..], sol, keep, l);
      }
    }
  }

  /** Every capability of every entry of `D` has the value that the rule prescribes, in terms of the entry
      at first and of the final values of the entries it uses; and no list gains duplicates. */
  ghost predicate LeftBiased(st: Nodes, D: set<nat>, sol: seq<Rec>, keep: bool) {
    && |sol| == |st|
    && (forall t: nat, l: List, ind: nat :: t in D && t < |st| ==>
          Lookup(CapsOf(sol[t], l), ind) == Prescribed(st[t], sol, l, ind))
    && (forall t: nat, id: seq<byte> :: t in D && t < |st| && id != UseId() ==>
          LookupExtra(sol[t].extras, id) == PrescribedExtra(st[t], sol, id, keep))
    && (forall t: nat, l: List :: t in D && t < |st| && NoDup(CapsOf(st[t].vals, l)) ==> NoDup(CapsOf(sol[t], l)))
  }

  lemma SolutionsAreLeftBiased(st: Nodes, D: set<nat>, sol: seq<Rec>, keep: bool)
    requires Solves(st, D, sol, keep)
    ensures LeftBiased(st, D, sol, keep)
  {
    hide Lookup, CapsOf, LookupExtra, Fold, NoDup, Prescribed, PrescribedExtra;
    forall t: nat, l: List, ind: nat | t in D && t < |st|
      ensures Lookup(CapsOf(sol[t], l), ind) == Prescribed(st[t], sol, l, ind)
    {
      FoldLookup(st[t].vals, st[t].uses, sol, keep, l, ind);
    }
    forall t: nat, id: seq<byte> | t in D && t < |st| && id != UseId()
      ensures LookupExtra(sol[t].extras, id) == PrescribedExtra(st[t], sol, id, keep)
    {
      FoldLookupExtra(st[t].vals, st[t].uses, sol, keep, id);
    }
    forall t: nat, l: List | t in D && t < |st| && NoDup(CapsOf(st[t].vals, l)) ensures NoDup(CapsOf(sol[t], l)) {
      FoldNoDup(st[t].vals, st[t].uses, sol, keep, l);
    }
  }

  // ------------------------------------------------------------------ cycles

  /** A cycle of entries each of which uses the next one. */
  predicate IsCycle(st: Nodes, D: set<nat>, c: seq<nat>) {
    |c| > 0 && (forall i :: 0 <= i < |c| ==> c[i] in D) && forall i :: 0 <= i < |c| ==> CycleAt(st, c, i)
  }

  predicate CycleAt(st: Nodes, c: seq<nat>, i: nat) {
    i < |c| && UsesEntry(st, c[i], c[(i + 1) % |c|])
  }

  /** No step breaks a cycle. */
  lemma StepKeepsCycle(st: Nodes, t: nat, keep: bool, D: set<nat>, c: seq<nat>)
    requires Enabled(st, t) && IsCycle(st, D, c)
    ensures IsCycle(Step(st, t, keep), D, c)
  {
    var st' := Step(st, t, keep);
    forall i | 0 <= i < |c| ensures CycleAt(st', c, i) {
      var k := (i + 1) % |c|;
      assert CycleAt(st, c, i) && CycleAt(st, c, k);
      if c[i] == t {
        assert st[c[k]].uses != [];
        var n :| 0 <= n < |st[t].uses| && st[t].uses[n] == Wait(c[k]);
        assert n > 0;
        assert st'[t].uses[n - 1] == Wait(c[k]);
      }
    }
  }

  /** No step makes one. */
  lemma StepNoCycle(st: Nodes, t: nat, keep: bool, D: set<nat>, c: seq<nat>)
    requires Enabled(st, t) && IsCycle(Step(st, t, keep), D, c)
    ensures IsCycle(st, D, c)
  {
    var st' := Step(st, t, keep);
    forall i | 0 <= i < |c| ensures CycleAt(st, c, i) {
      assert CycleAt(st', c, i);
      if c[i] == t { assert st'[t].uses == st[t].uses[1..]; }
    }
  }

  lemma {:induction false} RunCycle(tr: seq<Nodes>, keep: bool, D: set<nat>, c: seq<nat>)
    requires IsRun(tr, keep)
    ensures IsCycle(tr[0], D, c) <==> IsCycle(Last(tr), D, c)
  {
    hide IsCycle;
    if |tr| > 1 {
      var n := |tr| - 1;
      RunCycle(tr[..n], keep, D, c);
      assert Follows(tr[n - 1], tr[n - 1 + 1], keep);
      var t: nat :| Enabled(tr[n - 1], t) && tr[n] == Step(tr[n - 1], t, keep);
      if IsCycle(tr[n - 1], D, c) { StepKeepsCycle(tr[n - 1], t, keep, D, c); }
      if IsCycle(tr[n], D, c) { StepNoCycle(tr[n - 1], t, keep, D, c); }
    }
  }

  /** Nothing can be done any more. */
  predicate Stuck(st: Nodes) { forall t: nat :: t < |st| ==> !Enabled(st, t) }

  /** No record blocks its entry. */
  predicate NoBlock(st: Nodes) { forall t, i :: 0 <= t < |st| && 0 <= i < |st[t].uses| ==> !st[t].uses[i].Block? }

  /** In a stuck state an entry with records waits for another one with records. */
  lemma StuckWaits(st: Nodes, t: nat) returns (j: nat)
    requires Stuck(st) && NoBlock(st) && NodesOk(st) && t < |st| && st[t].uses != []
    ensures j < |st| && st[j].uses != [] && UsesEntry(st, t, j)
  {
    assert !Enabled(st, t);
    assert !st[t].uses[0].Block?;
    j := st[t].uses[0].j;
  }

  /** Following the waiting entries. */
  ghost predicate IsPath(st: Nodes, D: set<nat>, p: seq<nat>) {
    && (forall i :: 0 <= i < |p| ==> p[i] < |st| && p[i] in D && st[p[i]].uses != [])
    && forall i :: 0 <= i && i + 1 < |p| ==> UsesEntry(st, p[i], p[i + 1])
  }

  lemma {:induction false} LongPath(st: Nodes, D: set<nat>, t: nat, n: nat) returns (p: seq<nat>)
    requires Stuck(st) && NoBlock(st) && Closed(st, D) && NodesOk(st) && t in D && t < |st| && st[t].uses != []
    ensures |p| == n + 1 && IsPath(st, D, p)
  {
    if n == 0 {
      p := [t];
    } else {
      var q := LongPath(st, D, t, n - 1);
      var j := StuckWaits(st, q[n - 1]);
      ClosedUse(st, D, q[n - 1], j);
      p := q + [j];
    }
  }

  lemma ClosedUse(st: Nodes, D: set<nat>, t: nat, j: nat)
    requires Closed(st, D) && t in D && UsesEntry(st, t, j)
    ensures j in D
  {
    var i :| 0 <= i < |st[t].uses| && st[t].uses[i] == Wait(j);
  }

  /** A long list of small numbers repeats one. */
  lemma {:induction false} Repeats(p: seq<nat>, n: nat) returns (i: nat, k: nat)
    requires |p| > n && forall x :: 0 <= x < |p| ==> p[x] < n
    ensures i < k < |p| && p[i] == p[k]
    decreases n
  {
    var last := |p| - 1;
    if x :| 0 <= x < last && p[x] == p[last] {
      i, k := x, last;
    } else if y :| 0 <= y < last && p[y] == n - 1 && p[last] != n - 1 {
      // the number `n - 1` is replaced by the last one
      var q := Replace(p[..last], n - 1, p[last]);
      i, k := Repeats(q, n - 1);
    } else {
      i, k := Repeats(p[..last], n - 1);
    }
  }

  function Replace(p: seq<nat>, a: nat, b: nat): (q: seq<nat>)
    ensures |q| == |p| && forall i :: 0 <= i < |p| ==> q[i] == if p[i] == a then b else p[i]
  {
    seq(|p|, i requires 0 <= i < |p| => if p[i] == a then b else p[i])
  }

  /** A path that comes back closes a cycle. */
  lemma PathCycle(st: Nodes, D: set<nat>, p: seq<nat>, i: nat, k: nat)
    requires IsPath(st, D, p) && i < k < |p| && p[i] == p[k]
    ensures IsCycle(st, D, p[i..k])
  {
    var c := p[i..k];
    forall x | 0 <= x < |c| ensures CycleAt(st, c, x) {
      assert UsesEntry(st, p[i + x], p[i + x + 1]);
      NextAround(x, |c|);
    }
  }

  lemma NextAround(x: nat, n: nat)
    requires x < n
    ensures (x + 1) % n == if x + 1 < n then x + 1 else 0
  {
  }

  lemma StuckCycle(st: Nodes, D: set<nat>, t: nat) returns (c: seq<nat>)
    requires Stuck(st) && NoBlock(st) && Closed(st, D) && NodesOk(st) && t in D && t < |st| && st[t].uses != []
    ensures IsCycle(st, D, c)
  {
    var p := LongPath(st, D, t, |st|);
    var i, k := Repeats(p, |st|);
    PathCycle(st, D, p, i, k);
    c := p[i..k];
  }

  lemma {:induction false} RunOk(tr: seq<Nodes>, keep: bool)
    requires IsRun(tr, keep) && NoBlock(tr[0]) && NodesOk(tr[0])
    ensures NoBlock(Last(tr)) && NodesOk(Last(tr)) && |Last(tr)| == |tr[0]|
  {
    if |tr| > 1 {
      var n := |tr| - 1;
      RunOk(tr[..n], keep);
      assert Follows(tr[n - 1], tr[n - 1 + 1], keep);
      var t: nat :| Enabled(tr[n - 1], t) && tr[n] == Step(tr[n - 1], t, keep);
      StepOk(tr[n - 1], t, keep);
    }
  }

  lemma StepOk(st: Nodes, t: nat, keep: bool)
    requires Enabled(st, t) && NoBlock(st) && NodesOk(st)
    ensures NoBlock(Step(st, t, keep)) && NodesOk(Step(st, t, keep))
  {
    var st' := Step(st, t, keep);
    assert forall i :: 0 <= i < |st'[t].uses| ==> st'[t].uses[i] == st[t].uses[i + 1];
  }

  ghost predicate HasCycle(st: Nodes, D: set<nat>) { exists c: seq<nat> :: IsCycle(st, D, c) }

  /** A run that has come to an end has resolved all entries of a closed set exactly if there was no cycle
      among them. */
  lemma ResolvedExact(tr: seq<Nodes>, D: set<nat>, keep: bool)
    requires IsRun(tr, keep) && NoBlock(tr[0]) && NodesOk(tr[0]) && Closed(tr[0], D) && Stuck(Last(tr))
    ensures Resolved(Last(tr), D) <==> !HasCycle(tr[0], D)
  {
    RunOk(tr, keep);
    RunSolves(tr, D, [], keep);
    hide Follows, NoBlock, NodesOk, Stuck, IsRun, Closed;
    var st := Last(tr);
    if !Resolved(st, D) {
      var t: nat :| t < |st| && t in D && st[t].uses != [];
      var c := StuckCycle(st, D, t);
      RunCycle(tr, keep, D, c);
    }
    if c: seq<nat> :| IsCycle(tr[0], D, c) {
      RunCycle(tr, keep, D, c);
      assert CycleAt(st, c, 0);
    }
  }

  /** The numbers of all entries. */
  function Everything(n: nat): (s: set<nat>)
    ensures forall k: nat :: k in s <==> k < n
  {
    if n == 0 then {} else Everything(n - 1) + {n - 1}
  }

  lemma EverythingClosed(st: Nodes)
    requires NodesOk(st)
    ensures Closed(st, Everything(|st|))
  {
  }

  /** An entry waits in the final state exactly if there was a cycle at first. */
  lemma CircularExact(tr: seq<Nodes>, keep: bool)
    requires IsRun(tr, keep) && NoBlock(tr[0]) && NodesOk(tr[0]) && Stuck(Last(tr))
    ensures (exists t: nat :: WaitsAt(Last(tr), t)) <==> HasCycle(tr[0], Everything(|tr[0]|))
    ensures !HasCycle(tr[0], Everything(|tr[0]|)) ==> Resolved(Last(tr), Everything(|tr[0]|))
  {
    EverythingClosed(tr[0]);
    RunOk(tr, keep);
    ResolvedExact(tr, Everything(|tr[0]|), keep);
    hide Follows, NodesOk, Stuck, IsRun, Closed, HasCycle, NoBlock;
    var st := Last(tr);
    if !Resolved(st, Everything(|tr[0]|)) {
      var t: nat :| t < |st| && st[t].uses != [];
      StuckWaiting(st, t);
    }
  }

  /** The first use record of the entry waits for another entry. */
  predicate WaitsAt(st: Nodes, t: nat) { t < |st| && st[t].uses != [] && st[t].uses[0].Wait? }

  lemma StuckWaiting(st: Nodes, t: nat)
    requires Stuck(st) && NoBlock(st) && t < |st| && st[t].uses != []
    ensures WaitsAt(st, t)
  {
    assert !Enabled(st, t);
    assert !st[t].uses[0].Block?;
  }
}
