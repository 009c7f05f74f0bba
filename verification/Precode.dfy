/** Run coding of the code lengths (section 3.2.7 of RFC 1951; `sdefl_precode`).

  An item holds one of the 19 code length symbols in its five low bits and the
  value of its extra bits above them.
*/
module Precode {
  import opened Options
  import opened Canonical

  const PRE_MAX: nat := 19
  const LIT_MAX: nat := 288
  const OFF_MAX: nat := 32

  function ItemSym(it: nat): nat { it % 32 }

  function ItemExtra(it: nat): nat { it / 32 }

  function Item(sym: nat, extra: nat): nat { sym + extra * 32 }

  /** Number of extra bits of a code length symbol. */
  function ExtraBits(sym: nat): nat {
    if sym == 16 then 2 else if sym == 17 then 3 else if sym == 18 then 7 else 0
  }

  predicate ItemOk(it: nat) {
    var x := ItemExtra(it);
    match ItemSym(it)
    case 16 => x < 4
    case 17 => x < 8
    case 18 => x < 128
    case s => s < 16 && x == 0
  }

  /** How many lengths an item stands for. */
  function RunLength(it: nat): (n: nat)
    ensures n >= 1
  {
    match ItemSym(it)
    case 16 => 3 + ItemExtra(it)
    case 17 => 3 + ItemExtra(it)
    case 18 => 11 + ItemExtra(it)
    case _ => 1
  }

  /** The length an item repeats; item 16 repeats what came before it. */
  function RunValue(acc: seq<nat>, it: nat): nat
    requires ItemSym(it) == 16 ==> acc != []
  {
    match ItemSym(it)
    case 16 => acc[|acc| - 1]
    case 17 => 0
    case 18 => 0
    case s => s
  }

  /** The lengths after one more item. */
  function Extend(acc: seq<nat>, it: nat): (r: seq<nat>)
    requires ItemSym(it) == 16 ==> acc != []
    ensures |r| == |acc| + RunLength(it)
  {
    acc + seq(RunLength(it), _ => RunValue(acc, it))
  }

  /** What the items expand to, unless they are malformed. */
  function Expand(items: seq<nat>): Option<seq<nat>> {
    if items == [] then Some([])
    else
      var it := items[|items| - 1];
      match Expand(items[..|items| - 1])
      case None => None
      case Some(acc) =>
        if !ItemOk(it) || (ItemSym(it) == 16 && acc == []) then None
        else Some(Extend(acc, it))
  }

  /** How often symbol `sym` occurs. */
  function Uses(items: seq<nat>, sym: nat): nat {
    if items == [] then 0
    else Uses(items[..|items| - 1], sym) + (if ItemSym(items[|items| - 1]) == sym then 1 else 0)
  }

  /** `items` code exactly the first `start` lengths and `freqs` counts their symbols. */
  ghost predicate Coded(items: seq<nat>, freqs: seq<nat>, lens: seq<nat>, start: nat)
  {
    && |items| <= start <= |lens| && |freqs| == PRE_MAX
    && Expand(items) == Some(lens[..start])
    && forall k :: 0 <= k < PRE_MAX ==> freqs[k] == Uses(items, k)
  }

  predicate SameFrom(lens: seq<nat>, from: nat, to: nat, v: nat) {
    from <= to <= |lens| && forall k :: from <= k < to ==> lens[k] == v
  }

  /** Item `it` stands for the lengths from `start` to `next`. */
  ghost predicate Covers(lens: seq<nat>, start: nat, it: nat, next: nat) {
    && ItemOk(it) && start <= |lens| && (ItemSym(it) == 16 ==> start > 0)
    && next == start + RunLength(it)
    && SameFrom(lens, start, next, RunValue(lens[..start], it))
  }

  lemma CodedStep(items: seq<nat>, freqs: seq<nat>, lens: seq<nat>, start: nat, it: nat, next: nat)
    requires Coded(items, freqs, lens, start) && Covers(lens, start, it, next)
    ensures |items| < |lens| && |freqs| == PRE_MAX && ItemSym(it) < PRE_MAX
    ensures Coded(items + [it], freqs[ItemSym(it) := freqs[ItemSym(it)] + 1], lens, next)
  {
    var more := items + [it];
    assert more[..|items|] == items;
    var n := RunLength(it);
    assert lens[..next] == lens[..start] + seq(n, _ => RunValue(lens[..start], it));
    hide ItemOk, RunLength, RunValue;
  }

  lemma ItemParts(sym: nat, extra: nat)
    requires sym < 32
    ensures ItemSym(Item(sym, extra)) == sym && ItemExtra(Item(sym, extra)) == extra
  {
  }

  /** A long run of zeros. */
  lemma CoversZeros(lens: seq<nat>, start: nat, end: nat, extra: nat)
    requires SameFrom(lens, start, end, 0)
    ensures extra < 8 && start + 3 + extra <= end ==>
      Covers(lens, start, Item(17, extra), start + (3 + extra))
    ensures extra < 128 && start + 11 + extra <= end ==>
      Covers(lens, start, Item(18, extra), start + (11 + extra))
  {
    ItemParts(17, extra);
    ItemParts(18, extra);
    hide Item, ItemSym, ItemExtra;
  }

  /** Repeats of the previous length. */
  lemma CoversRepeat(lens: seq<nat>, start: nat, at: nat, end: nat, len: nat, extra: nat)
    requires SameFrom(lens, start, end, len) && start < at && at + 3 + extra <= end && extra < 4
    ensures Covers(lens, at, Item(16, extra), at + (3 + extra))
  {
    ItemParts(16, extra);
    hide Item, ItemSym, ItemExtra;
    assert lens[at - 1] == len;
  }

  /** A length on its own. */
  lemma CoversOne(lens: seq<nat>, start: nat, end: nat, len: nat)
    requires SameFrom(lens, start, end, len) && start < end && len < 16
    ensures Covers(lens, start, Item(len, 0), start + 1)
  {
    ItemParts(len, 0);
    hide Item, ItemSym, ItemExtra;
  }

  /** The items written so far code the first `start` lengths. */
  ghost predicate Progress(items: array<nat>, freqs: array<nat>, at: nat, lens: seq<nat>, start: nat)
    reads items, freqs
  {
    at <= items.Length && Coded(items[..at], freqs[..], lens, start)
  }

  /** Appends one item. */
  method Emit(items: array<nat>, freqs: array<nat>, at: nat, sym: nat, extra: nat,
              ghost lens: seq<nat>, ghost start: nat, ghost next: nat)
    returns (at': nat)
    requires items != freqs && |lens| <= items.Length && sym < 32
    requires Progress(items, freqs, at, lens, start)
    requires Covers(lens, start, Item(sym, extra), next)
    modifies items, freqs
    ensures at' == at + 1 && Progress(items, freqs, at', lens, next)
  {
    ghost var before, counts := items[..at], freqs[..];
    ItemParts(sym, extra);
    CodedStep(before, counts, lens, start, Item(sym, extra), next);
    hide Coded, Covers, ItemSym;
    freqs[sym] := freqs[sym] + 1;
    items[at] := sym + extra * 32;
    at' := at + 1;
    assert freqs[..] == counts[sym := counts[sym] + 1];
    assert items[..at'] == items[..at] + [items[at]] == before + [Item(sym, extra)];
  }

  /** A run of zeros: as many 138s as fit, then one shorter repeat. */
  method ZeroRun(items: array<nat>, freqs: array<nat>, at: nat, start: nat, end: nat,
                 ghost lens: seq<nat>)
    returns (at': nat, start': nat)
    requires items != freqs && items.Length >= |lens|
    requires Progress(items, freqs, at, lens, start)
    requires SameFrom(lens, start, end, 0)
    modifies items, freqs
    ensures start <= start' <= end && end - start' < 3
    ensures Progress(items, freqs, at', lens, start')
  {
    hide Progress, Covers, Item;
    at', start' := at, start;
    while end - start' >= 11
      invariant start <= start' <= end
      invariant Progress(items, freqs, at', lens, start')
    {
      var n := end - start' - 11;
      var xbits := if n < 0x7f then n else 0x7f;
      CoversZeros(lens, start', end, xbits);
      at' := Emit(items, freqs, at', 18, xbits, lens, start', start' + (11 + xbits));
      start' := start' + (11 + xbits);
    }
    if end - start' >= 3 {
      var n := end - start' - 3;
      var xbits := if n < 0x7 then n else 0x7;
      CoversZeros(lens, start', end, xbits);
      at' := Emit(items, freqs, at', 17, xbits, lens, start', start' + (3 + xbits));
      start' := start' + (3 + xbits);
    }
  }

  /** Repeats of the length before `start`. */
  method Repeats(items: array<nat>, freqs: array<nat>, at: nat, start: nat, end: nat,
                 ghost first: nat, ghost len: nat, ghost lens: seq<nat>)
    returns (at': nat, start': nat)
    requires items != freqs && items.Length >= |lens| && first < start <= end
    requires Progress(items, freqs, at, lens, start)
    requires SameFrom(lens, first, end, len)
    modifies items, freqs
    ensures start <= start' <= end && end - start' < 3
    ensures Progress(items, freqs, at', lens, start')
  {
    hide Progress, Covers, Item, SameFrom;
    at', start' := at, start;
    while end - start' >= 3
      invariant start <= start' <= end
      invariant Progress(items, freqs, at', lens, start')
    {
      var n := end - start' - 3;
      var xbits := if n < 0x03 then n else 0x03;
      CoversRepeat(lens, first, start', end, len, xbits);
      at' := Emit(items, freqs, at', 16, xbits, lens, start', start' + (3 + xbits));
      start' := start' + (3 + xbits);
    }
  }

  /** A run of four or more equal non-zero lengths: the length itself, then repeats of it. */
  method ValueRun(items: array<nat>, freqs: array<nat>, at: nat, start: nat, end: nat, len: nat,
                  ghost lens: seq<nat>)
    returns (at': nat, start': nat)
    requires items != freqs && items.Length >= |lens|
    requires Progress(items, freqs, at, lens, start)
    requires SameFrom(lens, start, end, len) && end - start >= 4 && len < 16
    modifies items, freqs
    ensures start <= start' <= end && end - start' < 3
    ensures Progress(items, freqs, at', lens, start')
  {
    hide Progress, Covers, Item, SameFrom;
    CoversOne(lens, start, end, len);
    at' := Emit(items, freqs, at, len, 0, lens, start, start + 1);
    at', start' := Repeats(items, freqs, at', start + 1, end, start, len, lens);
  }

  /** What is left of a run is written out one by one. */
  method Singles(items: array<nat>, freqs: array<nat>, at: nat, start: nat, end: nat, len: nat,
                 ghost lens: seq<nat>)
    returns (at': nat)
    requires items != freqs && items.Length >= |lens| && start <= end
    requires Progress(items, freqs, at, lens, start)
    requires SameFrom(lens, start, end, len) && len < 16
    modifies items, freqs
    ensures Progress(items, freqs, at', lens, end)
  {
    hide Progress, Covers, Item;
    at' := at;
    var start' := start;
    while start' != end
      invariant start <= start' <= end
      invariant Progress(items, freqs, at', lens, start')
    {
      CoversOne(lens, start', end, len);
      at' := Emit(items, freqs, at', len, 0, lens, start', start' + 1);
      start' := start' + 1;
    }
  }

  /** The number of leading entries up to the last non-zero one, but at least `min`. */
  method TrimCount(lens: array<nat>, max: nat, min: nat) returns (n: nat)
    requires min <= max <= lens.Length
    ensures min <= n <= max
    ensures forall k :: n <= k < max ==> lens[k] == 0
    ensures n > min ==> lens[n - 1] != 0
  {
    n := max;
    while n > min
      invariant min <= n <= max
      invariant forall k :: n <= k < max ==> lens[k] == 0
    {
      if lens[n - 1] != 0 { break; }
      n := n - 1;
    }
  }

  /** The two length vectors, one after the other. */
  method Join(buf: array<nat>, litlen: array<nat>, lit: nat, offlen: array<nat>, off: nat)
    requires buf != litlen && buf != offlen && lit + off <= buf.Length
    requires lit <= litlen.Length && off <= offlen.Length
    modifies buf
    ensures buf[..lit + off] == litlen[..lit] + offlen[..off]
  {
    forall k | 0 <= k < lit { buf[k] := litlen[k]; }
    assert buf[..lit] == litlen[..lit];
    forall k | 0 <= k < off { buf[lit + k] := offlen[k]; }
    assert buf[lit..lit + off] == offlen[..off];
    assert buf[..lit + off] == buf[..lit] + buf[lit..lit + off];
  }

  /** The maximal run of equal lengths that begins at `start`. */
  method FindRun(buf: array<nat>, total: nat, start: nat) returns (len: nat, end: nat)
    requires start < total <= buf.Length
    ensures len == buf[start] && start < end && SameFrom(buf[..total], start, end, len)
    ensures end < total ==> buf[end] != len
  {
    len, end := buf[start], start + 1;
    while end != total && len == buf[end]
      invariant start < end <= total && SameFrom(buf[..total], start, end, len)
    {
      end := end + 1;
    }
  }

  /** sdefl_precode. */
  method Precode(freqs: array<nat>, items: array<nat>, litlen: array<nat>, offlen: array<nat>)
    returns (cnt: nat, lit: nat, off: nat)
    requires freqs != items && freqs != litlen && freqs != offlen
    requires items != litlen && items != offlen
    requires freqs.Length == PRE_MAX && items.Length == LIT_MAX + OFF_MAX
    requires litlen.Length == LIT_MAX && offlen.Length == OFF_MAX
    requires forall k :: 0 <= k < PRE_MAX ==> freqs[k] == 0
    requires Bounded(litlen[..], MAX_CODE_LEN) && Bounded(offlen[..], MAX_CODE_LEN)
    modifies freqs, items
    ensures 257 <= lit <= LIT_MAX && forall k :: lit <= k < LIT_MAX ==> litlen[k] == 0
    ensures 1 <= off <= OFF_MAX && forall k :: off <= k < OFF_MAX ==> offlen[k] == 0
    ensures cnt <= items.Length && Expand(items[..cnt]) == Some(litlen[..lit] + offlen[..off])
    ensures forall k :: 0 <= k < PRE_MAX ==> freqs[k] == Uses(items[..cnt], k)
  {
    lit := TrimCount(litlen, LIT_MAX, 257);
    off := TrimCount(offlen, OFF_MAX, 1);
    var total := lit + off;
    var buf := new nat[LIT_MAX + OFF_MAX](_ => 0);
    Join(buf, litlen, lit, offlen, off);
    ghost var lens := buf[..total];
    cnt := 0;
    var start := 0;
    JoinBounded(litlen[..lit], offlen[..off], lens);
    ProgressInit(items, freqs, lens);
    hide Progress, Bounded, Coded, Expand;
    while start != total
      invariant 0 <= start <= total == |lens| && buf[..total] == lens
      invariant Progress(items, freqs, cnt, lens, start)
      decreases total - start
    {
      var len, end := FindRun(buf, total, start);
      assert len < 16 by { BoundedAt(lens, start); }
      var start0 := start;
      if len == 0 {
        cnt, start := ZeroRun(items, freqs, cnt, start, end, lens);
      } else if end - start >= 4 {
        cnt, start := ValueRun(items, freqs, cnt, start, end, len, lens);
      }
      SameTail(lens, start0, start, end, len);
      cnt := Singles(items, freqs, cnt, start, end, len, lens);
      start := end;
    }
    ProgressDone(items, freqs, cnt, lens);
  }

  lemma JoinBounded(a: seq<nat>, b: seq<nat>, lens: seq<nat>)
    requires Bounded(a, MAX_CODE_LEN) && Bounded(b, MAX_CODE_LEN) && lens == a + b
    ensures Bounded(lens, MAX_CODE_LEN)
  {
  }

  lemma BoundedAt(lens: seq<nat>, s: nat)
    requires Bounded(lens, MAX_CODE_LEN) && s < |lens|
    ensures lens[s] < 16
  {
  }

  lemma SameTail(lens: seq<nat>, from: nat, mid: nat, to: nat, v: nat)
    requires SameFrom(lens, from, to, v) && from <= mid <= to
    ensures SameFrom(lens, mid, to, v)
  {
  }

  lemma ProgressInit(items: array<nat>, freqs: array<nat>, lens: seq<nat>)
    requires freqs.Length == PRE_MAX && forall k :: 0 <= k < PRE_MAX ==> freqs[k] == 0
    ensures Progress(items, freqs, 0, lens, 0)
  {
  }

  lemma ProgressDone(items: array<nat>, freqs: array<nat>, cnt: nat, lens: seq<nat>)
    requires Progress(items, freqs, cnt, lens, |lens|)
    ensures cnt <= items.Length && Expand(items[..cnt]) == Some(lens) && freqs.Length == PRE_MAX
    ensures forall k :: 0 <= k < PRE_MAX ==> freqs[k] == Uses(items[..cnt], k)
  {
    assert lens[..|lens|] == lens;
  }
}
