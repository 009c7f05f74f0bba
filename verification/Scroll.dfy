/** The scrollback (`tscrollup`, `tnewline`, `kscrollup`, `kscrolldown`, `scrolltotop`,
    `scrolltobottom`, the `TLINE` macro and the start state of `tnew`): line pointers swapped through a
    ring agree with a log that only grows. */
module Scroll {
  import opened Bits

  /** What is on a line. */
  type Cells = seq<nat>

  class Line {
    var cells: Cells

    constructor (cells: Cells)
      ensures this.cells == cells
    {
      this.cells := cells;
    }
  }

  method Blanks(rows: nat, blank: Cells) returns (line: array<Line>)
    requires rows > 0
    ensures fresh(line) && line.Length == rows
    ensures forall j :: 0 <= j < rows ==> fresh(line[j]) && line[j].cells == blank
    ensures forall j, k :: 0 <= j < k < rows ==> line[j] != line[k]
  {
    var first := new Line(blank);
    line := new Line[rows](_ => first);
    var i := 1;
    while i < rows
      invariant 1 <= i <= rows
      invariant forall j :: 0 <= j < rows ==> fresh(line[j]) && line[j].cells == blank
      invariant forall j, k :: 0 <= j < k < i ==> line[j] != line[k]
      modifies line
    {
      line[i] := new Line(blank);
      i := i + 1;
    }
  }

  // ----------------------------------------------------------------- masking

  /** `x & (h - 1)` on 32-bit words. */
  function Mask(x: int, h: nat): (r: nat)
    requires h > 0
  {
    And(x % 0x1_0000_0000, h - 1)
  }

  lemma MaskMod(x: nat, n: nat)
    ensures And(x, Pow2(n) - 1) == x % Pow2(n)
  {
    var h := Pow2(n);
    ModBelow(x, h);
    AndBelow(x, h - 1);
    forall k | 0 <= k < n ensures Bit(And(x, h - 1), k) == Bit(x % h, k) {
      BitAnd(x, h - 1, k);
      BitMod(x, n, k);
      OnesBit(n, k);
    }
    SameBits(And(x, h - 1), x % h, n);
  }

  lemma {:induction false} OnesBit(n: nat, k: nat)
    requires k < n
    ensures Bit(Pow2(n) - 1, k)
  {
    assert (Pow2(n) - 1) / 2 == Pow2(n - 1) - 1;
    if k > 0 { OnesBit(n - 1, k - 1); }
  }

  /** A power of two that fits in a word. */
  ghost predicate RingSize(h: nat) { exists n: nat :: n < 32 && h == Pow2(n) }

  /** The test that `tnew` makes of the size: `((~h & (h - 1)) + 1 == h` on 32-bit words. */
  function PassesTest(h: nat): bool
    requires 0 < h < 0x1_0000_0000
  {
    And(0xFFFF_FFFF - h, h - 1) + 1 == h
  }

  /** The lowest set bit. */
  function Lowest(h: nat): (r: nat)
    requires h > 0
    ensures r > 0
  {
    if h % 2 == 1 then 1 else 2 * Lowest(h / 2)
  }

  lemma {:induction false} NotAnd(h: nat, n: nat)
    requires h < Pow2(n)
    ensures And(Pow2(n) - 1 - h, h) == 0
  {
    if n > 0 {
      NotAnd(h / 2, n - 1);
      assert (Pow2(n) - 1 - h) / 2 == Pow2(n - 1) - 1 - h / 2;
    }
  }

  lemma {:induction false} TestGivesLowest(h: nat, n: nat)
    requires 0 < h < Pow2(n)
    ensures And(Pow2(n) - 1 - h, h - 1) + 1 == Lowest(h)
  {
    if n > 0 {
      if h % 2 == 1 {
        NotAnd(h / 2, n - 1);
        assert (Pow2(n) - 1 - h) / 2 == Pow2(n - 1) - 1 - h / 2 && (h - 1) / 2 == h / 2;
      } else {
        TestGivesLowest(h / 2, n - 1);
        assert (Pow2(n) - 1 - h) / 2 == Pow2(n - 1) - 1 - h / 2 && (h - 1) / 2 == h / 2 - 1;
      }
    }
  }

  ghost predicate IsPower(h: nat) { exists n: nat :: h == Pow2(n) }

  lemma HalfPower(h: nat)
    requires h > 1
    ensures IsPower(h) <==> h % 2 == 0 && IsPower(h / 2)
  {
    if n: nat :| h == Pow2(n) {
      assert h == 2 * Pow2(n - 1);
      assert h / 2 == Pow2(n - 1);
    }
    if n: nat :| h / 2 == Pow2(n) {
      if h % 2 == 0 { assert h == Pow2(n + 1); }
    }
  }

  lemma {:induction false} LowestIsAll(h: nat)
    requires h > 0
    ensures Lowest(h) <= h && (Lowest(h) == h <==> IsPower(h))
  {
    if h == 1 {
      assert h == Pow2(0);
    } else {
      HalfPower(h);
      if h % 2 == 0 { LowestIsAll(h / 2); }
    }
  }

  lemma PowerFits(h: nat)
    requires h < 0x1_0000_0000
    ensures IsPower(h) <==> RingSize(h)
  {
    if n: nat :| h == Pow2(n) {
      Pow2Values();
      Pow2Add(16, 16);
      if n >= 32 {
        Pow2Add(32, n - 32);
        MulAtLeast(Pow2(32), Pow2(n - 32));
      }
      assert n < 32 && h == Pow2(n);
    }
  }

  /** Exactly the powers of two pass. */
  lemma TestExact(h: nat)
    requires 0 < h < 0x1_0000_0000
    ensures PassesTest(h) <==> RingSize(h)
  {
    Pow2Values();
    Pow2Add(16, 16);
    TestGivesLowest(h, 32);
    LowestIsAll(h);
    PowerFits(h);
  }

  /** For such a ring masking is the remainder, also of a negative number. */
  lemma MaskIs(x: int, h: nat)
    requires RingSize(h) && h > 0
    ensures Mask(x, h) == x % h < h
  {
    var n: nat :| n < 32 && h == Pow2(n);
    var w := x % 0x1_0000_0000;
    MaskMod(w, n);
    Pow2Values();
    Pow2Add(16, 16);
    Pow2Add(n, 32 - n);
    ModBelow(w, h);
    WordRest(x, h, Pow2(32 - n));
  }

  lemma WordRest(x: int, h: nat, m: nat)
    requires h > 0 && h * m == 0x1_0000_0000
    ensures (x % 0x1_0000_0000) % h == x % h
  {
    var q, w := x / 0x1_0000_0000, x % 0x1_0000_0000;
    assert x == 0x1_0000_0000 * q + w;
    ModShift(w, h, m * q);
    assert 0x1_0000_0000 * q == h * (m * q);
  }

  // ---------------------------------------------------------------- pointers

  /** The pointers after `k` lines have been scrolled off: the places of the ring used so far hold lines,
      and no line is in two places. */
  ghost predicate Pointers(hist: seq<Line?>, line: seq<Line>, k: nat) {
    && |hist| > 0 && |line| > 0
    && (forall j :: 0 <= j < |hist| ==> (hist[j] != null <==> j <= k))
    && (forall i, j :: 0 <= i < j < |line| ==> line[i] != line[j])
    && (forall i, j :: 0 <= i < j < |hist| && hist[i] != null ==> hist[i] != hist[j])
    && (forall i, j :: 0 <= i < |line| && 0 <= j < |hist| ==> line[i] != hist[j])
  }

  /** The line of the ring that holds the `i`-th line scrolled off. */
  function Place(i: nat, h: nat): (p: nat)
    requires h > 0
    ensures p < h
  {
    ModBelow(i + 1, h);
    (i + 1) % h
  }

  /** The last lines of the log are in the ring. */
  ghost predicate Holds(hist: seq<Line?>, log: seq<Cells>)
    reads set j | 0 <= j < |hist| :: hist[j]
  {
    |hist| > 0 && forall i :: 0 <= i < |log| && |log| <= i + |hist| ==> HoldsAt(hist, i, log[i])
  }

  ghost predicate HoldsAt(hist: seq<Line?>, i: nat, c: Cells)
    requires |hist| > 0
    reads set j | 0 <= j < |hist| :: hist[j]
  {
    hist[Place(i, |hist|)] != null && hist[Place(i, |hist|)].cells == c
  }

  /** The lines of the screen. */
  ghost function Rows(line: seq<Line>): (s: seq<Cells>)
    reads set i | 0 <= i < |line| :: line[i]
    ensures |s| == |line|
  {
    seq(|line|, i requires 0 <= i < |line| reads (set i | 0 <= i < |line| :: line[i]) => line[i].cells)
  }

  lemma PlaceDiffers(i: nat, k: nat, h: nat)
    requires i < k < i + h
    ensures Place(i, h) != Place(k, h)
  {
    RestDiffers(i + 1, k - i, h);
  }

  lemma RestDiffers(a: nat, d: nat, h: nat)
    requires 0 < d < h
    ensures a % h != (a + d) % h
  {
    var q, r := a / h, a % h;
    if r + d < h {
      DivUnique(a + d, h, q, r + d);
    } else {
      assert h * (q + 1) == h * q + h;
      DivUnique(a + d, h, q + 1, r + d - h);
    }
  }

  lemma PlaceEarly(k: nat, h: nat)
    requires h > 0
    ensures k + 1 < h ==> Place(k, h) == k + 1
    ensures k + 1 == h ==> Place(k, h) == 0
  {
    if k + 1 < h { ModBelow(k + 1, h); } else if k + 1 == h { DivUnique(h, h, 1, 0); }
  }

  /** The first line of the screen goes into the ring; `x` takes its place. */
  lemma PushPointers(hist: seq<Line?>, line: seq<Line>, k: nat, x: Line)
    requires Pointers(hist, line, k) && x !in line
    requires k + 1 <= |hist| ==> x !in hist
    requires k + 1 > |hist| ==> x == hist[Place(k, |hist|)]
    ensures Pointers(hist[Place(k, |hist|) := line[0]], line[0 := x], k + 1)
    ensures x !in hist[Place(k, |hist|) := line[0]]
  {
    PlaceEarly(k, |hist|);
    assert forall i :: 0 <= i < |line| ==> line[i] in line;
    assert forall j :: 0 <= j < |hist| ==> hist[j] in hist;
  }

  lemma PushHolds(hist: seq<Line?>, line: seq<Line>, log: seq<Cells>)
    requires Pointers(hist, line, |log|) && Holds(hist, log) && |line| > 0 && |hist| > 0
    ensures Holds(hist[Place(|log|, |hist|) := line[0]], log + [line[0].cells])
  {
    hide Pointers, Place;
    var h, k := |hist|, |log|;
    var hist', log' := hist[Place(k, h) := line[0]], log + [line[0].cells];
    forall i | 0 <= i < |log'| && |log'| <= i + h ensures HoldsAt(hist', i, log'[i]) {
      if i < k {
        PlaceDiffers(i, k, h);
        assert HoldsAt(hist, i, log[i]);
      }
    }
  }

  /** Lines moved up by one. */
  function Rotated(line: seq<Line>): (r: seq<Line>)
    requires |line| > 0
    ensures |r| == |line|
  {
    line[1..] + [line[0]]
  }

  /** The first line moved down to place `i`. */
  function Moved(s: seq<Line>, i: nat): seq<Line>
    requires i < |s|
  {
    s[1..i + 1] + [s[0]] + s[i + 1..]
  }

  lemma MovedNext(s: seq<Line>, i: nat)
    requires i + 1 < |s|
    ensures |Moved(s, i)| == |s| && Moved(s, i + 1) == Moved(s, i)[i := Moved(s, i)[i + 1]][i + 1 := Moved(s, i)[i]]
  {
  }

  lemma MovedNone(s: seq<Line>)
    requires s != []
    ensures Moved(s, 0) == s
  {
  }

  lemma MovedAll(s: seq<Line>)
    requires s != []
    ensures Moved(s, |s| - 1) == Rotated(s)
  {
  }

  lemma RotatePointers(hist: seq<Line?>, line: seq<Line>, k: nat)
    requires Pointers(hist, line, k)
    ensures Pointers(hist, Rotated(line), k)
  {
    var r := Rotated(line);
    forall i | 0 <= i < |r| ensures r[i] == line[if i + 1 < |line| then i + 1 else 0] { }
  }

  lemma RotateRows(line: seq<Line>)
    requires |line| > 0
    ensures Rows(Rotated(line)) == Rows(line)[1..] + [line[0].cells]
  {
  }

  /** The lines in use. */
  ghost function Lines(hist: seq<Line?>, line: seq<Line>): set<object> {
    (set x | x in line) + set x: Line? | x in hist && x != null
  }

  lemma PushLines(hist: seq<Line?>, line: seq<Line>, p: nat, x: Line)
    requires p < |hist| && |line| > 0
    ensures Lines(hist[p := line[0]], line[0 := x]) <= Lines(hist, line) + {x}
    ensures x in Lines(hist[p := line[0]], line[0 := x])
    ensures hist[p] == x ==> x in Lines(hist, line)
  {
    assert line[0 := x][0] == x;
  }

  lemma RotateSame(hist: seq<Line?>, line: seq<Line>)
    requires |line| > 0
    ensures Lines(hist, Rotated(line)) == Lines(hist, line)
  {
    assert line == [line[0]] + line[1..];
  }

  // ----------------------------------------------------------- the log's view

  /** What the terminal shows, without the ring: every line ever scrolled off, the screen, how far the
      view is scrolled back, and the cursor's row. */
  datatype State = State(log: seq<Cells>, screen: seq<Cells>, scr: nat, y: nat)

  ghost predicate Fits(s: State, h: nat) {
    s.scr <= h && s.scr <= |s.log| && s.y < |s.screen|
  }

  function Full(s: State): (r: seq<Cells>)
    ensures |r| == |s.log| + |s.screen|
  {
    s.log + s.screen
  }

  /** The rows in view: as many lines as the screen has, `scr` lines further up. */
  ghost function Visible(s: State): (v: seq<Cells>)
    ensures s.scr <= |s.log| ==> |v| == |s.screen|
  {
    if s.scr <= |s.log| then Full(s)[|s.log| - s.scr..|s.log| - s.scr + |s.screen|] else []
  }

  lemma RowAt(s: State, row: nat)
    requires s.scr <= |s.log| && row < |s.screen|
    ensures |Visible(s)| == |s.screen|
    ensures Visible(s)[row] == if row < s.scr then s.log[|s.log| - s.scr + row] else s.screen[row - s.scr]
  {
  }

  lemma FirstRow(s: State)
    ensures s.scr <= |s.log| && |s.screen| > 0 ==> |Visible(s)| > 0 && Visible(s)[0] == Full(s)[|s.log| - s.scr]
  {
  }

  /** A new line at the bottom. While the view is scrolled back it follows, up to `h - 1` lines. */
  function Scrolled(s: State, h: nat, blank: Cells): State {
    if |s.screen| == 0 then s
    else
      State(s.log + [s.screen[0]], s.screen[1..] + [blank],
            if 0 < s.scr < h then Min(s.scr + 1, h - 1) else s.scr, s.y)
  }

  function Min(a: int, b: int): int { if a < b then a else b }

  datatype Op = NewLine(blank: Cells) | Write(cells: Cells) | Up(n: nat) | PageUp | Down(n: nat) | PageDown
              | Top | Bottom

  /** Keys that ask for no more lines than the ring has. */
  ghost predicate Sensible(op: Op, h: nat, rows: nat) {
    (op.Up? ==> op.n <= h && op.n < 0x8000_0000) && (op.PageUp? ==> rows <= h)
  }

  function MovedUp(s: State, h: nat, n: nat): State {
    if s.scr + n <= h then s.(scr := Min(s.scr + n, |s.log|)) else s
  }

  function Step(s: State, h: nat, op: Op): State {
    match op
    case NewLine(blank) => if s.y + 1 == |s.screen| then Scrolled(s, h, blank) else s.(y := s.y + 1)
    case Write(cells) => if s.y < |s.screen| then s.(screen := s.screen[s.y := cells]) else s
    case Up(n) => MovedUp(s, h, n)
    case PageUp => MovedUp(s, h, |s.screen|)
    case Down(n) => s.(scr := s.scr - Min(n, s.scr))
    case PageDown => s.(scr := s.scr - Min(if |s.screen| > 0 then |s.screen| - 1 else 0, s.scr))
    case Top => s.(scr := Min(h, |s.log|))
    case Bottom => s.(scr := 0)
  }

  /** How far back the view is after moving up by `m` lines, with `k` lines in the log. */
  function UpBy(scr: nat, h: nat, m: nat, k: nat): nat {
    if m <= h && scr > h - m then scr else if k < h then Min(scr + m, k) else scr + m
  }

  /** How far back the view is after moving down by `m` lines. */
  function DownBy(scr: nat, m: int): (r: nat)
    ensures m >= 0 ==> r == scr - Min(m, scr) <= scr
  {
    if scr == 0 then 0 else if m > scr then 0 else scr - m
  }

  function Steps(s: State, h: nat, ops: seq<Op>): State {
    if ops == [] then s else Step(Steps(s, h, ops[..|ops| - 1]), h, ops[|ops| - 1])
  }

  /** Nothing that was scrolled off is lost or changed, whatever follows. */
  lemma {:induction false} LogGrows(s: State, h: nat, ops: seq<Op>)
    ensures s.log <= Steps(s, h, ops).log && |Steps(s, h, ops).screen| == |s.screen|
  {
    if ops != [] {
      LogGrows(s, h, ops[..|ops| - 1]);
    }
  }

  /** Lines written at the bottom of the screen. */
  ghost predicate Output(ops: seq<Op>) { forall i :: 0 <= i < |ops| ==> ops[i].NewLine? || ops[i].Write? }

  function NewLines(ops: seq<Op>): nat {
    if ops == [] then 0 else NewLines(ops[..|ops| - 1]) + (if ops[|ops| - 1].NewLine? then 1 else 0)
  }

  /** Output below a view that is scrolled back moves nothing in it, while the ring still holds every line
      in view. */
  lemma {:induction false} ViewStays(s: State, h: nat, ops: seq<Op>)
    requires Fits(s, h) && s.y + 1 == |s.screen| && Output(ops)
    requires 0 < s.scr && s.scr + NewLines(ops) < h
    ensures Visible(Steps(s, h, ops)) == Visible(s)
    ensures Fits(Steps(s, h, ops), h) && Steps(s, h, ops).scr == s.scr + NewLines(ops)
    ensures Steps(s, h, ops).y == s.y && |Steps(s, h, ops).screen| == |s.screen|
  {
    if ops != [] {
      var last := ops[|ops| - 1];
      ViewStays(s, h, ops[..|ops| - 1]);
      StepStays(Steps(s, h, ops[..|ops| - 1]), h, last);
    }
  }

  lemma StepStays(s: State, h: nat, op: Op)
    requires Fits(s, h) && s.y + 1 == |s.screen| && 0 < s.scr && (op.NewLine? || op.Write?)
    requires s.scr + (if op.NewLine? then 1 else 0) < h
    ensures Visible(Step(s, h, op)) == Visible(s) && Fits(Step(s, h, op), h)
    ensures Step(s, h, op).scr == s.scr + (if op.NewLine? then 1 else 0)
  {
    var t := Step(s, h, op);
    var at := |s.log| - s.scr;
    if op.NewLine? {
      assert Full(t) == Full(s) + [op.blank];
    }
    assert |t.log| - t.scr == at;
    assert forall k :: at <= k < at + |s.screen| ==> Full(t)[k] == Full(s)[k];
  }

  /** The bound is exact: from `h - 1` lines back on, a new line moves the view down by one line. */
  lemma ViewMoves(s: State, h: nat, blank: Cells)
    requires Fits(s, h) && s.y + 1 == |s.screen| && h > 1 && s.scr + 1 >= h
    ensures var t := Step(s, h, NewLine(blank));
            t.scr == s.scr && Visible(t) == (Full(s) + [blank])[|s.log| + 1 - s.scr..][..|s.screen|]
  {
    assert Full(Step(s, h, NewLine(blank))) == Full(s) + [blank];
  }

  // ------------------------------------------------------------------- state

  /** The scrollback part of `Term`. */
  class Term {
    const hist: array<Line?>
    const line: array<Line>
    var histindex: nat
    var circledhist: bool
    var scr: nat
    var y: nat
    ghost var log: seq<Cells>

    /** The ring has `hist.Length` places; the source keeps `hist.Length - 1` as a mask in `histsize`. */
    ghost predicate Valid()
      reads this, hist, line, set j | 0 <= j < hist.Length :: hist[j]
    {
      && RingSize(hist.Length) && hist.Length > 64
      && Pointers(hist[..], line[..], |log|) && Holds(hist[..], log)
      && histindex == |log| % hist.Length && (circledhist <==> |log| >= hist.Length)
      && scr <= hist.Length && scr <= |log| && y < line.Length
    }

    ghost function Screen(): (s: seq<Cells>)
      reads line, set i | 0 <= i < line.Length :: line[i]
    {
      Rows(line[..])
    }

    ghost function Now(): State
      reads this, line, set i | 0 <= i < line.Length :: line[i]
    {
      State(log, Screen(), scr, y)
    }

    ghost function Owned(): set<object>
      reads hist, line
    {
      Lines(hist[..], line[..])
    }

    /** A terminal of `rows` lines with nothing scrolled off (`tnew`). */
    constructor (rows: nat, size: nat, blank: Cells)
      requires 64 < size < 0x1_0000_0000 && PassesTest(size) && rows > 0
      ensures Valid() && Now() == State([], seq(rows, _ => blank), 0, 0) && hist.Length == size
      ensures fresh(hist) && fresh(line) && fresh(Owned())
    {
      TestExact(size);
      hist := new Line?[size](_ => null);
      var lines := Blanks(rows, blank);
      line := lines;
      histindex, circledhist, scr, y, log := 0, false, 0, 0, [];
      new;
      hist[0] := new Line(blank);
    }

    /** `TLINE`: row `row` of the view is a line of the log or of the screen, `scr` lines further up. */
    method TLine(row: nat) returns (l: Line)
      requires Valid() && row < line.Length
      ensures |Visible(Now())| == line.Length && l.cells == Visible(Now())[row]
      ensures scr <= |log| && l.cells == if row < scr then log[|log| - scr + row] else Screen()[row - scr]
    {
      hide Pointers, Place, Mask, Holds, Visible, Full;
      PointersLen(hist[..], line[..], |log|);
      RowAt(Now(), row);
      if row < scr {
        ghost var i := |log| - scr + row;
        MaskIs(row + histindex - scr + 1, hist.Length);
        RingIndex(|log|, scr, row, hist.Length);
        HoldsNow(hist[..], log, i);
        l := hist[Mask(row + histindex - scr + 1, hist.Length)];
      } else {
        l := line[row - scr];
      }
    }

    /** The place in the ring takes the first line of the screen; what was there, or a new line, goes to
        the screen. */
    method Swap() returns (ghost x: Line)
      requires histindex < hist.Length && line.Length > 0
      modifies this`circledhist, hist, line
      ensures circledhist == (old(circledhist) || histindex == 0)
      ensures hist[..] == old(hist[..])[histindex := old(line[0])] && line[..] == old(line[..])[0 := x]
      ensures if old(hist[histindex]) == null || (histindex == 0 && !old(circledhist)) then fresh(x)
              else x == old(hist[histindex])
    {
      if histindex == 0 && !circledhist {
        circledhist := true;
        hist[0] := new Line([]);
      }
      if hist[histindex] != null {
        var tmp := hist[histindex];
        hist[histindex] := line[0];
        line[0] := tmp;
      } else {
        hist[histindex] := line[0];
        line[0] := new Line([]);
      }
      x := line[0];
    }

    /** The screen's first line is kept in the ring, at the next place. */
    method Push()
      requires Valid()
      modifies this`histindex, this`circledhist, this`log, hist, line
      ensures RingSize(hist.Length) && hist.Length > 64 && scr <= hist.Length
      ensures log == old(log) + [old(Screen())[0]] && Screen()[1..] == old(Screen())[1..]
      ensures histindex == |log| % hist.Length && (circledhist <==> |log| >= hist.Length)
      ensures Pointers(hist[..], line[..], |log|) && Holds(hist[..], log) && line.Length > 0 && line[0] !in hist[..]
      ensures fresh(Owned() - old(Owned())) && line[0] in Owned() && (fresh(line[0]) || line[0] in old(Owned()))
    {
      hide Place, Holds, Pointers, Lines, Mask, RingSize;
      ghost var h, l, k := hist[..], line[..], |log|;
      PointersLen(h, l, k);
      NextIndex(k, hist.Length);
      PushHolds(h, l, log);
      MaskIs(histindex + 1, hist.Length);
      PlaceEarly(k, hist.Length);
      NullPlace(h, l, k);
      histindex := Mask(histindex + 1, hist.Length);
      ghost var x := Swap();
      FreshOrOld(h, l, k, x);
      PushPointers(h, l, k, x);
      PushLines(h, l, histindex, x);
      log := log + [l[0].cells];
    }

    method Rotate()
      requires Pointers(hist[..], line[..], |log|) && line.Length > 0
      modifies line
      ensures Pointers(hist[..], line[..], |log|) && line.Length > 0
      ensures Screen() == old(Screen()[1..] + [Screen()[0]]) && Owned() == old(Owned())
    {
      hide Pointers, Moved;
      ghost var s := line[..];
      MovedNone(s);
      for i := 0 to line.Length - 1
        invariant line[..] == Moved(s, i)
      {
        MovedNext(s, i);
        ghost var was := line[..];
        line[i], line[i + 1] := line[i + 1], line[i];
        assert line[..] == was[i := was[i + 1]][i + 1 := was[i]];
      }
      MovedAll(s);
      RotatePointers(hist[..], s, |log|);
      RotateRows(s);
      RotateSame(hist[..], s);
    }

    method Clear(blank: Cells)
      requires Pointers(hist[..], line[..], |log|) && Holds(hist[..], log) && line.Length > 0
      modifies line[0]
      ensures Holds(hist[..], log) && Screen() == [blank] + old(Screen())[1..]
    {
      hide Place;
      line[0].cells := blank;
    }

    /** `tscrollup` of the whole screen by one line, keeping the line scrolled off. */
    method TScrollUp(blank: Cells)
      requires Valid()
      modifies this, hist, line, Owned()
      ensures Valid() && fresh(Owned() - old(Owned()))
      ensures Now() == Scrolled(old(Now()), hist.Length, blank)
      ensures line.Length > 0 && log == old(log) + [old(Screen())[0]] && Screen() == old(Screen())[1..] + [blank]
      ensures y == old(y) && scr == if old(scr) == 0 || old(scr) >= hist.Length - 1 then old(scr) else old(scr) + 1
    {
      hide Place, Holds, Pointers, Rows;
      PointersLen(hist[..], line[..], |log|);
      Push();
      Follow();
      Clear(blank);
      Rotate();
    }

    method Follow()
      modifies this`scr
      ensures scr == if 0 < old(scr) < hist.Length then Min(old(scr) + 1, hist.Length - 1) else old(scr)
    {
      if 0 < scr < hist.Length {
        scr := Min(scr + 1, hist.Length - 1);
      }
    }

    method TNewLine(blank: Cells)
      requires Valid()
      modifies this, hist, line, Owned()
      ensures Valid() && fresh(Owned() - old(Owned()))
      ensures Now() == Step(old(Now()), hist.Length, NewLine(blank))
      ensures if old(y) < line.Length - 1 then Now() == old(Now()).(y := old(y) + 1)
              else y == old(y) && log == old(log) + [old(Screen())[0]] && Screen() == old(Screen())[1..] + [blank]
    {
      if y == line.Length - 1 {
        TScrollUp(blank);
      } else {
        y := y + 1;
      }
    }

    /** `kscrollup`: the guard is computed on 32-bit words, so a key that asks for more lines than the ring
        has breaks the state exactly if the ring has come round. */
    method KScrollUp(n: int)
      requires Valid() && n < 0x8000_0000 && line.Length < 0x8000_0000
      modifies this`scr
      ensures var m := if n < 0 then line.Length else n;
              && (Valid() <==> m <= hist.Length || |log| < hist.Length)
              && (m <= hist.Length ==> Now() == MovedUp(old(Now()), hist.Length, m))
              && Now() == old(Now()).(scr := UpBy(old(scr), hist.Length, m, |log|))
      ensures var m := if n < 0 then line.Length else n;
              && log == old(log) && Screen() == old(Screen()) && y == old(y)
              && (old(scr) + m <= hist.Length ==>
                    && scr <= |log| && |Visible(Now())| > 0
                    && (if old(scr) + m < |log| then scr == old(scr) + m else scr == |log|)
                    && (if old(scr) + m <= |log| then Visible(Now())[0] == Full(Now())[|log| - old(scr) - m]
                        else Visible(Now())[0] == Full(Now())[0]))
              && (m <= hist.Length < old(scr) + m ==> scr == old(scr))
              && (m > hist.Length ==> scr == if |log| < hist.Length && |log| < old(scr) + m then |log| else old(scr) + m)
    {
      hide Place, Holds, Pointers, Visible, Full, Rows;
      PointersLen(hist[..], line[..], |log|);
      var m: nat := if n < 0 then line.Length else n;
      RingFits(hist.Length);
      WordGap(hist.Length, m);
      if scr <= (hist.Length - m) % 0x1_0000_0000 {
        scr := scr + m;
        if !circledhist && scr > histindex {
          scr := histindex;
        }
      }
      IndexEarly(|log|, hist.Length);
      FirstRow(Now());
    }

    /** `kscrolldown`: an argument below minus the number of rows moves the view up instead, without looking
        how long the log is. */
    method KScrollDown(n: int)
      requires Valid()
      modifies this`scr
      ensures var m := if n < 0 then line.Length + n else n;
              && scr == DownBy(old(scr), m)
              && (Valid() <==> m >= 0 || old(scr) == 0 || (scr <= hist.Length && scr <= |log|))
              && Now() == old(Now()).(scr := scr)
              && (old(scr) == 0 || m >= old(scr) ==> scr == 0) && (0 < old(scr) && m < old(scr) ==> scr == old(scr) - m)
    {
      hide Place, Holds, Pointers;
      var m := if n < 0 then line.Length + n else n;
      if m > scr {
        m := scr;
      }
      if scr > 0 {
        scr := scr - m;
      }
    }

    method ScrollToTop()
      requires Valid()
      modifies this`scr
      ensures Valid() && Now() == Step(old(Now()), hist.Length, Top)
      ensures log == old(log) && Screen() == old(Screen()) && y == old(y)
      ensures scr == if |log| < hist.Length then |log| else hist.Length
      ensures |Visible(Now())| > 0 && Visible(Now())[0] == if log == [] then Screen()[0] else log[|log| - scr]
    {
      hide Place, Holds, Pointers;
      scr := hist.Length;
      if !circledhist && scr > histindex {
        scr := histindex;
      }
      IndexEarly(|log|, hist.Length);
    }

    method ScrollToBottom()
      requires Valid()
      modifies this`scr
      ensures Valid() && Now() == Step(old(Now()), hist.Length, Bottom)
      ensures log == old(log) && Screen() == old(Screen()) && y == old(y) && scr == 0 && Visible(Now()) == Screen()
    {
      hide Place, Holds, Pointers;
      if scr > 0 {
        scr := 0;
      }
    }

    /** What is written on the cursor's row. */
    method SetRow(cells: Cells)
      requires Valid()
      modifies Owned()
      ensures Valid() && Now() == Step(old(Now()), hist.Length, Write(cells))
      ensures log == old(log) && scr == old(scr) && y == old(y) && Screen() == old(Screen())[y := cells]
    {
      hide Place;
      line[y].cells := cells;
    }

    method Do(op: Op)
      requires Valid() && Sensible(op, hist.Length, line.Length) && line.Length < 0x8000_0000
      modifies this, hist, line, Owned()
      ensures Valid() && fresh(Owned() - old(Owned())) && Now() == Step(old(Now()), hist.Length, op)
    {
      hide Place, Holds, Pointers;
      match op
      case NewLine(blank) => TNewLine(blank);
      case Write(cells) => SetRow(cells);
      case Up(n) => RingFits(hist.Length); KScrollUp(n);
      case PageUp => KScrollUp(-1);
      case Down(n) => KScrollDown(n);
      case PageDown => PointersLen(hist[..], line[..], |log|); KScrollDown(-1);
      case Top => ScrollToTop();
      case Bottom => ScrollToBottom();
    }

    /** Any run of output and keys. */
    method Perform(ops: seq<Op>)
      requires Valid() && line.Length < 0x8000_0000
      requires forall i :: 0 <= i < |ops| ==> Sensible(ops[i], hist.Length, line.Length)
      modifies this, hist, line, Owned()
      ensures Valid() && fresh(Owned() - old(Owned())) && Now() == Steps(old(Now()), hist.Length, ops)
    {
      hide Place, Holds, Pointers, Step;
      ghost var s := Now();
      for i := 0 to |ops|
        invariant Valid() && fresh(Owned() - old(Owned())) && Now() == Steps(s, hist.Length, ops[..i])
      {
        Do(ops[i]);
        assert ops[..i + 1][..i] == ops[..i];
      }
      assert ops[..|ops|] == ops;
    }
  }

  lemma WordGap(h: nat, m: nat)
    requires h <= 0x8000_0000 && m < 0x8000_0000
    ensures (h - m) % 0x1_0000_0000 == if m <= h then h - m else 0x1_0000_0000 + h - m
  {
  }

  /** Lines that are written one after the other. */
  function NewLinesOf(n: nat, blank: Cells): (ops: seq<Op>)
    ensures |ops| == n && forall i :: 0 <= i < n ==> ops[i] == NewLine(blank)
  {
    seq(n, _ => NewLine(blank))
  }

  lemma {:induction false} LinesLog(s: State, h: nat, n: nat, blank: Cells)
    requires s.y < |s.screen|
    ensures |Steps(s, h, NewLinesOf(n, blank)).screen| == |s.screen|
    ensures var t := Steps(s, h, NewLinesOf(n, blank));
            if s.y + n < |s.screen| then t.y == s.y + n && t.log == s.log
            else t.y + 1 == |t.screen| && |t.log| == |s.log| + (s.y + n + 1 - |s.screen|)
  {
    if n > 0 {
      LinesLog(s, h, n - 1, blank);
      assert NewLinesOf(n, blank)[..n - 1] == NewLinesOf(n - 1, blank);
    }
  }

  /** With more rows than places in the ring, scrolling up by a page once the ring has come round gives a view
      that begins before the oldest line kept. */
  method PageUpBreaks(rows: nat, size: nat, blank: Cells) returns (t: Term)
    requires 64 < size < rows < 0x8000_0000 && PassesTest(size)
    ensures !t.Valid() && t.scr > t.hist.Length == size && t.line.Length == rows
  {
    t := new Term(rows, size, blank);
    ghost var s := t.Now();
    var ops := NewLinesOf(rows - 1 + size, blank);
    LinesLog(s, size, rows - 1 + size, blank);
    t.Perform(ops);
    t.KScrollUp(-1);
  }

  lemma RingFits(h: nat)
    requires RingSize(h)
    ensures h <= 0x8000_0000
  {
    var n: nat :| n < 32 && h == Pow2(n);
    Pow2Values();
    Pow2Add(15, 16);
    Pow2Add(n, 31 - n);
    MulAtLeast(h, Pow2(31 - n));
  }

  lemma IndexEarly(k: nat, h: nat)
    requires h > 0
    ensures k < h ==> k % h == k
  {
    if k < h { ModBelow(k, h); }
  }

  lemma PointersLen(hist: seq<Line?>, line: seq<Line>, k: nat)
    requires Pointers(hist, line, k)
    ensures |hist| > 0 && |line| > 0
  {
  }

  /** The macro's index is the place of the line. */
  lemma RingIndex(k: nat, scr: nat, y: nat, h: nat)
    requires h > 0 && y < scr <= k
    ensures (y + k % h - scr + 1) % h == Place(k - scr + y, h)
  {
    var q := k / h;
    assert k == h * q + k % h;
    assert (k - scr + y) + 1 == (y + k % h - scr + 1) + h * q;
    ModShift(y + k % h - scr + 1, h, q);
  }

  lemma HoldsNow(hist: seq<Line?>, log: seq<Cells>, i: nat)
    requires Holds(hist, log) && i < |log| && |log| <= i + |hist|
    ensures |hist| > 0 && hist[Place(i, |hist|)] != null && hist[Place(i, |hist|)].cells == log[i]
  {
    assert HoldsAt(hist, i, log[i]);
  }

  lemma NextIndex(k: nat, h: nat)
    requires h > 0
    ensures (k % h + 1) % h == Place(k, h) == (k + 1) % h
  {
    var q := k / h;
    assert k == h * q + k % h;
    assert k + 1 == (k % h + 1) + h * q;
    ModShift(k % h + 1, h, q);
  }

  /** A place is still empty exactly if the ring has not come round. */
  lemma NullPlace(hist: seq<Line?>, line: seq<Line>, k: nat)
    requires Pointers(hist, line, k)
    ensures |hist| > 0 && (hist[Place(k, |hist|)] == null <==> k + 1 < |hist|)
  {
    PlaceEarly(k, |hist|);
  }

  lemma FreshOrOld(hist: seq<Line?>, line: seq<Line>, k: nat, x: Line)
    requires Pointers(hist, line, k)
    ensures |hist| > 0 && (x == hist[Place(k, |hist|)] ==> x !in line)
  {
  }
}
