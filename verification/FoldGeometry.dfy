/**
 What closed folds do to the display: hidden lines, the summary row a line shows on, display rows, and
 `j`/`k` counting a closed fold as one line.
 */
module FoldGeometry {
  import opened Options
  import opened FoldSets

  predicate Hides(f: Fold, line: nat) {
    f.closed && f.start < line <= f.end
  }

  predicate Hidden(folds: seq<Fold>, line: nat) {
    exists i :: 0 <= i < |folds| && Hides(folds[i], line)
  }

  predicate ShownClosedAt(f: Fold, line: nat) {
    f.ShowsClosed() && f.Contains(line)
  }

  /** The span of the closed folds that hold `line`. */
  function ClosedRange(folds: seq<Fold>, line: nat): (r: Option<(nat, nat)>)
    ensures r.Some? ==> r.value.0 <= line <= r.value.1
  {
    if folds == [] then None
    else
      var n := |folds| - 1;
      var f, acc := folds[n], ClosedRange(folds[..n], line);
      if !ShownClosedAt(f, line) then acc
      else match acc
        case None => Some((f.start, f.end))
        case Some((s, e)) => Some((if f.start < s then f.start else s, if f.end > e then f.end else e))
  }

  /** The first line of the closed fold around `line`, which shows the summary; else `line`. */
  function SnapOut(folds: seq<Fold>, line: nat): nat {
    match ClosedRange(folds, line) case None => line case Some((s, _)) => s
  }

  function ClosedEnd(folds: seq<Fold>, line: nat): nat {
    match ClosedRange(folds, line) case None => line case Some((_, e)) => e
  }

  /** How many lines of `a..b` are hidden. */
  function HiddenCount(folds: seq<Fold>, a: nat, b: nat): (n: nat)
    ensures a <= b ==> n <= b - a
    decreases b
  {
    if b <= a then 0
    else HiddenCount(folds, a, b - 1) + if Hidden(folds, b - 1) then 1 else 0
  }

  function HiddenLines(folds: seq<Fold>, a: nat, b: nat): set<nat> {
    set l: nat | a <= l < b && Hidden(folds, l)
  }

  lemma {:induction false} HiddenCountCounts(folds: seq<Fold>, a: nat, b: nat)
    ensures HiddenCount(folds, a, b) == |HiddenLines(folds, a, b)|
    decreases b
  {
    if b <= a {
      assert HiddenLines(folds, a, b) == {};
    } else {
      HiddenCountCounts(folds, a, b - 1);
      var fewer := HiddenLines(folds, a, b - 1);
      assert HiddenLines(folds, a, b) == if Hidden(folds, b - 1) then fewer + {b - 1} else fewer;
    }
  }

  function VisibleRow(folds: seq<Fold>, line: nat): nat {
    line - HiddenCount(folds, 0, line)
  }

  // ----- Closed folds of a laminar set

  /** The span holds every closed fold at `line`, and two of them (maybe one) reach its ends. */
  lemma {:induction false} SpanHolds(folds: seq<Fold>, line: nat, f: Fold)
    requires f in folds && ShownClosedAt(f, line)
    ensures ClosedRange(folds, line).Some?
    ensures SnapOut(folds, line) <= f.start && f.end <= ClosedEnd(folds, line)
  {
    var n := |folds| - 1;
    if f in folds[..n] {
      SpanHolds(folds[..n], line, f);
    } else {
      assert folds == folds[..n] + [folds[n]];
      assert f == folds[n];
    }
  }

  lemma {:induction false} SpanReached(folds: seq<Fold>, line: nat) returns (a: Fold, b: Fold)
    requires ClosedRange(folds, line).Some?
    ensures a in folds && ShownClosedAt(a, line) && a.start == SnapOut(folds, line)
    ensures b in folds && ShownClosedAt(b, line) && b.end == ClosedEnd(folds, line)
  {
    var n := |folds| - 1;
    var f := folds[n];
    assert f in folds;
    assert forall g :: g in folds[..n] ==> g in folds;
    if ClosedRange(folds[..n], line).None? {
      a, b := f, f;
    } else {
      a, b := SpanReached(folds[..n], line);
      if ShownClosedAt(f, line) {
        a := if f.start < a.start then f else a;
        b := if f.end > b.end then f else b;
      }
    }
  }

  lemma {:induction false} HiddenIffInsideRange(folds: seq<Fold>, line: nat)
    ensures Hidden(folds, line) <==> SnapOut(folds, line) < line
  {
    if i :| 0 <= i < |folds| && Hides(folds[i], line) {
      SpanHolds(folds, line, folds[i]);
    }
    if SnapOut(folds, line) < line {
      var a, b := SpanReached(folds, line);
      var i :| 0 <= i < |folds| && folds[i] == a;
      assert Hides(folds[i], line);
    }
  }

  lemma {:induction false} MembersNest(folds: seq<Fold>, a: Fold, b: Fold)
    requires LaminarLines(folds) && a in folds && b in folds
    ensures Nests(a, b) && a.start <= a.end && b.start <= b.end
  {
    var i :| 0 <= i < |folds| && folds[i] == a;
    var j :| 0 <= j < |folds| && folds[j] == b;
  }

  /** On a laminar set the span is one fold, the outermost closed one. */
  lemma {:induction false} OutermostClosed(folds: seq<Fold>, line: nat) returns (f: Fold)
    requires LaminarLines(folds) && ClosedRange(folds, line).Some?
    ensures f in folds && ShownClosedAt(f, line)
    ensures f.start == SnapOut(folds, line) && f.end == ClosedEnd(folds, line)
  {
    var a, b := SpanReached(folds, line);
    SpanHolds(folds, line, a);
    SpanHolds(folds, line, b);
    MembersNest(folds, a, b);
    f := if Covers(a, b) then a else b;
  }

  /** A closed fold meeting the span of `line` lies within it. */
  lemma {:induction false} RangeAbsorbs(folds: seq<Fold>, line: nat, g: Fold)
    requires LaminarLines(folds) && ClosedRange(folds, line).Some?
    requires g in folds && g.ShowsClosed()
    ensures || g.end < SnapOut(folds, line) || ClosedEnd(folds, line) < g.start
            || (SnapOut(folds, line) <= g.start && g.end <= ClosedEnd(folds, line))
  {
    var f := OutermostClosed(folds, line);
    MembersNest(folds, f, g);
    if g.Contains(line) {
      SpanHolds(folds, line, g);
    }
  }

  /** Inside a closed fold only the first line shows, and the line after it shows. */
  lemma {:induction false} RangeVisibility(folds: seq<Fold>, line: nat, k: nat)
    requires LaminarLines(folds) && ClosedRange(folds, line).Some?
    requires SnapOut(folds, line) <= k <= ClosedEnd(folds, line) + 1
    ensures Hidden(folds, k) <==> SnapOut(folds, line) < k <= ClosedEnd(folds, line)
  {
    if i :| 0 <= i < |folds| && Hides(folds[i], k) {
      RangeAbsorbs(folds, line, folds[i]);
    }
    var f := OutermostClosed(folds, line);
    var i :| 0 <= i < |folds| && folds[i] == f;
    assert Hides(folds[i], k) <==> f.start < k <= f.end;
  }

  /** The snapped line shows, and snapping again stays put. */
  lemma {:induction false} SnapOutLandsVisible(folds: seq<Fold>, line: nat)
    requires LaminarLines(folds)
    ensures !Hidden(folds, SnapOut(folds, line))
    ensures SnapOut(folds, SnapOut(folds, line)) == SnapOut(folds, line)
    ensures SnapOut(folds, line) <= line
  {
    if ClosedRange(folds, line).Some? {
      RangeVisibility(folds, line, SnapOut(folds, line));
    } else {
      HiddenIffInsideRange(folds, line);
    }
    HiddenIffInsideRange(folds, SnapOut(folds, line));
  }

  // ----- Display rows

  lemma {:induction false} RowStep(folds: seq<Fold>, line: nat)
    ensures VisibleRow(folds, line + 1) == VisibleRow(folds, line) + if Hidden(folds, line) then 0 else 1
  {
  }

  lemma {:induction false} RowMonotone(folds: seq<Fold>, a: nat, b: nat)
    requires a <= b
    ensures VisibleRow(folds, a) <= VisibleRow(folds, b)
    decreases b
  {
    if a < b {
      RowMonotone(folds, a, b - 1);
      RowStep(folds, b - 1);
    }
  }

  /** Display rows number the visible lines in order, without repeats... */
  lemma {:induction false} RowsInOrder(folds: seq<Fold>, a: nat, b: nat)
    requires a < b && !Hidden(folds, a)
    ensures VisibleRow(folds, a) < VisibleRow(folds, b)
  {
    RowStep(folds, a);
    RowMonotone(folds, a + 1, b);
  }

  lemma {:induction false} RowBelow(folds: seq<Fold>, bound: nat, row: nat) returns (line: nat)
    requires row < VisibleRow(folds, bound)
    ensures !Hidden(folds, line) && VisibleRow(folds, line) == row
    decreases bound
  {
    RowStep(folds, bound - 1);
    if row < VisibleRow(folds, bound - 1) {
      line := RowBelow(folds, bound - 1, row);
    } else {
      line := bound - 1;
    }
  }

  function LastEnd(folds: seq<Fold>): (e: nat)
    ensures forall f :: f in folds ==> f.end <= e
  {
    if folds == [] then 0
    else
      var n := |folds| - 1;
      var rest := LastEnd(folds[..n]);
      assert forall f :: f in folds ==> f == folds[n] || f in folds[..n];
      if folds[n].end > rest then folds[n].end else rest
  }

  lemma {:induction false} RowsUnbounded(folds: seq<Fold>, k: nat)
    ensures VisibleRow(folds, LastEnd(folds) + 1 + k) >= k
  {
    if k > 0 {
      RowsUnbounded(folds, k - 1);
      RowStep(folds, LastEnd(folds) + k);
      assert forall i :: 0 <= i < |folds| ==> folds[i] in folds && folds[i].end <= LastEnd(folds);
    }
  }

  /** ... and without gaps: every row is shown by a visible line. */
  lemma {:induction false} EveryRowShown(folds: seq<Fold>, row: nat)
    ensures exists line: nat :: !Hidden(folds, line) && VisibleRow(folds, line) == row
  {
    RowsUnbounded(folds, row + 1);
    var line := RowBelow(folds, LastEnd(folds) + row + 2, row);
  }

  lemma {:induction false} RowInsideRange(folds: seq<Fold>, line: nat, k: nat)
    requires LaminarLines(folds) && ClosedRange(folds, line).Some?
    requires SnapOut(folds, line) < k <= ClosedEnd(folds, line) + 1
    ensures VisibleRow(folds, k) == VisibleRow(folds, SnapOut(folds, line)) + 1
    decreases k
  {
    RowStep(folds, k - 1);
    RangeVisibility(folds, line, k - 1);
    if k - 1 > SnapOut(folds, line) {
      RowInsideRange(folds, line, k - 1);
    }
  }

  /** A visible line's row is the number of visible lines above it; a hidden line's is one past the row
      of the summary it shows on. */
  lemma {:induction false} RowOfLine(folds: seq<Fold>, line: nat)
    requires LaminarLines(folds)
    ensures VisibleRow(folds, line)
         == VisibleRow(folds, SnapOut(folds, line)) + if Hidden(folds, line) then 1 else 0
  {
    HiddenIffInsideRange(folds, line);
    if Hidden(folds, line) {
      RowInsideRange(folds, line, line);
    }
  }

  /** The comment on `hidden_before` has a hidden line share its summary's row; the second line of a
      closed fold at the top of the buffer does not. */
  lemma HiddenRowDiffersFromSummaryRow()
    ensures var folds := [Fold(0, 1, true, 1)];
            VisibleRow(folds, 1) == 1 && SnapOut(folds, 1) == 0 && VisibleRow(folds, 0) == 0
  {
    var folds := [Fold(0, 1, true, 1)];
    SpanHolds(folds, 1, folds[0]);
    assert !Hidden(folds, 0);
    RowStep(folds, 0);
  }

  // ----- `j` and `k`

  function Down(folds: seq<Fold>, line: nat): nat {
    ClosedEnd(folds, line) + 1
  }

  function WalkDown(folds: seq<Fold>, line: nat, n: nat): (r: nat)
    ensures line + n <= r
    decreases n
  {
    if n == 0 then line else WalkDown(folds, Down(folds, line), n - 1)
  }

  function LineDownTo(folds: seq<Fold>, line: nat, n: nat, last: nat): Option<nat> {
    var from := ClosedEnd(folds, line);
    if n > 0 && from >= last then None
    else
      var to := WalkDown(folds, from, n);
      Some(if to < last then to else last)
  }

  function WalkUp(folds: seq<Fold>, line: nat, n: nat): (r: nat)
    ensures r <= line && (n > line ==> r == 0)
    decreases n
  {
    if n == 0 || line == 0 then line else WalkUp(folds, SnapOut(folds, line - 1), n - 1)
  }

  function LineUpTo(folds: seq<Fold>, line: nat, n: nat): Option<nat> {
    if n > 0 && line == 0 then None else Some(WalkUp(folds, SnapOut(folds, line), n))
  }

  /** One `j` lands on the next visible line. */
  lemma {:induction false} DownIsOneRow(folds: seq<Fold>, line: nat)
    requires LaminarLines(folds)
    ensures !Hidden(folds, Down(folds, line))
    ensures VisibleRow(folds, Down(folds, line)) == VisibleRow(folds, SnapOut(folds, line)) + 1
  {
    if ClosedRange(folds, line).Some? {
      RangeVisibility(folds, line, Down(folds, line));
      RowInsideRange(folds, line, Down(folds, line));
    } else {
      HiddenIffInsideRange(folds, line);
      RowStep(folds, line);
      forall i | 0 <= i < |folds|
        ensures !Hides(folds[i], line + 1)
      {
        if ShownClosedAt(folds[i], line) {
          SpanHolds(folds, line, folds[i]);
          assert false;
        }
      }
    }
  }

  lemma {:induction false} WalkDownRows(folds: seq<Fold>, line: nat, n: nat)
    requires LaminarLines(folds) && n >= 1
    ensures !Hidden(folds, WalkDown(folds, line, n))
    ensures VisibleRow(folds, WalkDown(folds, line, n)) == VisibleRow(folds, SnapOut(folds, line)) + n
    decreases n
  {
    DownIsOneRow(folds, line);
    if n > 1 {
      WalkDownRows(folds, Down(folds, line), n - 1);
      HiddenIffInsideRange(folds, Down(folds, line));
      SnapOutLandsVisible(folds, Down(folds, line));
    } else {
      assert WalkDown(folds, Down(folds, line), 0) == Down(folds, line);
    }
  }

  lemma {:induction false} EndHasSameRange(folds: seq<Fold>, line: nat)
    requires LaminarLines(folds)
    ensures SnapOut(folds, ClosedEnd(folds, line)) == SnapOut(folds, line)
  {
    if ClosedRange(folds, line).Some? {
      var e := ClosedEnd(folds, line);
      var f := OutermostClosed(folds, line);
      SpanHolds(folds, e, f);
      var a, b := SpanReached(folds, e);
      RangeAbsorbs(folds, line, a);
    }
  }

  /** `{n}j` that stops short of the last line is on a visible line exactly `n` rows down; it fails only
      from the last line or the closed fold that ends there. */
  lemma {:induction false} LineDownRows(folds: seq<Fold>, line: nat, n: nat, last: nat)
    requires LaminarLines(folds) && n >= 1
    ensures var r := LineDownTo(folds, line, n, last);
            && (r.None? <==> ClosedEnd(folds, line) >= last)
            && (r.Some? ==> r.value <= last)
            && (r.Some? && r.value < last ==>
                  && !Hidden(folds, r.value)
                  && VisibleRow(folds, r.value) == VisibleRow(folds, SnapOut(folds, line)) + n)
  {
    EndHasSameRange(folds, line);
    WalkDownRows(folds, ClosedEnd(folds, line), n);
  }

  /** One `k` from a visible line below the first lands on the visible line before it. */
  lemma {:induction false} UpIsOneRow(folds: seq<Fold>, line: nat)
    requires LaminarLines(folds) && line > 0 && !Hidden(folds, line)
    ensures VisibleRow(folds, SnapOut(folds, line - 1)) == VisibleRow(folds, line) - 1
    ensures !Hidden(folds, SnapOut(folds, line - 1))
  {
    RowStep(folds, line - 1);
    RowOfLine(folds, line - 1);
    SnapOutLandsVisible(folds, line - 1);
  }

  lemma {:induction false} WalkUpRows(folds: seq<Fold>, line: nat, n: nat)
    requires LaminarLines(folds) && !Hidden(folds, line)
    ensures !Hidden(folds, WalkUp(folds, line, n))
    ensures VisibleRow(folds, WalkUp(folds, line, n))
         == if VisibleRow(folds, line) <= n then 0 else VisibleRow(folds, line) - n
    decreases n
  {
    if n > 0 && line > 0 {
      UpIsOneRow(folds, line);
      WalkUpRows(folds, SnapOut(folds, line - 1), n - 1);
    }
  }

  /** `{n}k` lands on the visible line `n` rows up, or on row 0; it fails exactly on the first line. */
  lemma {:induction false} LineUpRows(folds: seq<Fold>, line: nat, n: nat)
    requires LaminarLines(folds) && n >= 1
    ensures var r, row := LineUpTo(folds, line, n), VisibleRow(folds, SnapOut(folds, line));
            && (r.None? <==> line == 0)
            && (r.Some? ==>
                  && !Hidden(folds, r.value)
                  && VisibleRow(folds, r.value) == if row <= n then 0 else row - n)
  {
    SnapOutLandsVisible(folds, line);
    WalkUpRows(folds, SnapOut(folds, line), n);
  }

  lemma {:induction false} RowDecidesVisibleLine(folds: seq<Fold>, a: nat, b: nat)
    requires !Hidden(folds, a) && !Hidden(folds, b) && VisibleRow(folds, a) == VisibleRow(folds, b)
    ensures a == b
  {
    if a < b {
      RowsInOrder(folds, a, b);
    } else if b < a {
      RowsInOrder(folds, b, a);
    }
  }

  /** `{n}j` lands on a line above the last exactly when that is the visible line `n` rows down; only where
      there is none does it stop at the last line. */
  lemma {:induction false} LineDownExact(folds: seq<Fold>, line: nat, n: nat, last: nat, v: nat)
    requires LaminarLines(folds) && n >= 1 && v < last
    ensures LineDownTo(folds, line, n, last) == Some(v) <==>
              !Hidden(folds, v) && VisibleRow(folds, v) == VisibleRow(folds, SnapOut(folds, line)) + n
  {
    LineDownRows(folds, line, n, last);
    if !Hidden(folds, v) && VisibleRow(folds, v) == VisibleRow(folds, SnapOut(folds, line)) + n {
      var to := WalkDown(folds, ClosedEnd(folds, line), n);
      EndHasSameRange(folds, line);
      WalkDownRows(folds, ClosedEnd(folds, line), n);
      RowDecidesVisibleLine(folds, to, v);
    }
  }

  /** No steps down rest on the end of the line's closed fold, no steps up on its start. */
  lemma {:induction false} NoSteps(folds: seq<Fold>, line: nat, last: nat)
    ensures LineUpTo(folds, line, 0) == Some(SnapOut(folds, line))
    ensures ClosedEnd(folds, line) <= last ==> LineDownTo(folds, line, 0, last) == Some(ClosedEnd(folds, line))
    ensures ClosedEnd(folds, line) > last ==> LineDownTo(folds, line, 0, last) == Some(last)
  {
  }

  /** `{n}k` takes back an unclamped `{n}j`, up to the summary row the cursor started on. */
  lemma {:induction false} LineUpUndoesLineDown(folds: seq<Fold>, line: nat, n: nat, last: nat)
    requires LaminarLines(folds) && n >= 1
    requires LineDownTo(folds, line, n, last).Some? && LineDownTo(folds, line, n, last).value < last
    ensures LineUpTo(folds, LineDownTo(folds, line, n, last).value, n) == Some(SnapOut(folds, line))
  {
    var to := LineDownTo(folds, line, n, last).value;
    LineDownRows(folds, line, n, last);
    HiddenIffInsideRange(folds, to);
    SnapOutLandsVisible(folds, to);
    LineUpRows(folds, to, n);
    SnapOutLandsVisible(folds, line);
    RowDecidesVisibleLine(folds, LineUpTo(folds, to, n).value, SnapOut(folds, line));
  }

  // ----- The methods

  method LineDown(folds: seq<Fold>, line: nat, n: nat, last: nat) returns (r: Option<nat>)
    ensures r == LineDownTo(folds, line, n, last)
  {
    var l: nat := ClosedEnd(folds, line);
    if n > 0 && l >= last {
      return None;
    }
    if l + n >= last {
      return Some(last);
    }
    var k: nat := 0;
    while k < n
      invariant 0 <= k <= n
      invariant WalkDown(folds, ClosedEnd(folds, line), n) == WalkDown(folds, l, n - k)
    {
      l := ClosedEnd(folds, l) + 1;
      k := k + 1;
      if l >= last {
        break;
      }
    }
    r := Some(if l < last then l else last);
  }

  method LineUp(folds: seq<Fold>, line: nat, n: nat) returns (r: Option<nat>)
    ensures r == LineUpTo(folds, line, n)
  {
    if n > 0 && line == 0 {
      return None;
    }
    if n > line {
      assert WalkUp(folds, SnapOut(folds, line), n) == 0;
      return Some(0);
    }
    var l: nat := SnapOut(folds, line);
    var k: nat := 0;
    while k < n
      invariant 0 <= k <= n
      invariant WalkUp(folds, SnapOut(folds, line), n) == WalkUp(folds, l, n - k)
    {
      var above := if l == 0 then 0 else l - 1;
      if above == 0 {
        assert SnapOut(folds, 0) == 0;
        assert WalkUp(folds, l, n - k) == 0;
        l := 0;
        break;
      }
      l := SnapOut(folds, above);
      k := k + 1;
    }
    r := Some(l);
  }
}
