/**
 `:{range}foldclose` without the bang: which folds the sweep closes, said of the set it starts from. A line
 closes the deepest fold there that is open and inside no closed one, and the sweep goes on after that
 fold's end, so what a later line closes depends on what the earlier ones skipped.
 */
module FoldClosing {
  import opened Options
  import opened FoldSets
  import opened FoldGeometry
  import opened FoldToggling
  import opened FoldRanges

  // ----- It covers the range

  ghost predicate ClosesOver(folds: seq<Fold>, line: nat, s: Step) {
    && SameShape(folds, s.folds) && line <= s.next
    && (forall i :: 0 <= i < |folds| && folds[i].closed ==> s.folds[i].closed)
    && (Held(folds, line) ==> ClosedAt(s.folds, line))
    && (forall x: nat :: line < x <= s.next ==> ClosedAt(s.folds, x))
  }

  lemma {:induction false} CloseOneCloses(folds: seq<Fold>, line: nat)
    ensures Held(folds, line) ==> ClosedAt(CloseOne(folds, line).folds, line)
    ensures SameShape(folds, CloseOne(folds, line).folds)
    ensures var r := CloseOne(folds, line).folds;
            forall i :: 0 <= i < |folds| && folds[i].closed ==> r[i].closed
  {
    PathEmptyIffNotHeld(folds, line);
    PathFacts(folds, line);
    var on, r := Path(folds, line), CloseOne(folds, line).folds;
    if on != [] {
      assert on[0] in on;
      match LastOpenAbove(folds, on)
      case None => assert r[on[0]].closed && r[on[0]].Contains(line);
      case Some(k) => assert r[k].closed && r[k].Contains(line);
    }
  }

  lemma {:induction false} CloseOneEffect(folds: seq<Fold>, line: nat)
    ensures ClosesOver(folds, line, StepAt(folds, line, false, false))
  {
    var r := CloseOne(folds, line).folds;
    CloseOneCloses(folds, line);
    forall x: nat | line < x <= ClosedEnd(r, line)
      ensures ClosedAt(r, x)
    {
      var a, b := SpanReached(r, line);
      var i :| 0 <= i < |r| && r[i] == b;
      assert r[i].Contains(x);
    }
  }

  lemma {:induction false} SweepKeepsClosed(step: Stepper, folds: seq<Fold>, line: nat, last: nat, x: nat)
    requires Advances(step)
    requires forall f, l: nat :: ClosesOver(f, l, step(f, l))
    requires ClosedAt(folds, x)
    ensures ClosedAt(Sweep(step, folds, line, last).folds, x)
    decreases last + 1 - line
  {
    if line <= last {
      var s := step(folds, line);
      assert ClosesOver(folds, line, s);
      var i :| 0 <= i < |folds| && folds[i].closed && folds[i].Contains(x);
      assert s.folds[i].closed && s.folds[i].Contains(x);
      SweepKeepsClosed(step, s.folds, s.next + 1, last, x);
    }
  }

  lemma {:induction false} SweepCovers(step: Stepper, folds: seq<Fold>, line: nat, last: nat, x: nat)
    requires Advances(step)
    requires forall f, l: nat :: ClosesOver(f, l, step(f, l))
    requires line <= x <= last && Held(folds, x)
    ensures ClosedAt(Sweep(step, folds, line, last).folds, x)
    decreases last + 1 - line
  {
    var s := step(folds, line);
    assert ClosesOver(folds, line, s);
    if x <= s.next {
      SweepKeepsClosed(step, s.folds, s.next + 1, last, x);
    } else {
      var i :| 0 <= i < |folds| && folds[i].Contains(x);
      assert s.folds[i].Contains(x);
      SweepCovers(step, s.folds, s.next + 1, last, x);
    }
  }

  /** After `:foldclose` every line of the range that any fold holds lies in a closed fold. */
  lemma {:induction false} FoldCloseCovers(folds: seq<Fold>, first: nat, last: nat, x: nat)
    requires first <= x <= last && Held(folds, x)
    ensures ClosedAt(OpRange(folds, first, last, false, false).folds, x)
  {
    forall f, l: nat
      ensures ClosesOver(f, l, StepperFor(false, false)(f, l))
    {
      CloseOneEffect(f, l);
    }
    SweepCovers(StepperFor(false, false), folds, first, last, x);
  }

  // ----- It closes exactly these

  /** Open, and inside no closed fold. */
  ghost predicate Exposed(folds: seq<Fold>, i: nat) {
    i < |folds| && !folds[i].closed && forall j: nat :: !ClosedAbove(folds, i, j)
  }

  /** Fold `k` is the deepest exposed fold at `line`. */
  ghost predicate Deepest(folds: seq<Fold>, line: nat, k: nat) {
    && Exposed(folds, k) && folds[k].Contains(line)
    && forall i: nat :: Exposed(folds, i) && folds[i].Contains(line) ==> !Nested(folds[k], folds[i])
  }

  /** Fold `i` is the deepest exposed one at line `v` of the range, and no fold around it is so at an
      earlier line of the range. */
  ghost predicate ClosedBy(folds: seq<Fold>, first: nat, last: nat, i: nat, v: nat) {
    && first <= v <= last && Deepest(folds, v, i)
    && forall u: nat, k: nat :: first <= u < v && Deepest(folds, u, k) ==> !Nested(folds[k], folds[i])
  }

  ghost predicate EndsClosed(folds: seq<Fold>, first: nat, last: nat, i: nat) {
    i < |folds| && (folds[i].closed || exists v: nat :: ClosedBy(folds, first, last, i, v))
  }

  /** The step closes fold `k` alone and skips to its end. */
  ghost predicate ClosesOne(folds: seq<Fold>, line: nat, s: Step, k: nat) {
    && Deepest(folds, line, k) && SameShape(folds, s.folds) && s.next == folds[k].end
    && forall i :: 0 <= i < |folds| ==> (s.folds[i].closed <==> folds[i].closed || i == k)
  }

  /** The step changes nothing and skips only lines that no exposed fold holds. */
  ghost predicate PassesOver(folds: seq<Fold>, line: nat, s: Step) {
    && s.folds == folds && line <= s.next
    && forall u: nat, i: nat :: line <= u <= s.next && Exposed(folds, i) ==> !folds[i].Contains(u)
  }

  ghost predicate ClosesOrPasses(folds: seq<Fold>, line: nat, s: Step) {
    PassesOver(folds, line, s) || exists k: nat :: ClosesOne(folds, line, s, k)
  }

  // What `zc` picks from the path.

  /** Position `p` of the path is the last open one before the first closed one. */
  lemma {:induction false} LastOpenIsAt(folds: seq<Fold>, on: seq<nat>) returns (p: nat)
    requires forall i: nat :: i in on ==> i < |folds|
    requires LastOpenAbove(folds, on).Some?
    ensures p < |on| && LastOpenAbove(folds, on).value == on[p]
    ensures forall q :: 0 <= q <= p ==> on[q] < |folds| && !folds[on[q]].closed
    ensures p + 1 < |on| ==> on[p + 1] < |folds| && folds[on[p + 1]].closed
  {
    assert on[0] in on;
    if LastOpenAbove(folds, on[1..]).None? {
      p := 0;
      if 1 < |on| {
        assert on[1] in on && on[1..][0] == on[1];
      }
    } else {
      assert forall i: nat :: i in on[1..] ==> i in on;
      var q := LastOpenIsAt(folds, on[1..]);
      p := q + 1;
      assert forall r :: 0 < r < |on| ==> on[r] == on[1..][r - 1];
    }
  }

  /** Of two folds on the path of a line, the later is inside the earlier. */
  lemma {:induction false} PathNests(folds: seq<Fold>, line: nat, p: nat, q: nat)
    requires Ranges(folds) && Laminar(folds)
    requires p < |Path(folds, line)| && q < |Path(folds, line)|
    ensures var on := Path(folds, line);
            && on[p] < |folds| && on[q] < |folds| && folds[on[p]].Contains(line)
            && (p <= q ==> on[p] == on[q] || Nested(folds[on[p]], folds[on[q]]))
  {
    PathFacts(folds, line);
    var on := Path(folds, line);
    assert on[p] in on && on[q] in on;
    if p < q && on[p] != on[q] {
      assert PathOrder(folds)(on[p], on[q]);
      assert Apart(folds[on[p]], folds[on[q]]);
    }
  }

  lemma {:induction false} PathPlace(folds: seq<Fold>, line: nat, i: nat) returns (q: nat)
    requires i < |folds| && folds[i].Contains(line)
    ensures q < |Path(folds, line)| && Path(folds, line)[q] == i
  {
    PathFacts(folds, line);
    assert i in Path(folds, line);
    q :| q < |Path(folds, line)| && Path(folds, line)[q] == i;
  }

  lemma {:induction false} OpenPrefixExposes(folds: seq<Fold>, line: nat, p: nat)
    requires Ranges(folds) && Laminar(folds) && p < |Path(folds, line)|
    requires forall q :: 0 <= q <= p ==>
               Path(folds, line)[q] < |folds| && !folds[Path(folds, line)[q]].closed
    ensures Exposed(folds, Path(folds, line)[p])
  {
    var k := Path(folds, line)[p];
    PathNests(folds, line, p, p);
    forall j: nat | ClosedAbove(folds, k, j)
      ensures false
    {
      var q := PathPlace(folds, line, j);
      PathNests(folds, line, p, q);
    }
  }

  lemma {:induction false} ClosedHidesRest(folds: seq<Fold>, line: nat, p: nat, i: nat)
    requires Ranges(folds) && Laminar(folds) && p < |Path(folds, line)|
    requires Path(folds, line)[p] < |folds| && folds[Path(folds, line)[p]].closed
    requires Exposed(folds, i) && folds[i].Contains(line)
    ensures exists q: nat :: q < p && Path(folds, line)[q] == i
  {
    var q := PathPlace(folds, line, i);
    PathNests(folds, line, p, q);
    assert !ClosedAbove(folds, i, Path(folds, line)[p]);
  }

  lemma {:induction false} PickIsDeepest(folds: seq<Fold>, line: nat)
    requires Ranges(folds) && Laminar(folds) && LastOpenAbove(folds, Path(folds, line)).Some?
    ensures Deepest(folds, line, LastOpenAbove(folds, Path(folds, line)).value)
  {
    PathFacts(folds, line);
    var on := Path(folds, line);
    var p := LastOpenIsAt(folds, on);
    OpenPrefixExposes(folds, line, p);
    PathNests(folds, line, p, p);
    forall i: nat | Exposed(folds, i) && folds[i].Contains(line)
      ensures !Nested(folds[on[p]], folds[i])
    {
      var q := PathPlace(folds, line, i);
      if p + 1 < |on| {
        ClosedHidesRest(folds, line, p + 1, i);
        var r: nat :| r < p + 1 && on[r] == i;
        PathNests(folds, line, r, p);
      } else {
        PathNests(folds, line, q, p);
      }
    }
  }

  lemma {:induction false} NoPickNoneExposed(folds: seq<Fold>, line: nat)
    requires Ranges(folds) && Laminar(folds) && LastOpenAbove(folds, Path(folds, line)).None?
    ensures forall i: nat :: Exposed(folds, i) ==> !folds[i].Contains(line)
    ensures Held(folds, line) ==> exists k: nat :: IsOutermostClosed(folds, line, k)
  {
    var on := Path(folds, line);
    PathEmptyIffNotHeld(folds, line);
    if on != [] {
      PathNests(folds, line, 0, 0);
      forall i: nat | Exposed(folds, i)
        ensures !folds[i].Contains(line)
      {
        if folds[i].Contains(line) {
          ClosedHidesRest(folds, line, 0, i);
        }
      }
      forall i: nat | i < |folds| && i != on[0] && folds[i].Contains(line)
        ensures Nested(folds[on[0]], folds[i])
      {
        var q := PathPlace(folds, line, i);
        PathNests(folds, line, 0, q);
      }
      assert IsOutermostClosed(folds, line, on[0]);
    }
  }

  /** `zc` closes the deepest exposed fold of the line, and changes nothing where there is none. */
  lemma {:induction false} CloseOnePicks(folds: seq<Fold>, line: nat)
    ensures var o := CloseOne(folds, line);
            && (o.hit.Some? <==> Held(folds, line))
            && (o.hit != Some(true) ==> o.folds == folds)
            && (Ranges(folds) && Laminar(folds) ==>
                  if o.hit == Some(true)
                  then exists k: nat :: Deepest(folds, line, k) && o.folds == WithClosed(folds, k, true)
                  else forall i: nat :: Exposed(folds, i) ==> !folds[i].Contains(line))
  {
    PathEmptyIffNotHeld(folds, line);
    if Ranges(folds) && Laminar(folds) {
      if LastOpenAbove(folds, Path(folds, line)).Some? {
        PickIsDeepest(folds, line);
      } else {
        NoPickNoneExposed(folds, line);
      }
    }
  }

  // What the step does.

  lemma {:induction false} ClosedPickIsOutermost(folds: seq<Fold>, line: nat, k: nat, now: seq<Fold>)
    requires Ranges(folds) && Laminar(folds) && Deepest(folds, line, k) && now == WithClosed(folds, k, true)
    ensures IsOutermostClosed(now, line, k)
  {
    forall i: nat | i < |now| && i != k && now[i].closed && now[i].Contains(line)
      ensures Nested(now[k], now[i])
    {
      assert Apart(folds[k], folds[i]);
      assert !ClosedAbove(folds, k, i);
    }
  }

  lemma {:induction false} PassedLinesHidden(folds: seq<Fold>, line: nat, k: nat)
    requires Ranges(folds) && Laminar(folds) && IsOutermostClosed(folds, line, k)
    requires forall i: nat :: Exposed(folds, i) ==> !folds[i].Contains(line)
    ensures forall u: nat, i: nat :: line <= u <= folds[k].end && Exposed(folds, i) ==> !folds[i].Contains(u)
  {
    forall u: nat, i: nat | line <= u <= folds[k].end && Exposed(folds, i)
      ensures !folds[i].Contains(u)
    {
      assert Apart(folds[k], folds[i]);
      assert !ClosedAbove(folds, i, k);
    }
  }

  /** On a well-formed set a step of `:foldclose` closes the deepest exposed fold of its line and skips to
      its end, or changes nothing and skips lines where there is none. */
  lemma {:induction false} CloseOneDoes(folds: seq<Fold>, line: nat)
    requires WellFormed(folds)
    ensures ClosesOrPasses(folds, line, StepAt(folds, line, false, false))
  {
    var s := StepAt(folds, line, false, false);
    PathEmptyIffNotHeld(folds, line);
    if LastOpenAbove(folds, Path(folds, line)).Some? {
      var k := LastOpenAbove(folds, Path(folds, line)).value;
      PickIsDeepest(folds, line);
      assert s.folds == WithClosed(folds, k, true);
      ClosedPickIsOutermost(folds, line, k, s.folds);
      ShapeDecidesWellFormed(folds, s.folds);
      OutermostEnd(s.folds, line, k);
      assert ClosesOne(folds, line, s, k);
    } else {
      NoPickNoneExposed(folds, line);
      assert s.folds == folds;
      if Held(folds, line) {
        var k: nat :| IsOutermostClosed(folds, line, k);
        OutermostEnd(folds, line, k);
        PassedLinesHidden(folds, line, k);
      } else {
        SpanIsClosed(folds, line);
        assert !ClosedAt(folds, line);
      }
    }
  }

  // How the steps add up.

  lemma {:induction false} PassingKeepsFate(folds: seq<Fold>, line: nat, last: nat, s: Step, i: nat)
    requires PassesOver(folds, line, s) && line <= last && i < |folds|
    ensures EndsClosed(folds, line, last, i) <==> EndsClosed(folds, s.next + 1, last, i)
  {
    var after := s.next + 1;
    if v: nat :| ClosedBy(folds, line, last, i, v) {
      assert ClosedBy(folds, after, last, i, v);
    }
    if v: nat :| ClosedBy(folds, after, last, i, v) {
      assert ClosedBy(folds, line, last, i, v);
    }
  }

  lemma {:induction false} BeyondIsUntouched(folds: seq<Fold>, line: nat, s: Step, k: nat, v: nat, j: nat)
    requires Ranges(folds) && Laminar(folds) && ClosesOne(folds, line, s, k)
    requires v > s.next
    ensures Deepest(s.folds, v, j) <==> Deepest(folds, v, j)
  {
    forall i: nat | i < |folds| && folds[i].Contains(v)
      ensures Exposed(s.folds, i) <==> Exposed(folds, i)
    {
      ExposedBeyond(folds, line, s, k, i);
    }
  }

  lemma {:induction false} ExposedBeyond(folds: seq<Fold>, line: nat, s: Step, k: nat, i: nat)
    requires ClosesOne(folds, line, s, k) && i < |folds| && folds[i].end > s.next
    ensures Exposed(s.folds, i) <==> Exposed(folds, i)
  {
    forall j: nat
      ensures ClosedAbove(s.folds, i, j) <==> ClosedAbove(folds, i, j)
    {
    }
  }

  /** Within the skipped lines the fold just closed is the deepest exposed one, or another inside it is. */
  lemma {:induction false} SkippedAreInside(folds: seq<Fold>, line: nat, s: Step, k: nat, u: nat, j: nat)
    requires Ranges(folds) && Laminar(folds) && ClosesOne(folds, line, s, k)
    requires line <= u <= s.next && Deepest(folds, u, j)
    ensures j == k || Nested(folds[k], folds[j])
    ensures u == line ==> j == k
  {
    if j != k {
      assert Apart(folds[k], folds[j]);
    }
  }

  lemma {:induction false} ClosingKeepsFate(folds: seq<Fold>, line: nat, last: nat, s: Step, k: nat, i: nat)
    requires Ranges(folds) && Laminar(folds) && ClosesOne(folds, line, s, k) && line <= last && i < |folds|
    ensures EndsClosed(folds, line, last, i) <==> EndsClosed(s.folds, s.next + 1, last, i)
  {
    if i == k {
      assert ClosedBy(folds, line, last, i, line);
    } else {
      var after := s.next + 1;
      if v: nat :| ClosedBy(folds, line, last, i, v) {
        ClosedByBeyond(folds, line, last, s, k, i, v);
      }
      if v: nat :| ClosedBy(s.folds, after, last, i, v) {
        ClosedByBeyond(folds, line, last, s, k, i, v);
      }
    }
  }

  lemma {:induction false} ClosedByBeyond(
      folds: seq<Fold>, line: nat, last: nat, s: Step, k: nat, i: nat, v: nat)
    requires Ranges(folds) && Laminar(folds) && ClosesOne(folds, line, s, k) && line <= last && i < |folds| && i != k
    ensures ClosedBy(folds, line, last, i, v) <==> ClosedBy(s.folds, s.next + 1, last, i, v)
  {
    if line <= v <= s.next && Deepest(folds, v, i) {
      SkippedAreInside(folds, line, s, k, v, i);
    }
    if v > s.next {
      forall u: nat, j: nat | line <= u < v
        ensures u > s.next ==> (Deepest(s.folds, u, j) <==> Deepest(folds, u, j))
        ensures u <= s.next && Deepest(folds, u, j) && folds[i].Contains(v) ==> !Nested(folds[j], folds[i])
      {
        if u > s.next {
          BeyondIsUntouched(folds, line, s, k, u, j);
        } else if Deepest(folds, u, j) {
          SkippedAreInside(folds, line, s, k, u, j);
        }
      }
      BeyondIsUntouched(folds, line, s, k, v, i);
    }
  }

  lemma {:induction false} CloseOneStep(folds: seq<Fold>, line: nat, last: nat, s: Step, i: nat)
    requires WellFormed(folds) && ClosesOrPasses(folds, line, s) && line <= last && i < |folds|
    ensures WellFormed(s.folds) && |s.folds| == |folds|
    ensures EndsClosed(folds, line, last, i) <==> EndsClosed(s.folds, s.next + 1, last, i)
  {
    if PassesOver(folds, line, s) {
      PassingKeepsFate(folds, line, last, s, i);
    } else {
      var k: nat :| ClosesOne(folds, line, s, k);
      ShapeDecidesWellFormed(folds, s.folds);
      ClosingKeepsFate(folds, line, last, s, k, i);
    }
  }

  lemma {:induction false} SweepEndsClosed(step: Stepper, folds: seq<Fold>, first: nat, last: nat, i: nat)
    requires Advances(step) && WellFormed(folds) && i < |folds|
    requires forall f, l: nat :: WellFormed(f) ==> ClosesOrPasses(f, l, step(f, l))
    ensures var r := Sweep(step, folds, first, last).folds;
            |r| == |folds| && (r[i].closed <==> EndsClosed(folds, first, last, i))
    decreases last + 1 - first
  {
    if first <= last {
      var s := step(folds, first);
      assert ClosesOrPasses(folds, first, s);
      CloseOneStep(folds, first, last, s, i);
      SweepEndsClosed(step, s.folds, s.next + 1, last, i);
    }
  }

  /** `:foldclose` leaves a fold closed exactly when it was, or it is the deepest exposed fold at some line
      of the range with no fold around it being so at an earlier line of the range. */
  lemma {:induction false} FoldCloseOneLevel(folds: seq<Fold>, first: nat, last: nat, i: nat)
    requires WellFormed(folds) && i < |folds|
    ensures var r := OpRange(folds, first, last, false, false).folds;
            |r| == |folds| && (r[i].closed <==> EndsClosed(folds, first, last, i))
  {
    forall f, l: nat | WellFormed(f)
      ensures ClosesOrPasses(f, l, StepperFor(false, false)(f, l))
    {
      CloseOneDoes(f, l);
    }
    SweepEndsClosed(StepperFor(false, false), folds, first, last, i);
  }
}
