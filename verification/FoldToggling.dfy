/**
 Opening and closing on one line: the path of folds around it, `zo`/`zO`/`zc`/`zC` on that path, and `zv`.
 */
module FoldToggling {
  import opened Options
  import opened Sorting
  import opened FoldSets

  // ----- The path

  function FoldOrNone(folds: seq<Fold>, i: nat): Fold {
    if i < |folds| then folds[i] else Fold(0, 0, false, 0)
  }

  /** Outermost first: level up, start up, end down. */
  predicate PathLe(a: Fold, b: Fold) {
    a.level < b.level
    || (a.level == b.level && (a.start < b.start || (a.start == b.start && a.end >= b.end)))
  }

  function PathOrder(folds: seq<Fold>): (nat, nat) -> bool {
    (i: nat, j: nat) => PathLe(FoldOrNone(folds, i), FoldOrNone(folds, j))
  }

  function HoldingBelow(folds: seq<Fold>, line: nat, n: nat): (r: seq<nat>)
    requires n <= |folds|
    ensures forall i: nat :: i in r <==> i < n && folds[i].Contains(line)
  {
    if n == 0 then []
    else HoldingBelow(folds, line, n - 1) + if folds[n - 1].Contains(line) then [n - 1] else []
  }

  /** The indices of the folds that hold `line`, outermost first. */
  function Path(folds: seq<Fold>, line: nat): seq<nat> {
    Sort(HoldingBelow(folds, line, |folds|), PathOrder(folds))
  }

  lemma {:induction false} PathFacts(folds: seq<Fold>, line: nat)
    ensures forall i: nat :: i in Path(folds, line) <==> i < |folds| && folds[i].Contains(line)
    ensures SortedBy(Path(folds, line), PathOrder(folds))
  {
    SortMembers(HoldingBelow(folds, line, |folds|), PathOrder(folds));
    assert TotalPreorder(PathOrder(folds));
    SortSorted(HoldingBelow(folds, line, |folds|), PathOrder(folds));
  }

  lemma {:induction false} PathEmptyIffNotHeld(folds: seq<Fold>, line: nat)
    ensures Path(folds, line) == [] <==> !Held(folds, line)
  {
    PathFacts(folds, line);
    if Path(folds, line) != [] {
      var i := Path(folds, line)[0];
      assert i in Path(folds, line) && folds[i].Contains(line);
    }
    if i: nat :| i < |folds| && folds[i].Contains(line) {
      assert i in Path(folds, line);
    }
  }

  /** The first fold of `on` that satisfies `p`. */
  function FirstOn(folds: seq<Fold>, on: seq<nat>, p: Fold -> bool): (r: Option<nat>)
    ensures r.Some? ==> r.value in on && r.value < |folds| && p(folds[r.value])
  {
    if on == [] then None
    else if on[0] < |folds| && p(folds[on[0]]) then Some(on[0])
    else FirstOn(folds, on[1..], p)
  }

  /** The last fold of `on` before its first closed one. */
  function LastOpenAbove(folds: seq<Fold>, on: seq<nat>): (r: Option<nat>)
    ensures r.Some? ==> r.value in on && r.value < |folds| && !folds[r.value].closed
    ensures r.None? && on != [] ==> on[0] < |folds| ==> folds[on[0]].closed
  {
    if on == [] || on[0] >= |folds| || folds[on[0]].closed then None
    else match LastOpenAbove(folds, on[1..])
      case None => Some(on[0])
      case Some(i) => Some(i)
  }

  lemma {:induction false} FirstOnIsLeast(folds: seq<Fold>, on: seq<nat>, p: Fold -> bool, j: nat)
    requires forall i: nat :: i in on ==> i < |folds|
    requires SortedBy(on, PathOrder(folds)) && j in on && p(folds[j])
    ensures FirstOn(folds, on, p).Some?
    ensures folds[FirstOn(folds, on, p).value].level <= folds[j].level
  {
    assert on[0] in on;
    if !p(folds[on[0]]) {
      assert forall i: nat :: i in on[1..] ==> i in on;
      assert on == [on[0]] + on[1..];
      FirstOnIsLeast(folds, on[1..], p, j);
    } else {
      var k :| 0 <= k < |on| && on[k] == j;
      assert k > 0 ==> PathOrder(folds)(on[0], on[k]);
    }
  }

  predicate IsClosed(f: Fold) {
    f.closed
  }

  /** `zo` picks a closed fold holding the line, no deeper than any other. */
  function OutermostClosedAt(folds: seq<Fold>, line: nat): Option<nat> {
    FirstOn(folds, Path(folds, line), IsClosed)
  }

  lemma {:induction false} OutermostClosedFacts(folds: seq<Fold>, line: nat)
    ensures var k := OutermostClosedAt(folds, line);
            && (k.None? ==> forall i :: 0 <= i < |folds| && folds[i].Contains(line) ==> !folds[i].closed)
            && (k.Some? ==>
                  && k.value < |folds| && folds[k.value].closed && folds[k.value].Contains(line)
                  && forall i :: 0 <= i < |folds| && folds[i].Contains(line) && folds[i].closed ==>
                       folds[k.value].level <= folds[i].level)
  {
    PathFacts(folds, line);
    forall i: nat | i < |folds| && folds[i].Contains(line) && folds[i].closed
      ensures OutermostClosedAt(folds, line).Some?
      ensures folds[OutermostClosedAt(folds, line).value].level <= folds[i].level
    {
      FirstOnIsLeast(folds, Path(folds, line), IsClosed, i);
    }
  }

  // ----- One line

  datatype Outcome = Outcome(folds: seq<Fold>, hit: Option<bool>)

  function WithClosed(folds: seq<Fold>, i: nat, closed: bool): seq<Fold>
    requires i < |folds|
  {
    folds[i := folds[i].(closed := closed)]
  }

  function OpenOne(folds: seq<Fold>, line: nat): Outcome {
    if Path(folds, line) == [] then Outcome(folds, None)
    else match OutermostClosedAt(folds, line)
      case None => Outcome(folds, Some(false))
      case Some(i) => Outcome(WithClosed(folds, i, false), Some(true))
  }

  /** `after` is `before` with one fold opened: closed, holding `line`, and no closed one there is further
      out. */
  ghost predicate OpensOutermost(before: seq<Fold>, after: seq<Fold>, line: nat, k: nat) {
    && k < |before| && before[k].closed && before[k].Contains(line) && after == WithClosed(before, k, false)
    && forall i :: 0 <= i < |before| && before[i].closed && before[i].Contains(line) ==>
         before[k].level <= before[i].level
  }

  lemma {:induction false} OpenOneOpens(folds: seq<Fold>, line: nat)
    ensures var o := OpenOne(folds, line);
            && (o.hit.Some? <==> Held(folds, line)) && (o.hit == Some(true) <==> ClosedAt(folds, line))
            && if ClosedAt(folds, line) then exists k: nat :: OpensOutermost(folds, o.folds, line, k)
               else o.folds == folds
  {
    PathEmptyIffNotHeld(folds, line);
    OutermostClosedFacts(folds, line);
    if ClosedAt(folds, line) {
      var i :| 0 <= i < |folds| && folds[i].closed && folds[i].Contains(line);
      assert Held(folds, line);
      assert OpensOutermost(folds, OpenOne(folds, line).folds, line, OutermostClosedAt(folds, line).value);
    }
  }

  function OpenedWithin(folds: seq<Fold>, i: nat): (r: seq<Fold>)
    requires i < |folds|
    ensures |r| == |folds|
    ensures forall j :: 0 <= j < |folds| ==>
              r[j] == if j == i || Nested(folds[i], folds[j]) then folds[j].(closed := false) else folds[j]
  {
    seq(|folds|, j requires 0 <= j < |folds| =>
      if j == i || Nested(folds[i], folds[j]) then folds[j].(closed := false) else folds[j])
  }

  function OpenRec(folds: seq<Fold>, line: nat): Outcome {
    if Path(folds, line) == [] then Outcome(folds, None)
    else match OutermostClosedAt(folds, line)
      case None => Outcome(folds, Some(false))
      case Some(i) => Outcome(OpenedWithin(folds, i), Some(true))
  }

  /** `zO` opens the outermost closed fold and the folds inside it, and reports whether there was one. */
  lemma {:induction false} OpenRecOpens(folds: seq<Fold>, line: nat)
    ensures var o := OpenRec(folds, line);
            && (o.hit.Some? <==> Held(folds, line)) && (o.hit == Some(true) <==> ClosedAt(folds, line))
            && if !ClosedAt(folds, line) then o.folds == folds
               else exists k: nat ::
                 && OpensOutermost(folds, WithClosedAt(folds, k), line, k) && |o.folds| == |folds|
                 && forall j :: 0 <= j < |folds| ==>
                      o.folds[j] == if j == k || Nested(folds[k], folds[j]) then folds[j].(closed := false)
                                    else folds[j]
  {
    OpenOneOpens(folds, line);
    PathEmptyIffNotHeld(folds, line);
    OutermostClosedFacts(folds, line);
    if ClosedAt(folds, line) {
      var k := OutermostClosedAt(folds, line).value;
      assert OpensOutermost(folds, WithClosedAt(folds, k), line, k);
    }
  }

  function WithClosedAt(folds: seq<Fold>, k: nat): seq<Fold> {
    if k < |folds| then WithClosed(folds, k, false) else folds
  }

  function CloseOne(folds: seq<Fold>, line: nat): Outcome {
    if Path(folds, line) == [] then Outcome(folds, None)
    else match LastOpenAbove(folds, Path(folds, line))
      case None => Outcome(folds, Some(false))
      case Some(i) => Outcome(WithClosed(folds, i, true), Some(true))
  }

  function ClosedAround(folds: seq<Fold>, line: nat): (r: seq<Fold>)
    ensures |r| == |folds|
    ensures forall j :: 0 <= j < |folds| ==>
              r[j] == folds[j].(closed := folds[j].closed || folds[j].Contains(line))
  {
    seq(|folds|, j requires 0 <= j < |folds| =>
      folds[j].(closed := folds[j].closed || folds[j].Contains(line)))
  }

  predicate OpenAround(folds: seq<Fold>, line: nat) {
    exists i :: 0 <= i < |folds| && folds[i].Contains(line) && !folds[i].closed
  }

  function CloseRec(folds: seq<Fold>, line: nat): Outcome {
    if Path(folds, line) == [] then Outcome(folds, None)
    else Outcome(ClosedAround(folds, line), Some(OpenAround(folds, line)))
  }

  /** `zC` closes exactly the folds that hold the line, and reports whether one of them was open. */
  lemma {:induction false} CloseRecCloses(folds: seq<Fold>, line: nat)
    ensures var o := CloseRec(folds, line);
            && (o.hit.Some? <==> Held(folds, line))
            && (o.hit == Some(true) <==> exists i :: 0 <= i < |folds| && folds[i].Contains(line) && !folds[i].closed)
            && |o.folds| == |folds|
            && forall j :: 0 <= j < |folds| ==>
                 o.folds[j] == if folds[j].Contains(line) then folds[j].(closed := true) else folds[j]
  {
    PathEmptyIffNotHeld(folds, line);
  }

  function Toggle(folds: seq<Fold>, line: nat, opening: bool, recursive: bool): Outcome {
    if opening then if recursive then OpenRec(folds, line) else OpenOne(folds, line)
    else if recursive then CloseRec(folds, line) else CloseOne(folds, line)
  }

  lemma {:induction false} OpeningKeepsShape(folds: seq<Fold>, line: nat)
    ensures SameShape(folds, OpenOne(folds, line).folds)
    ensures SameShape(folds, OpenRec(folds, line).folds)
  {
  }

  lemma {:induction false} ClosingKeepsShape(folds: seq<Fold>, line: nat)
    ensures SameShape(folds, CloseOne(folds, line).folds)
    ensures SameShape(folds, CloseRec(folds, line).folds)
  {
  }

  lemma {:induction false} ToggleKeepsShape(folds: seq<Fold>, line: nat, opening: bool, recursive: bool)
    ensures SameShape(folds, Toggle(folds, line, opening, recursive).folds)
    ensures Toggle(folds, line, opening, recursive).hit.Some? <==> Held(folds, line)
  {
    PathEmptyIffNotHeld(folds, line);
    OpeningKeepsShape(folds, line);
    ClosingKeepsShape(folds, line);
  }

  // ----- `zv`

  function OpenedAround(folds: seq<Fold>, line: nat): (r: seq<Fold>)
    ensures |r| == |folds|
    ensures forall j :: 0 <= j < |folds| ==>
              r[j] == folds[j].(closed := folds[j].closed && !folds[j].Contains(line))
  {
    seq(|folds|, j requires 0 <= j < |folds| =>
      folds[j].(closed := folds[j].closed && !folds[j].Contains(line)))
  }

  predicate ClosedAt(folds: seq<Fold>, line: nat) {
    exists i :: 0 <= i < |folds| && folds[i].closed && folds[i].Contains(line)
  }

  lemma {:induction false} ClosedAtGrows(folds: seq<Fold>, line: nat, j: nat)
    requires j < |folds|
    ensures ClosedAt(folds[..j + 1], line) <==>
              ClosedAt(folds[..j], line) || (folds[j].closed && folds[j].Contains(line))
  {
    var shorter, longer := folds[..j], folds[..j + 1];
    assert longer == shorter + [folds[j]];
    if i :| 0 <= i < |shorter| && shorter[i].closed && shorter[i].Contains(line) {
      assert longer[i] == shorter[i];
    }
    if folds[j].closed && folds[j].Contains(line) {
      assert longer[j] == folds[j];
    }
  }

  ghost function ClosedSet(folds: seq<Fold>): set<nat> {
    set i: nat | i < |folds| && folds[i].closed
  }

  /** One more `zo` takes one closed fold away and does not change what all of them together reach. */
  lemma {:induction false} OpenOneProgress(folds: seq<Fold>, line: nat)
    ensures var o := OpenOne(folds, line);
            && OpenedAround(o.folds, line) == OpenedAround(folds, line)
            && (o.hit == Some(true) <==> ClosedAt(folds, line))
            && (o.hit == Some(true) ==> ClosedSet(o.folds) < ClosedSet(folds))
            && (o.hit != Some(true) ==> folds == OpenedAround(folds, line))
  {
    PathEmptyIffNotHeld(folds, line);
    OutermostClosedFacts(folds, line);
    var o := OpenOne(folds, line);
    if o.hit == Some(true) {
      var i := OutermostClosedAt(folds, line).value;
      assert i in ClosedSet(folds) && i !in ClosedSet(o.folds);
    }
  }

}
