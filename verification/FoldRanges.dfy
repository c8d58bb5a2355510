/**
 `:{range}foldopen[!]` and `:{range}foldclose[!]`: a `zo`/`zO`/`zc`/`zC` on each line in turn, skipping
 past the closed fold that a level-one open leaves or a close makes. The sweep is stated over the step it
 takes at one line; each step is then described by what it does to the closed flags (`:foldclose` without
 the bang has a module of its own).
 */
module FoldRanges {
  import opened Options
  import opened FoldSets
  import opened FoldGeometry
  import opened FoldToggling

  /** What happens at one line: the new folds, whether a fold held the line, and the line skipped to. */
  datatype Step = Step(folds: seq<Fold>, held: bool, next: nat)

  type Stepper = (seq<Fold>, nat) -> Step

  datatype Swept = Swept(folds: seq<Fold>, found: bool)

  ghost predicate Advances(step: Stepper) {
    forall f, l: nat :: l <= step(f, l).next
  }

  function Sweep(step: Stepper, folds: seq<Fold>, line: nat, last: nat): Swept
    requires Advances(step)
    decreases last + 1 - line
  {
    if line > last then Swept(folds, false)
    else
      var s := step(folds, line);
      var rest := Sweep(step, s.folds, s.next + 1, last);
      Swept(rest.folds, s.held || rest.found)
  }

  function StepAt(folds: seq<Fold>, line: nat, opening: bool, recursive: bool): (s: Step)
    ensures line <= s.next
  {
    var o := Toggle(folds, line, opening, recursive);
    Step(o.folds, o.hit.Some?,
         if recursive then line else ClosedEnd(if opening then folds else o.folds, line))
  }

  function StepperFor(opening: bool, recursive: bool): (step: Stepper)
    ensures forall f, l: nat :: step(f, l) == StepAt(f, l, opening, recursive)
    ensures Advances(step)
  {
    (f: seq<Fold>, l: nat) => StepAt(f, l, opening, recursive)
  }

  function OpRange(folds: seq<Fold>, first: nat, last: nat, opening: bool, recursive: bool): Swept {
    Sweep(StepperFor(opening, recursive), folds, first, last)
  }

  function Joined(found: bool, rest: Swept): Swept {
    Swept(rest.folds, found || rest.found)
  }

  /** `step` does at this line what the command says. */
  ghost predicate StepsAt(step: Stepper, folds: seq<Fold>, line: nat, opening: bool, recursive: bool) {
    step(folds, line) == StepAt(folds, line, opening, recursive)
  }

  ghost predicate Does(step: Stepper, opening: bool, recursive: bool) {
    forall f, l: nat {:trigger StepsAt(step, f, l, opening, recursive)} ::
      StepsAt(step, f, l, opening, recursive)
  }

  // ----- What every step keeps

  ghost predicate Plain(folds: seq<Fold>, line: nat, s: Step) {
    && SameShape(folds, s.folds)
    && line <= s.next
    && (s.held <==> Held(folds, line))
    && (s.next > line ==> Held(folds, line))
  }

  lemma {:induction false} StepIsPlain(folds: seq<Fold>, line: nat, opening: bool, recursive: bool)
    ensures Plain(folds, line, StepAt(folds, line, opening, recursive))
  {
    var s := StepAt(folds, line, opening, recursive);
    ToggleKeepsShape(folds, line, opening, recursive);
    if s.next > line {
      var now := if opening then folds else s.folds;
      var a, b := SpanReached(now, line);
      var i :| 0 <= i < |now| && now[i] == a;
      assert folds[i].Contains(line);
    }
  }

  lemma {:induction false} SweepKeepsShape(step: Stepper, folds: seq<Fold>, line: nat, last: nat)
    requires Advances(step)
    requires forall f, l: nat :: Plain(f, l, step(f, l))
    ensures SameShape(folds, Sweep(step, folds, line, last).folds)
    decreases last + 1 - line
  {
    if line <= last {
      var s := step(folds, line);
      assert Plain(folds, line, s);
      SweepKeepsShape(step, s.folds, s.next + 1, last);
    }
  }

  lemma {:induction false} MeetsFromNext(f: Fold, line: nat, last: nat)
    requires f.start <= f.end && line <= last
    ensures f.Meets(line, last) <==> f.Contains(line) || f.Meets(line + 1, last)
  {
  }

  lemma {:induction false} MeetsAfterSkip(folds: seq<Fold>, line: nat, last: nat, s: Step)
    requires OrderedRanges(folds) && Plain(folds, line, s) && line <= last
    ensures AnyMeets(folds, line, last) <==> s.held || AnyMeets(s.folds, s.next + 1, last)
  {
    if i :| 0 <= i < |folds| && folds[i].Meets(line, last) {
      MeetsFromNext(folds[i], line, last);
      if !s.held {
        assert s.folds[i].Meets(line + 1, last);
      }
    }
    if i :| 0 <= i < |folds| && folds[i].Contains(line) {
      assert folds[i].Meets(line, last);
    }
    if i :| 0 <= i < |s.folds| && s.folds[i].Meets(s.next + 1, last) {
      assert folds[i].Meets(line, last);
    }
  }

  lemma {:induction false} SweepFound(step: Stepper, folds: seq<Fold>, line: nat, last: nat)
    requires Advances(step)
    requires forall f, l: nat :: Plain(f, l, step(f, l))
    requires OrderedRanges(folds)
    ensures Sweep(step, folds, line, last).found <==> AnyMeets(folds, line, last)
    decreases last + 1 - line
  {
    if line <= last {
      var s := step(folds, line);
      assert Plain(folds, line, s);
      MeetsAfterSkip(folds, line, last, s);
      SweepFound(step, s.folds, s.next + 1, last);
    }
  }

  lemma {:induction false} StepperIsPlain(opening: bool, recursive: bool)
    ensures forall f, l: nat :: Plain(f, l, StepperFor(opening, recursive)(f, l))
  {
    forall f, l: nat
      ensures Plain(f, l, StepperFor(opening, recursive)(f, l))
    {
      StepIsPlain(f, l, opening, recursive);
    }
  }

  /** No range command changes a line range or a level, and `E490` is avoided exactly when some fold
      meets the range, whatever the sweep skipped. */
  lemma {:induction false} OpRangeFound(folds: seq<Fold>, first: nat, last: nat, opening: bool, recursive: bool)
    requires OrderedRanges(folds)
    ensures SameShape(folds, OpRange(folds, first, last, opening, recursive).folds)
    ensures OpRange(folds, first, last, opening, recursive).found
       <==> AnyMeets(folds, first, last)
  {
    var step := StepperFor(opening, recursive);
    StepperIsPlain(opening, recursive);
    SweepKeepsShape(step, folds, first, last);
    SweepFound(step, folds, first, last);
  }

  // ----- `:foldclose!`

  ghost predicate ClosesHere(folds: seq<Fold>, line: nat, s: Step) {
    && SameShape(folds, s.folds) && s.next == line
    && forall i :: 0 <= i < |folds| ==>
         (s.folds[i].closed <==> folds[i].closed || folds[i].Contains(line))
  }

  lemma {:induction false} CloseRecEffect(folds: seq<Fold>, line: nat)
    ensures ClosesHere(folds, line, StepAt(folds, line, false, true))
  {
    PathEmptyIffNotHeld(folds, line);
  }

  lemma {:induction false} SweepCloses(step: Stepper, folds: seq<Fold>, line: nat, last: nat, i: nat)
    requires Advances(step)
    requires forall f, l: nat :: ClosesHere(f, l, step(f, l))
    requires OrderedRanges(folds) && i < |folds|
    ensures var r := Sweep(step, folds, line, last).folds;
            |r| == |folds|
            && (r[i].closed <==> folds[i].closed || folds[i].Meets(line, last))
    decreases last + 1 - line
  {
    if line <= last {
      var s := step(folds, line);
      assert ClosesHere(folds, line, s);
      MeetsFromNext(folds[i], line, last);
      SweepCloses(step, s.folds, line + 1, last, i);
    }
  }

  /** `:foldclose!` leaves a fold closed exactly when it was closed or meets the range. */
  lemma {:induction false} FoldCloseAll(folds: seq<Fold>, first: nat, last: nat, i: nat)
    requires OrderedRanges(folds) && i < |folds|
    ensures var r := OpRange(folds, first, last, false, true).folds;
            |r| == |folds| && (r[i].closed <==> folds[i].closed || folds[i].Meets(first, last))
  {
    forall f, l: nat
      ensures ClosesHere(f, l, StepperFor(false, true)(f, l))
    {
      CloseRecEffect(f, l);
    }
    SweepCloses(StepperFor(false, true), folds, first, last, i);
  }

  // ----- `:foldopen!` and `:foldopen`

  /** The first closed fold from the outside at `line`, as seen through the flags alone. */
  ghost predicate IsOutermostClosed(folds: seq<Fold>, line: nat, k: nat) {
    && k < |folds| && folds[k].closed && folds[k].Contains(line)
    && forall i :: 0 <= i < |folds| && i != k && folds[i].closed && folds[i].Contains(line) ==>
         Nested(folds[k], folds[i])
  }

  ghost predicate OpensTreeOf(folds: seq<Fold>, line: nat, s: Step, k: nat) {
    && IsOutermostClosed(folds, line, k) && SameShape(folds, s.folds) && s.next == line
    && forall i :: 0 <= i < |folds| ==>
         (s.folds[i].closed <==> folds[i].closed && i != k && !Nested(folds[k], folds[i]))
  }

  ghost predicate OpensTree(folds: seq<Fold>, line: nat, s: Step) {
    if ClosedAt(folds, line) then exists k: nat :: OpensTreeOf(folds, line, s, k)
    else s.folds == folds && s.next == line
  }

  ghost predicate OpensOneOf(folds: seq<Fold>, line: nat, s: Step, k: nat) {
    && IsOutermostClosed(folds, line, k) && SameShape(folds, s.folds) && s.next == folds[k].end
    && forall i :: 0 <= i < |folds| ==> (s.folds[i].closed <==> folds[i].closed && i != k)
  }

  ghost predicate OpensOne(folds: seq<Fold>, line: nat, s: Step) {
    if ClosedAt(folds, line) then exists k: nat :: OpensOneOf(folds, line, s, k)
    else s.folds == folds && s.next == line
  }

  lemma {:induction false} OutermostOnWellFormed(folds: seq<Fold>, line: nat)
    requires WellFormed(folds)
    ensures OutermostClosedAt(folds, line).Some? <==> ClosedAt(folds, line)
    ensures ClosedAt(folds, line) ==> IsOutermostClosed(folds, line, OutermostClosedAt(folds, line).value)
  {
    OutermostClosedFacts(folds, line);
    if ClosedAt(folds, line) {
      var k := OutermostClosedAt(folds, line).value;
      forall i | 0 <= i < |folds| && i != k && folds[i].closed && folds[i].Contains(line)
        ensures Nested(folds[k], folds[i])
      {
        assert Apart(folds[k], folds[i]);
      }
    }
  }

  lemma {:induction false} OutermostEnd(folds: seq<Fold>, line: nat, k: nat)
    requires WellFormed(folds) && IsOutermostClosed(folds, line, k)
    ensures ClosedEnd(folds, line) == folds[k].end
  {
    if folds[k].ShowsClosed() {
      SpanHolds(folds, line, folds[k]);
    }
    if ClosedRange(folds, line).Some? {
      var a, b := SpanReached(folds, line);
      var j :| 0 <= j < |folds| && folds[j] == b;
      assert j == k || Nested(folds[k], folds[j]);
    }
  }

  lemma {:induction false} OpenSteps(folds: seq<Fold>, line: nat)
    requires OutermostClosedAt(folds, line).Some? <==> ClosedAt(folds, line)
    ensures var k := OutermostClosedAt(folds, line);
            && StepAt(folds, line, true, true).next == line
            && StepAt(folds, line, true, false).next == ClosedEnd(folds, line)
            && StepAt(folds, line, true, true).folds
                 == (if k.Some? then OpenedWithin(folds, k.value) else folds)
            && StepAt(folds, line, true, false).folds
                 == (if k.Some? then WithClosed(folds, k.value, false) else folds)
  {
    PathEmptyIffNotHeld(folds, line);
  }

  lemma {:induction false} OpenStepsFrom(folds: seq<Fold>, line: nat, k: nat)
    requires OutermostClosedAt(folds, line) == Some(k) && IsOutermostClosed(folds, line, k)
    requires ClosedEnd(folds, line) == folds[k].end
    ensures OpensTreeOf(folds, line, StepAt(folds, line, true, true), k)
    ensures OpensOneOf(folds, line, StepAt(folds, line, true, false), k)
  {
    assert ClosedAt(folds, line);
    OpenSteps(folds, line);
  }

  lemma {:induction false} OpenStepsNone(folds: seq<Fold>, line: nat)
    requires OutermostClosedAt(folds, line).None? && !ClosedAt(folds, line)
    ensures OpensTree(folds, line, StepAt(folds, line, true, true))
    ensures OpensOne(folds, line, StepAt(folds, line, true, false))
  {
    OpenSteps(folds, line);
    SpanIsClosed(folds, line);
  }

  lemma {:induction false} SpanIsClosed(folds: seq<Fold>, line: nat)
    ensures ClosedRange(folds, line).Some? ==> ClosedAt(folds, line)
  {
    if ClosedRange(folds, line).Some? {
      var a, b := SpanReached(folds, line);
      var j :| 0 <= j < |folds| && folds[j] == a;
    }
  }

  /** On a well-formed set `zO` opens the outermost closed fold with all it holds, `zo` that fold alone,
      and the sweep goes on after its end. */
  lemma {:induction false} OpenEffects(folds: seq<Fold>, line: nat)
    requires WellFormed(folds)
    ensures OpensTree(folds, line, StepAt(folds, line, true, true))
    ensures OpensOne(folds, line, StepAt(folds, line, true, false))
  {
    OutermostOnWellFormed(folds, line);
    if ClosedAt(folds, line) {
      var k := OutermostClosedAt(folds, line).value;
      OutermostEnd(folds, line, k);
      OpenStepsFrom(folds, line, k);
    } else {
      OpenStepsNone(folds, line);
    }
  }

  /** Fold `j` is closed, and fold `i` lies inside it. */
  ghost predicate ClosedAbove(folds: seq<Fold>, i: nat, j: nat) {
    i < |folds| && j < |folds| && folds[j].closed && Nested(folds[j], folds[i])
  }

  ghost predicate StaysClosedOpeningAll(folds: seq<Fold>, first: nat, last: nat, i: nat) {
    && i < |folds| && folds[i].closed && !folds[i].Meets(first, last)
    && forall j: nat :: ClosedAbove(folds, i, j) ==> !folds[j].Meets(first, last)
  }

  ghost predicate StaysClosedOpeningOne(folds: seq<Fold>, first: nat, last: nat, i: nat) {
    i < |folds| && folds[i].closed && (!folds[i].Meets(first, last) || exists j: nat :: ClosedAbove(folds, i, j))
  }

  lemma {:induction false} OpensTreeStep(folds: seq<Fold>, line: nat, last: nat, s: Step, k: nat, i: nat)
    requires Ranges(folds) && OpensTreeOf(folds, line, s, k) && line <= last && i < |folds|
    ensures StaysClosedOpeningAll(folds, line, last, i)
       <==> StaysClosedOpeningAll(s.folds, line + 1, last, i)
  {
    MeetsFromNext(folds[i], line, last);
    if Nested(folds[k], folds[i]) {
      assert ClosedAbove(folds, i, k) && folds[k].Meets(line, last);
    } else if i != k && folds[i].closed {
      forall j: nat
        ensures ClosedAbove(s.folds, i, j) <==> ClosedAbove(folds, i, j)
      {
      }
      forall j: nat | ClosedAbove(folds, i, j)
        ensures folds[j].Meets(line, last) <==> s.folds[j].Meets(line + 1, last)
      {
        MeetsFromNext(folds[j], line, last);
      }
    }
  }

  lemma {:induction false} OpensOneStep(folds: seq<Fold>, line: nat, last: nat, s: Step, k: nat, i: nat)
    requires Ranges(folds) && Laminar(folds) && OpensOneOf(folds, line, s, k) && line <= last && i < |folds|
    ensures StaysClosedOpeningOne(folds, line, last, i)
       <==> StaysClosedOpeningOne(s.folds, s.next + 1, last, i)
  {
    forall j: nat
      ensures ClosedAbove(s.folds, i, j) <==> ClosedAbove(folds, i, j) && j != k
    {
    }
    if i == k {
      assert forall j: nat :: ClosedAbove(folds, k, j) ==> folds[j].Contains(line);
    } else if Nested(folds[k], folds[i]) {
      assert ClosedAbove(folds, i, k);
    } else if folds[i].closed {
      assert Apart(folds[i], folds[k]);
      assert !folds[i].Contains(line);
    }
  }

  lemma {:induction false} NoStep(folds: seq<Fold>, line: nat, last: nat, i: nat)
    requires Ranges(folds) && !ClosedAt(folds, line) && line <= last && i < |folds|
    ensures StaysClosedOpeningAll(folds, line, last, i) <==> StaysClosedOpeningAll(folds, line + 1, last, i)
    ensures StaysClosedOpeningOne(folds, line, last, i) <==> StaysClosedOpeningOne(folds, line + 1, last, i)
  {
    forall j: nat | j < |folds| && folds[j].closed
      ensures folds[j].Meets(line, last) <==> folds[j].Meets(line + 1, last)
    {
      MeetsFromNext(folds[j], line, last);
      assert !folds[j].Contains(line);
    }
  }

  lemma {:induction false} OpenAllStep(folds: seq<Fold>, line: nat, last: nat, s: Step, i: nat)
    requires WellFormed(folds) && OpensTree(folds, line, s) && line <= last && i < |folds|
    ensures WellFormed(s.folds) && |s.folds| == |folds| && s.next == line
    ensures StaysClosedOpeningAll(folds, line, last, i)
       <==> StaysClosedOpeningAll(s.folds, line + 1, last, i)
  {
    if ClosedAt(folds, line) {
      var k: nat :| OpensTreeOf(folds, line, s, k);
      ShapeDecidesWellFormed(folds, s.folds);
      OpensTreeStep(folds, line, last, s, k, i);
    } else {
      NoStep(folds, line, last, i);
    }
  }

  lemma {:induction false} OpenOneStep(folds: seq<Fold>, line: nat, last: nat, s: Step, i: nat)
    requires WellFormed(folds) && OpensOne(folds, line, s) && line <= last && i < |folds|
    ensures WellFormed(s.folds) && |s.folds| == |folds|
    ensures StaysClosedOpeningOne(folds, line, last, i)
       <==> StaysClosedOpeningOne(s.folds, s.next + 1, last, i)
  {
    if ClosedAt(folds, line) {
      var k: nat :| OpensOneOf(folds, line, s, k);
      ShapeDecidesWellFormed(folds, s.folds);
      OpensOneStep(folds, line, last, s, k, i);
    } else {
      NoStep(folds, line, last, i);
    }
  }

  type Fate = (seq<Fold>, nat, nat, nat) -> bool

  /** The step at `l` does not change whether fold `i` ends up closed once the sweep reaches `m`. */
  ghost predicate KeepsFate(step: Stepper, good: seq<Fold> -> bool, fate: Fate, f: seq<Fold>, l: nat, m: nat, i: nat) {
    var s := step(f, l);
    good(s.folds) && |s.folds| == |f| && (fate(f, l, m, i) <==> fate(s.folds, s.next + 1, m, i))
  }

  /** A fate every step keeps, and that is the flag itself when nothing is left, is what the sweep does. */
  lemma {:induction false} SweepDecides(
      step: Stepper, good: seq<Fold> -> bool, fate: Fate, folds: seq<Fold>, line: nat, last: nat, i: nat)
    requires Advances(step)
    requires forall f: seq<Fold>, l: nat :: good(f) && l <= last && i < |f| ==>
               KeepsFate(step, good, fate, f, l, last, i)
    requires forall f: seq<Fold>, l: nat :: l > last && i < |f| ==> (fate(f, l, last, i) <==> f[i].closed)
    requires good(folds) && i < |folds|
    ensures var r := Sweep(step, folds, line, last).folds;
            |r| == |folds| && (r[i].closed <==> fate(folds, line, last, i))
    decreases last + 1 - line
  {
    if line <= last {
      var s := step(folds, line);
      assert KeepsFate(step, good, fate, folds, line, last, i);
      SweepDecides(step, good, fate, s.folds, s.next + 1, last, i);
    }
  }

  /** `:foldopen!` opens exactly the closed folds that meet the range or lie inside a closed fold that
      does; in particular no closed fold still holds a line of the range. */
  lemma {:induction false} FoldOpenAll(folds: seq<Fold>, first: nat, last: nat, i: nat)
    requires WellFormed(folds) && i < |folds|
    ensures var r := OpRange(folds, first, last, true, true).folds;
            && |r| == |folds|
            && (r[i].closed <==> StaysClosedOpeningAll(folds, first, last, i))
            && (r[i].closed ==> !folds[i].Meets(first, last))
  {
    var step := StepperFor(true, true);
    forall f, l: nat | WellFormed(f) && l <= last && i < |f|
      ensures KeepsFate(step, WellFormed, StaysClosedOpeningAll, f, l, last, i)
    {
      OpenEffects(f, l);
      OpenAllStep(f, l, last, step(f, l), i);
    }
    SweepDecides(step, WellFormed, StaysClosedOpeningAll, folds, first, last, i);
  }

  /** `:foldopen` opens exactly the closed folds that meet the range and lie inside no closed fold: one
      level of each, however many lines of it are in the range. */
  lemma {:induction false} FoldOpenOneLevel(folds: seq<Fold>, first: nat, last: nat, i: nat)
    requires WellFormed(folds) && i < |folds|
    ensures var r := OpRange(folds, first, last, true, false).folds;
            |r| == |folds| && (r[i].closed <==> StaysClosedOpeningOne(folds, first, last, i))
  {
    var step := StepperFor(true, false);
    forall f, l: nat | WellFormed(f) && l <= last && i < |f|
      ensures KeepsFate(step, WellFormed, StaysClosedOpeningOne, f, l, last, i)
    {
      OpenEffects(f, l);
      OpenOneStep(f, l, last, step(f, l), i);
    }
    SweepDecides(step, WellFormed, StaysClosedOpeningOne, folds, first, last, i);
  }
}
