/**
 The fold list a view owns, and the commands that change it in place. Each method is proved against the
 function that says what the command means, and keeps a well-formed list well formed.
 */
module FoldList {
  import opened Options
  import opened Sorting
  import opened FoldSets
  import opened FoldNesting
  import opened FoldCreation
  import opened FoldGeometry
  import Toggling = FoldToggling
  import Sweeps = FoldRanges
  import Closing = FoldClosing
  import Deletion = FoldDeletion
  import Indent = FoldIndent

  // ----- The stack of `renest`

  /** Indices of kept folds, each holding the next one's lines. */
  ghost predicate OpenStack(kept: seq<Fold>, stack: seq<nat>) {
    && (forall a :: 0 <= a < |stack| ==> stack[a] < |kept|)
    && (forall a, b :: 0 <= a < b < |stack| ==>
          stack[a] < stack[b] && Covers(kept[stack[a]], kept[stack[b]]))
  }

  /** Every kept fold off the stack ended before `start`. */
  ghost predicate ClosedBefore(kept: seq<Fold>, stack: seq<nat>, start: nat) {
    forall j: nat :: j < |kept| && j !in stack ==> kept[j].end < start
  }

  lemma {:induction false} KeptBeforeNext(sorted: seq<Fold>, i: nat)
    requires SortedBy(sorted, OuterFirst) && i < |sorted|
    ensures AllBefore(Kept(sorted[..i]), sorted[i])
  {
    KeptBefore(sorted[..i], sorted[i]);
  }

  lemma {:induction false} KeptGrowsBy(sorted: seq<Fold>, i: nat)
    requires i < |sorted|
    ensures var k, f := Kept(sorted[..i]), sorted[i];
            Kept(sorted[..i + 1]) == if CrossesAny(k, f) then k else k + [Placed(k, f)]
  {
    assert sorted[..i + 1] == sorted[..i] + [sorted[i]];
    KeptStep(sorted[..i], sorted[i]);
  }

  lemma {:induction false} ClosedLater(kept: seq<Fold>, stack: seq<nat>, sorted: seq<Fold>, i: nat)
    requires SortedBy(sorted, OuterFirst) && i + 1 < |sorted| && ClosedBefore(kept, stack, sorted[i].start)
    ensures ClosedBefore(kept, stack, sorted[i + 1].start)
  {
    assert OuterFirst(sorted[i], sorted[i + 1]);
  }

  lemma {:induction false} TopIsCrossed(kept: seq<Fold>, stack: seq<nat>, f: Fold)
    requires OpenStack(kept, stack) && stack != [] && AllBefore(kept, f)
    requires f.start <= kept[stack[|stack| - 1]].end < f.end
    ensures CrossesAny(kept, f)
  {
    var top := kept[stack[|stack| - 1]];
    assert top in kept && Crosses(top, f);
  }

  lemma {:induction false} DistinctCount(stack: seq<nat>, s: set<nat>)
    requires forall a, b :: 0 <= a < b < |stack| ==> stack[a] < stack[b]
    requires forall j: nat :: j in stack <==> j in s
    ensures |s| == |stack|
  {
    if stack == [] {
      assert s == {};
    } else {
      var n := |stack| - 1;
      assert stack == stack[..n] + [stack[n]];
      DistinctCount(stack[..n], s - {stack[n]});
    }
  }

  lemma {:induction false} StackIsHolders(kept: seq<Fold>, stack: seq<nat>, f: Fold)
    requires OpenStack(kept, stack) && ClosedBefore(kept, stack, f.start)
    requires AllBefore(kept, f)
    requires stack != [] ==> f.start <= kept[stack[|stack| - 1]].end && f.end <= kept[stack[|stack| - 1]].end
    ensures !CrossesAny(kept, f) && Placed(kept, f) == f.(level := |stack| + 1)
    ensures OpenStack(kept + [f.(level := |stack| + 1)], stack + [|kept|])
  {
    forall j: nat | j < |kept|
      ensures j in stack ==> Covers(kept[j], f) && f.start <= kept[j].end
      ensures j !in stack ==> Disjoint(kept[j], f)
    {
      assert kept[j] in kept;
      if j in stack {
        var a :| 0 <= a < |stack| && stack[a] == j;
        assert a < |stack| - 1 ==> Covers(kept[stack[a]], kept[stack[|stack| - 1]]);
      }
    }
    DistinctCount(stack, Holders(kept, f.start, f.start));
  }

  lemma {:induction false} DeletionStep(folds: seq<Fold>, i: nat, recursive: bool, j: nat, kept: seq<Fold>)
    requires i < |folds| && j < |folds|
    ensures kept + Deletion.Retained(folds, i, recursive, j)
         == (if Deletion.Dropped(folds, i, recursive, j) then kept
             else kept + [Deletion.Lifted(folds[i], folds[j])])
            + Deletion.Retained(folds, i, recursive, j + 1)
  {
  }

  class FoldView {
    var folds: seq<Fold>

    constructor ()
      ensures folds == [] && WellFormed(folds)
    {
      folds := [];
    }

    method OpenOne(line: nat) returns (hit: Option<bool>)
      modifies this
      ensures Toggling.Outcome(folds, hit) == Toggling.OpenOne(old(folds), line)
      ensures hit.Some? <==> Held(old(folds), line)
      ensures hit == Some(true) <==> Toggling.ClosedAt(old(folds), line)
      ensures if hit == Some(true)
              then exists k: nat :: Toggling.OpensOutermost(old(folds), folds, line, k)
              else folds == old(folds)
    {
      Toggling.OpenOneOpens(folds, line);
      if Toggling.Path(folds, line) == [] {
        return None;
      }
      match Toggling.OutermostClosedAt(folds, line) {
        case None =>
          hit := Some(false);
        case Some(i) =>
          folds := folds[i := folds[i].(closed := false)];
          hit := Some(true);
      }
    }

    method OpenRec(line: nat) returns (hit: Option<bool>)
      modifies this
      ensures Toggling.Outcome(folds, hit) == Toggling.OpenRec(old(folds), line)
    {
      if Toggling.Path(folds, line) == [] {
        return None;
      }
      match Toggling.OutermostClosedAt(folds, line) {
        case None =>
          return Some(false);
        case Some(i) =>
          OpenWithin(i);
          return Some(true);
      }
    }

    method OpenWithin(i: nat)
      requires i < |folds|
      modifies this
      ensures folds == Toggling.OpenedWithin(old(folds), i)
    {
      var want := Toggling.OpenedWithin(folds, i);
      for j := 0 to |folds|
        invariant |folds| == |old(folds)| && SameShape(folds, old(folds))
        invariant folds[..j] == want[..j] && folds[j..] == old(folds)[j..]
      {
        if j == i || Nested(folds[i], folds[j]) {
          folds := folds[j := folds[j].(closed := false)];
        }
      }
    }

    method CloseOne(line: nat) returns (hit: Option<bool>)
      modifies this
      ensures Toggling.Outcome(folds, hit) == Toggling.CloseOne(old(folds), line)
      ensures hit.Some? <==> Held(old(folds), line)
      ensures hit != Some(true) ==> folds == old(folds)
      ensures WellFormed(old(folds)) && hit == Some(true) ==> exists k: nat ::
                Closing.Deepest(old(folds), line, k) && folds == Toggling.WithClosed(old(folds), k, true)
      ensures WellFormed(old(folds)) && hit != Some(true) ==>
                forall i: nat :: Closing.Exposed(old(folds), i) ==> !old(folds)[i].Contains(line)
    {
      Closing.CloseOnePicks(folds, line);
      if Toggling.Path(folds, line) == [] {
        return None;
      }
      match Toggling.LastOpenAbove(folds, Toggling.Path(folds, line)) {
        case None =>
          hit := Some(false);
        case Some(i) =>
          folds := folds[i := folds[i].(closed := true)];
          hit := Some(true);
      }
    }

    method CloseRec(line: nat) returns (hit: Option<bool>)
      modifies this
      ensures Toggling.Outcome(folds, hit) == Toggling.CloseRec(old(folds), line)
    {
      var on := Toggling.Path(folds, line);
      if on == [] {
        return None;
      }
      Toggling.PathFacts(folds, line);
      var done := CloseThese(on);
      assert folds == Toggling.ClosedAround(old(folds), line);
      return Some(done);
    }

    method CloseThese(on: seq<nat>) returns (done: bool)
      requires forall j: nat :: j in on ==> j < |folds|
      modifies this
      ensures |folds| == |old(folds)|
      ensures forall j: nat :: j < |folds| ==>
                folds[j] == old(folds)[j].(closed := old(folds)[j].closed || j in on)
      ensures done <==> exists j: nat :: j < |folds| && j in on && !old(folds)[j].closed
    {
      done := false;
      for k := 0 to |on|
        invariant |folds| == |old(folds)|
        invariant forall j: nat :: j < |folds| ==>
                    folds[j] == old(folds)[j].(closed := old(folds)[j].closed || j in on[..k])
        invariant done <==> exists j: nat :: j < |folds| && j in on[..k] && !old(folds)[j].closed
      {
        assert on[k] in on && on[..k + 1] == on[..k] + [on[k]];
        done := done || !folds[on[k]].closed;
        folds := folds[on[k] := folds[on[k]].(closed := true)];
      }
      assert on[..|on|] == on;
    }

    /** Open every closed fold that holds the line. */
    method OpenAt(line: nat) returns (anyOpened: bool)
      modifies this
      ensures folds == Toggling.OpenedAround(old(folds), line)
      ensures anyOpened <==> Toggling.ClosedAt(old(folds), line)
    {
      anyOpened := false;
      for j := 0 to |folds|
        invariant |folds| == |old(folds)|
        invariant folds[..j] == Toggling.OpenedAround(old(folds), line)[..j]
        invariant folds[j..] == old(folds)[j..]
        invariant anyOpened <==> Toggling.ClosedAt(old(folds)[..j], line)
      {
        Toggling.ClosedAtGrows(old(folds), line, j);
        if folds[j].closed && folds[j].Contains(line) {
          folds := folds[j := folds[j].(closed := false)];
          anyOpened := true;
        }
      }
      assert old(folds)[..|folds|] == old(folds);
    }

    /** `zv` repeats `zo` until nothing opens: the same result and state as `OpenAt`. */
    method OpenCursorFold(line: nat) returns (anyOpened: bool)
      modifies this
      ensures folds == Toggling.OpenedAround(old(folds), line)
      ensures anyOpened <==> Toggling.ClosedAt(old(folds), line)
    {
      anyOpened := false;
      while true
        invariant Toggling.OpenedAround(folds, line) == Toggling.OpenedAround(old(folds), line)
        invariant anyOpened || Toggling.ClosedAt(folds, line) <==> Toggling.ClosedAt(old(folds), line)
        decreases Toggling.ClosedSet(folds)
      {
        Toggling.OpenOneProgress(folds, line);
        var hit := OpenOne(line);
        if hit != Some(true) {
          break;
        }
        anyOpened := true;
      }
    }

    method Toggle(line: nat, opening: bool, recursive: bool) returns (hit: Option<bool>)
      modifies this
      ensures Toggling.Outcome(folds, hit) == Toggling.Toggle(old(folds), line, opening, recursive)
      ensures SameShape(old(folds), folds)
    {
      Toggling.ToggleKeepsShape(folds, line, opening, recursive);
      if opening {
        if recursive { hit := OpenRec(line); } else { hit := OpenOne(line); }
      } else {
        if recursive { hit := CloseRec(line); } else { hit := CloseOne(line); }
      }
    }

    /** One line of a range command, and the line the sweep skips to. */
    method StepAt(line: nat, opening: bool, recursive: bool, ghost step: Sweeps.Stepper)
      returns (held: bool, next: nat)
      requires Sweeps.Does(step, opening, recursive)
      modifies this
      ensures Sweeps.Step(folds, held, next) == step(old(folds), line)
    {
      assert Sweeps.StepsAt(step, folds, line, opening, recursive);
      next := line;
      if opening && !recursive {
        next := ClosedEnd(folds, line);
      }
      var hit := Toggle(line, opening, recursive);
      held := hit.Some?;
      if !opening && !recursive {
        next := ClosedEnd(folds, line);
      }
    }

    method SweepLines(first: nat, last: nat, opening: bool, recursive: bool, ghost step: Sweeps.Stepper)
      returns (found: bool)
      requires Sweeps.Advances(step) && Sweeps.Does(step, opening, recursive)
      modifies this
      ensures Sweeps.Swept(folds, found) == Sweeps.Sweep(step, old(folds), first, last)
    {
      found := false;
      var line := first;
      while line <= last
        invariant Sweeps.Sweep(step, old(folds), first, last)
               == Sweeps.Joined(found, Sweeps.Sweep(step, folds, line, last))
        decreases last + 1 - line
      {
        var held, next := StepAt(line, opening, recursive, step);
        found := found || held;
        line := next + 1;
      }
    }

    method OpRange(first: nat, last: nat, opening: bool, recursive: bool) returns (found: bool)
      modifies this
      ensures Sweeps.Swept(folds, found) == Sweeps.OpRange(old(folds), first, last, opening, recursive)
    {
      found := SweepLines(first, last, opening, recursive, Sweeps.StepperFor(opening, recursive));
    }

    /** `zd`/`zD`. */
    method DeleteAt(line: nat, recursive: bool) returns (found: bool)
      modifies this
      ensures (folds, found) == Deletion.DeleteAt(old(folds), line, recursive)
    {
      match Deletion.DeleteTarget(folds, line) {
        case None =>
          return false;
        case Some(i) =>
          if i >= |folds| {
            return false;
          }
          DeleteFold(i, recursive);
          return true;
      }
    }

    /** Walks the list once, keeping, lifting or dropping each fold. */
    method DeleteFold(i: nat, recursive: bool)
      requires i < |folds|
      modifies this
      ensures folds == Deletion.Deleted(old(folds), i, recursive)
    {
      var all, kept: seq<Fold> := folds, [];
      for j := 0 to |all|
        invariant Deletion.Deleted(all, i, recursive) == kept + Deletion.Retained(all, i, recursive, j)
      {
        DeletionStep(all, i, recursive, j, kept);
        if !Deletion.Dropped(all, i, recursive, j) {
          kept := kept + [Deletion.Lifted(all[i], all[j])];
        }
      }
      folds := kept;
    }

    /** `zE`. */
    method EliminateAll()
      modifies this
      ensures folds == []
    {
      folds := [];
    }

    method ApplyFoldlevel(foldlevel: nat)
      modifies this
      ensures folds == Indent.WithLevel(old(folds), foldlevel)
    {
      for j := 0 to |folds|
        invariant |folds| == |old(folds)|
        invariant folds[..j] == Indent.WithLevel(old(folds), foldlevel)[..j]
        invariant folds[j..] == old(folds)[j..]
      {
        folds := folds[j := folds[j].(closed := folds[j].level > foldlevel)];
      }
    }

    /** `zf`, `:fold`: descend to the deepest holder, take the hull, push the covered folds down. */
    method InsertClosedFold(start: nat, end: nat)
      modifies this
      ensures folds == Inserted(old(folds), start, end)
      ensures end < start ==> folds == old(folds)
    {
      if end < start {
        return;
      }
      var parent := FindParent(start, end);
      var s, e := Hull(parent, start, end);
      var fold := Fold(s, e, true, LevelUnder(parent));
      assert fold == NewFold(folds, start, end);
      PushDown(parent, fold);
      folds := folds + [fold];
      assert folds == Inserted(old(folds), start, end);
    }

    method PushDown(parent: Option<Fold>, fold: Fold)
      modifies this
      ensures |folds| == |old(folds)|
      ensures forall i :: 0 <= i < |folds| ==> folds[i] == Deepened(parent, fold, old(folds)[i])
    {
      for j := 0 to |folds|
        invariant |folds| == |old(folds)|
        invariant forall i :: 0 <= i < j ==> folds[i] == Deepened(parent, fold, old(folds)[i])
        invariant forall i :: j <= i < |folds| ==> folds[i] == old(folds)[i]
      {
        if TakenIn(parent, fold, folds[j]) {
          folds := folds[j := folds[j].(level := folds[j].level + 1)];
        }
      }
    }

    method FindParent(start: nat, end: nat) returns (parent: Option<Fold>)
      ensures parent == Descend(folds, None, start, end)
    {
      parent := None;
      while true
        invariant Descend(folds, parent, start, end) == Descend(folds, None, start, end)
        decreases AtOrBelow(folds, LevelUnder(parent))
      {
        var holder := FirstChildAt(folds, parent, start);
        if holder.None? || holder.value.end < end {
          break;
        }
        assert holder.value in AtOrBelow(folds, LevelUnder(parent));
        parent := holder;
      }
    }

    method Hull(parent: Option<Fold>, start: nat, end: nat) returns (s: nat, e: nat)
      ensures s == HullStart(folds, parent, start, end) && e == HullEnd(folds, parent, start, end)
    {
      s, e := start, end;
      for j := 0 to |folds|
        invariant s == HullStart(folds[..j], parent, start, end)
        invariant e == HullEnd(folds[..j], parent, start, end)
      {
        assert folds[..j + 1][..j] == folds[..j];
        if Joined(parent, start, end, folds[j]) {
          s := if folds[j].start < s then folds[j].start else s;
          e := if folds[j].end > e then folds[j].end else e;
        }
      }
      assert folds[..|folds|] == folds;
    }

    method Renest()
      modifies this
      ensures folds == Renested(old(folds))
    {
      var sorted := SortFolds(folds);
      SortFoldsFacts(folds);
      folds := NestSorted(sorted);
    }

    /** One pass over the sorted list with a stack of the kept folds still open at the current start. */
    static method NestSorted(sorted: seq<Fold>) returns (kept: seq<Fold>)
      requires SortedBy(sorted, OuterFirst)
      ensures kept == Kept(sorted)
    {
      kept := [];
      var stack: seq<nat> := [];
      for i := 0 to |sorted|
        invariant kept == Kept(sorted[..i]) && OpenStack(kept, stack)
        invariant i < |sorted| ==> ClosedBefore(kept, stack, sorted[i].start)
      {
        KeptBeforeNext(sorted, i);
        kept, stack := NestOne(kept, stack, sorted[i]);
        KeptGrowsBy(sorted, i);
        if i + 1 < |sorted| {
          ClosedLater(kept, stack, sorted, i);
        }
      }
      assert sorted[..|sorted|] == sorted;
    }

    static method NestOne(before: seq<Fold>, stackBefore: seq<nat>, f: Fold)
      returns (kept: seq<Fold>, stack: seq<nat>)
      requires OpenStack(before, stackBefore) && ClosedBefore(before, stackBefore, f.start)
      requires AllBefore(before, f)
      ensures kept == if CrossesAny(before, f) then before else before + [Placed(before, f)]
      ensures OpenStack(kept, stack) && ClosedBefore(kept, stack, f.start)
    {
      kept := before;
      stack := PopEnded(before, stackBefore, f);
      if stack != [] && f.end > kept[stack[|stack| - 1]].end {
        TopIsCrossed(kept, stack, f);
      } else {
        StackIsHolders(kept, stack, f);
        kept := kept + [f.(level := |stack| + 1)];
        stack := stack + [|kept| - 1];
      }
    }

    static method PopEnded(kept: seq<Fold>, before: seq<nat>, f: Fold) returns (stack: seq<nat>)
      requires OpenStack(kept, before) && ClosedBefore(kept, before, f.start)
      ensures stack <= before && OpenStack(kept, stack) && ClosedBefore(kept, stack, f.start)
      ensures stack != [] ==> kept[stack[|stack| - 1]].end >= f.start
    {
      stack := before;
      while stack != [] && kept[stack[|stack| - 1]].end < f.start
        invariant stack <= before && OpenStack(kept, stack) && ClosedBefore(kept, stack, f.start)
      {
        stack := stack[..|stack| - 1];
      }
    }
  }
}
