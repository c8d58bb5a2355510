/**
 `insert_closed_fold` (`zf`, `:fold`): a closed fold over a line range, put inside the deepest fold that
 holds the range and around the folds of its level that it meets.
 */
module FoldCreation {
  import opened Options
  import opened FoldSets

  function LevelUnder(parent: Option<Fold>): nat {
    match parent case None => 1 case Some(p) => p.level + 1
  }

  predicate Within(parent: Option<Fold>, f: Fold) {
    parent.None? || Covers(parent.value, f)
  }

  /** A fold one level under `parent` that holds `start`. */
  predicate IsChildAt(parent: Option<Fold>, start: nat, f: Fold) {
    f.level == LevelUnder(parent) && Within(parent, f) && f.Contains(start)
  }

  function FirstChildAt(folds: seq<Fold>, parent: Option<Fold>, start: nat): (r: Option<Fold>)
    ensures r.Some? ==> r.value in folds && IsChildAt(parent, start, r.value)
    ensures r.None? ==> forall f :: f in folds ==> !IsChildAt(parent, start, f)
  {
    if folds == [] then None
    else if IsChildAt(parent, start, folds[0]) then Some(folds[0])
    else
      assert forall f :: f in folds ==> f == folds[0] || f in folds[1..];
      FirstChildAt(folds[1..], parent, start)
  }

  /** The folds at `level` or deeper: what is left to descend into. */
  ghost function AtOrBelow(folds: seq<Fold>, level: nat): set<Fold> {
    set f | f in folds && level <= f.level
  }

  /** The deepest fold under `parent` that holds the whole of `start..=end`. */
  function Descend(folds: seq<Fold>, parent: Option<Fold>, start: nat, end: nat): (r: Option<Fold>)
    ensures r == parent || (r.Some? && r.value in folds && r.value.Contains(start) && r.value.end >= end)
    decreases AtOrBelow(folds, LevelUnder(parent))
  {
    match FirstChildAt(folds, parent, start)
    case None => parent
    case Some(h) =>
      if h.end >= end then
        assert h in AtOrBelow(folds, h.level) && h !in AtOrBelow(folds, h.level + 1);
        Descend(folds, Some(h), start, end)
      else parent
  }

  /** A fold the new one meets at its own level, so it is taken in whole. */
  predicate Joined(parent: Option<Fold>, start: nat, end: nat, f: Fold) {
    f.level == LevelUnder(parent) && Within(parent, f) && f.Meets(start, end)
  }

  function HullStart(folds: seq<Fold>, parent: Option<Fold>, start: nat, end: nat): (s: nat)
    ensures s <= start
  {
    if folds == [] then start
    else
      var n := |folds| - 1;
      var rest := HullStart(folds[..n], parent, start, end);
      if Joined(parent, start, end, folds[n]) && folds[n].start < rest then folds[n].start else rest
  }

  function HullEnd(folds: seq<Fold>, parent: Option<Fold>, start: nat, end: nat): (e: nat)
    ensures end <= e
  {
    if folds == [] then end
    else
      var n := |folds| - 1;
      var rest := HullEnd(folds[..n], parent, start, end);
      if Joined(parent, start, end, folds[n]) && folds[n].end > rest then folds[n].end else rest
  }

  /** The hull holds every fold it meets at its level... */
  lemma {:induction false} HullHolds(folds: seq<Fold>, parent: Option<Fold>, start: nat, end: nat, f: Fold)
    requires f in folds && Joined(parent, start, end, f)
    ensures HullStart(folds, parent, start, end) <= f.start && f.end <= HullEnd(folds, parent, start, end)
  {
    var n := |folds| - 1;
    if f in folds[..n] {
      HullHolds(folds[..n], parent, start, end, f);
    } else {
      assert folds == folds[..n] + [folds[n]];
      assert f == folds[n];
    }
  }

  /** ... and each of its ends is the request's own or such a fold's. */
  lemma {:induction false} HullReached(folds: seq<Fold>, parent: Option<Fold>, start: nat, end: nat)
    ensures HullStart(folds, parent, start, end) == start
         || exists f :: f in folds && Joined(parent, start, end, f) && f.start == HullStart(folds, parent, start, end)
    ensures HullEnd(folds, parent, start, end) == end
         || exists f :: f in folds && Joined(parent, start, end, f) && f.end == HullEnd(folds, parent, start, end)
  {
    if folds != [] {
      HullReached(folds[..|folds| - 1], parent, start, end);
      assert forall f :: f in folds[..|folds| - 1] ==> f in folds;
      assert folds[|folds| - 1] in folds;
    }
  }

  /** The fold the command adds. */
  function NewFold(folds: seq<Fold>, start: nat, end: nat): Fold {
    var parent := Descend(folds, None, start, end);
    Fold(HullStart(folds, parent, start, end), HullEnd(folds, parent, start, end), true,
         LevelUnder(parent))
  }

  predicate TakenIn(parent: Option<Fold>, n: Fold, f: Fold) {
    f.level >= n.level && Within(parent, f) && Covers(n, f)
  }

  function Deepened(parent: Option<Fold>, n: Fold, f: Fold): Fold {
    if TakenIn(parent, n, f) then f.(level := f.level + 1) else f
  }

  function Inserted(folds: seq<Fold>, start: nat, end: nat): seq<Fold> {
    if end < start then folds
    else
      var parent, n := Descend(folds, None, start, end), NewFold(folds, start, end);
      seq(|folds|, i requires 0 <= i < |folds| => Deepened(parent, n, folds[i])) + [n]
  }

  // ----- Where the descent stops

  lemma {:induction false} DescendStops(folds: seq<Fold>, parent: Option<Fold>, start: nat, end: nat)
    requires Laminar(folds)
    ensures var p := Descend(folds, parent, start, end);
            forall f :: f in folds && IsChildAt(p, start, f) ==> f.end < end
    decreases AtOrBelow(folds, LevelUnder(parent))
  {
    match FirstChildAt(folds, parent, start)
    case None =>
    case Some(h) =>
      if h.end >= end {
        assert h in AtOrBelow(folds, h.level) && h !in AtOrBelow(folds, h.level + 1);
        DescendStops(folds, Some(h), start, end);
      } else {
        forall f | f in folds && IsChildAt(parent, start, f)
          ensures f.end < end
        {
          if f != h {
            MembersApart(folds, f, h);
          }
        }
      }
  }

  /** The setting of one creation: `parent` is the deepest holder, `n` the hull one level under it. */
  ghost predicate Creating(folds: seq<Fold>, start: nat, end: nat, parent: Option<Fold>, n: Fold) {
    && Ranges(folds) && Laminar(folds) && Parented(folds) && start <= end
    && (parent.Some? ==> parent.value in folds && parent.value.Contains(start) && end <= parent.value.end)
    && (forall f :: f in folds && IsChildAt(parent, start, f) ==> f.end < end)
    && n == Fold(HullStart(folds, parent, start, end), HullEnd(folds, parent, start, end), true,
                 LevelUnder(parent))
  }

  lemma {:induction false} CreationSetting(folds: seq<Fold>, start: nat, end: nat)
    requires WellFormed(folds) && start <= end
    ensures Creating(folds, start, end, Descend(folds, None, start, end), NewFold(folds, start, end))
  {
    WellFormedIffParented(folds);
    DescendStops(folds, None, start, end);
  }

  lemma {:induction false} ParentHoldsNew(folds: seq<Fold>, start: nat, end: nat, parent: Option<Fold>, n: Fold)
    requires Creating(folds, start, end, parent, n)
    ensures n.start <= start <= end <= n.end && Within(parent, n)
  {
    HullReached(folds, parent, start, end);
  }

  /** A fold one level under the parent is taken in whole or is clear of the new fold. */
  lemma {:induction false} SiblingInOrOut(
      folds: seq<Fold>, start: nat, end: nat, parent: Option<Fold>, n: Fold, h: Fold)
    requires Creating(folds, start, end, parent, n)
    requires h in folds && h.level == n.level && Within(parent, h)
    ensures Covers(n, h) || Disjoint(n, h)
  {
    HullReached(folds, parent, start, end);
    if h.end < start && n.start != start {
      var j :| j in folds && Joined(parent, start, end, j) && j.start == n.start;
      MembersApart(folds, j, h);
    } else if h.start > end && n.end != end {
      var j :| j in folds && Joined(parent, start, end, j) && j.end == n.end;
      MembersApart(folds, j, h);
    } else if Joined(parent, start, end, h) {
      HullHolds(folds, parent, start, end, h);
    }
  }

  /** How an existing fold may lie to a new one; the third kind goes a level deeper. */
  predicate Settled(n: Fold, g: Fold) {
    || Disjoint(n, g)
    || (g.level < n.level && Covers(g, n))
    || (g.level >= n.level && Covers(n, g))
  }

  lemma {:induction false} HowItLies(
      folds: seq<Fold>, start: nat, end: nat, parent: Option<Fold>, n: Fold, g: Fold)
    requires Creating(folds, start, end, parent, n) && g in folds
    ensures Settled(n, g)
  {
    ParentHoldsNew(folds, start, end, parent, n);
    if g.level < n.level {
      if g != parent.value {
        MembersApart(folds, g, parent.value);
      }
    } else if parent.None? || !Disjoint(parent.value, g) {
      var h := AncestorAt(folds, g, n.level);
      if parent.Some? {
        MembersApart(folds, h, parent.value);
      }
      SiblingInOrOut(folds, start, end, parent, n, h);
    }
  }

  // ----- Putting a settled fold into a well-formed set

  function Pushed(n: Fold, f: Fold): Fold {
    if f.level >= n.level && Covers(n, f) then f.(level := f.level + 1) else f
  }

  function PushedAll(folds: seq<Fold>, n: Fold): (r: seq<Fold>)
    ensures |r| == |folds| + 1 && r[|folds|] == n
    ensures forall i :: 0 <= i < |folds| ==> r[i] == Pushed(n, folds[i])
  {
    seq(|folds|, i requires 0 <= i < |folds| => Pushed(n, folds[i])) + [n]
  }

  lemma {:induction false} PushedApart(n: Fold, a: Fold, b: Fold)
    requires n.start <= n.end && a.start <= a.end && b.start <= b.end
    requires Settled(n, a) && Settled(n, b) && Apart(a, b)
    ensures Apart(Pushed(n, a), Pushed(n, b)) && Apart(Pushed(n, a), n)
  {
  }

  lemma {:induction false} PushedLaminar(folds: seq<Fold>, n: Fold)
    requires Ranges(folds) && Laminar(folds) && n.start <= n.end
    requires forall g :: g in folds ==> Settled(n, g)
    ensures Laminar(PushedAll(folds, n))
  {
    var r := PushedAll(folds, n);
    forall i, j | 0 <= i < |r| && 0 <= j < |r| && i != j
      ensures Apart(r[i], r[j])
    {
      var a, b := if i < |folds| then i else j, if j < |folds| then j else i;
      assert folds[a] in folds && folds[b] in folds;
      if a != b {
        PushedApart(n, folds[a], folds[b]);
      }
    }
  }

  lemma {:induction false} PushedParent(folds: seq<Fold>, n: Fold, g: Fold)
    requires Ranges(folds) && Parented(folds) && n.start <= n.end && 1 <= n.level
    requires forall f :: f in folds ==> Settled(n, f)
    requires g in folds && Pushed(n, g).level > 1
    ensures HasParent(PushedAll(folds, n), Pushed(n, g))
  {
    var r := PushedAll(folds, n);
    if Pushed(n, g) != g && g.level == n.level {
      assert n in r;
    } else {
      assert HasParent(folds, g);
      var q :| q in folds && Nested(q, g) && q.level == g.level - 1;
      assert Settled(n, q) && Settled(n, g);
      var i: nat :| i < |folds| && folds[i] == q;
      assert r[i] == Pushed(n, q);
    }
  }

  lemma {:induction false} PushedWellFormed(folds: seq<Fold>, n: Fold)
    requires WellFormed(folds) && n.start <= n.end && 1 <= n.level
    requires forall g :: g in folds ==> Settled(n, g)
    requires n.level > 1 ==> HasParent(folds, n)
    ensures WellFormed(PushedAll(folds, n))
  {
    var r := PushedAll(folds, n);
    WellFormedIffParented(folds);
    PushedLaminar(folds, n);
    forall f | f in r && f.level > 1
      ensures HasParent(r, f)
    {
      var i: nat :| i < |r| && r[i] == f;
      if i < |folds| {
        PushedParent(folds, n, folds[i]);
      } else {
        var p :| p in folds && Nested(p, n) && p.level == n.level - 1;
        var j: nat :| j < |folds| && folds[j] == p;
        assert r[j] == p;
      }
    }
    WellFormedIffParented(r);
  }

  lemma {:induction false} InsertedIsPushed(folds: seq<Fold>, start: nat, end: nat)
    requires start <= end
    ensures Inserted(folds, start, end) == PushedAll(folds, NewFold(folds, start, end))
  {
    var parent, n := Descend(folds, None, start, end), NewFold(folds, start, end);
    HullReached(folds, parent, start, end);
    assert Within(parent, n);
    forall f
      ensures Deepened(parent, n, f) == Pushed(n, f)
    {
    }
  }

  lemma {:induction false} NewFoldSettles(folds: seq<Fold>, start: nat, end: nat)
    requires WellFormed(folds) && start <= end
    ensures var n := NewFold(folds, start, end);
            && n.start <= n.end && 1 <= n.level
            && (n.level > 1 ==> HasParent(folds, n))
            && forall g :: g in folds ==> Settled(n, g)
  {
    var parent, n := Descend(folds, None, start, end), NewFold(folds, start, end);
    CreationSetting(folds, start, end);
    ParentHoldsNew(folds, start, end, parent, n);
    forall g | g in folds
      ensures Settled(n, g)
    {
      HowItLies(folds, start, end, parent, n, g);
    }
  }

  /** `zf` on any well-formed set leaves a well-formed set. */
  lemma {:induction false} InsertedWellFormed(folds: seq<Fold>, start: nat, end: nat)
    requires WellFormed(folds)
    ensures WellFormed(Inserted(folds, start, end))
  {
    if start <= end {
      NewFoldSettles(folds, start, end);
      PushedWellFormed(folds, NewFold(folds, start, end));
      InsertedIsPushed(folds, start, end);
    }
  }

  /** Fold `f` of the set and what it became, `r`: clear of the new fold `n` or around it and as it was, or
      inside it and one level deeper. */
  predicate Made(n: Fold, f: Fold, r: Fold) {
    || (r == f && (Disjoint(n, f) || Nested(f, n)))
    || (r == f.(level := f.level + 1) && Nested(n, r))
  }

  /** The new fold comes last, and each existing fold keeps its lines, its flag and its place in the list. */
  lemma {:induction false} InsertedPlaces(folds: seq<Fold>, start: nat, end: nat, i: nat)
    requires WellFormed(folds) && start <= end && i < |folds|
    ensures var n, r := NewFold(folds, start, end), Inserted(folds, start, end);
            |r| == |folds| + 1 && r[|folds|] == n && Made(n, folds[i], r[i])
  {
    NewFoldSettles(folds, start, end);
    InsertedIsPushed(folds, start, end);
    assert folds[i] in folds;
  }

  ghost predicate Flat(folds: seq<Fold>) {
    forall i :: 0 <= i < |folds| ==> folds[i].level == 1
  }

  lemma {:induction false} ClearNewFold(folds: seq<Fold>, start: nat, end: nat)
    requires start <= end && !AnyMeets(folds, start, end)
    ensures NewFold(folds, start, end) == Fold(start, end, true, 1)
  {
    var parent := Descend(folds, None, start, end);
    HullReached(folds, parent, start, end);
    forall f | f in folds
      ensures !f.Meets(start, end)
    {
      var i :| 0 <= i < |folds| && folds[i] == f;
    }
  }

  /** What flatness asks of one fold `f` that became `r` beside the new fold `n`. */
  lemma {:induction false} FlatBeside(n: Fold, f: Fold, r: Fold, start: nat, end: nat)
    requires Made(n, f, r) && 1 <= f.level && f.start <= f.end && n.start <= start <= end <= n.end
    ensures n.level == 1 && r.level == 1 ==> f.level == 1 && !f.Meets(start, end)
    ensures n == Fold(start, end, true, 1) && f.level == 1 && !f.Meets(start, end) ==> r.level == 1
  {
  }

  lemma {:induction false} FlatAt(folds: seq<Fold>, start: nat, end: nat, i: nat)
    requires WellFormed(folds) && start <= end && i < |folds|
    ensures var n, r, f := NewFold(folds, start, end), Inserted(folds, start, end), folds[i];
            && |r| == |folds| + 1 && r[|folds|] == n
            && (n.level == 1 && r[i].level == 1 ==> f.level == 1 && !f.Meets(start, end))
            && (n == Fold(start, end, true, 1) && f.level == 1 && !f.Meets(start, end) ==> r[i].level == 1)
  {
    var n := NewFold(folds, start, end);
    InsertedPlaces(folds, start, end, i);
    CreationSetting(folds, start, end);
    ParentHoldsNew(folds, start, end, Descend(folds, None, start, end), n);
    FlatBeside(n, folds[i], Inserted(folds, start, end)[i], start, end);
  }

  /** `zf` leaves a flat set exactly when the set was flat and no fold of it meets the range. */
  lemma {:induction false} FlatIffClear(folds: seq<Fold>, start: nat, end: nat)
    requires WellFormed(folds) && start <= end
    ensures Flat(Inserted(folds, start, end)) <==> Flat(folds) && !AnyMeets(folds, start, end)
  {
    var r := Inserted(folds, start, end);
    if Flat(r) {
      forall i: nat | i < |folds|
        ensures folds[i].level == 1 && !folds[i].Meets(start, end)
      {
        FlatAt(folds, start, end, i);
        assert r[i].level == 1 && r[|folds|].level == 1;
      }
    }
    if Flat(folds) && !AnyMeets(folds, start, end) {
      ClearNewFold(folds, start, end);
      forall i: nat | i < |folds|
        ensures r[i].level == 1
      {
        FlatAt(folds, start, end, i);
      }
    }
  }

  /** A fold made inside another is at level 2. */
  lemma {:induction false} NestedManualFold()
    ensures !Flat(Inserted(Inserted([], 0, 3), 1, 2))
  {
    var one := Inserted([], 0, 3);
    assert WellFormed([]);
    InsertedWellFormed([], 0, 3);
    ClearNewFold([], 0, 3);
    assert one[0] == Fold(0, 3, true, 1);
    assert one[0].Meets(1, 2);
    FlatIffClear(one, 1, 2);
  }

  // ----- The new fold is the least one

  /** `a..=b` takes in the requested range and crosses no fold. */
  ghost predicate Fits(folds: seq<Fold>, start: nat, end: nat, a: nat, b: nat) {
    a <= start && end <= b && forall f :: f in folds ==> !Crosses(f, Fold(a, b, true, 1))
  }

  /** The added fold's lines are the least interval that holds the request and crosses no fold. */
  lemma {:induction false} NewFoldIsLeast(folds: seq<Fold>, start: nat, end: nat)
    requires WellFormed(folds) && start <= end
    ensures var n := NewFold(folds, start, end);
            && Fits(folds, start, end, n.start, n.end)
            && forall a: nat, b: nat :: Fits(folds, start, end, a, b) ==> a <= n.start && n.end <= b
  {
    var parent, n := Descend(folds, None, start, end), NewFold(folds, start, end);
    CreationSetting(folds, start, end);
    ParentHoldsNew(folds, start, end, parent, n);
    HullReached(folds, parent, start, end);
    forall f | f in folds
      ensures !Crosses(f, Fold(n.start, n.end, true, 1))
    {
      HowItLies(folds, start, end, parent, n, f);
    }
    forall a: nat, b: nat | Fits(folds, start, end, a, b)
      ensures a <= n.start && n.end <= b
    {
      if n.start != start {
        var j :| j in folds && Joined(parent, start, end, j) && j.start == n.start;
        JoinedFitsInside(folds, start, end, parent, n, j, a, b);
      }
      if n.end != end {
        var j :| j in folds && Joined(parent, start, end, j) && j.end == n.end;
        JoinedFitsInside(folds, start, end, parent, n, j, a, b);
      }
    }
  }

  lemma {:induction false} JoinedFitsInside(
      folds: seq<Fold>, start: nat, end: nat, parent: Option<Fold>, n: Fold, j: Fold, a: nat, b: nat)
    requires Creating(folds, start, end, parent, n) && Fits(folds, start, end, a, b)
    requires j in folds && Joined(parent, start, end, j)
    ensures a <= j.start && j.end <= b
  {
    assert !Crosses(j, Fold(a, b, true, 1));
    assert !(j.Contains(start) && j.end >= end) by {
      assert IsChildAt(parent, start, j) <==> j.Contains(start);
    }
  }
}
