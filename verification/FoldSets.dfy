/**
 Fold sets: the inclusive line ranges of one view, and what makes a list of them well formed. Two folds
 never cross, the outer of two nested ones has the smaller level, and a level is a nesting depth.
 */
module FoldSets {

  datatype Fold = Fold(start: nat, end: nat, closed: bool, level: nat) {
    predicate Contains(line: nat) {
      start <= line <= end
    }

    /** Some line of `first..=last` lies in this fold. */
    predicate Meets(first: nat, last: nat) {
      first <= last && start <= last && first <= end
    }

    /** Closed with lines to hide: a one-line fold keeps its level but never shows closed. */
    predicate ShowsClosed() {
      closed && end > start
    }
  }

  predicate Disjoint(a: Fold, b: Fold) {
    a.end < b.start || b.end < a.start
  }

  predicate Covers(a: Fold, b: Fold) {
    a.start <= b.start && b.end <= a.end
  }

  /** `b` lies inside `a` and deeper: one of `a`'s nested folds. */
  predicate Nested(a: Fold, b: Fold) {
    Covers(a, b) && a.level < b.level
  }

  predicate Crosses(a: Fold, b: Fold) {
    !Disjoint(a, b) && !Covers(a, b) && !Covers(b, a)
  }

  /** The ranges alone: apart or one inside the other, whatever the levels. */
  predicate Nests(a: Fold, b: Fold) {
    Disjoint(a, b) || Covers(a, b) || Covers(b, a)
  }

  predicate Apart(a: Fold, b: Fold) {
    Disjoint(a, b) || Nested(a, b) || Nested(b, a)
  }

  ghost predicate OrderedRanges(folds: seq<Fold>) {
    forall i :: 0 <= i < |folds| ==> folds[i].start <= folds[i].end
  }

  ghost predicate Ranges(folds: seq<Fold>) {
    forall i :: 0 <= i < |folds| ==> folds[i].start <= folds[i].end && 1 <= folds[i].level
  }

  ghost predicate Laminar(folds: seq<Fold>) {
    forall i, j :: 0 <= i < |folds| && 0 <= j < |folds| && i != j ==> Apart(folds[i], folds[j])
  }

  /** Laminar as to lines only: what the display geometry needs. */
  ghost predicate LaminarLines(folds: seq<Fold>) {
    && OrderedRanges(folds)
    && forall i, j :: 0 <= i < |folds| && 0 <= j < |folds| ==> Nests(folds[i], folds[j])
  }

  ghost function Enclosers(folds: seq<Fold>, i: nat): set<nat>
    requires i < |folds|
  {
    set j: nat | j < |folds| && Nested(folds[j], folds[i])
  }

  ghost predicate LevelsAreDepths(folds: seq<Fold>) {
    forall i :: 0 <= i < |folds| ==> folds[i].level == |Enclosers(folds, i)| + 1
  }

  ghost predicate WellFormed(folds: seq<Fold>) {
    Ranges(folds) && Laminar(folds) && LevelsAreDepths(folds)
  }

  /** The folds, as indices, whose lines hold all of `first..=last`. */
  ghost function Holders(folds: seq<Fold>, first: nat, last: nat): set<nat> {
    set j: nat | j < |folds| && folds[j].start <= first && last <= folds[j].end
  }

  predicate Held(folds: seq<Fold>, line: nat) {
    exists i :: 0 <= i < |folds| && folds[i].Contains(line)
  }

  predicate AnyMeets(folds: seq<Fold>, first: nat, last: nat) {
    exists i :: 0 <= i < |folds| && folds[i].Meets(first, last)
  }

  /** The local form of "level is depth": below level 1 the next fold out is one level up. */
  ghost predicate HasParent(folds: seq<Fold>, f: Fold) {
    exists p :: p in folds && Nested(p, f) && p.level == f.level - 1
  }

  ghost predicate Parented(folds: seq<Fold>) {
    forall f {:trigger HasParent(folds, f)} :: f in folds && f.level > 1 ==> HasParent(folds, f)
  }

  // ----- Depth as a count and depth as a chain of parents are the same thing

  lemma {:induction false} DeepestOf(folds: seq<Fold>, s: set<nat>) returns (p: nat)
    requires s != {} && forall j :: j in s ==> j < |folds|
    ensures p in s && forall j :: j in s ==> folds[j].level <= folds[p].level
    decreases s
  {
    p :| p in s;
    if s != {p} {
      var rest := s - {p};
      var q := DeepestOf(folds, rest);
      assert forall j :: j in s ==> j == p || j in rest;
      if folds[p].level < folds[q].level {
        p := q;
      }
    }
  }

  /** The folds holding a range are a chain, and the innermost one's level counts them. */
  lemma {:induction false} InnermostHolder(folds: seq<Fold>, first: nat, last: nat) returns (p: nat)
    requires WellFormed(folds) && first <= last && Holders(folds, first, last) != {}
    ensures p in Holders(folds, first, last)
    ensures folds[p].level == |Holders(folds, first, last)|
    ensures forall q :: q in Holders(folds, first, last) ==> q == p || Nested(folds[q], folds[p])
  {
    var h := Holders(folds, first, last);
    p := DeepestOf(folds, h);
    forall q | q in h && q != p
      ensures Nested(folds[q], folds[p])
    {
      assert Apart(folds[q], folds[p]);
    }
    assert h == Enclosers(folds, p) + {p};
  }

  /** Around fold `i`, the deepest encloser `p` leaves exactly its own enclosers further out. */
  lemma {:induction false} EnclosersStep(folds: seq<Fold>, i: nat, p: nat)
    requires Ranges(folds) && Laminar(folds) && i < |folds| && p in Enclosers(folds, i)
    requires forall j :: j in Enclosers(folds, i) ==> folds[j].level <= folds[p].level
    ensures |Enclosers(folds, i)| == |Enclosers(folds, p)| + 1
  {
    forall j | j in Enclosers(folds, i) && j != p
      ensures j in Enclosers(folds, p)
    {
      assert Apart(folds[j], folds[p]);
    }
    assert Enclosers(folds, i) == Enclosers(folds, p) + {p};
  }

  lemma {:induction false} ParentsGiveDepth(folds: seq<Fold>, i: nat)
    requires Ranges(folds) && Laminar(folds) && Parented(folds) && i < |folds|
    ensures folds[i].level == |Enclosers(folds, i)| + 1
    decreases folds[i].level
  {
    if folds[i].level == 1 {
      assert Enclosers(folds, i) == {};
    } else {
      assert HasParent(folds, folds[i]);
      var f :| f in folds && Nested(f, folds[i]) && f.level == folds[i].level - 1;
      var p: nat :| p < |folds| && folds[p] == f;
      ParentsGiveDepth(folds, p);
      EnclosersStep(folds, i, p);
    }
  }

  lemma {:induction false} DepthGivesParent(folds: seq<Fold>, i: nat)
    requires WellFormed(folds) && i < |folds| && folds[i].level > 1
    ensures HasParent(folds, folds[i])
  {
    assert Enclosers(folds, i) != {};
    var p := DeepestOf(folds, Enclosers(folds, i));
    EnclosersStep(folds, i, p);
    assert folds[p] in folds;
  }

  /** Counting enclosing folds and stepping out one level at a time define the same fold sets. */
  lemma {:induction false} WellFormedIffParented(folds: seq<Fold>)
    ensures WellFormed(folds) <==> Ranges(folds) && Laminar(folds) && Parented(folds)
  {
    if WellFormed(folds) {
      forall f | f in folds && f.level > 1
        ensures HasParent(folds, f)
      {
        var i: nat :| i < |folds| && folds[i] == f;
        DepthGivesParent(folds, i);
      }
    }
    if Ranges(folds) && Laminar(folds) && Parented(folds) {
      forall i: nat | i < |folds|
        ensures folds[i].level == |Enclosers(folds, i)| + 1
      {
        ParentsGiveDepth(folds, i);
      }
    }
  }

  /** Every level from 1 to a fold's own is held by one fold around its lines. */
  lemma {:induction false} AncestorAt(folds: seq<Fold>, f: Fold, level: nat) returns (a: Fold)
    requires Ranges(folds) && Parented(folds) && f in folds && 1 <= level <= f.level
    ensures a in folds && a.level == level && Covers(a, f) && (a == f || Nested(a, f))
    decreases f.level
  {
    if level == f.level {
      a := f;
    } else {
      assert HasParent(folds, f);
      var p :| p in folds && Nested(p, f) && p.level == f.level - 1;
      a := AncestorAt(folds, p, level);
    }
  }

  lemma {:induction false} MembersApart(folds: seq<Fold>, a: Fold, b: Fold)
    requires Laminar(folds) && a in folds && b in folds && a != b
    ensures Apart(a, b)
  {
    var i :| 0 <= i < |folds| && folds[i] == a;
    var j :| 0 <= j < |folds| && folds[j] == b;
    assert i != j;
  }

  lemma {:induction false} WellFormedIsLaminarInLines(folds: seq<Fold>)
    requires WellFormed(folds)
    ensures LaminarLines(folds)
  {
    forall i, j | 0 <= i < |folds| && 0 <= j < |folds|
      ensures Nests(folds[i], folds[j])
    {
      assert i != j ==> Apart(folds[i], folds[j]);
    }
  }

  // ----- Opening and closing

  /** The same ranges and levels in the same order; only `closed` flags may differ. */
  ghost predicate SameShape(a: seq<Fold>, b: seq<Fold>) {
    && |a| == |b|
    && forall i :: 0 <= i < |a| ==>
         a[i].start == b[i].start && a[i].end == b[i].end && a[i].level == b[i].level
  }

  lemma {:induction false} ShapeDecidesWellFormed(a: seq<Fold>, b: seq<Fold>)
    requires SameShape(a, b) && WellFormed(a)
    ensures WellFormed(b)
  {
    forall i, j | 0 <= i < |b| && 0 <= j < |b| && i != j
      ensures Apart(b[i], b[j])
    {
      assert Apart(a[i], a[j]);
    }
    forall i: nat | i < |b|
      ensures b[i].level == |Enclosers(b, i)| + 1
    {
      assert Enclosers(b, i) == Enclosers(a, i);
    }
  }
}
