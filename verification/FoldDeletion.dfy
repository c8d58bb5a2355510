/**
 `zd` and `zD`: delete the fold under the cursor. `zd` moves the folds inside it one level up, `zD`
 deletes them too.
 */
module FoldDeletion {
  import opened Options
  import opened FoldSets
  import opened FoldToggling

  predicate IsShownClosed(f: Fold) {
    f.ShowsClosed()
  }

  function DeleteTarget(folds: seq<Fold>, line: nat): (r: Option<nat>) {
    var on := Path(folds, line);
    match FirstOn(folds, on, IsShownClosed)
    case Some(i) => Some(i)
    case None => if on == [] then None else Some(on[|on| - 1])
  }

  predicate Dropped(folds: seq<Fold>, i: nat, recursive: bool, j: nat)
    requires i < |folds| && j < |folds|
  {
    j == i || (recursive && Nested(folds[i], folds[j]))
  }

  function Lifted(t: Fold, f: Fold): Fold {
    if Nested(t, f) then f.(level := f.level - 1) else f
  }

  /** What the fold list keeps, from index `k` on. */
  function Retained(folds: seq<Fold>, i: nat, recursive: bool, k: nat): seq<Fold>
    requires i < |folds| && k <= |folds|
    decreases |folds| - k
  {
    if k == |folds| then []
    else (if Dropped(folds, i, recursive, k) then [] else [Lifted(folds[i], folds[k])])
         + Retained(folds, i, recursive, k + 1)
  }

  function Deleted(folds: seq<Fold>, i: nat, recursive: bool): seq<Fold>
    requires i < |folds|
  {
    Retained(folds, i, recursive, 0)
  }

  function DeleteAt(folds: seq<Fold>, line: nat, recursive: bool): (r: (seq<Fold>, bool)) {
    match DeleteTarget(folds, line)
    case Some(i) => if i < |folds| then (Deleted(folds, i, recursive), true) else (folds, false)
    case None => (folds, false)
  }

  // ----- Which fold goes

  lemma {:induction false} TargetLevel(folds: seq<Fold>, line: nat, j: nat)
    requires j < |folds| && folds[j].Contains(line)
    ensures var t := DeleteTarget(folds, line);
            && t.Some? && t.value < |folds| && folds[t.value].Contains(line)
            && (folds[j].ShowsClosed() ==>
                  folds[t.value].ShowsClosed() && folds[t.value].level <= folds[j].level)
            && (!folds[t.value].ShowsClosed() ==> folds[j].level <= folds[t.value].level)
  {
    PathFacts(folds, line);
    var on := Path(folds, line);
    assert j in on;
    if folds[j].ShowsClosed() {
      FirstOnIsLeast(folds, on, IsShownClosed, j);
    }
    if FirstOn(folds, on, IsShownClosed).None? {
      var k :| 0 <= k < |on| && on[k] == j;
      assert on[|on| - 1] in on;
      assert k < |on| - 1 ==> PathOrder(folds)(on[k], on[|on| - 1]);
    }
  }

  /** The fold that goes: the outermost one shown closed at the line if there is one, else the innermost;
      none exactly when no fold holds the line. */
  lemma {:induction false} TargetOnWellFormed(folds: seq<Fold>, line: nat, j: nat)
    requires WellFormed(folds) && j < |folds| && folds[j].Contains(line)
    ensures var t := DeleteTarget(folds, line);
            && t.Some? && t.value < |folds| && folds[t.value].Contains(line)
            && (folds[t.value].ShowsClosed() && folds[j].ShowsClosed() && j != t.value ==>
                  Nested(folds[t.value], folds[j]))
            && (!folds[t.value].ShowsClosed() ==>
                  !folds[j].ShowsClosed() && (j != t.value ==> Nested(folds[j], folds[t.value])))
  {
    TargetLevel(folds, line, j);
    var t := DeleteTarget(folds, line).value;
    if j != t {
      assert Apart(folds[j], folds[t]);
    }
  }

  lemma {:induction false} DeleteAtReports(folds: seq<Fold>, line: nat, recursive: bool)
    ensures DeleteAt(folds, line, recursive).1 <==> Held(folds, line)
    ensures !Held(folds, line) ==> DeleteAt(folds, line, recursive).0 == folds
  {
    PathEmptyIffNotHeld(folds, line);
    if i: nat :| i < |folds| && folds[i].Contains(line) {
      TargetLevel(folds, line, i);
    }
  }

  // ----- What goes and what stays

  lemma {:induction false} RetainedInOrder(folds: seq<Fold>, i: nat, k: nat, j: nat)
    requires i < |folds| && k <= j < |folds| && j != i
    ensures var r := Retained(folds, i, false, k);
            && |r| == |folds| - k - (if k <= i then 1 else 0)
            && r[j - k - (if k <= i < j then 1 else 0)]
               == folds[j].(level := if Nested(folds[i], folds[j]) then folds[j].level - 1 else folds[j].level)
    decreases |folds| - k
  {
    RetainedLength(folds, i, k);
    if k < j {
      RetainedInOrder(folds, i, k + 1, j);
    }
  }

  lemma {:induction false} RetainedLength(folds: seq<Fold>, i: nat, k: nat)
    requires i < |folds| && k <= |folds|
    ensures |Retained(folds, i, false, k)| == |folds| - k - (if k <= i then 1 else 0)
    decreases |folds| - k
  {
    if k < |folds| {
      RetainedLength(folds, i, k + 1);
    }
  }

  /** `zd` takes out fold `i` alone: every other fold stays in its place in the list, one level up exactly
      when it was inside fold `i`, and otherwise unchanged. */
  lemma {:induction false} DeleteLifts(folds: seq<Fold>, i: nat, j: nat)
    requires i < |folds| && j < |folds| && j != i
    ensures var r := Deleted(folds, i, false);
            && |r| == |folds| - 1
            && r[if j < i then j else j - 1]
               == folds[j].(level := if Nested(folds[i], folds[j]) then folds[j].level - 1 else folds[j].level)
  {
    RetainedInOrder(folds, i, 0, j);
  }

  /** The folds of a list other than `t` and not inside it, in list order. */
  function Outside(folds: seq<Fold>, t: Fold): seq<Fold> {
    if folds == [] then []
    else (if folds[0] == t || Nested(t, folds[0]) then [] else [folds[0]]) + Outside(folds[1..], t)
  }

  lemma {:induction false} OutsideMembers(folds: seq<Fold>, t: Fold, g: Fold)
    ensures g in Outside(folds, t) <==> g in folds && g != t && !Nested(t, g)
  {
    if folds != [] {
      OutsideMembers(folds[1..], t, g);
      assert g in folds <==> g == folds[0] || g in folds[1..];
    }
  }

  lemma {:induction false} RetainedOutside(folds: seq<Fold>, i: nat, k: nat)
    requires Ranges(folds) && Laminar(folds) && i < |folds| && k <= |folds|
    ensures Retained(folds, i, true, k) == Outside(folds[k..], folds[i])
    decreases |folds| - k
  {
    if k < |folds| {
      RetainedOutside(folds, i, k + 1);
      assert folds[k..][1..] == folds[k + 1..];
      assert k != i ==> Apart(folds[k], folds[i]);
    }
  }

  /** `zD` takes out fold `i` and every fold inside it, and leaves the others as they are, in order. */
  lemma {:induction false} DeleteDropsNested(folds: seq<Fold>, i: nat, g: Fold)
    requires WellFormed(folds) && i < |folds|
    ensures g in Deleted(folds, i, true) <==> g in folds && g != folds[i] && !Nested(folds[i], g)
    ensures Deleted(folds, i, true) == Outside(folds, folds[i])
  {
    RetainedOutside(folds, i, 0);
    assert folds[0..] == folds;
    OutsideMembers(folds, folds[i], g);
  }

  // ----- What is left is well formed

  lemma {:induction false} RetainedMembers(folds: seq<Fold>, i: nat, recursive: bool, k: nat, g: Fold)
    requires i < |folds| && k <= |folds|
    ensures g in Retained(folds, i, recursive, k)
       <==> exists j: nat :: k <= j < |folds| && !Dropped(folds, i, recursive, j)
                             && g == Lifted(folds[i], folds[j])
    decreases |folds| - k
  {
    if k < |folds| {
      RetainedMembers(folds, i, recursive, k + 1, g);
      var rest := Retained(folds, i, recursive, k + 1);
      var head := if Dropped(folds, i, recursive, k) then [] else [Lifted(folds[i], folds[k])];
      assert g in Retained(folds, i, recursive, k) <==> g in head || g in rest;
      if g in rest {
        var j: nat :| k + 1 <= j < |folds| && !Dropped(folds, i, recursive, j)
                      && g == Lifted(folds[i], folds[j]);
        assert k <= j;
      }
    }
  }

  lemma {:induction false} LiftedApart(t: Fold, a: Fold, b: Fold)
    requires t.start <= t.end && a.start <= a.end && b.start <= b.end
    requires Apart(t, a) && Apart(t, b) && Apart(a, b)
    ensures Apart(Lifted(t, a), Lifted(t, b))
  {
  }

  lemma {:induction false} ConsLaminar(h: Fold, t: seq<Fold>)
    requires Laminar(t) && forall g :: g in t ==> Apart(h, g)
    ensures Laminar([h] + t)
  {
    var r := [h] + t;
    forall x, y | 0 <= x < |r| && 0 <= y < |r| && x != y
      ensures Apart(r[x], r[y])
    {
      if x == 0 {
        assert r[y] in t;
      } else if y == 0 {
        assert r[x] in t;
      } else {
        assert Apart(t[x - 1], t[y - 1]);
      }
    }
  }

  lemma {:induction false} RetainedLaminar(folds: seq<Fold>, i: nat, recursive: bool, k: nat)
    requires Ranges(folds) && Laminar(folds) && i < |folds| && k <= |folds|
    ensures Laminar(Retained(folds, i, recursive, k))
    decreases |folds| - k
  {
    if k < |folds| {
      RetainedLaminar(folds, i, recursive, k + 1);
      var rest := Retained(folds, i, recursive, k + 1);
      if !Dropped(folds, i, recursive, k) {
        forall g | g in rest
          ensures Apart(Lifted(folds[i], folds[k]), g)
        {
          RetainedMembers(folds, i, recursive, k + 1, g);
          var j: nat :| k + 1 <= j < |folds| && !Dropped(folds, i, recursive, j)
                        && g == Lifted(folds[i], folds[j]);
          assert Apart(folds[i], folds[k]) && Apart(folds[i], folds[j]) && Apart(folds[k], folds[j]);
          LiftedApart(folds[i], folds[k], folds[j]);
        }
        ConsLaminar(Lifted(folds[i], folds[k]), rest);
      }
    }
  }

  lemma {:induction false} SurvivorKept(folds: seq<Fold>, i: nat, recursive: bool, f: Fold)
    requires i < |folds| && f in folds && f != folds[i] && !(recursive && Nested(folds[i], f))
    ensures Lifted(folds[i], f) in Deleted(folds, i, recursive)
  {
    var j: nat :| j < |folds| && folds[j] == f;
    RetainedMembers(folds, i, recursive, 0, Lifted(folds[i], f));
    assert !Dropped(folds, i, recursive, j);
  }

  lemma {:induction false} SurvivorParent(folds: seq<Fold>, i: nat, recursive: bool, f: Fold)
    requires Ranges(folds) && Laminar(folds) && Parented(folds) && i < |folds|
    requires f in folds && f != folds[i] && !(recursive && Nested(folds[i], f))
    requires Lifted(folds[i], f).level > 1
    ensures HasParent(Deleted(folds, i, recursive), Lifted(folds[i], f))
  {
    var t := folds[i];
    assert HasParent(folds, f);
    var q :| q in folds && Nested(q, f) && q.level == f.level - 1;
    if q == t {
      assert HasParent(folds, t);
      var p :| p in folds && Nested(p, t) && p.level == t.level - 1;
      SurvivorKept(folds, i, recursive, p);
      assert Lifted(t, p) == p;
    } else {
      MembersApart(folds, q, t);
      SurvivorKept(folds, i, recursive, q);
    }
  }

  /** Deleting any fold of a well-formed set, with or without the folds inside it, leaves one. */
  lemma {:induction false} DeletedWellFormed(folds: seq<Fold>, i: nat, recursive: bool)
    requires WellFormed(folds) && i < |folds|
    ensures WellFormed(Deleted(folds, i, recursive))
  {
    var r := Deleted(folds, i, recursive);
    WellFormedIffParented(folds);
    RetainedLaminar(folds, i, recursive, 0);
    forall g | g in r
      ensures g.start <= g.end && 1 <= g.level && (g.level > 1 ==> HasParent(r, g))
    {
      RetainedMembers(folds, i, recursive, 0, g);
      var j: nat :| j < |folds| && !Dropped(folds, i, recursive, j) && g == Lifted(folds[i], folds[j]);
      assert Apart(folds[i], folds[j]);
      if g.level > 1 {
        SurvivorParent(folds, i, recursive, folds[j]);
      }
    }
    WellFormedIffParented(r);
  }

  lemma {:induction false} DeleteAtWellFormed(folds: seq<Fold>, line: nat, recursive: bool)
    requires WellFormed(folds)
    ensures WellFormed(DeleteAt(folds, line, recursive).0)
  {
    match DeleteTarget(folds, line)
    case None =>
    case Some(i) =>
      if i < |folds| {
        DeletedWellFormed(folds, i, recursive);
      }
  }
}
