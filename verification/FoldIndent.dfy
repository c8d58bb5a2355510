/**
 `foldmethod=indent`: folds derived from indentation. Every line has an effective level; for each depth
 the maximal runs of lines at least that deep become folds, and `foldlevel` decides which are closed.
 */
module FoldIndent {
  import opened Options
  import opened FoldSets
  import opened FoldGeometry

  // ----- Effective levels

  /** The level of the first line from `i` on that has one of its own; 0 past the last. */
  function Effective(own: seq<Option<nat>>, i: nat): nat
    requires i <= |own|
    decreases |own| - i
  {
    if i == |own| then 0
    else match own[i] case Some(l) => l case None => Effective(own, i + 1)
  }

  /** `level` is that of the first line at or after `i` that counts, or 0 and no such line counts. */
  ghost predicate TakesNext(own: seq<Option<nat>>, i: nat, level: nat) {
    || (exists k: nat :: i <= k < |own| && own[k] == Some(level) && forall j :: i <= j < k ==> own[j].None?)
    || (level == 0 && forall j :: i <= j < |own| ==> own[j].None?)
  }

  lemma {:induction false} EffectiveTakesNext(own: seq<Option<nat>>, i: nat)
    requires i <= |own|
    ensures TakesNext(own, i, Effective(own, i))
    decreases |own| - i
  {
    if i < |own| {
      if own[i].Some? {
        assert own[i] == Some(Effective(own, i));
      } else {
        EffectiveTakesNext(own, i + 1);
        var level := Effective(own, i + 1);
        if k: nat :| i + 1 <= k < |own| && own[k] == Some(level) && forall j :: i + 1 <= j < k ==> own[j].None? {
          assert forall j :: i <= j < k ==> own[j].None?;
        }
      }
    }
  }

  /** Bottom-up, an ignored line (blank or `#`) takes the level of the next line that counts. */
  method EffectiveLevels(own: seq<Option<nat>>) returns (eff: seq<nat>)
    ensures |eff| == |own|
    ensures forall i: nat :: i < |own| ==> eff[i] == Effective(own, i) && TakesNext(own, i, eff[i])
  {
    eff := [];
    var next: nat := 0;
    var i: nat := |own|;
    while i > 0
      invariant i <= |own| && |eff| == |own| - i
      invariant next == Effective(own, i)
      invariant forall k: nat :: i <= k < |own| ==> eff[k - i] == Effective(own, k)
    {
      i := i - 1;
      match own[i] {
        case Some(l) => next := l;
        case None =>
      }
      eff := [next] + eff;
    }
    forall i: nat | i < |own|
      ensures TakesNext(own, i, Effective(own, i))
    {
      EffectiveTakesNext(own, i);
    }
  }

  // ----- Runs

  predicate AllAtLeast(eff: seq<nat>, d: nat, s: nat, e: nat) {
    s <= e < |eff| && forall i :: s <= i <= e ==> d <= eff[i]
  }

  /** `s..=e` is a maximal run of lines at level `d` or deeper. */
  predicate IsRun(eff: seq<nat>, d: nat, s: nat, e: nat) {
    && AllAtLeast(eff, d, s, e)
    && (s == 0 || eff[s - 1] < d)
    && (e + 1 == |eff| || eff[e + 1] < d)
  }

  function MinLevel(eff: seq<nat>, s: nat, e: nat): (m: nat)
    requires s <= e < |eff|
    ensures forall i :: s <= i <= e ==> m <= eff[i]
    ensures exists i :: s <= i <= e && m == eff[i]
    decreases e - s
  {
    if s == e then eff[s]
    else
      var m := MinLevel(eff, s, e - 1);
      if eff[e] < m then eff[e] else m
  }

  /** A run of two lines or more, at some depth, with the least level in it. */
  ghost predicate IsRunFold(eff: seq<nat>, f: Fold) {
    && f.start < f.end < |eff| && f.level == MinLevel(eff, f.start, f.end)
    && exists d: nat :: 1 <= d && IsRun(eff, d, f.start, f.end)
  }

  /** The fold set of `eff`: exactly the run folds, no range twice. */
  ghost predicate IsIndentSet(eff: seq<nat>, folds: seq<Fold>) {
    && (forall f :: f in folds ==> IsRunFold(eff, f))
    && (forall d: nat, s: nat, e: nat :: 1 <= d && s < e && IsRun(eff, d, s, e) ==> HasRange(folds, s, e))
    && NoRangeTwice(folds)
  }

  predicate HasRange(folds: seq<Fold>, s: nat, e: nat) {
    exists i :: 0 <= i < |folds| && folds[i].start == s && folds[i].end == e
  }

  ghost predicate NoRangeTwice(folds: seq<Fold>) {
    forall i, j :: 0 <= i < j < |folds| ==> folds[i].start != folds[j].start || folds[i].end != folds[j].end
  }

  // ----- The fold set is laminar

  lemma {:induction false} RunsNest(eff: seq<nat>, d1: nat, s1: nat, e1: nat, d2: nat, s2: nat, e2: nat)
    requires d1 <= d2 && IsRun(eff, d1, s1, e1) && IsRun(eff, d2, s2, e2)
    ensures e1 < s2 || e2 < s1 || (s1 <= s2 && e2 <= e1)
    ensures s1 <= s2 && e2 <= e1 && (s1 != s2 || e1 != e2) ==>
              MinLevel(eff, s1, e1) < MinLevel(eff, s2, e2)
  {
    assert s1 > 0 ==> !(s2 <= s1 - 1 <= e2);
    assert e1 + 1 < |eff| ==> !(s2 <= e1 + 1 <= e2);
    var i :| s2 <= i <= e2 && MinLevel(eff, s2, e2) == eff[i];
    if s1 < s2 && e2 <= e1 {
      assert MinLevel(eff, s1, e1) <= eff[s2 - 1] < d2;
    } else if s1 <= s2 && e2 < e1 {
      assert MinLevel(eff, s1, e1) <= eff[e2 + 1] < d2;
    }
  }

  lemma {:induction false} RunFoldsApart(eff: seq<nat>, a: Fold, b: Fold)
    requires IsRunFold(eff, a) && IsRunFold(eff, b) && (a.start != b.start || a.end != b.end)
    ensures Apart(a, b)
  {
    var d1: nat :| 1 <= d1 && IsRun(eff, d1, a.start, a.end);
    var d2: nat :| 1 <= d2 && IsRun(eff, d2, b.start, b.end);
    if d1 <= d2 {
      RunsNest(eff, d1, a.start, a.end, d2, b.start, b.end);
    } else {
      RunsNest(eff, d2, b.start, b.end, d1, a.start, a.end);
    }
  }

  /** Indent folds never cross and their levels grow strictly inward. */
  lemma {:induction false} IndentSetLaminar(eff: seq<nat>, folds: seq<Fold>)
    requires IsIndentSet(eff, folds)
    ensures Ranges(folds) && Laminar(folds) && LaminarLines(folds)
  {
    forall i | 0 <= i < |folds|
      ensures folds[i].start <= folds[i].end && 1 <= folds[i].level
    {
      assert folds[i] in folds;
    }
    forall i, j | 0 <= i < |folds| && 0 <= j < |folds| && i != j
      ensures Apart(folds[i], folds[j])
    {
      assert folds[i] in folds && folds[j] in folds;
      assert i < j || j < i;
      RunFoldsApart(eff, folds[i], folds[j]);
    }
    forall i, j | 0 <= i < |folds| && 0 <= j < |folds|
      ensures Nests(folds[i], folds[j])
    {
      assert i != j ==> Apart(folds[i], folds[j]);
    }
  }

  // ----- `foldlevel`

  function WithLevel(folds: seq<Fold>, foldlevel: nat): (r: seq<Fold>)
    ensures |r| == |folds|
    ensures forall i :: 0 <= i < |folds| ==> r[i] == folds[i].(closed := folds[i].level > foldlevel)
  {
    seq(|folds|, i requires 0 <= i < |folds| => folds[i].(closed := folds[i].level > foldlevel))
  }

  /** A run around `line` that no longer run of the same depth exceeds. */
  lemma {:induction false} RunAround(eff: seq<nat>, d: nat, line: nat, s: nat, e: nat, s2: nat, e2: nat)
    requires IsRun(eff, d, s, e) && AllAtLeast(eff, d, s2, e2) && s <= line <= e && s2 <= line <= e2
    ensures s <= s2 && e2 <= e
  {
    assert s > 0 ==> !(s2 <= s - 1 <= e2);
    assert e + 1 < |eff| ==> !(s2 <= e + 1 <= e2);
  }

  lemma {:induction false} ClosedFoldIsDeep(eff: seq<nat>, folds: seq<Fold>, k: nat, line: nat, f: Fold)
    requires IsIndentSet(eff, folds) && f in WithLevel(folds, k) && ShownClosedAt(f, line)
    ensures AllAtLeast(eff, k + 1, f.start, f.end)
  {
    var i :| 0 <= i < |folds| && WithLevel(folds, k)[i] == f;
    assert folds[i] in folds;
  }

  lemma {:induction false} ClosedRangeIsRun(eff: seq<nat>, folds: seq<Fold>, k: nat, line: nat, s: nat, e: nat)
    requires IsIndentSet(eff, folds) && s < e && IsRun(eff, k + 1, s, e) && s <= line <= e
    ensures ClosedRange(WithLevel(folds, k), line) == Some((s, e))
  {
    RunShowsClosed(eff, folds, k, line, s, e);
    ClosedStaysInRun(eff, folds, k, line, s, e);
  }

  lemma {:induction false} RunShowsClosed(eff: seq<nat>, folds: seq<Fold>, k: nat, line: nat, s: nat, e: nat)
    requires IsIndentSet(eff, folds) && s < e && IsRun(eff, k + 1, s, e) && s <= line <= e
    ensures var r := WithLevel(folds, k);
            ClosedRange(r, line).Some? && SnapOut(r, line) <= s && e <= ClosedEnd(r, line)
  {
    var r := WithLevel(folds, k);
    assert HasRange(folds, s, e);
    var i :| 0 <= i < |folds| && folds[i].start == s && folds[i].end == e;
    assert folds[i] in folds && MinLevel(eff, s, e) > k;
    SpanHolds(r, line, r[i]);
  }

  lemma {:induction false} ClosedStaysInRun(eff: seq<nat>, folds: seq<Fold>, k: nat, line: nat, s: nat, e: nat)
    requires IsIndentSet(eff, folds) && IsRun(eff, k + 1, s, e) && s <= line <= e
    requires ClosedRange(WithLevel(folds, k), line).Some?
    ensures var r := WithLevel(folds, k); s <= SnapOut(r, line) && ClosedEnd(r, line) <= e
  {
    var a, b := SpanReached(WithLevel(folds, k), line);
    ClosedFoldIsDeep(eff, folds, k, line, a);
    ClosedFoldIsDeep(eff, folds, k, line, b);
    RunAround(eff, k + 1, line, s, e, a.start, a.end);
    RunAround(eff, k + 1, line, s, e, b.start, b.end);
  }

  lemma {:induction false} NoClosedRange(eff: seq<nat>, folds: seq<Fold>, k: nat, line: nat)
    requires IsIndentSet(eff, folds)
    requires line >= |eff| || eff[line] <= k || IsRun(eff, k + 1, line, line)
    ensures ClosedRange(WithLevel(folds, k), line) == None
  {
    var r, deep := WithLevel(folds, k), k + 1;
    if ClosedRange(r, line).Some? {
      var a, b := SpanReached(r, line);
      if IsRun(eff, deep, line, line) {
        ClosedFoldIsDeep(eff, folds, k, line, a);
        RunAround(eff, deep, line, line, line, a.start, a.end);
      } else {
        ClosedFoldIsDeep(eff, folds, k, line, a);
      }
    }
  }

  lemma {:induction false} RunStart(eff: seq<nat>, d: nat, line: nat) returns (s: nat)
    requires line < |eff| && d <= eff[line]
    ensures AllAtLeast(eff, d, s, line) && (s == 0 || eff[s - 1] < d)
  {
    if line == 0 || eff[line - 1] < d {
      s := line;
    } else {
      s := RunStart(eff, d, line - 1);
    }
  }

  lemma {:induction false} RunEnd(eff: seq<nat>, d: nat, line: nat) returns (e: nat)
    requires line < |eff| && d <= eff[line]
    ensures AllAtLeast(eff, d, line, e) && (e + 1 == |eff| || eff[e + 1] < d)
    decreases |eff| - line
  {
    if line + 1 == |eff| || eff[line + 1] < d {
      e := line;
    } else {
      e := RunEnd(eff, d, line + 1);
    }
  }

  /** At `foldlevel` k a line shows in a closed fold exactly when the maximal run around it of lines
      deeper than k has two lines or more, and the closed fold's lines are that run. */
  lemma {:induction false} ClosedRangeIffRun(eff: seq<nat>, folds: seq<Fold>, k: nat, line: nat, s: nat, e: nat)
    requires IsIndentSet(eff, folds)
    ensures ClosedRange(WithLevel(folds, k), line) == Some((s, e))
       <==> s < e && s <= line <= e && IsRun(eff, k + 1, s, e)
  {
    if s < e && s <= line <= e && IsRun(eff, k + 1, s, e) {
      ClosedRangeIsRun(eff, folds, k, line, s, e);
    }
    if line >= |eff| || eff[line] <= k {
      NoClosedRange(eff, folds, k, line);
    } else {
      var s2 := RunStart(eff, k + 1, line);
      var e2 := RunEnd(eff, k + 1, line);
      if s2 < e2 {
        ClosedRangeIsRun(eff, folds, k, line, s2, e2);
      } else {
        NoClosedRange(eff, folds, k, line);
      }
    }
  }

  // ----- Computing the set

  function MaxLevel(eff: seq<nat>): (m: nat)
    ensures forall i :: 0 <= i < |eff| ==> eff[i] <= m
  {
    if eff == [] then 0
    else
      var n := |eff| - 1;
      var m := MaxLevel(eff[..n]);
      if eff[n] > m then eff[n] else m
  }

  /** The folds found when the scan at depth `d` has passed the lines before `i`. */
  ghost predicate Scanned(eff: seq<nat>, folds: seq<Fold>, d: nat, i: nat) {
    && (forall f :: f in folds ==> IsRunFold(eff, f))
    && NoRangeTwice(folds)
    && (forall c: nat, s: nat, e: nat ::
          1 <= c <= d && s < e && IsRun(eff, c, s, e) && (c < d || e < i) ==> HasRange(folds, s, e))
  }

  lemma {:induction false} AppendRun(eff: seq<nat>, folds: seq<Fold>, d: nat, i: nat, f: Fold)
    requires Scanned(eff, folds, d, i) && IsRunFold(eff, f) && !HasRange(folds, f.start, f.end)
    ensures Scanned(eff, folds + [f], d, i) && HasRange(folds + [f], f.start, f.end)
  {
    var r := folds + [f];
    forall s: nat, e: nat | HasRange(folds, s, e)
      ensures HasRange(r, s, e)
    {
      var j :| 0 <= j < |folds| && folds[j].start == s && folds[j].end == e;
      assert r[j] == folds[j];
    }
    assert r[|folds|] == f;
  }

  lemma {:induction false} RunEndsHere(eff: seq<nat>, d: nat, s: nat, i: nat, s2: nat, e2: nat)
    requires s < i <= |eff| && IsRun(eff, d, s, i - 1)
    requires IsRun(eff, d, s2, e2) && e2 < i
    ensures e2 < s || (s2 == s && e2 == i - 1)
  {
    if s <= e2 {
      RunAround(eff, d, e2, s, i - 1, s2, e2);
      RunAround(eff, d, e2, s2, e2, s, i - 1);
    }
  }

  lemma {:induction false} ScanPast(eff: seq<nat>, folds: seq<Fold>, d: nat, s: nat, i: nat)
    requires Scanned(eff, folds, d, s) && s < i <= |eff| && IsRun(eff, d, s, i - 1)
    requires i - 1 > s ==> HasRange(folds, s, i - 1)
    ensures Scanned(eff, folds, d, i)
  {
    forall c: nat, s2: nat, e2: nat | 1 <= c <= d && s2 < e2 && IsRun(eff, c, s2, e2) && (c < d || e2 < i)
      ensures HasRange(folds, s2, e2)
    {
      if c == d && e2 >= s {
        RunEndsHere(eff, d, s, i, s2, e2);
      }
    }
  }

  lemma {:induction false} ScanSkips(eff: seq<nat>, folds: seq<Fold>, d: nat, i: nat)
    requires Scanned(eff, folds, d, i) && i < |eff| && eff[i] < d
    ensures Scanned(eff, folds, d, i + 1)
  {
  }

  lemma {:induction false} NextDepth(eff: seq<nat>, folds: seq<Fold>, d: nat)
    requires Scanned(eff, folds, d, |eff|)
    ensures Scanned(eff, folds, d + 1, 0)
  {
    forall c: nat, s: nat, e: nat | 1 <= c <= d + 1 && s < e && IsRun(eff, c, s, e) && (c < d + 1 || e < 0)
      ensures HasRange(folds, s, e)
    {
      assert c < d || e < |eff|;
    }
  }

  lemma {:induction false} NoDeeperRuns(eff: seq<nat>, folds: seq<Fold>, d: nat)
    requires Scanned(eff, folds, d, 0) && d == MaxLevel(eff) + 1
    ensures IsIndentSet(eff, folds)
  {
    forall c: nat, s: nat, e: nat | 1 <= c && s < e && IsRun(eff, c, s, e)
      ensures HasRange(folds, s, e)
    {
      assert c <= eff[s] <= MaxLevel(eff);
    }
  }

  /** For any effective levels the scan finds exactly the run folds, once each, all open. */
  method ComputeIndentFolds(eff: seq<nat>) returns (folds: seq<Fold>)
    ensures IsIndentSet(eff, folds)
    ensures forall f :: f in folds ==> !f.closed
  {
    folds := [];
    var d: nat := 1;
    while d <= MaxLevel(eff)
      invariant 1 <= d <= MaxLevel(eff) + 1
      invariant Scanned(eff, folds, d, 0)
      invariant forall f :: f in folds ==> !f.closed
    {
      folds := ScanDepth(eff, folds, d);
      NextDepth(eff, folds, d);
      d := d + 1;
    }
    NoDeeperRuns(eff, folds, d);
  }

  method ScanDepth(eff: seq<nat>, before: seq<Fold>, d: nat) returns (folds: seq<Fold>)
    requires d >= 1 && Scanned(eff, before, d, 0) && forall f :: f in before ==> !f.closed
    ensures Scanned(eff, folds, d, |eff|) && forall f :: f in folds ==> !f.closed
  {
    folds := before;
    var i: nat := 0;
    while i < |eff|
      invariant i <= |eff| && Scanned(eff, folds, d, i)
      invariant i == 0 || i == |eff| || eff[i - 1] < d || eff[i] < d
      invariant forall f :: f in folds ==> !f.closed
    {
      if eff[i] < d {
        ScanSkips(eff, folds, d, i);
        i := i + 1;
        continue;
      }
      var s := i;
      while i < |eff| && eff[i] >= d
        invariant s <= i <= |eff| && forall k :: s <= k < i ==> eff[k] >= d
      {
        i := i + 1;
      }
      var e := i - 1;
      assert IsRun(eff, d, s, e);
      if e > s {
        if !HasRange(folds, s, e) {
          var f := Fold(s, e, false, MinLevel(eff, s, e));
          AppendRun(eff, folds, d, s, f);
          folds := folds + [f];
        }
      }
      ScanPast(eff, folds, d, s, i);
    }
  }
}
