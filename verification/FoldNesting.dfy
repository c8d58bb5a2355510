/**
 `renest`: after an edit moved the ranges, keep a non-crossing subfamily and set each level to its depth.
 `Kept` is the plain definition (drop a fold that crosses one kept before it, count the holders); the
 loop with a stack of open folds is proved against it in `FoldList`.
 */
module FoldNesting {
  import opened Sorting
  import opened FoldSets

  /** The sort key: start up, end down, level up, so a fold comes before the folds inside it. */
  predicate OuterFirst(a: Fold, b: Fold) {
    a.start < b.start
    || (a.start == b.start && (a.end > b.end || (a.end == b.end && a.level <= b.level)))
  }

  function SortFolds(folds: seq<Fold>): seq<Fold> {
    Sort(folds, OuterFirst)
  }

  ghost predicate CrossesAny(kept: seq<Fold>, f: Fold) {
    exists g :: g in kept && Crosses(g, f)
  }

  /** `f` one level under the kept folds that hold its first line. */
  ghost function Placed(kept: seq<Fold>, f: Fold): Fold {
    f.(level := |Holders(kept, f.start, f.start)| + 1)
  }

  ghost function Kept(sorted: seq<Fold>): seq<Fold> {
    if sorted == [] then []
    else
      var kept, f := Kept(sorted[..|sorted| - 1]), sorted[|sorted| - 1];
      if CrossesAny(kept, f) then kept else kept + [Placed(kept, f)]
  }

  ghost function Renested(folds: seq<Fold>): seq<Fold> {
    Kept(SortFolds(folds))
  }

  lemma {:induction false} KeptStep(init: seq<Fold>, f: Fold)
    ensures Kept(init + [f])
         == if CrossesAny(Kept(init), f) then Kept(init) else Kept(init) + [Placed(Kept(init), f)]
  {
    assert (init + [f])[..|init|] == init;
  }

  predicate SameLines(a: Fold, b: Fold) {
    a.start == b.start && a.end == b.end
  }

  lemma SortFoldsFacts(folds: seq<Fold>)
    ensures SortedBy(SortFolds(folds), OuterFirst)
    ensures multiset(SortFolds(folds)) == multiset(folds)
    ensures forall f :: f in SortFolds(folds) <==> f in folds
  {
    SortSorted(folds, OuterFirst);
    SortMembers(folds, OuterFirst);
  }

  // ----- Adding the last fold of the sorted order

  /** Every fold of `kept` comes no later than `f` by range. */
  ghost predicate AllBefore(kept: seq<Fold>, f: Fold) {
    forall g :: g in kept ==> g.start < f.start || (g.start == f.start && f.end <= g.end)
  }

  /** A fold that crosses none is held as a whole by what holds its first line. */
  lemma {:induction false} FirstLineDecides(kept: seq<Fold>, f: Fold)
    requires f.start <= f.end && AllBefore(kept, f) && !CrossesAny(kept, f)
    ensures Holders(kept, f.start, f.start) == Holders(kept, f.start, f.end)
  {
    forall j: nat | j < |kept|
      ensures j in Holders(kept, f.start, f.start) <==> j in Holders(kept, f.start, f.end)
    {
      assert kept[j] in kept && !Crosses(kept[j], f);
    }
  }

  lemma {:induction false} PlacedIsDeeper(kept: seq<Fold>, f: Fold)
    requires WellFormed(kept) && f.start <= f.end && AllBefore(kept, f) && !CrossesAny(kept, f)
    ensures forall g :: g in kept && Covers(g, f) ==> Nested(g, Placed(kept, f))
    ensures Placed(kept, f).level > 1 ==> HasParent(kept, Placed(kept, f))
  {
    FirstLineDecides(kept, f);
    var h := Holders(kept, f.start, f.end);
    forall g | g in kept && Covers(g, f)
      ensures Nested(g, Placed(kept, f))
    {
      var q: nat :| q < |kept| && kept[q] == g;
      assert q in h;
      var p := InnermostHolder(kept, f.start, f.end);
    }
    if h != {} {
      var p := InnermostHolder(kept, f.start, f.end);
      assert kept[p] in kept;
    }
  }

  lemma {:induction false} AppendLaminar(kept: seq<Fold>, x: Fold)
    requires Laminar(kept) && forall g :: g in kept ==> Apart(g, x)
    ensures Laminar(kept + [x])
  {
    var n := kept + [x];
    forall i, j | 0 <= i < |n| && 0 <= j < |n| && i != j
      ensures Apart(n[i], n[j])
    {
      if i < |kept| && j < |kept| {
        assert Apart(kept[i], kept[j]);
      } else if i < |kept| {
        assert kept[i] in kept;
      } else {
        assert kept[j] in kept;
      }
    }
  }

  lemma {:induction false} AppendParented(kept: seq<Fold>, x: Fold)
    requires Parented(kept) && (x.level > 1 ==> HasParent(kept, x))
    ensures Parented(kept + [x])
  {
    forall g | g in kept + [x] && g.level > 1
      ensures HasParent(kept + [x], g)
    {
      assert HasParent(kept, g);
      var p :| p in kept && Nested(p, g) && p.level == g.level - 1;
      assert p in kept + [x];
    }
  }

  lemma {:induction false} ExtendWellFormed(kept: seq<Fold>, f: Fold)
    requires WellFormed(kept) && f.start <= f.end && AllBefore(kept, f) && !CrossesAny(kept, f)
    ensures WellFormed(kept + [Placed(kept, f)])
  {
    PlacedIsDeeper(kept, f);
    forall g | g in kept
      ensures Apart(g, Placed(kept, f))
    {
      assert !Crosses(g, f);
    }
    WellFormedIffParented(kept);
    AppendLaminar(kept, Placed(kept, f));
    AppendParented(kept, Placed(kept, f));
    WellFormedIffParented(kept + [Placed(kept, f)]);
  }

  lemma {:induction false} KeptComesFrom(sorted: seq<Fold>)
    ensures forall g :: g in Kept(sorted) ==>
      exists f :: f in sorted && SameLines(f, g) && f.closed == g.closed
  {
    if sorted != [] {
      var init, last := sorted[..|sorted| - 1], sorted[|sorted| - 1];
      KeptComesFrom(init);
      forall g | g in Kept(sorted)
        ensures exists f :: f in sorted && SameLines(f, g) && f.closed == g.closed
      {
        if g in Kept(init) {
          var f :| f in init && SameLines(f, g) && f.closed == g.closed;
          assert f in sorted;
        } else {
          assert g == Placed(Kept(init), last);
          assert last in sorted;
        }
      }
    }
  }

  lemma {:induction false} KeptBefore(sorted: seq<Fold>, f: Fold)
    requires SortedBy(sorted + [f], OuterFirst)
    ensures AllBefore(Kept(sorted), f)
  {
    KeptComesFrom(sorted);
    forall g | g in Kept(sorted)
      ensures g.start < f.start || (g.start == f.start && f.end <= g.end)
    {
      var h :| h in sorted && SameLines(h, g) && h.closed == g.closed;
      var i :| 0 <= i < |sorted| && sorted[i] == h;
      assert (sorted + [f])[i] == h && (sorted + [f])[|sorted|] == f;
    }
  }

  lemma {:induction false} KeptWellFormed(sorted: seq<Fold>)
    requires SortedBy(sorted, OuterFirst) && OrderedRanges(sorted)
    ensures WellFormed(Kept(sorted))
    ensures SortedBy(Kept(sorted), OuterFirst)
  {
    if sorted != [] {
      var init, f := sorted[..|sorted| - 1], sorted[|sorted| - 1];
      assert sorted == init + [f];
      KeptWellFormed(init);
      KeptBefore(init, f);
      var kept := Kept(init);
      if !CrossesAny(kept, f) {
        ExtendWellFormed(kept, f);
        PlacedIsDeeper(kept, f);
        forall i | 0 <= i < |kept|
          ensures OuterFirst(kept[i], Placed(kept, f))
        {
          assert kept[i] in kept;
        }
      }
    }
  }

  /** Whatever the moved ranges were, the result is a well-formed fold set, listed outer first. */
  lemma {:induction false} RenestedWellFormed(folds: seq<Fold>)
    requires OrderedRanges(folds)
    ensures WellFormed(Renested(folds))
    ensures SortedBy(Renested(folds), OuterFirst)
  {
    SortFoldsFacts(folds);
    forall i | 0 <= i < |SortFolds(folds)|
      ensures SortFolds(folds)[i].start <= SortFolds(folds)[i].end
    {
      assert SortFolds(folds)[i] in folds;
    }
    KeptWellFormed(SortFolds(folds));
  }

  // ----- What is dropped

  lemma {:induction false} KeptGrows(sorted: seq<Fold>, i: nat)
    requires i <= |sorted|
    ensures Kept(sorted[..i]) <= Kept(sorted)
    decreases |sorted|
  {
    if i < |sorted| {
      var init := sorted[..|sorted| - 1];
      assert sorted[..i] == init[..i];
      KeptGrows(init, i);
    } else {
      assert sorted[..i] == sorted;
    }
  }

  lemma {:induction false} KeptIsUncrossed(kept: seq<Fold>, g: Fold, f: Fold)
    requires WellFormed(kept) && g in kept && SameLines(g, f)
    ensures !CrossesAny(kept, f)
  {
    forall h | h in kept
      ensures !Crosses(h, f)
    {
      if h != g {
        MembersApart(kept, h, g);
      }
    }
  }

  lemma {:induction false} UncrossedIsKept(sorted: seq<Fold>, i: nat)
    requires i < |sorted| && !CrossesAny(Kept(sorted), sorted[i])
    ensures exists g :: g in Kept(sorted) && SameLines(g, sorted[i])
  {
    var before := Kept(sorted[..i]);
    KeptGrows(sorted, i);
    assert forall h :: h in before ==> h in Kept(sorted);
    KeptStep(sorted[..i], sorted[i]);
    assert sorted[..i + 1] == sorted[..i] + [sorted[i]];
    assert Kept(sorted[..i + 1])[|before|] == Placed(before, sorted[i]);
    KeptGrows(sorted, i + 1);
    var g := Placed(before, sorted[i]);
    assert Kept(sorted)[|before|] == g;
    assert g in Kept(sorted) && SameLines(g, sorted[i]);
  }

  lemma {:induction false} KeptIsMaximal(sorted: seq<Fold>, f: Fold)
    requires SortedBy(sorted, OuterFirst) && OrderedRanges(sorted) && f in sorted
    ensures (exists g :: g in Kept(sorted) && SameLines(g, f)) <==> !CrossesAny(Kept(sorted), f)
  {
    KeptWellFormed(sorted);
    if g :| g in Kept(sorted) && SameLines(g, f) {
      KeptIsUncrossed(Kept(sorted), g, f);
    }
    if !CrossesAny(Kept(sorted), f) {
      var i :| 0 <= i < |sorted| && sorted[i] == f;
      UncrossedIsKept(sorted, i);
    }
  }

  /** A range survives exactly when nothing that survives crosses it: no fold is dropped needlessly. */
  lemma {:induction false} RenestedIsMaximal(folds: seq<Fold>, f: Fold)
    requires OrderedRanges(folds) && f in folds
    ensures (exists g :: g in Renested(folds) && SameLines(g, f)) <==> !CrossesAny(Renested(folds), f)
  {
    SortFoldsFacts(folds);
    forall i | 0 <= i < |SortFolds(folds)|
      ensures SortFolds(folds)[i].start <= SortFolds(folds)[i].end
    {
      assert SortFolds(folds)[i] in folds;
    }
    KeptIsMaximal(SortFolds(folds), f);
  }

  // ----- Renesting a well-formed set only sorts it

  lemma {:induction false} EarlierIsOuter(folds: seq<Fold>, i: nat, j: nat)
    requires Laminar(folds) && SortedBy(folds, OuterFirst) && i < j < |folds|
    ensures Disjoint(folds[i], folds[j]) || Nested(folds[i], folds[j])
    ensures !Nested(folds[j], folds[i])
  {
    assert OuterFirst(folds[i], folds[j]);
    assert Apart(folds[i], folds[j]);
  }

  lemma {:induction false} HoldersAreEnclosers(folds: seq<Fold>, i: nat)
    requires Laminar(folds) && SortedBy(folds, OuterFirst) && i < |folds| && folds[i].start <= folds[i].end
    ensures Holders(folds[..i], folds[i].start, folds[i].start) == Enclosers(folds, i)
    ensures !CrossesAny(folds[..i], folds[i])
  {
    forall j: nat | j < |folds|
      ensures j in Holders(folds[..i], folds[i].start, folds[i].start) <==> j in Enclosers(folds, i)
      ensures j < i ==> !Crosses(folds[j], folds[i])
    {
      if j < i {
        EarlierIsOuter(folds, j, i);
      } else if j > i {
        EarlierIsOuter(folds, i, j);
      }
    }
  }

  /** Fold `i` is kept and placed at its own level after the folds listed before it. */
  ghost predicate StaysPut(folds: seq<Fold>, i: nat) {
    i < |folds| && Placed(folds[..i], folds[i]) == folds[i] && !CrossesAny(folds[..i], folds[i])
  }

  lemma {:induction false} DepthStaysPut(folds: seq<Fold>, i: nat)
    requires LevelsAreDepths(folds) && i < |folds| && !CrossesAny(folds[..i], folds[i])
    requires Holders(folds[..i], folds[i].start, folds[i].start) == Enclosers(folds, i)
    ensures StaysPut(folds, i)
  {
  }

  lemma {:induction false} SortedStaysPut(folds: seq<Fold>, i: nat)
    requires WellFormed(folds) && SortedBy(folds, OuterFirst) && i < |folds|
    ensures StaysPut(folds, i)
  {
    HoldersAreEnclosers(folds, i);
    DepthStaysPut(folds, i);
  }

  lemma {:induction false} KeptIdentityStep(init: seq<Fold>, f: Fold)
    requires Kept(init) == init && Placed(init, f) == f && !CrossesAny(init, f)
    ensures Kept(init + [f]) == init + [f]
  {
    KeptStep(init, f);
  }

  lemma {:induction false} KeptUpTo(folds: seq<Fold>, n: nat)
    requires n <= |folds| && forall i: nat :: i < |folds| ==> StaysPut(folds, i)
    ensures Kept(folds[..n]) == folds[..n]
  {
    if n > 0 {
      KeptUpTo(folds, n - 1);
      assert StaysPut(folds, n - 1);
      KeptIdentityStep(folds[..n - 1], folds[n - 1]);
      assert folds[..n] == folds[..n - 1] + [folds[n - 1]];
    }
  }

  lemma {:induction false} KeptIdentity(folds: seq<Fold>)
    requires WellFormed(folds) && SortedBy(folds, OuterFirst)
    ensures Kept(folds) == folds
  {
    forall i: nat | i < |folds|
      ensures StaysPut(folds, i)
    {
      SortedStaysPut(folds, i);
    }
    KeptUpTo(folds, |folds|);
    assert folds[..|folds|] == folds;
  }

  lemma {:induction false} RepeatedTwice(s: seq<Fold>, i: nat, j: nat)
    requires i < j < |s| && s[i] == s[j]
    ensures multiset(s)[s[i]] >= 2
  {
    assert s == s[..j] + s[j..];
    assert s[i] in s[..j] && s[j] in s[j..];
  }

  lemma {:induction false} DistinctOnce(s: seq<Fold>, x: Fold)
    requires forall i, j :: 0 <= i < j < |s| ==> s[i] != s[j]
    ensures multiset(s)[x] <= 1
  {
    if s != [] {
      var n := |s| - 1;
      assert s == s[..n] + [s[n]];
      DistinctOnce(s[..n], x);
      assert s[n] !in s[..n];
    }
  }

  lemma {:induction false} DistinctByMultiset(a: seq<Fold>, b: seq<Fold>)
    requires multiset(a) == multiset(b)
    requires forall i, j :: 0 <= i < j < |a| ==> a[i] != a[j]
    ensures forall i, j :: 0 <= i < j < |b| ==> b[i] != b[j]
  {
    forall i, j | 0 <= i < j < |b|
      ensures b[i] != b[j]
    {
      DistinctOnce(a, b[i]);
      if b[i] == b[j] {
        RepeatedTwice(b, i, j);
        assert false;
      }
    }
  }

  /** Well-formedness does not depend on the order of the list. */
  lemma {:induction false} ReorderedWellFormed(a: seq<Fold>, b: seq<Fold>)
    requires multiset(a) == multiset(b) && WellFormed(a)
    ensures WellFormed(b)
  {
    WellFormedIffParented(a);
    forall i, j | 0 <= i < j < |a|
      ensures a[i] != a[j]
    {
      assert Apart(a[i], a[j]);
    }
    DistinctByMultiset(a, b);
    forall f
      ensures f in a <==> f in b
    {
      assert f in a <==> f in multiset(a);
    }
    forall i, j | 0 <= i < |b| && 0 <= j < |b| && i != j
      ensures Apart(b[i], b[j])
    {
      assert i < j || j < i;
      MembersApart(a, b[i], b[j]);
    }
    forall i | 0 <= i < |b|
      ensures b[i].start <= b[i].end && 1 <= b[i].level
    {
      assert b[i] in a;
    }
    forall f | f in b && f.level > 1
      ensures HasParent(b, f)
    {
      assert HasParent(a, f);
      var p :| p in a && Nested(p, f) && p.level == f.level - 1;
      assert p in b;
    }
    WellFormedIffParented(b);
  }

  lemma {:induction false} RenestOnlySorts(folds: seq<Fold>)
    requires WellFormed(folds)
    ensures Renested(folds) == SortFolds(folds)
  {
    SortFoldsFacts(folds);
    ReorderedWellFormed(folds, SortFolds(folds));
    KeptIdentity(SortFolds(folds));
  }

  lemma {:induction false} RenestIdempotent(folds: seq<Fold>)
    requires OrderedRanges(folds)
    ensures Renested(Renested(folds)) == Renested(folds)
  {
    RenestedWellFormed(folds);
    RenestOnlySorts(Renested(folds));
    SortIsIdentityOnSorted(Renested(folds), OuterFirst);
  }

  // ----- Folds over the same lines keep their order

  /** From position `k` on, `r` has the folds `t` in order, each one level inside the one before it. */
  ghost predicate ChainAt(r: seq<Fold>, k: nat, t: seq<Fold>, level: nat) {
    k + |t| <= |r| && forall j :: 0 <= j < |t| ==> r[k + j] == t[j].(level := level + j)
  }

  lemma {:induction false} ChainGrows(r: seq<Fold>, k: nat, t: seq<Fold>, level: nat, f: Fold)
    requires ChainAt(r, k, t, level) && |r| == k + |t|
    ensures ChainAt(r + [f.(level := level + |t|)], k, t + [f], level)
  {
  }

  lemma {:induction false} ChainKept(r: seq<Fold>, k: nat, t: seq<Fold>, level: nat, more: seq<Fold>)
    requires ChainAt(r, k, t, level) && r <= more
    ensures ChainAt(more, k, t, level)
  {
  }

  lemma {:induction false} HoldersGrow(kept: seq<Fold>, f: Fold, line: nat)
    requires f.Contains(line)
    ensures |Holders(kept + [f], line, line)| == |Holders(kept, line, line)| + 1
  {
    var more := kept + [f];
    forall j: nat
      ensures j in Holders(more, line, line) <==> j == |kept| || j in Holders(kept, line, line)
    {
      assert j < |kept| ==> more[j] == kept[j];
    }
    assert |kept| !in Holders(kept, line, line);
    assert Holders(more, line, line) == Holders(kept, line, line) + {|kept|};
  }

  lemma {:induction false} UncrossedByTwin(kept: seq<Fold>, f: Fold, g: Fold)
    requires SameLines(f, g) && !CrossesAny(kept, f)
    ensures !CrossesAny(kept, g) && !CrossesAny(kept + [f], g)
  {
    forall h | h in kept
      ensures !Crosses(h, g)
    {
      assert !Crosses(h, f);
    }
  }

  ghost function DepthAt(kept: seq<Fold>, line: nat): nat {
    |Holders(kept, line, line)|
  }

  lemma {:induction false} TwinStep(init: seq<Fold>, f: Fold, x: Fold)
    requires x.start <= x.end && SameLines(f, x) && !CrossesAny(Kept(init), x)
    ensures var kept, r := Kept(init), Kept(init + [f]);
            && r == kept + [f.(level := DepthAt(kept, x.start) + 1)]
            && !CrossesAny(r, x) && DepthAt(r, x.start) == DepthAt(kept, x.start) + 1
  {
    var kept := Kept(init);
    KeptStep(init, f);
    UncrossedByTwin(kept, x, f);
    UncrossedByTwin(kept, Placed(kept, f), x);
    HoldersGrow(kept, Placed(kept, f), x.start);
  }

  /** `r` is `kept` and then the folds `twins` over the lines of `x`, each inside the one before it. */
  ghost predicate Chained(kept: seq<Fold>, r: seq<Fold>, twins: seq<Fold>, x: Fold) {
    && |r| == |kept| + |twins| && !CrossesAny(r, x)
    && DepthAt(r, x.start) == DepthAt(kept, x.start) + |twins|
    && ChainAt(r, |kept|, twins, DepthAt(kept, x.start) + 1)
  }

  lemma {:induction false} ChainedMore(
      kept: seq<Fold>, r: seq<Fold>, twins: seq<Fold>, x: Fold, f: Fold, more: seq<Fold>)
    requires Chained(kept, r, twins, x) && more == r + [f.(level := DepthAt(r, x.start) + 1)]
    requires !CrossesAny(more, x) && DepthAt(more, x.start) == DepthAt(r, x.start) + 1
    ensures Chained(kept, more, twins + [f], x)
  {
    ChainGrows(r, |kept|, twins, DepthAt(kept, x.start) + 1, f);
  }

  /** Folds over the lines of `x` that are placed one after another. */
  lemma {:induction false} TwinsChain(init: seq<Fold>, twins: seq<Fold>, x: Fold)
    requires x.start <= x.end && !CrossesAny(Kept(init), x)
    requires forall f :: f in twins ==> SameLines(f, x)
    ensures Chained(Kept(init), Kept(init + twins), twins, x)
    decreases |twins|
  {
    if twins == [] {
      assert init + twins == init;
    } else {
      var n := |twins| - 1;
      var most, f := twins[..n], twins[n];
      assert f in twins && forall g :: g in most ==> g in twins;
      TwinsChain(init, most, x);
      ChainedStep(init, most, f, x);
      assert init + twins == (init + most) + [f] && twins == most + [f];
    }
  }

  lemma {:induction false} ChainedStep(init: seq<Fold>, twins: seq<Fold>, f: Fold, x: Fold)
    requires x.start <= x.end && SameLines(f, x) && Chained(Kept(init), Kept(init + twins), twins, x)
    ensures Chained(Kept(init), Kept(init + twins + [f]), twins + [f], x)
  {
    TwinStep(init + twins, f, x);
    ChainedMore(Kept(init), Kept(init + twins), twins, x, f, Kept(init + twins + [f]));
  }

  lemma {:induction false} TwinsInSorted(sorted: seq<Fold>, p: nat, twins: seq<Fold>, x: Fold)
    requires x.start <= x.end && !CrossesAny(Kept(sorted), x)
    requires StandsAt(twins, sorted, p) && forall f :: f in twins ==> SameLines(f, x)
    ensures ChainAt(Kept(sorted), |Kept(sorted[..p])|, twins, DepthAt(Kept(sorted[..p]), x.start) + 1)
  {
    var m := p + |twins|;
    assert sorted[..m] == sorted[..p] + twins;
    KeptGrows(sorted, p);
    assert forall h :: h in Kept(sorted[..p]) ==> h in Kept(sorted);
    TwinsChain(sorted[..p], twins, x);
    KeptGrows(sorted, m);
    ChainKept(Kept(sorted[..m]), |Kept(sorted[..p])|, twins, DepthAt(Kept(sorted[..p]), x.start) + 1, Kept(sorted));
  }

  lemma {:induction false} TiesShareLines(folds: seq<Fold>, x: Fold)
    ensures forall f :: f in Ties(folds, x, OuterFirst) ==> SameLines(f, x)
  {
    TiesTie(folds, x, OuterFirst);
  }

  lemma {:induction false} TiesInSorted(folds: seq<Fold>, x: Fold) returns (p: nat)
    ensures StandsAt(Ties(folds, x, OuterFirst), SortFolds(folds), p)
  {
    SortSorted(folds, OuterFirst);
    SortIsStable(folds, x, OuterFirst);
    p := TiesTogether(SortFolds(folds), x, OuterFirst);
  }

  /** Folds that share lines and level keep their list order, with their own flags: each is nested
      directly inside the one listed before it. */
  lemma {:induction false} RenestKeepsOrder(folds: seq<Fold>, x: Fold)
    requires x.start <= x.end && !CrossesAny(Renested(folds), x)
    ensures exists k: nat, level: nat :: ChainAt(Renested(folds), k, Ties(folds, x, OuterFirst), level)
  {
    TiesShareLines(folds, x);
    var p := TiesInSorted(folds, x);
    TwinsInSorted(SortFolds(folds), p, Ties(folds, x, OuterFirst), x);
  }

  /** Range order alone: start up, end down. */
  predicate RangeFirst(a: Fold, b: Fold) {
    a.start < b.start || (a.start == b.start && a.end >= b.end)
  }

  /** The folds over the lines of `x`, whatever their levels, in list order. */
  function Twins(folds: seq<Fold>, x: Fold): seq<Fold> {
    Ties(folds, x, RangeFirst)
  }

  lemma {:induction false} TwinsShareLines(folds: seq<Fold>, x: Fold)
    ensures forall f :: f in Sort(Twins(folds, x), OuterFirst) ==> SameLines(f, x)
  {
    TiesTie(folds, x, RangeFirst);
    SortMembers(Twins(folds, x), OuterFirst);
  }

  lemma {:induction false} TwinsStand(folds: seq<Fold>, x: Fold) returns (p: nat)
    ensures StandsAt(Sort(Twins(folds, x), OuterFirst), SortFolds(folds), p)
  {
    SortSorted(folds, OuterFirst);
    assert SortedBy(SortFolds(folds), RangeFirst);
    SortPicked(folds, x, OuterFirst, RangeFirst);
    p := TiesTogether(SortFolds(folds), x, RangeFirst);
  }

  lemma {:induction false} TwinsByLevel(folds: seq<Fold>, x: Fold)
    ensures var t := Sort(Twins(folds, x), OuterFirst);
            forall i, j :: 0 <= i < j < |t| ==> t[i].level <= t[j].level
  {
    var t := Sort(Twins(folds, x), OuterFirst);
    TwinsShareLines(folds, x);
    SortSorted(Twins(folds, x), OuterFirst);
    forall i, j | 0 <= i < j < |t|
      ensures t[i].level <= t[j].level
    {
      assert t[i] in t && t[j] in t;
      assert OuterFirst(t[i], t[j]);
    }
  }

  /** Every entry over lines that no surviving fold crosses is kept: the folds over those lines stand one
      inside the other, the smaller level outside and equal levels in list order, with their own flags. */
  lemma {:induction false} RenestKeepsTwins(folds: seq<Fold>, x: Fold)
    requires x.start <= x.end && !CrossesAny(Renested(folds), x)
    ensures exists k: nat, level: nat ::
              ChainAt(Renested(folds), k, Sort(Twins(folds, x), OuterFirst), level)
    ensures var t := Sort(Twins(folds, x), OuterFirst);
            forall i, j :: 0 <= i < j < |t| ==> t[i].level <= t[j].level
  {
    TwinsShareLines(folds, x);
    TwinsByLevel(folds, x);
    var p := TwinsStand(folds, x);
    TwinsInSorted(SortFolds(folds), p, Sort(Twins(folds, x), OuterFirst), x);
  }

  // ----- The invariant walker

  /** What `assert_invariants` checks of a manual set: ranges ordered, levels from 1, no crossing, and
      the sorted list a fixed point of `renest`. */
  ghost predicate WalkerAccepts(folds: seq<Fold>) {
    && Ranges(folds)
    && (forall i, j :: 0 <= i < j < |folds| ==> Nests(folds[i], folds[j]))
    && Renested(SortFolds(folds)) == SortFolds(folds)
  }

  /** The runtime walker accepts exactly the well-formed sets. */
  lemma {:induction false} WalkerIffWellFormed(folds: seq<Fold>)
    ensures WalkerAccepts(folds) <==> WellFormed(folds)
  {
    SortFoldsFacts(folds);
    var sorted := SortFolds(folds);
    if WellFormed(folds) {
      ReorderedWellFormed(folds, sorted);
      RenestOnlySorts(sorted);
      SortIsIdentityOnSorted(sorted, OuterFirst);
      WellFormedIsLaminarInLines(folds);
    }
    if WalkerAccepts(folds) {
      forall i | 0 <= i < |sorted|
        ensures sorted[i].start <= sorted[i].end
      {
        assert sorted[i] in folds;
      }
      RenestedWellFormed(sorted);
      ReorderedWellFormed(sorted, folds);
    }
  }
}
