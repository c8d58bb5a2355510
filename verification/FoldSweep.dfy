/**
 `hidden_between`: counting the hidden lines of a range by sweeping the sorted spans of the closed folds
 instead of asking about each line. Holds for any fold list, overlapping or not.
 */
module FoldSweep {
  import opened Sorting
  import opened FoldSets
  import opened FoldGeometry

  /** The lines `from..to`, the end excluded. */
  datatype Span = Span(from: nat, to: nat)

  predicate SpanLe(x: Span, y: Span) {
    x.from < y.from || (x.from == y.from && x.to <= y.to)
  }

  /** The part of `a..b` that a closed fold hides, as a half-open span. */
  function Clipped(f: Fold, a: nat, b: nat): Span {
    Span(if f.start + 1 > a then f.start + 1 else a, if f.end + 1 < b then f.end + 1 else b)
  }

  predicate Counts(f: Fold, a: nat, b: nat) {
    f.closed && f.end > f.start && Clipped(f, a, b).from < Clipped(f, a, b).to
  }

  function SpansOf(folds: seq<Fold>, a: nat, b: nat): seq<Span> {
    if folds == [] then []
    else (if Counts(folds[0], a, b) then [Clipped(folds[0], a, b)] else []) + SpansOf(folds[1..], a, b)
  }

  predicate Covered(spans: seq<Span>, x: nat) {
    exists s :: s in spans && s.from <= x < s.to
  }

  function CoverCount(spans: seq<Span>, a: nat, b: nat): nat
    decreases b
  {
    if b <= a then 0 else CoverCount(spans, a, b - 1) + if Covered(spans, b - 1) then 1 else 0
  }

  lemma {:induction false} SpansMembers(folds: seq<Fold>, a: nat, b: nat, s: Span)
    ensures s in SpansOf(folds, a, b) <==> exists f :: f in folds && Counts(f, a, b) && Clipped(f, a, b) == s
  {
    if folds != [] {
      SpansMembers(folds[1..], a, b, s);
      assert forall f :: f in folds <==> f == folds[0] || f in folds[1..];
    }
  }

  lemma {:induction false} CoveredIffHidden(folds: seq<Fold>, a: nat, b: nat, spans: seq<Span>, x: nat)
    requires a <= x < b && forall s :: s in spans <==> s in SpansOf(folds, a, b)
    ensures Covered(spans, x) <==> Hidden(folds, x)
  {
    if s :| s in spans && s.from <= x < s.to {
      SpansMembers(folds, a, b, s);
      var f :| f in folds && Counts(f, a, b) && Clipped(f, a, b) == s;
      var i :| 0 <= i < |folds| && folds[i] == f;
      assert Hides(folds[i], x);
    }
    if i :| 0 <= i < |folds| && Hides(folds[i], x) {
      var s := Clipped(folds[i], a, b);
      assert folds[i] in folds && Counts(folds[i], a, b);
      SpansMembers(folds, a, b, s);
      assert s in spans && s.from <= x < s.to;
    }
  }

  lemma {:induction false} CountsAgree(folds: seq<Fold>, spans: seq<Span>, a: nat, b: nat, m: nat)
    requires m <= b && forall x: nat :: a <= x < b ==> (Covered(spans, x) <==> Hidden(folds, x))
    ensures CoverCount(spans, a, m) == HiddenCount(folds, a, m)
    decreases m
  {
    if m > a {
      CountsAgree(folds, spans, a, b, m - 1);
    }
  }

  lemma {:induction false} CountRun(spans: seq<Span>, a: nat, m: nat, b: nat, covered: bool)
    requires a <= m <= b && forall x: nat :: m <= x < b ==> Covered(spans, x) == covered
    ensures CoverCount(spans, a, b) == CoverCount(spans, a, m) + if covered then b - m else 0
    decreases b
  {
    if m < b {
      CountRun(spans, a, m, b - 1, covered);
    }
  }

  /** One step of the sweep: up to the next span nothing new is covered, and the span is covered whole. */
  lemma {:induction false} SweepStep(spans: seq<Span>, a: nat, i: nat, reach: nat)
    requires SortedBy(spans, SpanLe) && i < |spans| && a <= reach < spans[i].to
    requires forall j :: 0 <= j < i ==> spans[j].to <= reach
    ensures var s := if spans[i].from > reach then spans[i].from else reach;
            s < spans[i].to ==>
              CoverCount(spans, a, spans[i].to) == CoverCount(spans, a, reach) + spans[i].to - s
  {
    var s, e := if spans[i].from > reach then spans[i].from else reach, spans[i].to;
    if s < e {
      forall x: nat | reach <= x < s
        ensures !Covered(spans, x)
      {
        forall t | t in spans
          ensures !(t.from <= x < t.to)
        {
          var j :| 0 <= j < |spans| && spans[j] == t;
          assert j > i ==> SpanLe(spans[i], spans[j]);
        }
      }
      CountRun(spans, a, reach, s, false);
      assert forall x: nat :: s <= x < e ==> spans[i] in spans && Covered(spans, x);
      CountRun(spans, a, s, e, true);
    }
  }

  lemma {:induction false} SortedSpans(folds: seq<Fold>, a: nat, b: nat)
    ensures var spans := Sort(SpansOf(folds, a, b), SpanLe);
            && SortedBy(spans, SpanLe)
            && (forall i :: 0 <= i < |spans| ==> a <= spans[i].from < spans[i].to <= b)
            && CoverCount(spans, a, b) == HiddenCount(folds, a, b)
  {
    var spans := Sort(SpansOf(folds, a, b), SpanLe);
    SortSorted(SpansOf(folds, a, b), SpanLe);
    SortMembers(SpansOf(folds, a, b), SpanLe);
    forall i | 0 <= i < |spans|
      ensures a <= spans[i].from < spans[i].to <= b
    {
      assert spans[i] in spans;
      SpansMembers(folds, a, b, spans[i]);
    }
    forall x: nat | a <= x < b
      ensures Covered(spans, x) <==> Hidden(folds, x)
    {
      CoveredIffHidden(folds, a, b, spans, x);
    }
    CountsAgree(folds, spans, a, b, b);
  }

  lemma {:induction false} SweepEnd(spans: seq<Span>, a: nat, b: nat, reach: nat)
    requires a <= reach && (reach == a || reach <= b)
    requires forall j :: 0 <= j < |spans| ==> spans[j].to <= reach
    ensures CoverCount(spans, a, reach) == CoverCount(spans, a, b)
  {
    if a < b {
      assert forall x: nat :: reach <= x < b ==> !Covered(spans, x);
      CountRun(spans, a, reach, b, false);
    }
  }

  method SweepSpan(spans: seq<Span>, ghost a: nat, ghost b: nat, i: nat, n: nat, reach: nat)
    returns (n': nat, reach': nat)
    requires SortedBy(spans, SpanLe) && i < |spans| && a <= reach && (reach == a || reach <= b)
    requires spans[i].from < spans[i].to <= b && n == CoverCount(spans, a, reach)
    requires forall j :: 0 <= j < i ==> spans[j].to <= reach
    ensures reach <= reach' && spans[i].to <= reach' && (reach' == a || reach' <= b)
    ensures n' == CoverCount(spans, a, reach')
  {
    n', reach' := n, reach;
    var s, e := if spans[i].from > reach then spans[i].from else reach, spans[i].to;
    if e > s {
      SweepStep(spans, a, i, reach);
      n' := n + (e - s);
      reach' := e;
    }
  }

  method SweepSpans(spans: seq<Span>, a: nat, ghost b: nat) returns (n: nat)
    requires SortedBy(spans, SpanLe)
    requires forall i :: 0 <= i < |spans| ==> spans[i].from < spans[i].to <= b
    ensures n == CoverCount(spans, a, b)
  {
    var reach: nat := a;
    n := 0;
    for i := 0 to |spans|
      invariant a <= reach && (reach == a || reach <= b)
      invariant forall j :: 0 <= j < i ==> spans[j].to <= reach
      invariant n == CoverCount(spans, a, reach)
    {
      n, reach := SweepSpan(spans, a, b, i, n, reach);
    }
    SweepEnd(spans, a, b, reach);
  }

  /** The sweep counts exactly the lines of `a..b` that the display hides. */
  method HiddenBetween(folds: seq<Fold>, a: nat, b: nat) returns (n: nat)
    ensures n == HiddenCount(folds, a, b)
  {
    SortedSpans(folds, a, b);
    n := SweepSpans(Sort(SpansOf(folds, a, b), SpanLe), a, b);
  }
}
