/**
 `input_edit`: the edit that turns one text into another, found by trimming the common prefix and suffix.
 */
module EditDiff {
  import opened Options
  import opened Positions

  datatype Point = Point(row: nat, column: nat)

  datatype Edit = Edit(start: nat, oldEnd: nat, newEnd: nat, startAt: Point, oldEndAt: Point, newEndAt: Point)

  function PointAt(text: Text, byte: nat): Point {
    Point(LineOf(text, byte), Clamp(byte, |text|) - LineStart(text, byte))
  }

  /** A point's row is the number of newlines before the byte; its column is how far the byte is past the
      start of its line. */
  lemma {:induction false} PointMeans(text: Text, byte: nat)
    requires byte <= |text|
    ensures var p := PointAt(text, byte);
            && p.row == |NewlinesBefore(text, byte)| && p.column <= byte
            && IsLineStart(text, byte - p.column)
            && forall k :: byte - p.column <= k < byte ==> text[k] != NEWLINE
  {
    LineOfCounts(text, byte);
    LineStartFacts(text, byte);
  }

  predicate InRange(before: Text, after: Text, e: Edit) {
    e.start <= e.oldEnd <= |before| && e.start <= e.newEnd <= |after|
  }

  /** Replacing the old span by the new one gives the new text. */
  predicate Splices(before: Text, after: Text, e: Edit)
    requires InRange(before, after, e)
  {
    before[..e.start] + after[e.start..e.newEnd] + before[e.oldEnd..] == after
  }

  /** A shared head of `s` bytes and a shared tail of `t` that do not overlap: what any splice leaves. */
  predicate Shares(before: Text, after: Text, s: nat, t: nat) {
    && s + t <= |before| && s + t <= |after|
    && before[..s] == after[..s]
    && before[|before| - t..] == after[|after| - t..]
  }

  /** Neither end of the spans can be trimmed further. */
  predicate Tight(before: Text, after: Text, e: Edit)
    requires InRange(before, after, e)
  {
    e.start < e.oldEnd && e.start < e.newEnd ==>
      before[e.start] != after[e.start] && before[e.oldEnd - 1] != after[e.newEnd - 1]
  }

  ghost predicate Minimal(before: Text, after: Text, e: Edit)
    requires InRange(before, after, e)
  {
    forall s: nat, t: nat :: Shares(before, after, s, t) ==>
      s <= e.start && s + t <= e.start + (|before| - e.oldEnd)
  }

  method CommonPrefix(before: Text, after: Text) returns (n: nat)
    ensures Shares(before, after, n, 0)
    ensures n < |before| && n < |after| ==> before[n] != after[n]
  {
    n := 0;
    while n < |before| && n < |after| && before[n] == after[n]
      invariant n <= |before| && n <= |after| && before[..n] == after[..n]
    {
      n := n + 1;
    }
  }

  method CommonSuffix(before: Text, after: Text, prefix: nat) returns (n: nat)
    requires Shares(before, after, prefix, 0)
    ensures Shares(before, after, prefix, n)
    ensures prefix + n < |before| && prefix + n < |after| ==>
              before[|before| - 1 - n] != after[|after| - 1 - n]
  {
    n := 0;
    while prefix + n < |before| && prefix + n < |after| && before[|before| - 1 - n] == after[|after| - 1 - n]
      invariant Shares(before, after, prefix, n)
    {
      n := n + 1;
    }
  }

  /** A stopped prefix and a stopped suffix leave no splice that keeps more. */
  lemma {:induction false} StoppedIsMinimal(before: Text, after: Text, p: nat, q: nat, s: nat, t: nat)
    requires Shares(before, after, p, q) && Shares(before, after, s, t)
    requires p < |before| && p < |after| ==> before[p] != after[p]
    requires p + q < |before| && p + q < |after| ==> before[|before| - 1 - q] != after[|after| - 1 - q]
    ensures s <= p && s + t <= p + q
  {
    SharedBytes(before, after, s, t, p, q);
  }

  lemma {:induction false} SharedBytes(before: Text, after: Text, s: nat, t: nat, i: nat, j: nat)
    requires Shares(before, after, s, t)
    ensures i < s ==> before[i] == after[i]
    ensures j < t ==> before[|before| - 1 - j] == after[|after| - 1 - j]
  {
    if i < s {
      assert before[..s][i] == after[..s][i];
    }
    if j < t {
      assert before[|before| - t..][t - 1 - j] == after[|after| - t..][t - 1 - j];
    }
  }

  lemma {:induction false} SharedSplices(before: Text, after: Text, p: nat, q: nat)
    requires Shares(before, after, p, q)
    ensures before[..p] + after[p..|after| - q] + before[|before| - q..] == after
  {
    assert after == after[..p] + after[p..|after| - q] + after[|after| - q..];
  }

  function Trimmed(before: Text, after: Text, p: nat, q: nat): Edit
    requires Shares(before, after, p, q)
  {
    Edit(p, |before| - q, |after| - q, PointAt(before, p), PointAt(before, |before| - q),
         PointAt(after, |after| - q))
  }

  lemma {:induction false} TrimmedIsMinimal(before: Text, after: Text, p: nat, q: nat)
    requires Shares(before, after, p, q)
    requires p < |before| && p < |after| ==> before[p] != after[p]
    requires p + q < |before| && p + q < |after| ==> before[|before| - 1 - q] != after[|after| - 1 - q]
    ensures Minimal(before, after, Trimmed(before, after, p, q))
  {
    forall s: nat, t: nat | Shares(before, after, s, t)
      ensures s <= p && s + t <= p + q
    {
      StoppedIsMinimal(before, after, p, q, s, t);
    }
  }

  lemma {:induction false} TrimmedIsTight(before: Text, after: Text, p: nat, q: nat)
    requires Shares(before, after, p, q)
    requires p < |before| && p < |after| ==> before[p] != after[p]
    requires p + q < |before| && p + q < |after| ==> before[|before| - 1 - q] != after[|after| - 1 - q]
    ensures var e := Trimmed(before, after, p, q);
            && InRange(before, after, e) && Splices(before, after, e) && Tight(before, after, e)
            && e.startAt == PointAt(after, p)
  {
    SharedSplices(before, after, p, q);
    assert before[..p] == after[..p];
    PrefixDecidesPosition(before, after, p);
  }

  /** No edit exactly when the texts are equal; else a splice that gives the new text, tight at both ends,
      that no other splice beats, and whose start is the same position in both texts. */
  method InputEdit(before: Text, after: Text) returns (r: Option<Edit>)
    ensures r.None? <==> before == after
    ensures r.Some? ==>
              && InRange(before, after, r.value)
              && Splices(before, after, r.value)
              && Tight(before, after, r.value)
              && Minimal(before, after, r.value)
              && r.value.startAt == PointAt(before, r.value.start) == PointAt(after, r.value.start)
              && r.value.oldEndAt == PointAt(before, r.value.oldEnd)
              && r.value.newEndAt == PointAt(after, r.value.newEnd)
  {
    if before == after {
      return None;
    }
    var p := CommonPrefix(before, after);
    var q := CommonSuffix(before, after, p);
    TrimmedIsMinimal(before, after, p, q);
    TrimmedIsTight(before, after, p, q);
    r := Some(Trimmed(before, after, p, q));
  }
}
