/**
 The revision-cached line index: the byte each line starts at, rebuilt only when the buffer's revision
 moves, and one such index per shown buffer.
 */
module LineIndex {
  import opened Options
  import opened Positions

  /** A buffer and its revision; revisions are counted per buffer. */
  datatype Stamp = Stamp(doc: nat, rev: nat)

  datatype Index = Index(stamp: Option<Stamp>, starts: seq<nat>, len: nat, builds: nat)

  const EMPTY := Index(None, [], 0, 0)

  /** What each stamp stands for: a revision is never reused for other text. */
  type History = Stamp -> Text

  ghost predicate Ascending(s: seq<nat>) {
    forall i, j :: 0 <= i < j < |s| ==> s[i] < s[j]
  }

  /** `starts` lists exactly the line starts of `text`, in order. */
  ghost predicate Lists(starts: seq<nat>, text: Text) {
    && starts != [] && starts[0] == 0 && Ascending(starts)
    && forall at: nat :: at in starts <==> IsLineStart(text, at)
  }

  ghost predicate IndexOf(ix: Index, text: Text) {
    Lists(ix.starts, text) && ix.len == |text|
  }

  /** Whatever stamp the index has, it is the index of that stamp's text. */
  ghost predicate Faithful(ix: Index, history: History) {
    ix.stamp.Some? ==> IndexOf(ix, history(ix.stamp.value))
  }

  // ----- Lookups

  /** How many of the sorted `starts` are at or before `byte`. */
  method PartitionPoint(starts: seq<nat>, byte: nat) returns (n: nat)
    requires Ascending(starts)
    ensures n <= |starts|
    ensures forall i :: 0 <= i < n ==> starts[i] <= byte
    ensures forall i :: n <= i < |starts| ==> byte < starts[i]
  {
    n := 0;
    var hi := |starts|;
    while n < hi
      invariant n <= hi <= |starts|
      invariant forall i :: 0 <= i < n ==> starts[i] <= byte
      invariant forall i :: hi <= i < |starts| ==> byte < starts[i]
    {
      var mid := (n + hi) / 2;
      if starts[mid] <= byte {
        n := mid + 1;
      } else {
        hi := mid;
      }
    }
  }

  lemma {:induction false} RowIsCount(starts: seq<nat>, text: Text, byte: nat, n: nat)
    requires Lists(starts, text) && 1 <= n <= |starts| && byte <= |text|
    requires forall i :: 0 <= i < n ==> starts[i] <= byte
    requires forall i :: n <= i < |starts| ==> byte < starts[i]
    ensures LineOf(text, byte) == n - 1 && LineStart(text, byte) == starts[n - 1]
    decreases byte
  {
    if byte == 0 {
      InOrder(starts, 0, n - 1);
    } else if text[byte - 1] == NEWLINE {
      assert IsLineStart(text, byte);
      var k: nat :| k < |starts| && starts[k] == byte;
      LastAtOrBefore(starts, byte, n, k);
      RowIsCount(starts, text, byte - 1, n - 1);
    } else {
      forall i | 0 <= i < n
        ensures starts[i] != byte
      {
        assert starts[i] in starts;
      }
      RowIsCount(starts, text, byte - 1, n);
    }
  }

  lemma {:induction false} LastAtOrBefore(starts: seq<nat>, byte: nat, n: nat, k: nat)
    requires Ascending(starts) && n <= |starts| && k < |starts| && starts[k] == byte
    requires forall i :: 0 <= i < n ==> starts[i] <= byte
    requires forall i :: n <= i < |starts| ==> byte < starts[i]
    ensures k == n - 1 && forall i :: 0 <= i < k ==> starts[i] < byte
  {
    assert k < n;
    InOrder(starts, k, n - 1);
  }

  lemma {:induction false} InOrder(starts: seq<nat>, i: nat, j: nat)
    requires Ascending(starts)
    ensures i < j < |starts| ==> starts[i] < starts[j]
  {
  }

  lemma {:induction false} StartsInText(starts: seq<nat>, text: Text)
    requires Lists(starts, text)
    ensures forall i :: 0 <= i < |starts| ==> starts[i] <= |text|
  {
    forall i | 0 <= i < |starts|
      ensures starts[i] <= |text|
    {
      assert starts[i] in starts;
      assert IsLineStart(text, starts[i]);
    }
  }

  /** The binary search gives the row a scan from the top would count, and its line's start. */
  method RowOf(ix: Index, byte: nat, ghost text: Text) returns (row: nat)
    requires IndexOf(ix, text)
    ensures row == LineOf(text, byte)
    ensures row < |ix.starts| && ix.starts[row] == LineStart(text, byte)
  {
    var n := PartitionPoint(ix.starts, byte);
    StartsInText(ix.starts, text);
    assert ix.starts[0] == 0;
    RowIsCount(ix.starts, text, Clamp(byte, |text|), n);
    row := if n == 0 then 0 else n - 1;
  }

  function StartOf(ix: Index, line: nat): nat {
    if line < |ix.starts| then ix.starts[line] else ix.len
  }

  lemma {:induction false} ScanFinds(starts: seq<nat>, text: Text, from: nat, i: nat, line: nat)
    requires Lists(starts, text) && i < |starts| && starts[i] <= from <= |text|
    requires i + 1 < |starts| ==> from < starts[i + 1]
    requires line == 0 ==> from == starts[i]
    ensures NthLineStart(text, from, line)
         == if i + line < |starts| then starts[i + line] else |text|
    decreases |text| - from
  {
    if line > 0 {
      if from == |text| {
        assert forall at: nat :: at in starts ==> at <= |text|;
        assert i + 1 == |starts| by { StartsEnd(starts, i, |text|); }
      } else if text[from] == NEWLINE {
        assert IsLineStart(text, from + 1);
        var k: nat :| k < |starts| && starts[k] == from + 1;
        NextIs(starts, i, k);
        InOrder(starts, k, k + 1);
        ScanFinds(starts, text, from + 1, k, line - 1);
      } else {
        NotAStart(starts, text, from + 1, i);
        ScanFinds(starts, text, from + 1, i, line);
      }
    }
  }

  lemma {:induction false} StartsEnd(starts: seq<nat>, i: nat, end: nat)
    requires i < |starts| && (forall at: nat :: at in starts ==> at <= end)
    requires i + 1 < |starts| ==> end < starts[i + 1]
    ensures i + 1 == |starts|
  {
    assert forall j :: 0 <= j < |starts| ==> starts[j] in starts;
  }

  lemma {:induction false} NextIs(starts: seq<nat>, i: nat, k: nat)
    requires Ascending(starts) && i < |starts| && k < |starts| && starts[i] < starts[k]
    requires i + 1 < |starts| ==> starts[k] <= starts[i + 1]
    ensures k == i + 1
  {
  }

  lemma {:induction false} NotAStart(starts: seq<nat>, text: Text, at: nat, i: nat)
    requires Lists(starts, text) && !IsLineStart(text, at) && i < |starts|
    requires i + 1 < |starts| ==> at <= starts[i + 1]
    ensures i + 1 < |starts| ==> at < starts[i + 1]
  {
    if i + 1 < |starts| {
      assert starts[i + 1] in starts;
    }
  }

  /** The stored start is the one a scan finds, the buffer's end past the last line. */
  lemma {:induction false} StartIsScanned(ix: Index, text: Text, line: nat)
    requires IndexOf(ix, text)
    ensures StartOf(ix, line) == NthLineStart(text, 0, line)
  {
    InOrder(ix.starts, 0, 1);
    ScanFinds(ix.starts, text, 0, 0, line);
  }

  /** Every line start is the start of its own row. */
  lemma {:induction false} StartOfRow(ix: Index, text: Text, at: nat)
    requires IndexOf(ix, text) && IsLineStart(text, at)
    ensures LineOf(text, at) < |ix.starts| && StartOf(ix, LineOf(text, at)) == at
  {
    assert at in ix.starts;
    var line: nat :| line < |ix.starts| && ix.starts[line] == at;
    RowOfStart(ix, text, line);
  }

  /** The start of each row is on that row. */
  lemma {:induction false} RowOfStart(ix: Index, text: Text, line: nat)
    requires IndexOf(ix, text) && line < |ix.starts|
    ensures IsLineStart(text, StartOf(ix, line)) && LineOf(text, StartOf(ix, line)) == line
  {
    assert ix.starts[line] in ix.starts;
    RowIsCount(ix.starts, text, ix.starts[line], line + 1);
  }

  // ----- Building and refreshing

  lemma {:induction false} AppendStart(starts: seq<nat>, at: nat)
    requires Ascending(starts) && forall x: nat :: x in starts ==> x < at
    ensures Ascending(starts + [at])
    ensures forall x: nat :: x in starts + [at] <==> x in starts || x == at
  {
    forall i | 0 <= i < |starts|
      ensures starts[i] < at
    {
      assert starts[i] in starts;
    }
  }

  method LineStarts(text: Text) returns (starts: seq<nat>)
    ensures Lists(starts, text)
  {
    starts := [0];
    for i := 0 to |text|
      invariant starts != [] && starts[0] == 0 && Ascending(starts)
      invariant forall at: nat :: at in starts <==> at <= i && IsLineStart(text, at)
    {
      if text[i] == NEWLINE {
        AppendStart(starts, i + 1);
        starts := starts + [i + 1];
      }
    }
  }

  /** Refreshing brings the index to the stamp asked for, scanning only when it is not there already. */
  method Refreshed(ix: Index, stamp: Stamp, bytes: Text, ghost history: History) returns (r: Index)
    requires Faithful(ix, history) && bytes == history(stamp)
    ensures Faithful(r, history) && r.stamp == Some(stamp)
    ensures if ix.stamp == Some(stamp) then r == ix else r.builds == ix.builds + 1
  {
    if ix.stamp == Some(stamp) {
      return ix;
    }
    var starts := LineStarts(bytes);
    r := Index(Some(stamp), starts, |bytes|, ix.builds + 1);
  }

  class PaneIndexes {
    var indexes: map<nat, Index>

    /** Every index is of its own buffer, and of the text its stamp names. */
    ghost predicate Valid(history: History)
      reads this
    {
      forall d :: d in indexes ==>
        && indexes[d].stamp.Some? && indexes[d].stamp.value.doc == d
        && Faithful(indexes[d], history)
    }

    constructor ()
      ensures indexes == map[]
    {
      indexes := map[];
    }

    method Refresh(doc: nat, rev: nat, bytes: Text, ghost history: History)
      requires Valid(history) && bytes == history(Stamp(doc, rev))
      modifies this
      ensures Valid(history) && indexes.Keys == old(indexes).Keys + {doc}
      ensures indexes[doc].stamp == Some(Stamp(doc, rev))
      ensures forall d :: d in old(indexes) && d != doc ==> indexes[d] == old(indexes)[d]
    {
      var now := if doc in indexes then indexes[doc] else EMPTY;
      var ix := Refreshed(now, Stamp(doc, rev), bytes, history);
      indexes := indexes[doc := ix];
    }

    /** Only ever an index of the revision asked for, agreeing with its text. */
    method Get(doc: nat, rev: nat, ghost history: History) returns (r: Option<Index>)
      requires Valid(history)
      ensures r.Some? <==> doc in indexes && indexes[doc].stamp == Some(Stamp(doc, rev))
      ensures r.Some? ==> r.value.stamp == Some(Stamp(doc, rev)) && IndexOf(r.value, history(Stamp(doc, rev)))
    {
      if doc in indexes && indexes[doc].stamp == Some(Stamp(doc, rev)) {
        return Some(indexes[doc]);
      }
      return None;
    }

    method Retain(shown: nat -> bool, ghost history: History)
      requires Valid(history)
      modifies this
      ensures Valid(history) && indexes == map d | d in old(indexes) && shown(d) :: old(indexes)[d]
    {
      indexes := map d | d in indexes && shown(d) :: indexes[d];
    }
  }
}
