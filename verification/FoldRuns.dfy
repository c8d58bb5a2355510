/**
 Whole sessions: any sequence of manual-fold commands and edits, from a fresh view, leaves a fold set the
 invariant walker accepts.
 */
module FoldRuns {
  import opened Options
  import opened FoldSets
  import opened FoldNesting
  import opened FoldCreation
  import opened FoldToggling
  import opened FoldRanges
  import opened FoldDeletion

  datatype Command =
    | Create(start: nat, end: nat)
    | Delete(line: nat, recursive: bool)
    | ToggleLine(line: nat, opening: bool, recursive: bool)
    | ToggleRange(first: nat, last: nat, opening: bool, recursive: bool)
    | ViewCursor(line: nat)
    | Eliminate
    /** An edit: the ranges the anchors moved to, and the new line count. */
    | Follow(moved: seq<Fold>, lineCount: nat)

  datatype View = View(folds: seq<Fold>, lines: nat)

  ghost predicate InBuffer(folds: seq<Fold>, lines: nat) {
    forall f :: f in folds ==> f.end < lines
  }

  /** A command a user or an edit can issue: the lines it names are lines of the buffer. */
  ghost predicate Possible(v: View, c: Command) {
    match c
    case Create(_, end) => end < v.lines
    case Follow(moved, n) => OrderedRanges(moved) && InBuffer(moved, n)
    case _ => true
  }

  ghost function Run1(v: View, c: Command): View {
    match c
    case Create(s, e) => v.(folds := Inserted(v.folds, s, e))
    case Delete(l, r) => v.(folds := DeleteAt(v.folds, l, r).0)
    case ToggleLine(l, o, r) => v.(folds := Toggle(v.folds, l, o, r).folds)
    case ToggleRange(a, b, o, r) => v.(folds := OpRange(v.folds, a, b, o, r).folds)
    case ViewCursor(l) => v.(folds := OpenedAround(v.folds, l))
    case Eliminate => v.(folds := [])
    case Follow(moved, n) => View(Renested(moved), n)
  }

  ghost function Run(v: View, cs: seq<Command>): View
    decreases |cs|
  {
    if cs == [] then v else Run(Run1(v, cs[0]), cs[1..])
  }

  ghost predicate AllPossible(v: View, cs: seq<Command>)
    decreases |cs|
  {
    cs == [] || (Possible(v, cs[0]) && AllPossible(Run1(v, cs[0]), cs[1..]))
  }

  ghost predicate Sound(v: View) {
    WellFormed(v.folds) && InBuffer(v.folds, v.lines)
  }

  lemma {:induction false} ShapeKeepsSound(v: View, folds: seq<Fold>)
    requires Sound(v) && SameShape(v.folds, folds)
    ensures Sound(v.(folds := folds))
  {
    ShapeDecidesWellFormed(v.folds, folds);
    forall f | f in folds
      ensures f.end < v.lines
    {
      var i :| 0 <= i < |folds| && folds[i] == f;
      assert v.folds[i] in v.folds;
    }
  }

  lemma {:induction false} CreateKeepsSound(v: View, s: nat, e: nat)
    requires Sound(v) && e < v.lines
    ensures Sound(v.(folds := Inserted(v.folds, s, e)))
  {
    InsertedWellFormed(v.folds, s, e);
    if s <= e {
      var n := NewFold(v.folds, s, e);
      InsertedIsPushed(v.folds, s, e);
      HullReached(v.folds, Descend(v.folds, None, s, e), s, e);
      var r := PushedAll(v.folds, n);
      forall f | f in r
        ensures f.end < v.lines
      {
        var i :| 0 <= i < |r| && r[i] == f;
        assert i < |v.folds| ==> v.folds[i] in v.folds && f == Pushed(n, v.folds[i]);
      }
    }
  }

  lemma {:induction false} DeleteKeepsSound(v: View, line: nat, recursive: bool)
    requires Sound(v)
    ensures Sound(v.(folds := DeleteAt(v.folds, line, recursive).0))
  {
    DeleteAtWellFormed(v.folds, line, recursive);
    forall f | f in DeleteAt(v.folds, line, recursive).0
      ensures f.end < v.lines
    {
      match DeleteTarget(v.folds, line)
      case None =>
      case Some(i) =>
        if i < |v.folds| {
          RetainedMembers(v.folds, i, recursive, 0, f);
          var j: nat :| j < |v.folds| && !Dropped(v.folds, i, recursive, j) && f == Lifted(v.folds[i], v.folds[j]);
          assert v.folds[j] in v.folds;
        }
    }
  }

  lemma {:induction false} FollowIsSound(moved: seq<Fold>, n: nat)
    requires OrderedRanges(moved) && InBuffer(moved, n)
    ensures Sound(View(Renested(moved), n))
  {
    RenestedWellFormed(moved);
    SortFoldsFacts(moved);
    KeptComesFrom(SortFolds(moved));
    forall g | g in Renested(moved)
      ensures g.end < n
    {
      var f :| f in SortFolds(moved) && SameLines(f, g) && f.closed == g.closed;
    }
  }

  lemma {:induction false} CommandKeepsSound(v: View, c: Command)
    requires Sound(v) && Possible(v, c)
    ensures Sound(Run1(v, c))
    ensures c.Eliminate? ==> Run1(v, c) == v.(folds := [])
  {
    match c
    case Create(s, e) => CreateKeepsSound(v, s, e);
    case Delete(l, r) => DeleteKeepsSound(v, l, r);
    case ToggleLine(l, o, r) =>
      ToggleKeepsShape(v.folds, l, o, r);
      ShapeKeepsSound(v, Toggle(v.folds, l, o, r).folds);
    case ToggleRange(a, b, o, r) =>
      OpRangeFound(v.folds, a, b, o, r);
      ShapeKeepsSound(v, OpRange(v.folds, a, b, o, r).folds);
    case ViewCursor(l) => ShapeKeepsSound(v, OpenedAround(v.folds, l));
    case Eliminate =>
    case Follow(moved, n) => FollowIsSound(moved, n);
  }

  lemma {:induction false} RunKeepsSound(v: View, cs: seq<Command>)
    requires Sound(v) && AllPossible(v, cs)
    ensures Sound(Run(v, cs))
    decreases |cs|
  {
    if cs != [] {
      CommandKeepsSound(v, cs[0]);
      RunKeepsSound(Run1(v, cs[0]), cs[1..]);
    }
  }

  /** The walker never fires: after any run of commands and edits from a fresh view, every fold is in the
      buffer, no two cross, and each level is a depth. */
  lemma {:induction false} WalkerNeverFires(lines: nat, cs: seq<Command>)
    requires AllPossible(View([], lines), cs)
    ensures var v := Run(View([], lines), cs);
            WalkerAccepts(v.folds) && WellFormed(v.folds) && InBuffer(v.folds, v.lines)
  {
    RunKeepsSound(View([], lines), cs);
    WalkerIffWellFormed(Run(View([], lines), cs).folds);
  }
}
