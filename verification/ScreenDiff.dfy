/**
 The cell grid and the frame diff: painting grapheme clusters into a row, and the runs of changed cells
 that bring the last frame's grid to the new one.
 */
module ScreenDiff {

  /** A cluster is kept by a tag for its text and its display width. */
  datatype Content = Blank | Cluster(text: nat, width: nat) | Continuation

  datatype Cell = Cell(content: Content, style: nat)

  const BLANK := Cell(Blank, 0)

  type Row = seq<Cell>

  // ----- Painting

  datatype Glyph = Glyph(text: nat, width: nat, style: nat)

  datatype Painted = Painted(row: Row, col: nat)

  /** One cluster at `col`, and the column after it. A wide one with no room for its second half is drawn
      as a blank. */
  function PutClean(row: Row, col: nat, g: Glyph): Painted {
    if g.width == 0 then Painted(row, col)
    else if col >= |row| then Painted(row, col + g.width)
    else if g.width == 2 && col + 1 >= |row| then Painted(row[col := Cell(Blank, g.style)], |row|)
    else
      var drawn := row[col := Cell(Cluster(g.text, g.width), g.style)];
      Painted(if g.width == 2 then drawn[col + 1 := Cell(Continuation, g.style)] else drawn, col + g.width)
  }

  /** What painting shows: the cluster with its style in its cell, its right half in the next when it is wide,
      a blank where only half of it would fit, nothing without width or outside the row; and no other cell
      changes. */
  lemma {:induction false} PutShows(row: Row, col: nat, g: Glyph)
    requires g.width <= 2
    ensures var p, cut := PutClean(row, col, g), g.width == 2 && col + 1 == |row|;
            && |p.row| == |row|
            && (g.width == 0 || col >= |row| ==> p.row == row && p.col == col + g.width)
            && (g.width > 0 && col < |row| ==>
                  && p.row[col] == Cell(if cut then Blank else Cluster(g.text, g.width), g.style)
                  && (g.width == 2 && !cut ==> p.row[col + 1] == Cell(Continuation, g.style))
                  && p.col == (if cut then |row| else col + g.width)
                  && forall c :: 0 <= c < |row| && !(col <= c < col + g.width) ==> p.row[c] == row[c])
  {
  }

  /** Clusters painted left to right, each after the one before it, with gaps as given. */
  function PaintRow(row: Row, col: nat, glyphs: seq<Glyph>, gaps: seq<nat>): Row
    requires |gaps| == |glyphs|
    decreases |glyphs|
  {
    if glyphs == [] then row
    else
      var p := PutClean(row, col + gaps[0], glyphs[0]);
      PaintRow(p.row, p.col, glyphs[1..], gaps[1..])
  }

  /** Every continuation cell is the right half of a wide cluster. */
  ghost predicate Paired(row: Row) {
    forall c :: 0 <= c < |row| && row[c].content == Continuation ==>
      0 < c && row[c - 1].content.Cluster? && row[c - 1].content.width == 2
  }

  ghost predicate BlankFrom(row: Row, col: nat) {
    forall c :: col <= c < |row| ==> row[c] == BLANK
  }

  lemma {:induction false} PutKeepsPairs(row: Row, col: nat, g: Glyph)
    requires Paired(row) && BlankFrom(row, col) && g.width <= 2
    ensures var p := PutClean(row, col, g);
            Paired(p.row) && BlankFrom(p.row, p.col) && |p.row| == |row| && col <= p.col
  {
  }

  /** A row painted left to right from blank never has half a wide glyph. */
  lemma {:induction false} PaintedRowPaired(row: Row, col: nat, glyphs: seq<Glyph>, gaps: seq<nat>)
    requires |gaps| == |glyphs| && Paired(row) && BlankFrom(row, col)
    requires forall i :: 0 <= i < |glyphs| ==> glyphs[i].width <= 2
    ensures Paired(PaintRow(row, col, glyphs, gaps)) && |PaintRow(row, col, glyphs, gaps)| == |row|
    decreases |glyphs|
  {
    if glyphs != [] {
      assert BlankFrom(row, col + gaps[0]);
      PutKeepsPairs(row, col + gaps[0], glyphs[0]);
      var p := PutClean(row, col + gaps[0], glyphs[0]);
      PaintedRowPaired(p.row, p.col, glyphs[1..], gaps[1..]);
    }
  }

  // ----- Diff

  /** Cells `start..` of row `row`, as the flush writes them. */
  datatype Run = Run(row: nat, start: nat, cells: seq<Cell>) {
    function End(): nat {
      start + |cells|
    }
  }

  predicate Changed(cur: Row, prev: Row, same: bool, c: nat) {
    c < |cur| && !(same && c < |prev| && cur[c] == prev[c])
  }

  function WriteRun(row: Row, run: Run): Row {
    if run.End() <= |row| then row[..run.start] + run.cells + row[run.End()..] else row
  }

  function WriteRuns(row: Row, runs: seq<Run>): Row {
    if runs == [] then row else WriteRun(WriteRuns(row, runs[..|runs| - 1]), runs[|runs| - 1])
  }

  /** A changed cell whose left neighbour, if any, is not: where a stretch of changed cells begins. */
  predicate Begins(cur: Row, prev: Row, same: bool, c: nat) {
    Changed(cur, prev, same, c) && (c == 0 || !Changed(cur, prev, same, c - 1))
  }

  predicate IsContinuation(row: Row, c: nat) {
    c < |row| && row[c].content == Continuation
  }

  /** A run as the diff makes one: the new row's cells over one whole stretch of changed cells, and the cell
      before the stretch exactly when the stretch begins on a continuation past column 0. */
  ghost predicate IsRun(cur: Row, prev: Row, same: bool, run: Run) {
    && run.cells != [] && run.End() <= |cur| && run.cells == cur[run.start..run.End()]
    && (forall c :: run.start < c < run.End() ==> Changed(cur, prev, same, c))
    && !Changed(cur, prev, same, run.End())
    && if Changed(cur, prev, same, run.start)
       then Begins(cur, prev, same, run.start) && (run.start == 0 || !IsContinuation(cur, run.start))
       else |run.cells| > 1 && IsContinuation(cur, run.start + 1)
  }

  /** The runs of one row, left to right and apart, all of them before `col`. */
  ghost predicate RowRuns(cur: Row, prev: Row, same: bool, row: nat, runs: seq<Run>, col: nat) {
    && (forall i :: 0 <= i < |runs| ==>
          runs[i].row == row && IsRun(cur, prev, same, runs[i]) && runs[i].End() <= col)
    && (forall i, j :: 0 <= i < j < |runs| ==> runs[i].End() <= runs[j].start)
  }

  /** After the runs so far, the row is the new one up to `col` and the old one after. */
  ghost predicate Patched(cur: Row, prev: Row, runs: seq<Run>, col: nat) {
    && |WriteRuns(prev, runs)| == |cur| == |prev| && col <= |cur|
    && WriteRuns(prev, runs)[..col] == cur[..col]
    && WriteRuns(prev, runs)[col..] == prev[col..]
  }

  lemma {:induction false} PatchStep(cur: Row, prev: Row, runs: seq<Run>, col: nat, run: Run)
    requires Patched(cur, prev, runs, col) && run.start <= col <= run.End() <= |cur|
    requires run.cells == cur[run.start..run.End()]
    ensures Patched(cur, prev, runs + [run], run.End())
  {
    var before := WriteRuns(prev, runs);
    assert (runs + [run])[..|runs|] == runs;
    var after := WriteRun(before, run);
    assert after[..run.End()] == before[..run.start] + run.cells;
    assert before[..run.start] == before[..col][..run.start];
    assert cur[..run.start] == cur[..col][..run.start];
    assert cur[..run.End()] == cur[..run.start] + cur[run.start..run.End()];
    assert after[run.End()..] == before[run.End()..];
    assert before[run.End()..] == before[col..][run.End() - col..];
    assert prev[run.End()..] == prev[col..][run.End() - col..];
  }

  lemma {:induction false} PatchSkip(cur: Row, prev: Row, runs: seq<Run>, col: nat)
    requires Patched(cur, prev, runs, col) && col < |cur| && cur[col] == prev[col]
    ensures Patched(cur, prev, runs, col + 1)
  {
    var now := WriteRuns(prev, runs);
    assert now[col] == now[col..][0] && prev[col] == prev[col..][0];
    assert now[..col + 1] == now[..col] + [now[col]];
    assert cur[..col + 1] == cur[..col] + [cur[col]];
    assert now[col + 1..] == now[col..][1..] && prev[col + 1..] == prev[col..][1..];
  }

  /** The run that starts with the changed cell `col`, extended left over half a glyph. */
  method RunAt(cur: Row, prev: Row, same: bool, row: nat, col: nat) returns (run: Run, end: nat)
    requires Begins(cur, prev, same, col)
    ensures run.row == row && IsRun(cur, prev, same, run) && run.End() == end > col
    ensures run.start == col || run.start == col - 1
  {
    var start := col;
    if start > 0 && cur[start].content == Continuation {
      start := start - 1;
    }
    end := col + 1;
    while end < |cur| && Changed(cur, prev, same, end)
      invariant col < end <= |cur| && forall c :: col < c < end ==> Changed(cur, prev, same, c)
    {
      end := end + 1;
    }
    run := Run(row, start, cur[start..end]);
  }

  predicate InSomeRun(runs: seq<Run>, c: nat) {
    exists i :: 0 <= i < |runs| && runs[i].start <= c < runs[i].End()
  }

  /** Every changed cell before `col` is in a run. */
  ghost predicate Covering(cur: Row, prev: Row, same: bool, runs: seq<Run>, col: nat) {
    forall c: nat :: c < col && Changed(cur, prev, same, c) ==> InSomeRun(runs, c)
  }

  /** The scan of a row at `col`, which is never in the middle of a stretch of changed cells. */
  ghost predicate Scanning(cur: Row, prev: Row, same: bool, row: nat, runs: seq<Run>, col: nat) {
    && col <= |cur| && RowRuns(cur, prev, same, row, runs, col)
    && Covering(cur, prev, same, runs, col)
    && (same && |prev| == |cur| ==> Patched(cur, prev, runs, col))
    && (Changed(cur, prev, same, col) ==> Begins(cur, prev, same, col))
  }

  lemma {:induction false} CoversMore(cur: Row, prev: Row, same: bool, runs: seq<Run>, col: nat, run: Run)
    requires run.start <= col && Covering(cur, prev, same, runs, col)
    ensures Covering(cur, prev, same, runs + [run], run.End())
  {
    var more := runs + [run];
    forall c: nat | c < run.End() && Changed(cur, prev, same, c)
      ensures InSomeRun(more, c)
    {
      if c < col {
        var i :| 0 <= i < |runs| && runs[i].start <= c < runs[i].End();
        assert more[i] == runs[i];
      } else {
        assert more[|runs|] == run;
      }
    }
  }

  lemma {:induction false} RunsAppend(cur: Row, prev: Row, same: bool, row: nat, runs: seq<Run>, col: nat, run: Run)
    requires RowRuns(cur, prev, same, row, runs, col) && run.row == row && IsRun(cur, prev, same, run)
    requires col <= run.End() && (runs != [] ==> runs[|runs| - 1].End() <= run.start)
    ensures RowRuns(cur, prev, same, row, runs + [run], run.End())
  {
    var more := runs + [run];
    forall i, j | 0 <= i < j < |more|
      ensures more[i].End() <= more[j].start
    {
      if j == |runs| && i < |runs| - 1 {
        assert runs[i].End() <= runs[|runs| - 1].start;
      }
    }
  }

  lemma {:induction false} ScanSkip(cur: Row, prev: Row, same: bool, row: nat, runs: seq<Run>, col: nat)
    requires Scanning(cur, prev, same, row, runs, col) && col < |cur| && !Changed(cur, prev, same, col)
    ensures Scanning(cur, prev, same, row, runs, col + 1)
  {
    if same && |prev| == |cur| {
      PatchSkip(cur, prev, runs, col);
    }
  }

  lemma {:induction false} RunEndsChanged(cur: Row, prev: Row, same: bool, run: Run)
    requires IsRun(cur, prev, same, run)
    ensures Changed(cur, prev, same, run.End() - 1)
  {
  }

  lemma {:induction false} ScanRun(cur: Row, prev: Row, same: bool, row: nat, runs: seq<Run>, col: nat, run: Run)
    requires Scanning(cur, prev, same, row, runs, col) && Changed(cur, prev, same, col)
    requires run.row == row && IsRun(cur, prev, same, run) && run.End() > col
    requires run.start == col || run.start + 1 == col
    ensures Scanning(cur, prev, same, row, runs + [run], run.End())
  {
    if runs != [] {
      RunEndsChanged(cur, prev, same, runs[|runs| - 1]);
    }
    if same && |prev| == |cur| {
      PatchStep(cur, prev, runs, col, run);
    }
    CoversMore(cur, prev, same, runs, col, run);
    RunsAppend(cur, prev, same, row, runs, col, run);
  }

  method DiffRow(cur: Row, prev: Row, same: bool, row: nat) returns (runs: seq<Run>)
    ensures RowRuns(cur, prev, same, row, runs, |cur|)
    ensures Covering(cur, prev, same, runs, |cur|)
    ensures same && |prev| == |cur| ==> WriteRuns(prev, runs) == cur
  {
    runs := [];
    var col: nat := 0;
    while col < |cur|
      invariant Scanning(cur, prev, same, row, runs, col)
    {
      if !Changed(cur, prev, same, col) {
        ScanSkip(cur, prev, same, row, runs, col);
        col := col + 1;
      } else {
        var run, end := RunAt(cur, prev, same, row, col);
        ScanRun(cur, prev, same, row, runs, col, run);
        runs := runs + [run];
        col := end;
      }
    }
    ScanDone(cur, prev, same, row, runs);
  }

  lemma {:induction false} ScanDone(cur: Row, prev: Row, same: bool, row: nat, runs: seq<Run>)
    requires Scanning(cur, prev, same, row, runs, |cur|)
    ensures same && |prev| == |cur| ==> WriteRuns(prev, runs) == cur
  {
    if same && |prev| == |cur| {
      assert WriteRuns(prev, runs)[..|cur|] == WriteRuns(prev, runs) && cur[..|cur|] == cur;
    }
  }

  /** A stretch of changed cells that begins on a continuation with no glyph cell to its left. */
  predicate OrphanHead(cur: Row, prev: Row, same: bool, c: nat) {
    Begins(cur, prev, same, c) && IsContinuation(cur, c) && (c == 0 || IsContinuation(cur, c - 1))
  }

  ghost predicate StartsMidGlyph(runs: seq<Run>) {
    exists i :: 0 <= i < |runs| && runs[i].cells != [] && runs[i].cells[0].content == Continuation
  }

  lemma {:induction false} MidGlyphRunHasOrphan(cur: Row, prev: Row, same: bool, run: Run)
    requires IsRun(cur, prev, same, run) && run.cells[0].content == Continuation
    ensures OrphanHead(cur, prev, same, run.start) || OrphanHead(cur, prev, same, run.start + 1)
  {
    assert run.cells[0] == cur[run.start];
  }

  lemma {:induction false} OrphanRunIsMidGlyph(cur: Row, prev: Row, same: bool, run: Run, c: nat)
    requires IsRun(cur, prev, same, run) && run.start <= c < run.End() && OrphanHead(cur, prev, same, c)
    ensures run.cells[0].content == Continuation
  {
    assert run.cells[0] == cur[run.start];
  }

  /** A run of the diff starts in the middle of a glyph exactly when the new row has a changed stretch that
      begins on a continuation at column 0 or on one that follows another continuation. */
  lemma {:induction false} MidGlyphIffOrphan(cur: Row, prev: Row, same: bool, row: nat, runs: seq<Run>)
    requires RowRuns(cur, prev, same, row, runs, |cur|) && Covering(cur, prev, same, runs, |cur|)
    ensures StartsMidGlyph(runs) <==> exists c: nat :: OrphanHead(cur, prev, same, c)
  {
    if i :| 0 <= i < |runs| && runs[i].cells != [] && runs[i].cells[0].content == Continuation {
      MidGlyphRunHasOrphan(cur, prev, same, runs[i]);
    }
    if c: nat :| OrphanHead(cur, prev, same, c) {
      assert InSomeRun(runs, c);
      var i :| 0 <= i < |runs| && runs[i].start <= c < runs[i].End();
      OrphanRunIsMidGlyph(cur, prev, same, runs[i], c);
    }
  }

  /** On a row whose continuations all have their glyph, no run starts in the middle of one. */
  lemma {:induction false} RunsStartOnGlyphs(cur: Row, prev: Row, same: bool, row: nat, runs: seq<Run>)
    requires Paired(cur)
    requires RowRuns(cur, prev, same, row, runs, |cur|) && Covering(cur, prev, same, runs, |cur|)
    ensures !StartsMidGlyph(runs)
  {
    MidGlyphIffOrphan(cur, prev, same, row, runs);
    forall c: nat
      ensures !OrphanHead(cur, prev, same, c)
    {
      if IsContinuation(cur, c) {
        assert cur[c].content == Continuation;
      }
    }
  }

  /** Repainting the left half of a wide glyph with a wide one leaves two continuations in a row, and the
      diff from the frame before starts a run on the first of them, whatever runs it reports. */
  lemma {:induction false} OrphanStartsARun(runs: seq<Run>)
    requires var wide := Glyph(1, 2, 0);
             var cur := PutClean(PutClean([BLANK, BLANK, BLANK], 1, wide).row, 0, wide).row;
             var prev := PutClean([BLANK, BLANK, BLANK], 0, wide).row;
             RowRuns(cur, prev, true, 0, runs, 3) && Covering(cur, prev, true, runs, 3)
    ensures StartsMidGlyph(runs)
  {
    var wide := Glyph(1, 2, 0);
    var cur := PutClean(PutClean([BLANK, BLANK, BLANK], 1, wide).row, 0, wide).row;
    var prev := PutClean([BLANK, BLANK, BLANK], 0, wide).row;
    assert cur == [Cell(Cluster(1, 2), 0), Cell(Continuation, 0), Cell(Continuation, 0)];
    assert prev == [Cell(Cluster(1, 2), 0), Cell(Continuation, 0), BLANK];
    assert OrphanHead(cur, prev, true, 2);
    MidGlyphIffOrphan(cur, prev, true, 0, runs);
  }

  // ----- The whole screen

  datatype Grid = Grid(cols: nat, rows: seq<Row>)

  ghost predicate ValidGrid(g: Grid) {
    forall r :: 0 <= r < |g.rows| ==> |g.rows[r]| == g.cols
  }

  function RunsOfRow(runs: seq<Run>, row: nat): seq<Run> {
    if runs == [] then []
    else RunsOfRow(runs[..|runs| - 1], row) + if runs[|runs| - 1].row == row then [runs[|runs| - 1]] else []
  }

  lemma {:induction false} RunsOfAppend(a: seq<Run>, b: seq<Run>, row: nat)
    ensures RunsOfRow(a + b, row) == RunsOfRow(a, row) + RunsOfRow(b, row)
    decreases |b|
  {
    if b == [] {
      assert a + b == a;
    } else {
      var n := |b| - 1;
      assert (a + b)[..|a + b| - 1] == a + b[..n];
      RunsOfAppend(a, b[..n], row);
    }
  }

  lemma {:induction false} RunsOfOwnRow(runs: seq<Run>, own: nat, row: nat)
    requires forall i :: 0 <= i < |runs| ==> runs[i].row == own
    ensures RunsOfRow(runs, row) == if row == own then runs else []
    decreases |runs|
  {
    if runs != [] {
      var n := |runs| - 1;
      RunsOfOwnRow(runs[..n], own, row);
      assert runs == runs[..n] + [runs[n]];
    }
  }

  function PrevRow(prev: Grid, r: nat): Row {
    if r < |prev.rows| then prev.rows[r] else []
  }

  predicate SameSize(cur: Grid, prev: Grid) {
    cur.cols == prev.cols && |cur.rows| == |prev.rows|
  }

  /** Row `r` of the diff: its runs are as they should be and carry the old row to the new one. */
  ghost predicate RowDone(cur: Grid, prev: Grid, runs: seq<Run>, r: nat) {
    && r < |cur.rows|
    && RowRuns(cur.rows[r], PrevRow(prev, r), SameSize(cur, prev), r, runs, cur.cols)
    && Covering(cur.rows[r], PrevRow(prev, r), SameSize(cur, prev), runs, cur.cols)
    && (SameSize(cur, prev) ==> WriteRuns(PrevRow(prev, r), runs) == cur.rows[r])
  }

  ghost predicate TopDown(runs: seq<Run>, rows: nat) {
    && (forall i :: 0 <= i < |runs| ==> runs[i].row < rows)
    && (forall i, j :: 0 <= i < j < |runs| ==> runs[i].row <= runs[j].row)
  }

  /** Row by row, top to bottom: writing a row's runs over the last frame's row gives the new row when the
      sizes agree, and a resized screen has every cell in a run. */
  method Diff(cur: Grid, prev: Grid) returns (runs: seq<Run>)
    requires ValidGrid(cur) && ValidGrid(prev)
    ensures TopDown(runs, |cur.rows|)
    ensures forall r: nat :: r < |cur.rows| ==> RowDone(cur, prev, RunsOfRow(runs, r), r)
  {
    runs := [];
    for r := 0 to |cur.rows|
      invariant TopDown(runs, r)
      invariant forall q: nat :: q < r ==> RowDone(cur, prev, RunsOfRow(runs, q), q)
    {
      var more := DiffRow(cur.rows[r], PrevRow(prev, r), SameSize(cur, prev), r);
      assert RowDone(cur, prev, more, r);
      RowsKeep(runs, more, r);
      runs := runs + more;
    }
  }

  lemma {:induction false} NoRunsYet(runs: seq<Run>, row: nat)
    requires forall i :: 0 <= i < |runs| ==> runs[i].row < row
    ensures RunsOfRow(runs, row) == []
    decreases |runs|
  {
    if runs != [] {
      NoRunsYet(runs[..|runs| - 1], row);
    }
  }

  lemma {:induction false} RowsKeep(runs: seq<Run>, more: seq<Run>, r: nat)
    requires TopDown(runs, r) && forall i :: 0 <= i < |more| ==> more[i].row == r
    ensures TopDown(runs + more, r + 1)
    ensures forall q: nat :: q < r ==> RunsOfRow(runs + more, q) == RunsOfRow(runs, q)
    ensures RunsOfRow(runs + more, r) == more
  {
    forall q: nat
      ensures RunsOfRow(runs + more, q) == RunsOfRow(runs, q) + if q == r then more else []
    {
      RunsOfAppend(runs, more, q);
      RunsOfOwnRow(more, r, q);
    }
    NoRunsYet(runs, r);
  }

  class Screen {
    const cols: nat
    var rows: seq<Row>

    ghost predicate Valid()
      reads this
    {
      ValidGrid(Grid(cols, rows))
    }

    constructor (cols: nat, count: nat)
      ensures Valid() && this.cols == cols && |rows| == count
      ensures forall r :: 0 <= r < count ==> Paired(rows[r]) && BlankFrom(rows[r], 0)
    {
      this.cols := cols;
      this.rows := seq(count, _ => seq(cols, _ => BLANK));
    }

    /** Paint one cluster in place; a cell outside the grid takes nothing. */
    method Put(row: nat, col: nat, g: Glyph) returns (next: nat)
      requires Valid()
      modifies this
      ensures Valid() && |rows| == |old(rows)|
      ensures row < |rows| ==> Painted(rows[row], next) == PutClean(old(rows)[row], col, g)
      ensures row >= |rows| ==> next == col + g.width
      ensures forall r :: 0 <= r < |rows| && r != row ==> rows[r] == old(rows)[r]
    {
      if g.width == 0 {
        return col;
      }
      if row >= |rows| || col >= cols {
        return col + g.width;
      }
      if g.width == 2 && col + 1 >= cols {
        rows := rows[row := rows[row][col := Cell(Blank, g.style)]];
        return cols;
      }
      rows := rows[row := rows[row][col := Cell(Cluster(g.text, g.width), g.style)]];
      if g.width == 2 {
        rows := rows[row := rows[row][col + 1 := Cell(Continuation, g.style)]];
      }
      return col + g.width;
    }
  }
}
