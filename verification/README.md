# ruse: a verified model of its folds, macros and tables

This project models, in Dafny, the algorithmic layers of the `ruse` terminal editor and of two of its
Python tools, and proves what they are relied on for.

- **Folds** (`apps/tui/src/folds.rs`). A view's list of inclusive line ranges must stay a laminar family
  whose levels are nesting depths. `FoldSets` defines that (`WellFormed`) and proves the counting form and
  the parent-by-parent form equal; `FoldNesting` (`renest`), `FoldCreation` (`zf`), `FoldDeletion`
  (`zd`/`zD`), `FoldToggling`, `FoldRanges` and `FoldClosing` (opening and closing, on a line and over a range) say what
  each command means and prove that it keeps the family and what it changes; `FoldRuns` puts the commands
  together over whole sessions; `FoldGeometry` and `FoldSweep` cover hidden lines, display rows, `j`/`k` and
  the interval sweep; `FoldIndent` covers `foldmethod=indent`; `FoldList` is the mutable list with the loops
  of the source, each proved against those definitions.
- **Macros** (`apps/tui/src/keys.rs`). `KeyCodec` is the key/byte codec, `MacroMachine` the record/replay
  machine as a class proved against a transition function, `MacroRuns` what holds over all of its runs.
- **Case-fold classes** (`tools/parity/case_tables.py`). `CaseClasses` is union-find with path halving and
  the extraction of the classes.
- **Registry search** (`tools/rusekit/model.py`). `Registry` is the graph with its two adjacency maps and
  the bounded breadth-first search.
- **Fast forms held to simple ones**: `EditDiff` (minimal edit), `ScreenDiff` (frame patch), `LineIndex`
  over `Positions` (cached line starts), `Graphics` (base64, chunked image escapes, tmux envelope),
  `ConfigLayers` (layer gate and merging).

`Sorting` is the stable sort that Rust's `sort_by_key` and Python's `sorted` provide, with the facts the
other modules use; `Options` and `Octets` hold the shared types.

Widths: line numbers, code points and counts are unbounded naturals, bytes are 0..255, characters are Unicode
scalar values. The key budget is a natural that the code never takes below zero.

Where the code and its own comments differ, the model follows the code:

- The comment above `hidden_before` has a hidden line share its fold's start row. The code gives it the row
  after (`FoldGeometry.RowOfLine`, with the input in `FoldGeometry.HiddenRowDiffersFromSummaryRow`).
- The comment on `resume_replay` puts the saved keys after what is still queued. The code puts them first
  (`MacroMachine.ResumeRestoresIffDrained` says exactly when the outer replay is restored).
- The comment on `MACRO_KEY_CAP` has the cap bound every key a typed key expands to, `:normal`s included. The
  code charges the keys it queues, not the keys written out in a `:normal` (`MacroRuns.PayloadIsUncharged`).
  The commented bound holds exactly for expansions without such keys (`MacroRuns.CapHoldsIffNoPayload`).
- The comment on `Fold` has manual folds flat and always at level 1. A fold made inside another is at level 2
  (`FoldCreation.NestedManualFold`); `FoldCreation.FlatIffClear` says exactly when a set stays flat.

Some plausible claims are false of the code; each has an input and its exact condition.

- Each line of a linewise run ends in `<Esc>`: not after a truncated tag (`KeyCodec.TruncatedTagSwallowsEsc`)
  or without budget; exactly as `MacroMachine.LineEndsInEscIff` says.
- A started line queues a key: not from a bare tag (`MacroMachine.TagAloneStalls`); exactly as
  `MacroMachine.LineStallsIffNoKeys` says, with the fates of the byte in `KeyCodec.EscLostIffSwallowed`. So a replay can end with its line run still on.
- A `:normal` leaves the outer replay as it was: not when a line run of its own is left over
  (`MacroRuns.LineRunLeaks`); exactly as `MacroMachine.ResumeRestoresIffDrained` says.
- A diff run never starts on half a wide glyph: `ScreenDiff.OrphanStartsARun`; exactly as
  `ScreenDiff.MidGlyphIffOrphan` says, and never on rows painted left to right.
- Deep merging of layers is associative: `ConfigLayers.DeepMergeNotAssociative`; exactly as
  `ConfigLayers.AssociativeIffNothingHidden` says.

## Model

| member | source | states |
|---|---|---|
| FoldSets.WellFormedIffParented | apps/tui/src/folds.rs:505-533 | Counting the folds around a fold and stepping out one level at a time define the same well-formed sets |
| FoldSets.InnermostHolder | apps/tui/src/folds.rs:53-68 | On a well-formed set the folds holding a range are one chain, and the innermost one's level is their number |
| FoldNesting.RenestedWellFormed | apps/tui/src/folds.rs:581-600 | Whatever ordered ranges an edit moved folds to, renesting gives a well-formed set, listed outer first |
| FoldNesting.RenestedIsMaximal | apps/tui/src/folds.rs:581-600 | A range survives renesting exactly when no surviving fold crosses it |
| FoldNesting.RenestOnlySorts | apps/tui/src/folds.rs:523-532 | Renesting a well-formed set only sorts it |
| FoldNesting.RenestIdempotent | apps/tui/src/folds.rs:584-600 | Renesting twice is renesting once, for any ordered ranges |
| FoldNesting.RenestKeepsOrder | apps/tui/src/folds.rs:581-585 | Folds over the same lines at the same level keep their list order and flags: each ends up directly inside the one listed before it |
| FoldNesting.RenestKeepsTwins | apps/tui/src/folds.rs:581-600 | Every list entry over lines that no survivor crosses is kept: those entries stand one inside the other, smaller old level outside, equal levels in list order, each with its own flag |
| FoldNesting.WalkerIffWellFormed | apps/tui/src/folds.rs:509-533 | The runtime invariant walker accepts a manual set exactly when it is laminar with levels equal to depths |
| FoldList.FoldView.Renest | apps/tui/src/folds.rs:584-600 | On any list, the in-place renest equals the plain definition: drop what crosses a fold kept before, and put each fold one level under the kept folds that hold its first line |
| FoldList.FoldView.NestSorted | apps/tui/src/folds.rs:586-599 | The one pass with a stack of open folds computes the plain definition on any sorted list |
| FoldCreation.InsertedWellFormed | apps/tui/src/folds.rs:540-579 | `zf` on any well-formed set leaves a well-formed set |
| FoldCreation.NewFoldIsLeast | apps/tui/src/folds.rs:535-566 | The fold `zf` adds covers the least interval that holds the request and crosses no existing fold |
| FoldCreation.InsertedPlaces | apps/tui/src/folds.rs:559-578 | After `zf` the new fold is last, and each existing fold is clear of it or around it and unchanged, or inside it, one level deeper and otherwise unchanged |
| FoldCreation.FlatIffClear | apps/tui/src/folds.rs:20-23 | `zf` leaves every fold at level 1 exactly when all were and none meets the range |
| FoldCreation.NestedManualFold | apps/tui/src/folds.rs:20-23 | An input that leaves a manual fold at level 2 |
| FoldCreation.DescendStops | apps/tui/src/folds.rs:544-558 | The descent stops at a fold none of whose children at the start line reaches the end |
| FoldList.FoldView.InsertClosedFold | apps/tui/src/folds.rs:540-579 | The loops of `insert_closed_fold` end and leave the list of `FoldCreation.InsertedPlaces`; a reversed range changes nothing |
| FoldDeletion.DeleteLifts | apps/tui/src/folds.rs:202-222 | `zd` takes out one fold; every other one keeps its place, lines and flag, and loses one level exactly when it was nested in that fold |
| FoldDeletion.DeleteDropsNested | apps/tui/src/folds.rs:202-222 | `zD` leaves exactly the folds other than that one and not nested in it, unchanged and in order |
| FoldDeletion.DeletedWellFormed | apps/tui/src/folds.rs:202-222 | Deleting any fold of a well-formed set, lifting or dropping the folds inside it, leaves a well-formed set |
| FoldDeletion.DeleteAtWellFormed | apps/tui/src/folds.rs:200-222 | `zd` and `zD` on any line keep a well-formed set well formed |
| FoldDeletion.TargetOnWellFormed | apps/tui/src/folds.rs:188-198 | The fold deleted is the outermost one shown closed at the line, or the innermost when none is |
| FoldDeletion.DeleteAtReports | apps/tui/src/folds.rs:202-205 | A deletion reports true exactly when some fold holds the line, and otherwise changes nothing |
| FoldList.FoldView.DeleteAt | apps/tui/src/folds.rs:202-222 | The retain pass leaves exactly the specified list and report |
| FoldToggling.OutermostClosedFacts | apps/tui/src/folds.rs:90-99 | The fold `zo` opens is closed, holds the line, and no closed fold there has a smaller level; none when none is closed |
| FoldToggling.OpenOneProgress | apps/tui/src/folds.rs:670-680 | One more `zo` removes one closed fold and leaves the end state of `zv` unchanged |
| FoldToggling.ToggleKeepsShape | apps/tui/src/folds.rs:90-146 | Opening and closing change no range and no level, and hit exactly when a fold holds the line |
| FoldToggling.OpenRecOpens | apps/tui/src/folds.rs:101-117 | `zO` opens the outermost closed fold of the line and the folds nested in it, no other, and reports true exactly when one was closed |
| FoldToggling.CloseRecCloses | apps/tui/src/folds.rs:134-146 | `zC` closes exactly the folds holding the line and reports true exactly when one was open |
| FoldList.FoldView.OpenOne | apps/tui/src/folds.rs:90-99 | `zo` reports true exactly when a closed fold holds the line; then it opens one such fold, with no closed one there further out, and otherwise changes nothing |
| FoldList.FoldView.OpenRec | apps/tui/src/folds.rs:103-117 | `zO`: the loop opens the outermost closed fold and every fold nested in it |
| FoldList.FoldView.CloseOne | apps/tui/src/folds.rs:122-132 | On a well-formed set `zc` closes the deepest open fold of the line that is inside no closed one, or, when there is none, changes nothing |
| FoldList.FoldView.CloseRec | apps/tui/src/folds.rs:135-146 | `zC`: the loop closes every fold that holds the line, and reports whether one was open |
| FoldList.FoldView.OpenAt | apps/tui/src/folds.rs:346-353 | Opens exactly the closed folds holding the line, and reports whether there was one |
| FoldList.FoldView.OpenCursorFold | apps/tui/src/folds.rs:674-680 | Repeating `zo` ends with the same list and report as opening every closed fold at the line, on any fold list |
| FoldRanges.OpRangeFound | apps/tui/src/folds.rs:148-179 | All four range commands keep ranges and levels, and report true exactly when some fold meets the range |
| FoldRanges.FoldCloseAll | apps/tui/src/folds.rs:152-179 | `:foldclose!` leaves a fold closed exactly when it was closed or meets the range |
| FoldRanges.FoldOpenAll | apps/tui/src/folds.rs:152-179 | `:foldopen!` opens exactly the closed folds that meet the range or lie in a closed fold that does |
| FoldRanges.FoldOpenOneLevel | apps/tui/src/folds.rs:152-179 | `:foldopen` opens exactly the closed folds that meet the range and lie inside no closed fold |
| FoldClosing.FoldCloseOneLevel | apps/tui/src/folds.rs:152-179 | `:foldclose` closes exactly the folds that, at some line of the range, are the deepest open one inside no closed fold, with no fold around them being so at an earlier line of the range |
| FoldClosing.CloseOneDoes | apps/tui/src/folds.rs:119-179 | On a well-formed set a step closes the deepest such fold and skips to its end, or changes nothing and skips lines where there is none |
| FoldClosing.FoldCloseCovers | apps/tui/src/folds.rs:152-179 | After `:foldclose` every line of the range that any fold holds lies in a closed fold |
| FoldList.FoldView.OpRange | apps/tui/src/folds.rs:152-179 | The skipping loop ends and does what the sweep says, list and report |
| FoldRuns.WalkerNeverFires | apps/tui/src/folds.rs:505-533 | After any run of create, delete, open, close, eliminate and edits from a fresh view, the walker accepts the set and every fold is in the buffer |
| FoldRuns.CommandKeepsSound | apps/tui/src/folds.rs:434-461 | Each command, and an edit with any moved ranges, keeps the set well formed and in the buffer |
| FoldGeometry.OutermostClosed | apps/tui/src/folds.rs:288-299 | On ranges that never cross, the closed range at a line is one fold, the outermost closed one |
| FoldGeometry.SnapOutLandsVisible | apps/tui/src/folds.rs:355-360 | The snapped line is visible and snapping again stays put |
| FoldGeometry.RowsInOrder | apps/tui/src/folds.rs:393-397 | Display rows of visible lines increase strictly |
| FoldGeometry.EveryRowShown | apps/tui/src/folds.rs:393-397 | Every display row is shown by a visible line |
| FoldGeometry.RowOfLine | apps/tui/src/folds.rs:362-397 | A visible line has its summary's row, a hidden one the row after |
| FoldGeometry.HiddenRowDiffersFromSummaryRow | apps/tui/src/folds.rs:362-365 | An input where a hidden line's row is not its summary's row |
| FoldGeometry.LineDownRows | apps/tui/src/folds.rs:301-321 | `{n}j` short of the last line lands on a visible line exactly n rows down; it fails exactly when the line's closed fold reaches the last line |
| FoldGeometry.LineDownExact | apps/tui/src/folds.rs:301-321 | `{n}j` lands on a line above the last exactly when that is the visible line n rows down, so it stops at the last line only where there is none |
| FoldGeometry.NoSteps | apps/tui/src/folds.rs:301-343 | A zero count rests on the closed fold's end or the last line going down, on its start going up |
| FoldGeometry.LineUpRows | apps/tui/src/folds.rs:323-343 | `{n}k` lands on the visible line n rows up, or row 0; it fails exactly on the first line |
| FoldGeometry.LineUpUndoesLineDown | apps/tui/src/folds.rs:301-343 | `{n}k` takes back an unclamped `{n}j`, to the summary line it started on |
| FoldGeometry.LineDown | apps/tui/src/folds.rs:305-321 | The loop with its shortcuts equals n plain steps clamped to the last line, on any fold list |
| FoldGeometry.LineUp | apps/tui/src/folds.rs:326-343 | The loop with its shortcuts equals n plain steps up, on any fold list |
| FoldSweep.HiddenBetween | apps/tui/src/folds.rs:371-391 | The sweep over sorted spans counts exactly the lines that `hidden` accepts, for any fold list |
| FoldGeometry.HiddenCountCounts | apps/tui/src/folds.rs:362-391 | The count the sweep is held to is the size of the set of hidden lines in the interval |
| FoldIndent.EffectiveLevels | apps/tui/src/folds.rs:756-767 | The bottom-up pass gives each line the level of the first line at or after it that has one of its own, 0 when none has |
| FoldIndent.ComputeIndentFolds | apps/tui/src/folds.rs:768-796 | The scan finds exactly the maximal runs of two lines or more at any depth, once each, open, with the least level in the run |
| FoldIndent.IndentSetLaminar | apps/tui/src/folds.rs:726-738 | Indent folds never cross and their levels grow strictly inward |
| FoldIndent.ClosedRangeIffRun | apps/tui/src/folds.rs:798-805 | At foldlevel k a line is in a closed fold exactly when the maximal run deeper than k around it has two lines or more, and the fold is that run |
| FoldList.FoldView.ApplyFoldlevel | apps/tui/src/folds.rs:801-805 | The loop closes exactly the folds deeper than the level |
| KeyCodec.DecodeFirst | apps/tui/src/keys.rs:362-382 | One key's bytes decode to one key, its normal form, whatever bytes follow |
| KeyCodec.DecodeOfEncodeAll | apps/tui/src/keys.rs:467-506 | A key list decodes to the normal forms of its encodable keys, in order, with nothing merged |
| KeyCodec.RoundTripIffNormal | apps/tui/src/keys.rs:358-419 | A key decodes back to itself exactly when it has no Shift, is no raw control character and no second spelling of a control chord |
| KeyCodec.DecodedKeysNormal | apps/tui/src/keys.rs:477-506 | Whatever the bytes, every decoded key is in normal form |
| KeyCodec.DecodeIsFixpoint | apps/tui/src/keys.rs:467-528 | For every byte string, encoding what it decodes to and decoding again changes nothing |
| KeyCodec.ControlChordIsCanonical | apps/tui/src/keys.rs:510-528 | A control chord that a byte decodes as is its own canonical form under any modifiers |
| KeyCodec.ControlBytesAreC0 | apps/tui/src/keys.rs:386-411 | A `Ctrl` chord's byte is its character's low five bits over letters and `@ [ \ ] ^ _`; Space and `2` share `@`'s, `4` to `7` those of `\ ] ^ _`; no other has one |
| KeyCodec.C0ChordsReadBack | apps/tui/src/keys.rs:324-339 | `<C-\>` to `<C-_>` read back as `<C-4>` to `<C-7>`, `<C-@>` as `<C-Space>`, `<C-[>` as `<Esc>` |
| KeyCodec.TagLetters | apps/tui/src/keys.rs:421-438 | The tag of each navigation key |
| KeyCodec.PlainKeyBytes | apps/tui/src/keys.rs:386-419 | The bytes of ASCII, control, function and navigation keys without modifiers |
| KeyCodec.ModifierBits | apps/tui/src/keys.rs:341-384 | The bit of each modifier, and the prefix that carries them before the key's own bytes |
| KeyCodec.Utf8RoundTrip | apps/tui/src/keys.rs:551-574 | The decoder reads any scalar's UTF-8 back, with its width, whatever follows |
| KeyCodec.EscReadIffEndsClean | apps/tui/src/keys.rs:477-562 | An ESC byte appended to any bytes decodes as one more `<Esc>` exactly when the bytes stop between keys |
| KeyCodec.EscLostIffSwallowed | apps/tui/src/keys.rs:477-562 | The appended byte adds no key exactly when the bytes stop after a bare tag byte or a modifier tag without its bits; in every other unclean case it adds one key that is not `<Esc>` |
| KeyCodec.TruncatedTagSwallowsEsc | apps/tui/src/keys.rs:546-549 | A register ending in a bare tag byte loses the appended `<Esc>` |
| KeyCodec.DecodeBytes | apps/tui/src/keys.rs:481-506 | The index walk over any bytes ends and gives their decoding |
| KeyCodec.EncodeKeys | apps/tui/src/keys.rs:467-475 | The loop concatenates the bytes of the encodable keys |
| MacroMachine.ReplayOfRecorded | apps/tui/src/keys.rs:23-31 | Replaying recorded bytes within budget queues the recorded keys as the codec normalises them |
| MacroMachine.ReplayQueuesPrefix | apps/tui/src/keys.rs:19-31 | A replay adds the first keys the register decodes to, behind those queued, until they are all there or the budget is spent |
| MacroMachine.LinesInOrder | apps/tui/src/keys.rs:163-184 | The line begun is the run's next one, and the run goes on with the line after it unless the budget cut it short |
| MacroMachine.BareOrShifted | apps/tui/src/keys.rs:84-88 | A character key is that character's command bare or with Shift alone, and with no other modifier |
| MacroMachine.LineEndsInEscIff | apps/tui/src/keys.rs:163-184 | A line of a linewise run queues the register's keys and a final `<Esc>` exactly when the register stops between keys and the budget exceeds their number |
| MacroMachine.LineStallsIffNoKeys | apps/tui/src/keys.rs:163-184 | A line that was started leaves the queue dry and the run on exactly when the register names no key and stops where it swallows the `<Esc>`; then nothing but the line number has changed |
| MacroMachine.TagAloneStalls | apps/tui/src/keys.rs:163-184 | A register of one bare tag byte does so on every line |
| MacroMachine.ResumeRestoresIffDrained | apps/tui/src/keys.rs:108-124 | Saved keys come back first and leftover inner keys after them; so the outer keys are restored exactly when the inner ones were drained, and the outer line run too exactly when, besides, there was one or the inner replay left none |
| MacroMachine.MacroState.OnKey | apps/tui/src/keys.rs:206-321 | The in-place step is the transition whose meaning `MacroRuns.QuietKeys`, `QNames` and `AtRunsNamed` give, for any key, origin and gates |
| MacroMachine.MacroState.ReplayBytes | apps/tui/src/keys.rs:151-155 | Queues the decoded keys up to the budget, spends it, and reports whether all fitted |
| MacroMachine.MacroState.NextLine | apps/tui/src/keys.rs:164-184 | Starts the next line only on a dry queue, and ends the run past the last line or out of budget |
| MacroMachine.MacroState.SuspendReplay | apps/tui/src/keys.rs:108-115 | Leaves nothing to replay, and resuming what it returns gives back the whole state |
| MacroMachine.MacroState.ResumeReplay | apps/tui/src/keys.rs:117-124 | The replay is then exactly what was set aside if and only if the queue was dry and no line run of its own is left over |
| MacroRuns.Perform | apps/tui/src/keys.rs:104-184 | Every operation of the runs below is what the machine's own methods do |
| MacroRuns.RunKeepsExclusive | apps/tui/src/keys.rs:221-298 | In every run of typed, replayed and `:normal` keys, a pending `q` excludes a pending `@` and a live recording |
| MacroRuns.RecordingHoldsTyped | apps/tui/src/keys.rs:241-260 | In every run, a live recording holds exactly the keys typed since its register was named, and none that a replay or a `:normal` fed |
| MacroRuns.StoreHoldsTypedKeys | apps/tui/src/keys.rs:223-240 | In every run, the bytes stored are the encoding of exactly those keys, and decode to their normal forms |
| MacroRuns.RunRemembers | apps/tui/src/keys.rs:221-236 | In every run the machine remembers the register of the last replay and, in lower case, of the last recording stored |
| MacroRuns.AtRunsNamed | apps/tui/src/keys.rs:262-298 | With `@` armed, the next key replays the register it names, `:` the last Ex line, `@` what the run last replayed; no other key replays anything |
| MacroRuns.QNames | apps/tui/src/keys.rs:242-261 | With `q` armed, the next key names the register recorded into or the ring whose window opens; no other key does either |
| MacroRuns.QuietKeys | apps/tui/src/keys.rs:299-321 | With nothing armed, `q` arms or stores, `@` arms, `Q` replays what the run last recorded, and every other key goes to the editor as it is |
| MacroRuns.FuelStep | apps/tui/src/keys.rs:23-31 | Queued keys plus budget are conserved by every replay, line start, suspend, resume and `:normal` key, and drop by one per drained key |
| MacroRuns.ExpansionIsBounded | apps/tui/src/keys.rs:14-22 | After a typed key, any replay at all drains at most the keys queued plus the cap, and runs no other keys than those written out in `:normal`s |
| MacroRuns.FuelCanBeSpent | apps/tui/src/keys.rs:23-31 | From any state some run of replays alone runs exactly as many keys as are queued, set aside or left in the budget |
| MacroRuns.CapHoldsIffNoPayload | apps/tui/src/keys.rs:14-17 | For every state and typed key, all runs with at most p `:normal` keys stay within the keys queued plus the cap exactly when p is 0 |
| MacroRuns.PayloadIsUncharged | apps/tui/src/app/session.rs:5355-5363 | Any number of `:normal` keys run without spending budget or queue |
| MacroRuns.NextLineDrops | apps/tui/src/keys.rs:164-184 | Starting a line keeps the fuel and leaves fewer lines |
| MacroRuns.NestedKey | apps/tui/src/app/session.rs:5355-5394 | One key of a `:normal` and the replay it starts end whatever the keys lead to, within the fuel; the queue is empty unless the session quits, and after a dry end a line run is still on only if its register names no key and swallows the `<Esc>` |
| MacroRuns.LineRunLeaks | apps/tui/src/app/session.rs:5419-5477 | A `:normal` that leaves Visual mode for such a run over three lines or more hands the rest of the run to an outer replay that had none |
| CaseClasses.Find | tools/parity/case_tables.py:158-162 | Path halving ends, returns the root, moves no root and keeps every parent smaller than its child |
| CaseClasses.HalvingKeepsRoot | tools/parity/case_tables.py:160-161 | Pointing a node at its grandparent keeps parents smaller and every root |
| CaseClasses.UnionRepresents | tools/parity/case_tables.py:164-168 | Hanging the larger root under the smaller adds exactly the new pair to what the forest joins |
| CaseClasses.SameRootIffConnected | tools/parity/case_tables.py:158-168 | Two code points share a root exactly when a chain of reported pairs joins them |
| CaseClasses.BuildForest | tools/parity/case_tables.py:164-168 | After the loop the forest stands for exactly the pairs reported equal |
| CaseClasses.ReportedIff | tools/parity/case_tables.py:164-165 | A pair counts exactly when the answer at its own place is yes |
| CaseClasses.Group | tools/parity/case_tables.py:169-171 | The groups split the candidates by root, each candidate once |
| CaseClasses.FoldClasses | tools/parity/case_tables.py:142-172 | The result lists exactly the components of two or more, each in order and once, by least member |
| CaseClasses.RootIsLeast | tools/parity/case_tables.py:158-172 | The root of every member of a class is the class's least member |
| CaseClasses.ClassesAreDisjoint | tools/parity/case_tables.py:142-143 | No code point is in two classes |
| Registry.Model.AddEdge | tools/rusekit/model.py:79-85 | Drops a self-edge, else appends one edge and keeps both adjacency maps equal to the edge list |
| Registry.Model.Neighbors | tools/rusekit/model.py:98-107 | The edges at a node for a direction and relation filter, outgoing first, as the edge list gives them |
| Registry.NeighborsAreHops | tools/rusekit/model.py:98-121 | The far ends of those edges are exactly the nodes one hop away |
| Registry.DirectionWords | tools/rusekit/model.py:98-107 | `out` follows admitted edges, `in` goes against them, `both` does either, any other word neither |
| Registry.OutgoingFirst | tools/rusekit/model.py:98-107 | `both` lists the outgoing edges and then the incoming ones |
| Registry.FrontierSuffices | tools/rusekit/model.py:113-124 | Expanding only the last round's nodes gives everything within one more hop |
| Registry.LayeredIsDistances | tools/rusekit/model.py:109-125 | Stopping at the depth or at an empty frontier leaves exactly the shortest walk lengths |
| Registry.Model.Bfs | tools/rusekit/model.py:109-125 | Returns exactly the registered nodes some walk of at most depth hops through registered nodes reaches, each with the shortest length |
| EditDiff.InputEdit | apps/tui/src/highlight.rs:462-489 | No edit exactly on equal texts; else a splice to the new text, tight at both ends, beaten by no other, with one start position in both |
| EditDiff.StoppedIsMinimal | apps/tui/src/highlight.rs:469-477 | No shared head and tail together keep more than the trimmed ones |
| EditDiff.PointMeans | apps/tui/src/highlight.rs:491-498 | A point's row is the number of newlines before the byte, its column the distance from the start of that line |
| Positions.PrefixDecidesPosition | apps/tui/src/highlight.rs:491-498 | Row and column of a byte depend on the bytes before it alone |
| ScreenDiff.Diff | apps/tui/src/screen.rs:210-239 | Runs go top down and left to right without overlap; each is one whole stretch of changed cells, with the cell before it exactly when the stretch begins on a continuation; all changed cells are covered, and each old row is rewritten into the new one |
| ScreenDiff.DiffRow | apps/tui/src/screen.rs:218-236 | The same for one row, for equal and changed sizes |
| ScreenDiff.PutShows | apps/tui/src/screen.rs:144-172 | A cluster shows with its text and style in its cell, its right half in the next when wide, as a blank when only half fits; no other cell changes |
| ScreenDiff.PaintedRowPaired | apps/tui/src/screen.rs:144-172 | A row painted left to right on blanks has a wide cluster before every continuation |
| ScreenDiff.MidGlyphIffOrphan | apps/tui/src/screen.rs:210-236 | Some run of a row starts on a continuation exactly when a changed stretch begins on one at column 0 or right after another continuation |
| ScreenDiff.RunsStartOnGlyphs | apps/tui/src/screen.rs:210-213 | On a row painted left to right no run starts on a continuation |
| ScreenDiff.OrphanStartsARun | apps/tui/src/screen.rs:159-170 | After a wide glyph is painted over the left half of another, every diff from the frame before starts a run on a continuation |
| ScreenDiff.Screen.Put | apps/tui/src/screen.rs:144-172 | Paints one cluster in place, touches no other row, and returns the column after it |
| LineIndex.RowOf | apps/tui/src/line_index.rs:58-65 | The binary search gives the row a newline count gives, for any byte |
| LineIndex.StartIsScanned | apps/tui/src/line_index.rs:67-71 | The stored start is the one a scan finds, the buffer's end past the last line |
| LineIndex.RowOfStart | apps/tui/src/line_index.rs:58-71 | The start of each row is a line start, on that row |
| LineIndex.StartOfRow | apps/tui/src/line_index.rs:58-71 | Every line start is the start of its own row |
| LineIndex.LineStarts | apps/tui/src/line_index.rs:40-46 | The scan lists exactly the line starts, in order |
| LineIndex.Refreshed | apps/tui/src/line_index.rs:33-51 | If a stamp names one text, any refresh leaves an index of the text asked for, rebuilt only when the stamp moved |
| LineIndex.PaneIndexes.Refresh | apps/tui/src/line_index.rs:82-89 | Brings one buffer's index to a revision and leaves the others |
| LineIndex.PaneIndexes.Get | apps/tui/src/line_index.rs:91-95 | Returns an index exactly when that revision was built, and it agrees with that revision's text |
| Graphics.Base64RoundTrip | apps/tui/src/graphics.rs:8-33 | Decoding by section 4 of RFC 4648 gives back any bytes |
| Graphics.SymbolsAreAlphabet | apps/tui/src/graphics.rs:10 | The symbols are those of table 1 of RFC 4648, padded with `=` |
| Graphics.Encode64 | apps/tui/src/graphics.rs:9-33 | The chunk loop computes the encoding |
| Graphics.ChunksOfBase64 | apps/tui/src/graphics.rs:38-59 | Cutting the payload every 4096 symbols is cutting the image every 3072 bytes |
| Graphics.TransmitPng | apps/tui/src/graphics.rs:52-77 | The loop with its first flag prints exactly the escapes that `Graphics.TransmittedImageReadsBack` reads, none for an empty image |
| Graphics.TransmittedImageReadsBack | apps/tui/src/graphics.rs:50-77 | A reader of the stream gets one escape per chunk; a reader of its keys gets `m=1` on all but the last, and `a=t`, `f=100`, the id and `q=2` on the first alone; payloads decode alone and join to the image |
| Graphics.WrapTmux | apps/tui/src/graphics.rs:122-133 | The loop doubles every ESC between the envelope's ends |
| Graphics.TmuxReadsBack | apps/tui/src/graphics.rs:119-133 | A reader of `ESC P tmux ;` envelopes gets any escape back and meets the terminator only at its end, whatever follows |
| ConfigLayers.WorkspaceCannotTouch | apps/tui/src/config.rs:1534-1550 | Whatever workspace files hold, a locked or narrower-scoped key has the value the other layers give, and only those keys are kept out |
| ConfigLayers.MachineValuePins | apps/tui/src/config.rs:1700-1714 | A machine value of a locked or machine-scoped replace key is always the effective one |
| ConfigLayers.MachineValueIsFirst | apps/tui/src/config.rs:1701-1709 | The machine value is the first entry of the first machine layer that writes the key |
| ConfigLayers.GateIsMayWrite | apps/tui/src/config.rs:61-67 | The gate admits the machine always, the user unless the key is the machine's, a workspace only for unlocked keys of its own scope |
| ConfigLayers.ReplaceKeyHolds | apps/tui/src/config.rs:1697-1715 | A replace key that no machine value pins has the value of the last entry of the last layer that may write it and does |
| ConfigLayers.UnsetIffUnwritten | apps/tui/src/config.rs:1698-1699 | A key has no value exactly when no layer that may write it does |
| ConfigLayers.LastItemDecides | apps/tui/src/config.rs:1716-1728 | Over all layers, the last item that is `x` or `!x` decides whether `x` is listed |
| ConfigLayers.DefaultDecides | apps/tui/src/config.rs:1717 | Where no layer has such an item, the default decides |
| ConfigLayers.ListKeyHolds | apps/tui/src/config.rs:1716-1735 | An item is in an append or set-union value exactly when its last mention adds it; an append value is the additions no later removal takes out, in order with repeats; a set-union is in order without repeats |
| ConfigLayers.MergeLists | apps/tui/src/config.rs:1716-1728 | The loops over layers and items compute that list |
| ConfigLayers.LaterLeafWins | apps/tui/src/config.rs:1751-1760 | A plain value a later table writes is effective at its path |
| ConfigLayers.EarlierStaysWhereSilent | apps/tui/src/config.rs:1751-1760 | Where a later table says nothing the earlier value stays |
| ConfigLayers.DeepKeyHolds | apps/tui/src/config.rs:1736-1760 | Over any number of layers, what a deep key holds at a path is what the last table not silent on it says, when that is a plain value there or on the way; nothing when all are silent |
| ConfigLayers.AssociativeIffNothingHidden | apps/tui/src/config.rs:1736-1760 | Three values fold the same from either side exactly when no plain value stands between a table and a later table that lacks some of it |
| ConfigLayers.DeepMergeNotAssociative | apps/tui/src/config.rs:1751-1760 | An input where the two sides differ |

## Left out

- `Anchored::follow` and `anchor`: they rest on line anchors of another crate; an edit enters the model as arbitrary moved ranges, followed by `renest`.
- FoldRuns.Possible: the buffer's line count is at least one, as the walker takes it, and the lines a command names are in the buffer.
- FoldIndent.EffectiveLevels: the level of one line (tab expansion, shiftwidth, ignored lines) is an input.
- `next_fold_start`, `prev_fold_end`, `open_fold_edge`, `closed_starting_at`, `summary` and `parse_fold_motion`: they would only add easy members.
- MacroMachine: register contents, counts and the keys of a `:normal` are inputs; a count is that many replays.
- MacroRuns.NestedKey: what a key does outside the macro machine, CTRL-C, failure and quitting are inputs, one turn of the loop at a time; the cursor placement for a line and the limit on nested `:normal`s are left out.
- KeyCodec: keys outside the macro alphabet are one kind without bytes; key event kind and state are not modelled.
- CaseClasses.FoldClasses: the candidate pairs and the answers to them are inputs; the probes of other editors are not modelled.
- Registry.Model: node titles, files and metadata, and the loading of the registry files.
- EditDiff.InputEdit: row and column follow the newline scan of `Positions`, which stands for the shared position helpers.
- ScreenDiff: a grid is a list of rows, not one row-major vector; cluster widths are given, 0 to 2; transcription of control characters, background and bold edits are left out.
- LineIndex.Refreshed: the index is a value that its owner replaces, not an object of its own.
- ConfigLayers: file reading, trust, migration, type conversion and the source of each value; the order of strings is a parameter.
- `image_id`, `fit_rows`, `fit_cols`, the placeholder cells and the rest of the repository are not part of this model.
