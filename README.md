# Implicit indent: a Dafny model

This is a model of the decision core of the VS Code extension *implicit-indent*.
The extension wraps the four cursor movement commands (`cursorUp`, `cursorDown`,
`cursorLeft`, `cursorRight`) and also listens for selection changes. After the
cursor moves it may do one of two things:

- It fills an empty destination line with as many spaces as the indentation of
  the next line below that has content.
- After a key move, it clears the line the cursor left if that line held only
  whitespace.

The model is split into these modules:

- `TextLine` (`text_line.dfy`): the editor's notion of a line. Whitespace is
  JavaScript's `\s` character class. `FirstNonWhitespaceIndex` is
  `firstNonWhitespaceCharacterIndex`. `IsEmptyOrWhitespace` holds when that
  index equals the line's length.
- `Edits` (`edits.dfy`): positions, ranges, insert and delete edits, and what
  applying a batch does to a buffer (`seq<string>`). The `Document` class is the
  host's buffer, which an edit batch changes in place. A line's range does not
  include its line break, so deleting it leaves the line empty. The number of
  lines stays the same.
- `ImplicitIndent` (`implicit_indent.dfy`): the decision. `LookAheadIndent` is
  the forward scan, written as a loop with `continue` and `break`. `ChooseEdits`
  is the body of `executeIndentAndClear` without the host calls. Both are proved
  against reference functions: `NextIndent` specifies the scan and `EditPlan`
  specifies the batch.
- `IndentProperties` (`indent_properties.dfy`): lemmas about the reference
  functions. They say which batch is chosen for which buffer shape, what the
  scan finds, and the buffer line by line after the batch is applied.
- `IndentFollow` (`coordinator.dfy`): the handlers. `ExecuteIndentAndClear`
  applies the decision to a `Document`. The `Coordinator` class holds
  `prevClickLine` and has the command and selection-change handlers.

A trigger is either `Mouse` or `Key(command, landed)`. `Mouse` is a selection
change from any cause: a click, a key command's own native movement, or the
extension's own insertion. The source treats every such change as a mouse
command by passing the empty command string (src/extension.ts:46, 63). In
`Key(command, landed)`, `landed` is the position where the host's native
movement left the cursor. That position is an input to the model. For `Mouse`,
the destination is the pre-move position and the destination text is the origin
text, as in src/extension.ts:75-77.

Two points of the code that the model keeps exactly:

- The `else if` at src/extension.ts:103 also tests `indent == 0`. That test is
  always true at that point, because `indent` is set only in the other branch.
  `ChooseEdits` keeps it. `EditPlan` leaves it out.
- When the destination line is empty and no indent is found, no edit is made.
  This holds even if the origin line was marked for clearing, so the origin keeps
  its whitespace. The lemma `EmptyDestinationWithoutIndentIsNoOp` states this
  case.

## Model

| member | source | states |
|---|---|---|
| TextLine.FirstNonWhitespaceIndex | src/extension.ts:86 | the index is at most the line's length, every character before it is whitespace, and the character at it (if any) is not |
| TextLine.IsEmptyOrWhitespace | src/extension.ts:83 | a line is empty-or-whitespace exactly when all of its characters are whitespace |
| TextLine.Spaces | src/extension.ts:99 | `' '.repeat(n)` has length n and every character is a space |
| Edits.DeleteLineRange | src/extension.ts:97-105 | deleting `prevLineText.range` leaves that line `""` and every other line, and the line count, unchanged |
| Edits.InsertIntoEmptyLine | src/extension.ts:99 | inserting into an empty line happens at column 0, and the line becomes exactly the inserted text while other lines stay unchanged |
| Edits.Document.Edit | src/extension.ts:94-100 | the document's lines become the batch applied to the old lines |
| ImplicitIndent.MarksOriginForDeletion | src/extension.ts:63-67 | the origin line is marked exactly when the trigger is a key move and the line's text is non-empty and all whitespace |
| ImplicitIndent.LookAheadIndent | src/extension.ts:79-91 | the result equals NextIndent from the line after the destination; the lines read are consecutive, strictly between the destination line and the line count, and all but the last are empty-or-whitespace; the scan stops at the first line with content (whose first non-whitespace index is the result) or at the end of the buffer |
| ImplicitIndent.ChooseEdits | src/extension.ts:62-107 | the batch built by the imperative decision equals EditPlan of the buffer, the pre-move position and the trigger |
| IndentProperties.NextIndentIsFirstContentLine | src/extension.ts:81-88 | when line k is the first line from `from` on that is not empty-or-whitespace, the indent is k's first non-whitespace index; the blank lines before it are skipped |
| IndentProperties.NextIndentWithoutContent | src/extension.ts:79-91 | when every line from `from` to the end is empty-or-whitespace, the indent is 0 |
| IndentProperties.PositiveIndentHasSource | src/extension.ts:81-88 | a positive indent is always the first non-whitespace index of the first line with content |
| IndentProperties.MouseNeverDeletes | src/extension.ts:63-107 | for a selection-change trigger the batch is empty or a single insertion at the position itself, and it never holds a deletion |
| IndentProperties.EmptyDestinationInsertsIndent | src/extension.ts:93-100 | with an empty destination and a positive indent, the batch is the insertion of exactly `indent` spaces at the destination, preceded by the deletion of the origin line's range exactly when the origin is marked |
| IndentProperties.EmptyDestinationWithoutIndentIsNoOp | src/extension.ts:79-103 | with an empty destination and indent 0, the batch is empty even when the origin line is marked |
| IndentProperties.NonEmptyDestinationOnlyClears | src/extension.ts:103-107 | with a non-empty destination, the batch is the single deletion of the origin line's range when it is marked, and empty otherwise |
| IndentProperties.MarkedOriginIsNotEmptyDestination | src/extension.ts:67-79 | a marked origin line is never the empty destination line, so the two edits of a batch touch different lines |
| IndentProperties.EditPlanApplicable | src/extension.ts:94-106 | every batch the decision builds can be applied to the buffer it was computed from |
| IndentProperties.BufferAfterPlan | src/extension.ts:93-107 | after the batch, the destination line is exactly `indent` spaces if it was empty and the indent is positive; the origin line is empty if it was marked, unless the destination was empty with indent 0; every other line and the line count are unchanged |
| IndentProperties.FilledLineMatchesIndent | src/extension.ts:79-99 | after an empty destination is filled, the line is whitespace only and its first non-whitespace index equals the indent of the first line of content below it |
| IndentProperties.MousePlanKeepsPosition | src/extension.ts:75-99 | after a selection-change batch, the position it was raised at is still a valid position of the buffer |
| IndentProperties.SkipsBlankLinesExample | src/extension.ts:81-87 | an empty line followed by two whitespace-only lines and then a line indented by 4 gets indent 4 |
| IndentProperties.LastEmptyLineIssuesNoEdit | src/extension.ts:79-103 | in any buffer whose last line is empty, a key move onto that line issues no edit, whatever the origin line holds |
| IndentFollow.ExecuteIndentAndClear | src/extension.ts:52-112 | the document becomes the decision's batch applied to the old document |
| IndentFollow.Coordinator.constructor | src/extension.ts:5 | `prevClickLine` starts undefined |
| IndentFollow.Coordinator.OnMoveCommand | src/extension.ts:24-32 | a movement command runs the decision with the key trigger and the landing position; `prevClickLine` is not touched |
| IndentFollow.Coordinator.OnSelectionChanged | src/extension.ts:36-49 | on the line last handled nothing changes; otherwise the document gets the mouse-trigger batch and `prevClickLine` becomes that line |
| IndentFollow.RepeatedSelectionIsNoOp | src/extension.ts:42-47 | two selection changes on the same line in a row, the second at any column the line then has (such as the column past the inserted indent): the first applies the mouse-trigger batch, the second changes nothing, and `prevClickLine` ends as that line |

## Left out

- The VS Code API surface is host glue and is not modelled: command
  registration, `context.subscriptions`, the event subscription, and the
  unchecked `activeTextEditor!` dereference (src/extension.ts:22-36).
- The native movement `executeCommand(moveCommand)` (src/extension.ts:72) is
  the host's behaviour. Its result is the `landed` input of a key trigger.
- The `Mutex` and the `await` points (src/extension.ts:2, 18-20, 59, 110) are
  not modelled. Each handler call is one atomic sequential step. This is
  stronger than the source's locking. Both handlers read the cursor position
  and its line before acquiring the lock (src/extension.ts:29-30, 40-41 against
  59). The selection handler also tests `prevClickLine` before the lock
  (line 42) and sets it only after the lock is released (line 47). The edit is
  not awaited before the release (lines 94, 104, 110). So a handler waiting on
  the lock can run with a stale origin position, or see a buffer whose edit has
  not been applied yet. The model does not capture these stale reads.
- Undo-stop options and the unawaited `editor.edit` promise
  (src/extension.ts:8, 94, 104) are not modelled. A batch is applied
  atomically, edit by edit. This agrees with the host's simultaneous application
  because the two edits of a batch touch different lines
  (`MarkedOriginIsNotEmptyDestination`).
- The `catch` around the scan (src/extension.ts:89-91) is not modelled. The scan
  reads only indices below the line count (`LookAheadIndent`), so it cannot
  fail. The not-found result is 0.
- Cursor and marker movement caused by an insertion (`forceMoveMarkers`) belongs
  to the host and is not modelled.
- Positions are required to be valid, meaning the line is in the buffer and the
  column is at most the line's length. The host guarantees this for selection
  starts. The source does not handle invalid positions: `lineAt` outside the
  scan would throw.
- Columns are counted differently. A Dafny `string` index counts Unicode scalar
  values, while the host's columns and `text.length` count UTF-16 code units.
  The decision does not depend on this: whitespace characters all fit in one
  code unit, insertion happens at column 0 of an empty line, and a deletion
  covers a whole line. But the column bound in `ValidPosition` is in scalar
  values, not code units.
- `deactivate` (src/extension.ts:10) is empty.
