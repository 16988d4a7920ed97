/** Positions, ranges and the two kinds of edit the extension issues, and
    their effect on a buffer of lines. The host applies a batch atomically;
    here a batch is applied edit by edit, which agrees with the host's
    simultaneous application for the batches the extension builds (at most
    one edit per line). */
module Edits {

  /** A (line, character) pair: the editor's `Position`. */
  datatype Position = Position(line: nat, character: nat)

  /** The editor's `Range`, from `start` to `end`. */
  datatype Range = Range(start: Position, end: Position)

  /** One entry of an edit batch: `edit.insert(at, text)` or `edit.delete(range)`. */
  datatype Edit = Insert(at: Position, text: string) | Delete(range: Range)

  /** `p` names a line of the buffer and a column at most that line's length. */
  predicate ValidPosition(lines: seq<string>, p: Position) {
    p.line < |lines| && p.character <= |lines[p.line]|
  }

  /** The `range` of a line: from its first column to its last, without the
      line break. */
  function LineRange(lines: seq<string>, line: nat): Range
    requires line < |lines|
  {
    Range(Position(line, 0), Position(line, |lines[line]|))
  }

  /** Edits whose effect this model defines: an insertion at a valid
      position, or a deletion of a range inside one line. */
  predicate Applicable(lines: seq<string>, e: Edit) {
    match e
    case Insert(at, _) => ValidPosition(lines, at)
    case Delete(r) =>
      r.start.line == r.end.line && r.start.character <= r.end.character
      && ValidPosition(lines, r.end)
  }

  /** The buffer after one edit: only the edited line changes. */
  function ApplyEdit(lines: seq<string>, e: Edit): seq<string>
    requires Applicable(lines, e)
  {
    match e
    case Insert(at, text) =>
      var t := lines[at.line];
      lines[at.line := t[..at.character] + text + t[at.character..]]
    case Delete(r) =>
      var t := lines[r.start.line];
      lines[r.start.line := t[..r.start.character] + t[r.end.character..]]
  }

  /** Every edit of the batch applies to the buffer its predecessors left. */
  predicate ApplicableBatch(lines: seq<string>, batch: seq<Edit>)
    decreases |batch|
  {
    batch == [] || (Applicable(lines, batch[0]) && ApplicableBatch(ApplyEdit(lines, batch[0]), batch[1..]))
  }

  /** The buffer after the whole batch. */
  function ApplyBatch(lines: seq<string>, batch: seq<Edit>): (r: seq<string>)
    requires ApplicableBatch(lines, batch)
    ensures |r| == |lines|
    decreases |batch|
  {
    if batch == [] then lines else ApplyBatch(ApplyEdit(lines, batch[0]), batch[1..])
  }

  /** Deleting a line's whole range leaves that line empty and every other
      line as it was. */
  lemma DeleteLineRange(lines: seq<string>, line: nat)
    requires line < |lines|
    ensures Applicable(lines, Delete(LineRange(lines, line)))
    ensures ApplyEdit(lines, Delete(LineRange(lines, line))) == lines[line := ""]
  {
    var t := lines[line];
    assert t[..0] + t[|t|..] == "";
  }

  /** Inserting text at the only column of an empty line makes the line
      exactly that text and leaves every other line as it was. */
  lemma InsertIntoEmptyLine(lines: seq<string>, at: Position, text: string)
    requires ValidPosition(lines, at) && lines[at.line] == ""
    ensures at.character == 0
    ensures Applicable(lines, Insert(at, text))
    ensures ApplyEdit(lines, Insert(at, text)) == lines[at.line := text]
  {
    var t := lines[at.line];
    assert t[..0] + text + t[0..] == text;
  }

  /** The host's text document: the buffer of lines that an edit batch
      changes in place. */
  class Document {
    var lines: seq<string>

    constructor (initial: seq<string>)
      ensures lines == initial
    {
      lines := initial;
    }

    /** `editor.edit(...)`: the batch is applied as one step. */
    method Edit(batch: seq<Edit>)
      requires ApplicableBatch(lines, batch)
      modifies this
      ensures lines == ApplyBatch(old(lines), batch)
    {
      lines := ApplyBatch(lines, batch);
    }
  }
}
