/** The event-driven side: the decide-and-edit step applied to the host's
    document, the four movement command handlers, and the selection-change
    handler with its memory of the last line it handled. Each call runs as
    one atomic step, so the lock that serialises the source's asynchronous
    handlers has no counterpart here. */
module IndentFollow {
  import opened Edits
  import opened ImplicitIndent
  import opened IndentProperties

  /** `executeIndentAndClear`: decide, then apply the batch to the document
      in one step. The host's edit call is made only when there is an edit. */
  method ExecuteIndentAndClear(doc: Document, position: Position, trigger: Trigger)
    requires ValidPosition(doc.lines, position) && ValidTrigger(doc.lines, trigger)
    modifies doc
    ensures doc.lines == ApplyBatch(old(doc.lines), EditPlan(old(doc.lines), position, trigger))
  {
    var batch := ChooseEdits(doc.lines, position, trigger);
    EditPlanApplicable(doc.lines, position, trigger);
    if batch != [] {
      doc.Edit(batch);
    }
  }

  class Coordinator {
    /** The line of the last selection change that was handled; `None`
        before the first one. */
    var prevClickLine: Option<nat>

    constructor ()
      ensures prevClickLine == None
    {
      prevClickLine := None;
    }

    /** A registered movement command: the cursor's line before the move
        is `position.line`; the host's native movement lands on `landed`.
        The handler leaves `prevClickLine` alone. */
    method OnMoveCommand(doc: Document, position: Position, command: MoveCommand, landed: Position)
      requires ValidPosition(doc.lines, position) && ValidPosition(doc.lines, landed)
      modifies doc
      ensures doc.lines == ApplyBatch(old(doc.lines), EditPlan(old(doc.lines), position, Key(command, landed)))
    {
      ExecuteIndentAndClear(doc, position, Key(command, landed));
    }

    /** The selection-change handler: nothing happens when the selection is
        on the line last handled; otherwise the decision runs as a mouse
        trigger and the line is recorded. */
    method OnSelectionChanged(doc: Document, position: Position)
      requires ValidPosition(doc.lines, position)
      modifies this, doc
      ensures old(prevClickLine) == Some(position.line) ==>
                prevClickLine == old(prevClickLine) && doc.lines == old(doc.lines)
      ensures old(prevClickLine) != Some(position.line) ==>
                prevClickLine == Some(position.line)
                && doc.lines == ApplyBatch(old(doc.lines), EditPlan(old(doc.lines), position, Mouse))
    {
      if prevClickLine == Some(position.line) {
        return;
      }
      ExecuteIndentAndClear(doc, position, Mouse);
      prevClickLine := Some(position.line);
    }
  }

  /** Two selection changes on the same line in a row, the second one at
      any column the line then has, such as the one the fill moves the
      cursor to: the first one runs the decision, the second changes
      neither the document nor the coordinator. */
  method RepeatedSelectionIsNoOp(c: Coordinator, doc: Document, position: Position, again: Position)
    requires ValidPosition(doc.lines, position)
    requires c.prevClickLine != Some(position.line)
    requires again.line == position.line
    requires again.character <= if doc.lines[position.line] == ""
                                 then NextIndent(doc.lines, position.line + 1)
                                 else |doc.lines[position.line]|
    modifies c, doc
    ensures c.prevClickLine == Some(position.line)
    ensures doc.lines == ApplyBatch(old(doc.lines), EditPlan(old(doc.lines), position, Mouse))
  {
    BufferAfterPlan(doc.lines, position, Mouse);
    c.OnSelectionChanged(doc, position);
    ghost var afterFirst := doc.lines;
    c.OnSelectionChanged(doc, again);
    assert doc.lines == afterFirst;
  }
}
