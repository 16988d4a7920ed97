/** What the decision promises: the bounds and result of the look-ahead,
    which batch is chosen for which buffer shape, and the buffer that
    results from applying it. */
module IndentProperties {
  import opened TextLine
  import opened Edits
  import opened ImplicitIndent

  /** The look-ahead finds the first line with content and takes its
      first non-whitespace index; the empty-or-whitespace lines before it
      are skipped, not counted. */
  lemma {:induction false} NextIndentIsFirstContentLine(lines: seq<string>, from: nat, k: nat)
    requires IsFirstContentLine(lines, from, k)
    ensures NextIndent(lines, from) == FirstNonWhitespaceIndex(lines[k])
    decreases k - from
  {
    if from < k {
      assert IsEmptyOrWhitespace(lines[from]);
      NextIndentIsFirstContentLine(lines, from + 1, k);
    }
  }

  /** With no line of content from `from` to the end of the buffer, the
      look-ahead result is 0. */
  lemma {:induction false} NextIndentWithoutContent(lines: seq<string>, from: nat)
    requires forall j :: from <= j < |lines| ==> IsEmptyOrWhitespace(lines[j])
    ensures NextIndent(lines, from) == 0
    decreases |lines| - from
  {
    if from < |lines| {
      NextIndentWithoutContent(lines, from + 1);
    }
  }

  /** A positive look-ahead result always comes from a line of content. */
  lemma {:induction false} PositiveIndentHasSource(lines: seq<string>, from: nat)
    requires NextIndent(lines, from) > 0
    ensures exists k: nat :: IsFirstContentLine(lines, from, k) && FirstNonWhitespaceIndex(lines[k]) == NextIndent(lines, from)
    decreases |lines| - from
  {
    if IsEmptyOrWhitespace(lines[from]) {
      PositiveIndentHasSource(lines, from + 1);
      var k: nat :| IsFirstContentLine(lines, from + 1, k) && FirstNonWhitespaceIndex(lines[k]) == NextIndent(lines, from + 1);
      assert IsFirstContentLine(lines, from, k);
    } else {
      assert IsFirstContentLine(lines, from, from);
    }
  }

  /** A selection change never deletes: its batch is empty or a single
      insertion at the position it was raised at. */
  lemma MouseNeverDeletes(lines: seq<string>, position: Position)
    requires ValidPosition(lines, position)
    ensures var plan := EditPlan(lines, position, Mouse);
            (plan == [] || plan == [Insert(position, Spaces(NextIndent(lines, position.line + 1)))])
            && forall e :: e in plan ==> !e.Delete?
  {
  }

  /** Empty destination with a positive look-ahead result: the batch ends
      with the insertion of exactly that many spaces at the destination,
      preceded by the deletion of the origin line's range exactly when the
      origin line is marked. */
  lemma EmptyDestinationInsertsIndent(lines: seq<string>, position: Position, trigger: Trigger)
    requires ValidPosition(lines, position) && ValidTrigger(lines, trigger)
    requires lines[Destination(position, trigger).line] == ""
    requires NextIndent(lines, Destination(position, trigger).line + 1) > 0
    ensures var dest := Destination(position, trigger);
            var insert := Insert(dest, Spaces(NextIndent(lines, dest.line + 1)));
            EditPlan(lines, position, trigger)
            == if MarksOriginForDeletion(lines[position.line], trigger)
               then [Delete(LineRange(lines, position.line)), insert]
               else [insert]
  {
  }

  /** The quirk: an empty destination with no indent found issues no edit
      at all, even when the origin line was marked for deletion. */
  lemma EmptyDestinationWithoutIndentIsNoOp(lines: seq<string>, position: Position, trigger: Trigger)
    requires ValidPosition(lines, position) && ValidTrigger(lines, trigger)
    requires lines[Destination(position, trigger).line] == ""
    requires NextIndent(lines, Destination(position, trigger).line + 1) == 0
    ensures EditPlan(lines, position, trigger) == []
  {
  }

  /** A non-empty destination: a single deletion of the origin line's
      range when it is marked, otherwise nothing. */
  lemma NonEmptyDestinationOnlyClears(lines: seq<string>, position: Position, trigger: Trigger)
    requires ValidPosition(lines, position) && ValidTrigger(lines, trigger)
    requires lines[Destination(position, trigger).line] != ""
    ensures EditPlan(lines, position, trigger)
            == if MarksOriginForDeletion(lines[position.line], trigger)
               then [Delete(LineRange(lines, position.line))]
               else []
  {
  }

  /** When both edits are issued they touch different lines: a marked
      origin line is non-empty, the destination line is empty. */
  lemma MarkedOriginIsNotEmptyDestination(lines: seq<string>, position: Position, trigger: Trigger)
    requires ValidPosition(lines, position) && ValidTrigger(lines, trigger)
    requires MarksOriginForDeletion(lines[position.line], trigger)
    requires lines[Destination(position, trigger).line] == ""
    ensures Destination(position, trigger).line != position.line
  {
  }

  /** The batch always applies to the buffer it was computed from. */
  lemma EditPlanApplicable(lines: seq<string>, position: Position, trigger: Trigger)
    requires ValidPosition(lines, position) && ValidTrigger(lines, trigger)
    ensures ApplicableBatch(lines, EditPlan(lines, position, trigger))
  {
    BufferAfterPlan(lines, position, trigger);
  }

  /** The buffer after the batch, line by line: the destination line holds
      exactly `indent` spaces when it was empty and the look-ahead found a
      positive indent; the origin line is empty when it was marked and the
      destination was not an empty line without indent; every other line,
      and the number of lines, is unchanged. */
  lemma BufferAfterPlan(lines: seq<string>, position: Position, trigger: Trigger)
    requires ValidPosition(lines, position) && ValidTrigger(lines, trigger)
    ensures ApplicableBatch(lines, EditPlan(lines, position, trigger))
    ensures var after := ApplyBatch(lines, EditPlan(lines, position, trigger));
            var dest := Destination(position, trigger);
            var indent := NextIndent(lines, dest.line + 1);
            var filled := lines[dest.line] == "" && indent > 0;
            var cleared := MarksOriginForDeletion(lines[position.line], trigger)
                           && (lines[dest.line] != "" || indent > 0);
            |after| == |lines|
            && (forall i :: 0 <= i < |lines| ==>
                  after[i] == if filled && i == dest.line then Spaces(indent)
                              else if cleared && i == position.line then ""
                              else lines[i])
  {
    var dest := Destination(position, trigger);
    var indent := NextIndent(lines, dest.line + 1);
    var marked := MarksOriginForDeletion(lines[position.line], trigger);
    var clear := Delete(LineRange(lines, position.line));
    var insert := Insert(dest, Spaces(indent));
    if lines[dest.line] == "" && indent > 0 {
      if marked {
        DeleteLineRange(lines, position.line);
        var mid := ApplyEdit(lines, clear);
        InsertIntoEmptyLine(mid, dest, Spaces(indent));
        assert ApplyBatch(mid, [insert]) == ApplyBatch(ApplyEdit(mid, insert), []);
        assert EditPlan(lines, position, trigger)[1..] == [insert];
      } else {
        InsertIntoEmptyLine(lines, dest, Spaces(indent));
        assert ApplyBatch(lines, [insert]) == ApplyBatch(ApplyEdit(lines, insert), []);
      }
    } else if lines[dest.line] != "" && marked {
      DeleteLineRange(lines, position.line);
      assert ApplyBatch(lines, [clear]) == ApplyBatch(ApplyEdit(lines, clear), []);
    }
  }

  /** A filled destination line is whitespace only, and its first
      non-whitespace index is the indent of the line of content below it. */
  lemma FilledLineMatchesIndent(lines: seq<string>, position: Position, trigger: Trigger)
    requires ValidPosition(lines, position) && ValidTrigger(lines, trigger)
    requires lines[Destination(position, trigger).line] == ""
    requires NextIndent(lines, Destination(position, trigger).line + 1) > 0
    ensures ApplicableBatch(lines, EditPlan(lines, position, trigger))
    ensures var after := ApplyBatch(lines, EditPlan(lines, position, trigger));
            var dest := Destination(position, trigger);
            IsEmptyOrWhitespace(after[dest.line])
            && FirstNonWhitespaceIndex(after[dest.line]) == NextIndent(lines, dest.line + 1)
  {
    BufferAfterPlan(lines, position, trigger);
    SpacesAreWhitespace(NextIndent(lines, Destination(position, trigger).line + 1));
  }

  /** After a selection change the position it was raised at is still a
      valid position of the new buffer. */
  lemma MousePlanKeepsPosition(lines: seq<string>, position: Position)
    requires ValidPosition(lines, position)
    ensures ApplicableBatch(lines, EditPlan(lines, position, Mouse))
    ensures ValidPosition(ApplyBatch(lines, EditPlan(lines, position, Mouse)), position)
  {
    BufferAfterPlan(lines, position, Mouse);
  }

  /** Blank lines between an empty destination and the next line of
      content are skipped: the indent is that line's, 4. */
  lemma SkipsBlankLinesExample()
    ensures NextIndent(["", "  ", "\t", "    x"], 1) == 4
  {
    var lines := ["", "  ", "\t", "    x"];
    assert FirstNonWhitespaceIndex(lines[3]) == 4;
    assert IsFirstContentLine(lines, 1, 3);
    NextIndentIsFirstContentLine(lines, 1, 3);
  }

  /** An empty last line has nothing below it: the indent is 0 and a key
      move onto it issues no edit, whatever the origin line holds. */
  lemma LastEmptyLineIssuesNoEdit(lines: seq<string>, position: Position, command: MoveCommand)
    requires |lines| > 0 && lines[|lines| - 1] == ""
    requires ValidPosition(lines, position)
    ensures EditPlan(lines, position, Key(command, Position(|lines| - 1, 0))) == []
  {
  }
}
