/** The decide-and-edit step of the implicit-indent extension and the
    selection-change handler's duplicate suppression.

    A trigger is either one of the four key movement commands, together
    with the position the host's native movement left the cursor at, or a
    selection change from any cause (a click, a key command's own movement,
    the extension's own insertion), which the source treats as a mouse
    command by passing the empty command string; its destination is the
    position it was raised at. */
module ImplicitIndent {
  import opened TextLine
  import opened Edits

  /** The four movement commands the extension wraps. */
  datatype MoveCommand = CursorUp | CursorDown | CursorLeft | CursorRight

  datatype Trigger =
    | Mouse
    | Key(command: MoveCommand, landed: Position)

  datatype Option<T> = None | Some(value: T)

  /** The post-move position: unchanged for a selection change, the host's
      landing position for a key move. */
  function Destination(position: Position, trigger: Trigger): Position {
    if trigger.Mouse? then position else trigger.landed
  }

  /** What the host guarantees of a trigger: its landing position lies in
      the buffer. */
  predicate ValidTrigger(lines: seq<string>, trigger: Trigger) {
    trigger.Key? ==> ValidPosition(lines, trigger.landed)
  }

  /** `shouldDeletePrevLineWhitespace`: the origin line is cleared only
      after a key move, and only when its text is non-empty and consists
      of whitespace alone. */
  function MarksOriginForDeletion(originText: string, trigger: Trigger): (r: bool)
    ensures r <==> trigger.Key? && |originText| > 0
                   && forall i :: 0 <= i < |originText| ==> IsWhitespace(originText[i])
  {
    trigger.Key? && IsBlank(originText)
  }

  /** `k` is the first line at or after `from` that is not empty-or-whitespace. */
  ghost predicate IsFirstContentLine(lines: seq<string>, from: nat, k: nat) {
    from <= k < |lines| && !IsEmptyOrWhitespace(lines[k])
    && forall j :: from <= j < k ==> IsEmptyOrWhitespace(lines[j])
  }

  /** Reference definition of the look-ahead result: the first
      non-whitespace index of the first line at or after `from` that has
      content, or 0 when every remaining line is empty or whitespace. */
  function NextIndent(lines: seq<string>, from: nat): nat
    decreases |lines| - from
  {
    if from >= |lines| then 0
    else if IsEmptyOrWhitespace(lines[from]) then NextIndent(lines, from + 1)
    else FirstNonWhitespaceIndex(lines[from])
  }

  /** The edit batch the decision issues, as a function of the buffer, the
      pre-move position and the trigger. */
  function EditPlan(lines: seq<string>, position: Position, trigger: Trigger): seq<Edit>
    requires ValidPosition(lines, position) && ValidTrigger(lines, trigger)
  {
    var clearOrigin := MarksOriginForDeletion(lines[position.line], trigger);
    var dest := Destination(position, trigger);
    var clear := if clearOrigin then [Delete(LineRange(lines, position.line))] else [];
    if lines[dest.line] == "" then
      var indent := NextIndent(lines, dest.line + 1);
      if indent > 0 then clear + [Insert(dest, Spaces(indent))] else []
    else clear
  }

  /** The look-ahead scan: walk forward from the line after `newLine`,
      skipping every empty-or-whitespace line, and take the first
      non-whitespace index of the first line with content; 0 if none.
      `visited` lists the line indices read, in order. */
  method LookAheadIndent(lines: seq<string>, newLine: nat) returns (indent: nat, ghost visited: seq<nat>)
    requires newLine < |lines|
    ensures indent == NextIndent(lines, newLine + 1)
    ensures forall n :: 0 <= n < |visited| ==> visited[n] == newLine + 1 + n
    ensures forall n :: 0 <= n < |visited| ==> newLine < visited[n] < |lines|
    ensures forall n :: 0 <= n < |visited| - 1 ==> IsEmptyOrWhitespace(lines[visited[n]])
    ensures |visited| == |lines| - (newLine + 1)
            || (|visited| > 0 && !IsEmptyOrWhitespace(lines[visited[|visited| - 1]])
                && indent == FirstNonWhitespaceIndex(lines[visited[|visited| - 1]]))
  {
    indent := 0;
    visited := [];
    var i := newLine + 1;
    while i < |lines|
      invariant newLine + 1 <= i <= |lines|
      invariant indent == 0
      invariant NextIndent(lines, i) == NextIndent(lines, newLine + 1)
      invariant |visited| == i - (newLine + 1)
      invariant forall n :: 0 <= n < |visited| ==> visited[n] == newLine + 1 + n
      invariant forall n :: 0 <= n < |visited| ==> IsEmptyOrWhitespace(lines[visited[n]])
    {
      var text := lines[i];
      visited := visited + [i];
      if IsEmptyOrWhitespace(text) {
        i := i + 1;
        continue;
      }
      indent := FirstNonWhitespaceIndex(text);
      break;
    }
  }

  /** The decision of `executeIndentAndClear`, without the host calls:
      classify the origin line, read the destination line, run the
      look-ahead when it is empty, and choose the batch. */
  method ChooseEdits(lines: seq<string>, position: Position, trigger: Trigger) returns (batch: seq<Edit>)
    requires ValidPosition(lines, position) && ValidTrigger(lines, trigger)
    ensures batch == EditPlan(lines, position, trigger)
  {
    var isMouseCommand := trigger.Mouse?;
    var prevLineText := lines[position.line];
    var shouldDeletePrevLineWhitespace := !isMouseCommand && prevLineText != "" && IsEmptyOrWhitespace(prevLineText);
    var indent := 0;
    var newPosition := if isMouseCommand then position else trigger.landed;
    var newLineText := if isMouseCommand then prevLineText else lines[newPosition.line];
    batch := [];
    if newLineText == "" {
      ghost var visited;
      indent, visited := LookAheadIndent(lines, newPosition.line);
      if indent > 0 {
        if shouldDeletePrevLineWhitespace {
          batch := batch + [Delete(LineRange(lines, position.line))];
        }
        batch := batch + [Insert(newPosition, Spaces(indent))];
      }
    } else if indent == 0 && shouldDeletePrevLineWhitespace {
      batch := [Delete(LineRange(lines, position.line))];
    }
  }
}
