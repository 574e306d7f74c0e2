/**
 * The `- [ ] #TODO <text>` marker line: how findTodoItems recognises it
 * (gtd-manager.ts:196-217) and how updateCheckboxInFile checks it off
 * (gtd-manager.ts:262-266).
 */
module Markers {
  import opened Wrappers
  import opened Types
  import opened Text
  import opened TaskId

  const TODO_PREFIX: string := "- [ ] #TODO "
  /** The text updateCheckboxInFile looks for in the source line. */
  const UNCHECKED_TODO: string := "- [ ] #TODO"
  const UNCHECKED_BOX: string := "- [ ]"
  const CHECKED_BOX: string := "- [x]"

  /** The characters `.` does not match in a JavaScript regular expression without the `s` flag. */
  predicate IsLineTerminator(c: char) {
    c == '\n' || c == '\r' || c == '\U{2028}' || c == '\U{2029}'
  }

  /** What `(.+)` captures: at least one character, none of them a line terminator. */
  predicate IsTodoContent(content: string) {
    |content| >= 1 && forall i :: 0 <= i < |content| ==> !IsLineTerminator(content[i])
  }

  /** `line.match(/^- \[ \] #TODO (.+)$/)`: the captured text when the whole line matches. */
  function MatchTodo(line: string): Option<string>
  {
    if IsPrefix(TODO_PREFIX, line) && IsTodoContent(line[|TODO_PREFIX|..])
    then Some(line[|TODO_PREFIX|..])
    else None
  }

  /** A line matches with capture `content` exactly when it is the prefix followed by `content`. */
  lemma MatchTodoIff(line: string, content: string)
    ensures MatchTodo(line) == Some(content) <==> line == TODO_PREFIX + content && IsTodoContent(content)
  {
    if line == TODO_PREFIX + content {
      assert line[|TODO_PREFIX|..] == content;
    }
    if MatchTodo(line) == Some(content) {
      assert line == line[..|TODO_PREFIX|] + line[|TODO_PREFIX|..];
    }
  }

  /** The item the scanner emits for a matching line. */
  function MarkerItem(path: string, lineNumber: nat, content: string): TodoItem
  {
    TodoItem(content, path, lineNumber, TaskIdOf(path, lineNumber, content))
  }

  /** `item` is the marker of line `item.lineNumber` of `lines` in note `path`. */
  predicate IsMarkerAt(path: string, lines: seq<string>, item: TodoItem) {
    && item.lineNumber < |lines|
    && MatchTodo(lines[item.lineNumber]) == Some(item.content)
    && item == MarkerItem(path, item.lineNumber, item.content)
  }

  /** The items findTodoItems pushes for `lines`, in line order. */
  function Scan(path: string, lines: seq<string>): seq<TodoItem>
  {
    if |lines| == 0 then []
    else
      var n := |lines| - 1;
      Scan(path, lines[..n]) + LineItems(path, n, lines[n])
  }

  /** The item a single line contributes, if any. */
  function LineItems(path: string, n: nat, line: string): seq<TodoItem>
  {
    match MatchTodo(line)
    case Some(content) => [MarkerItem(path, n, content)]
    case None => []
  }

  /** Scanning one more line appends what that line contributes. */
  lemma ScanStep(path: string, lines: seq<string>, i: nat)
    requires i < |lines|
    ensures Scan(path, lines[..i + 1]) == Scan(path, lines[..i]) + LineItems(path, i, lines[i])
  {
    assert lines[..i + 1][..i] == lines[..i];
  }

  /** Every item emitted is the marker of its line. */
  lemma {:induction false} ScanMarkers(path: string, lines: seq<string>)
    ensures forall k :: 0 <= k < |Scan(path, lines)| ==> IsMarkerAt(path, lines, Scan(path, lines)[k])
    decreases |lines|
  {
    if |lines| > 0 {
      var n := |lines| - 1;
      var before := Scan(path, lines[..n]);
      var last := LineItems(path, n, lines[n]);
      ScanMarkers(path, lines[..n]);
      assert Scan(path, lines) == before + last;
      forall k | 0 <= k < |before|
        ensures IsMarkerAt(path, lines, before[k])
      {
        assert IsMarkerAt(path, lines[..n], before[k]);
        assert lines[..n][before[k].lineNumber] == lines[before[k].lineNumber];
      }
    }
  }

  /** Every item's line number is an index of `lines`. */
  lemma {:induction false} ScanBelow(path: string, lines: seq<string>)
    ensures forall k :: 0 <= k < |Scan(path, lines)| ==> Scan(path, lines)[k].lineNumber < |lines|
    decreases |lines|
  {
    if |lines| > 0 {
      var n := |lines| - 1;
      ScanBelow(path, lines[..n]);
      assert Scan(path, lines) == Scan(path, lines[..n]) + LineItems(path, n, lines[n]);
    }
  }

  /** Items come in strictly increasing line order. */
  lemma {:induction false} ScanOrdered(path: string, lines: seq<string>)
    ensures forall k, l :: 0 <= k < l < |Scan(path, lines)| ==>
      Scan(path, lines)[k].lineNumber < Scan(path, lines)[l].lineNumber
    decreases |lines|
  {
    if |lines| > 0 {
      var n := |lines| - 1;
      var before := Scan(path, lines[..n]);
      var last := LineItems(path, n, lines[n]);
      ScanOrdered(path, lines[..n]);
      ScanBelow(path, lines[..n]);
      var all := Scan(path, lines);
      assert all == before + last;
      forall k, l | 0 <= k < l < |all|
        ensures all[k].lineNumber < all[l].lineNumber
      {
        assert all[k] == before[k];
        if l < |before| {
          assert all[l] == before[l];
        } else {
          assert all[l] == last[l - |before|];
        }
      }
    }
  }

  /** Every matching line is found: the scan is complete. */
  lemma {:induction false} ScanFindsEveryMarker(path: string, lines: seq<string>, i: nat, content: string)
    requires i < |lines| && MatchTodo(lines[i]) == Some(content)
    ensures MarkerItem(path, i, content) in Scan(path, lines)
    decreases |lines|
  {
    var n := |lines| - 1;
    var before, last := Scan(path, lines[..n]), LineItems(path, n, lines[n]);
    assert Scan(path, lines) == before + last;
    if i < n {
      assert lines[..n][i] == lines[i];
      ScanFindsEveryMarker(path, lines[..n], i, content);
      assert MarkerItem(path, i, content) in before;
    } else {
      assert last == [MarkerItem(path, i, content)];
    }
  }

  /** A text none of whose lines matches yields no items. */
  lemma {:induction false} ScanNone(path: string, lines: seq<string>)
    requires forall i :: 0 <= i < |lines| ==> MatchTodo(lines[i]).None?
    ensures Scan(path, lines) == []
    decreases |lines|
  {
    if |lines| > 0 {
      var n := |lines| - 1;
      assert forall i :: 0 <= i < n ==> lines[..n][i] == lines[i];
      ScanNone(path, lines[..n]);
    }
  }

  /** A line that differs from the marker prefix at some position below its length does not match. */
  lemma MismatchAt(line: string, j: nat)
    requires j < |TODO_PREFIX|
    requires j >= |line| || line[j] != TODO_PREFIX[j]
    ensures MatchTodo(line).None?
  {
  }

  /** The items of a note's text, split on line feeds. */
  function ScanText(path: string, text: string): seq<TodoItem>
  {
    Scan(path, Split(text))
  }

  /** What every emitted item satisfies: a valid line index, that line is the
      prefix followed by the content, the content is non-empty and free of line
      terminators, and the id is generateTaskId of (path, line, content). */
  lemma ScanTextItem(path: string, text: string, item: TodoItem)
    requires item in ScanText(path, text)
    ensures item.sourceFile == path
    ensures item.lineNumber < |Split(text)|
    ensures Split(text)[item.lineNumber] == TODO_PREFIX + item.content
    ensures IsTodoContent(item.content) && NoNewline(item.content)
    ensures item.taskId == TaskIdOf(path, item.lineNumber, item.content)
  {
    ScanMarkers(path, Split(text));
    MatchTodoIff(Split(text)[item.lineNumber], item.content);
  }

  /** `line.replace('- [ ]', '- [x]')`. */
  function CheckLine(line: string): (r: string)
    ensures |r| == |line|
    ensures !Includes(line, UNCHECKED_BOX) ==> r == line
  {
    ReplaceFirst(line, UNCHECKED_BOX, CHECKED_BOX)
  }

  /** A line that passes the `includes('- [ ] #TODO')` test keeps its length
      when checked off and changes only in the first checkbox. */
  lemma CheckLineInPlace(line: string)
    requires Includes(line, UNCHECKED_TODO)
    ensures var i := IndexOf(line, UNCHECKED_BOX);
      && 0 <= i && |CheckLine(line)| == |line|
      && CheckLine(line) == line[i + 3 := 'x']
  {
    assert UNCHECKED_TODO == UNCHECKED_BOX + " #TODO";
    IncludesShorter(line, UNCHECKED_BOX, " #TODO");
    var i := IndexOf(line, UNCHECKED_BOX);
    var r := CheckLine(line);
    ReplaceFirstInPlace(line, UNCHECKED_BOX, CHECKED_BOX);
    assert line[i..i + 5] == UNCHECKED_BOX;
    BoxSwap(line, r, i);
  }

  /** Swapping an unchecked box at `i` for a checked one changes only the character between the brackets. */
  lemma BoxSwap(line: string, r: string, i: int)
    requires 0 <= i && i + 5 <= |line| == |r|
    requires line[i..i + 5] == UNCHECKED_BOX && r[i..i + 5] == CHECKED_BOX
    requires forall j :: 0 <= j < |line| && !(i <= j < i + 5) ==> r[j] == line[j]
    ensures r == line[i + 3 := 'x']
  {
    forall j | 0 <= j < |line|
      ensures r[j] == line[i + 3 := 'x'][j]
    {
      if i <= j < i + 5 {
        assert r[j] == r[i..i + 5][j - i];
        assert line[j] == line[i..i + 5][j - i];
      }
    }
  }

  /** Checking off a line adds no line feed. */
  lemma CheckLineNoNewline(line: string)
    requires NoNewline(line)
    ensures NoNewline(CheckLine(line))
  {
    var i := IndexOf(line, UNCHECKED_BOX);
    if i != -1 {
      assert forall c :: c in line[..i] || c in line[i + 5..] ==> c in line;
    }
  }

  /** A marker line passes the `includes` test, and checking it off yields
      `- [x] #TODO <content>`, which the scanner no longer matches. */
  lemma CheckMarkerLine(line: string, content: string)
    requires MatchTodo(line) == Some(content)
    ensures Includes(line, UNCHECKED_TODO)
    ensures CheckLine(line) == "- [x] #TODO " + content
    ensures MatchTodo(CheckLine(line)) == None
  {
    MatchTodoIff(line, content);
    assert OccursAt(line, UNCHECKED_TODO, 0);
    assert OccursAt(line, UNCHECKED_BOX, 0);
    assert IndexOf(line, UNCHECKED_BOX) == 0;
    assert CheckLine(line) == CHECKED_BOX + line[5..];
  }
}
