/**
 * What the scanner of findTodoItems (gtd-manager.ts:196-217) finds in a task
 * note made by generateTaskContent (gtd-manager.ts:347-375). No line of the
 * template matches the marker pattern except the last body line, which is
 * the marker's own text: a task note holds a marker exactly when that text
 * itself starts with `- [ ] #TODO `.
 */
module TemplateScan {
  import opened Wrappers
  import opened Types
  import opened Text
  import opened Markers
  import opened Format

  /** A marker id, being base-36 digits, holds no line feed. */
  lemma RadixNoNewline(s: string)
    requires AllRadixDigits(s, 36)
    ensures NoNewline(s)
  {
    assert forall i :: 0 <= i < |s| ==> DigitValue(s[i]) < 36;
  }

  /** The front-matter lines 0-14 never match the marker pattern. */
  lemma FrontMatterNoMarker(stamp: string, todo: TodoItem, lineText: string, created: string, createdWithSeconds: string, i: nat)
    requires i < 15
    ensures MatchTodo(TemplateLines(stamp, todo, lineText, created, createdWithSeconds)[i]).None?
  {
    var line := TemplateLines(stamp, todo, lineText, created, createdWithSeconds)[i];
    if i == 0 || i == 14 {
      assert line == "---";
      MismatchAt(line, 1);
    } else {
      assert line[0] != '-';
      MismatchAt(line, 0);
    }
  }

  /** The body lines 15-24 match only when the marker's own text does. */
  lemma BodyNoMarker(stamp: string, todo: TodoItem, lineText: string, created: string, createdWithSeconds: string, i: nat)
    requires 15 <= i < 25
    requires MatchTodo(todo.content).None?
    ensures MatchTodo(TemplateLines(stamp, todo, lineText, created, createdWithSeconds)[i]).None?
  {
    var line := TemplateLines(stamp, todo, lineText, created, createdWithSeconds)[i];
    if i == 15 || i == 21 || i == 24 {
      assert line == "";
      MismatchAt(line, 0);
    } else if i == 18 || i == 19 || i == 20 {
      assert line[2] != '[';
      MismatchAt(line, 2);
    } else if i == 23 {
      assert line == todo.content;
    } else {
      assert line[0] != '-';
      MismatchAt(line, 0);
    }
  }

  /** The lines of a task note, for inputs without line feeds. */
  lemma TaskNoteLines(stamp: string, todo: TodoItem, now: Instant)
    requires NoNewline(stamp) && NoNewline(todo.content) && NoNewline(todo.sourceFile) && NoNewline(todo.taskId)
    ensures Split(GenerateTaskContent(stamp, todo, now)) ==
      TemplateLines(stamp, todo, IntToString(todo.lineNumber), FormatDateTimeReadable(now), FormatDateTimeWithSeconds(now))
  {
    var lineText := IntToString(todo.lineNumber);
    var created, createdWithSeconds := FormatDateTimeReadable(now), FormatDateTimeWithSeconds(now);
    IntToStringNoNewline(todo.lineNumber);
    FormattedNoNewline(now);
    TemplateLinesNoNewline(stamp, todo, lineText, created, createdWithSeconds);
    SplitJoin(TemplateLines(stamp, todo, lineText, created, createdWithSeconds));
  }

  /** A task note made for a marker whose text is not itself a marker line holds no marker. */
  lemma TaskNoteHasNoMarker(path: string, stamp: string, todo: TodoItem, now: Instant)
    requires NoNewline(stamp) && NoNewline(todo.content) && NoNewline(todo.sourceFile) && NoNewline(todo.taskId)
    requires MatchTodo(todo.content).None?
    ensures ScanText(path, GenerateTaskContent(stamp, todo, now)) == []
  {
    var lineText := IntToString(todo.lineNumber);
    var created, createdWithSeconds := FormatDateTimeReadable(now), FormatDateTimeWithSeconds(now);
    var lines := TemplateLines(stamp, todo, lineText, created, createdWithSeconds);
    TaskNoteLines(stamp, todo, now);
    forall i | 0 <= i < |lines|
      ensures MatchTodo(lines[i]).None?
    {
      if i < 15 {
        FrontMatterNoMarker(stamp, todo, lineText, created, createdWithSeconds, i);
      } else {
        BodyNoMarker(stamp, todo, lineText, created, createdWithSeconds, i);
      }
    }
    ScanNone(path, lines);
  }

  /** A marker whose text is itself `- [ ] #TODO <c>` reappears, with text
      `c`, on line 23 of its task note. */
  lemma TaskNoteEchoesMarker(path: string, stamp: string, todo: TodoItem, now: Instant, c: string)
    requires NoNewline(stamp) && NoNewline(todo.content) && NoNewline(todo.sourceFile) && NoNewline(todo.taskId)
    requires MatchTodo(todo.content) == Some(c)
    ensures MarkerItem(path, 23, c) in ScanText(path, GenerateTaskContent(stamp, todo, now))
  {
    TaskNoteLines(stamp, todo, now);
    var lines := Split(GenerateTaskContent(stamp, todo, now));
    assert lines[23] == todo.content;
    ScanFindsEveryMarker(path, lines, 23, c);
  }
}
