/**
 * The pure helpers behind task creation: sanitizeFileName
 * (gtd-manager.ts:311-317), the three date-time formatters
 * (gtd-manager.ts:319-345), the task path (gtd-manager.ts:223-224) and the
 * task note template (gtd-manager.ts:347-375).
 */
module Format {
  import opened Types
  import opened Text

  // ---------------------------------------------------------------------
  // sanitizeFileName

  /** The characters of the class `[<>:"/\\|?*]`. */
  predicate IsIllegalFileChar(c: char) {
    c in "<>:\"/\\|?*"
  }

  /** The characters JavaScript's `\s` matches. */
  predicate IsJsWhitespace(c: char) {
    || c == '\t' || c == '\n' || c == '\U{000B}' || c == '\U{000C}' || c == '\r' || c == ' '
    || c == '\U{00A0}' || c == '\U{1680}' || ('\U{2000}' <= c <= '\U{200A}')
    || c == '\U{2028}' || c == '\U{2029}' || c == '\U{202F}' || c == '\U{205F}'
    || c == '\U{3000}' || c == '\U{FEFF}'
  }

  /** `.replace(/[<>:"/\\|?*]/g, '')`. */
  function RemoveIllegal(s: string): (r: string)
    ensures |r| <= |s|
    ensures forall i :: 0 <= i < |r| ==> !IsIllegalFileChar(r[i]) && r[i] in s
  {
    if |s| == 0 then ""
    else
      var rest := RemoveIllegal(s[1..]);
      assert forall c :: c in s[1..] ==> c in s;
      if IsIllegalFileChar(s[0]) then rest else [s[0]] + rest
  }

  /** Drops the run of whitespace at the front of `s`. */
  function DropWhitespace(s: string): (r: string)
    ensures |r| <= |s| && s[|s| - |r|..] == r
    ensures |r| == 0 || !IsJsWhitespace(r[0])
  {
    if |s| > 0 && IsJsWhitespace(s[0]) then DropWhitespace(s[1..]) else s
  }

  /** `.replace(/\s+/g, '_')`: every maximal whitespace run becomes one underscore. */
  function CollapseWhitespace(s: string): (r: string)
    ensures forall i :: 0 <= i < |r| ==> !IsJsWhitespace(r[i]) && (r[i] == '_' || r[i] in s)
    decreases |s|
  {
    if |s| == 0 then ""
    else
      var rest := if IsJsWhitespace(s[0]) then DropWhitespace(s[1..]) else s[1..];
      var head := if IsJsWhitespace(s[0]) then "_" else [s[0]];
      var tail := CollapseWhitespace(rest);
      assert rest == s[|s| - |rest|..];
      assert forall i :: 0 <= i < |tail| ==> tail[i] == '_' || tail[i] in s by {
        forall i | 0 <= i < |tail|
          ensures tail[i] == '_' || tail[i] in s
        {
          if tail[i] != '_' {
            assert tail[i] in s[|s| - |rest|..];
          }
        }
      }
      head + tail
  }

  /**
   * `.substring(0, n)` measured in UTF-16 code units: the longest prefix
   * whose encoding has at most `n` units.
   */
  function TakeUnits(s: string, n: nat): (r: string)
    ensures IsPrefix(r, s) && Utf16Length(r) <= n
    ensures |r| < |s| ==> Utf16Length(r) + |CodeUnits(s[|r|])| > n
  {
    if |s| == 0 then ""
    else
      var width := |CodeUnits(s[0])|;
      if width <= n then
        var rest := TakeUnits(s[1..], n - width);
        assert ([s[0]] + rest)[1..] == rest;
        [s[0]] + rest
      else ""
  }

  /** A file-name fragment with no illegal character, no whitespace and at most 50 code units. */
  predicate IsCleanFileName(s: string) {
    && (forall i :: 0 <= i < |s| ==> !IsIllegalFileChar(s[i]) && !IsJsWhitespace(s[i]))
    && Utf16Length(s) <= 50
  }

  /** sanitizeFileName. */
  function SanitizeFileName(content: string): (r: string)
    ensures IsCleanFileName(r)
  {
    var collapsed := CollapseWhitespace(RemoveIllegal(content));
    var r := TakeUnits(collapsed, 50);
    assert forall i :: 0 <= i < |r| ==> r[i] == collapsed[i];
    r
  }

  lemma {:induction false} RemoveIllegalKeepsClean(s: string)
    requires forall i :: 0 <= i < |s| ==> !IsIllegalFileChar(s[i])
    ensures RemoveIllegal(s) == s
  {
    if |s| > 0 {
      RemoveIllegalKeepsClean(s[1..]);
      assert s == [s[0]] + s[1..];
    }
  }

  lemma {:induction false} CollapseKeepsClean(s: string)
    requires forall i :: 0 <= i < |s| ==> !IsJsWhitespace(s[i])
    ensures CollapseWhitespace(s) == s
    decreases |s|
  {
    if |s| > 0 {
      CollapseKeepsClean(s[1..]);
      assert s == [s[0]] + s[1..];
    }
  }

  /** The removal works character by character: it distributes over
      concatenation, and a single character is dropped exactly when it is
      one of `<>:"/\|?*`. So the result is the input's legal characters in
      their order. */
  lemma {:induction false} RemoveIllegalAppend(a: string, b: string)
    ensures RemoveIllegal(a + b) == RemoveIllegal(a) + RemoveIllegal(b)
    decreases |a|
  {
    if |a| > 0 {
      assert (a + b)[1..] == a[1..] + b;
      RemoveIllegalAppend(a[1..], b);
    } else {
      assert a + b == b;
    }
  }

  lemma RemoveIllegalChar(c: char)
    ensures RemoveIllegal([c]) == if IsIllegalFileChar(c) then "" else [c]
  {
    assert [c][1..] == "";
  }

  /** A character that is not whitespace is kept, in front of the collapsed rest. */
  lemma CollapseKeepsChar(c: char, t: string)
    requires !IsJsWhitespace(c)
    ensures CollapseWhitespace([c] + t) == [c] + CollapseWhitespace(t)
  {
    assert ([c] + t)[1..] == t;
  }

  /** Dropping a whitespace run stops at the first other character. */
  lemma {:induction false} DropWhitespaceRun(w: string, t: string)
    requires forall i :: 0 <= i < |w| ==> IsJsWhitespace(w[i])
    requires |t| == 0 || !IsJsWhitespace(t[0])
    ensures DropWhitespace(w + t) == t
    decreases |w|
  {
    if |w| > 0 {
      assert (w + t)[1..] == w[1..] + t;
      DropWhitespaceRun(w[1..], t);
    } else {
      assert w + t == t;
    }
  }

  /** A maximal whitespace run becomes exactly one underscore, in front of
      the collapsed rest. */
  lemma CollapseRun(w: string, t: string)
    requires |w| > 0 && forall i :: 0 <= i < |w| ==> IsJsWhitespace(w[i])
    requires |t| == 0 || !IsJsWhitespace(t[0])
    ensures CollapseWhitespace(w + t) == "_" + CollapseWhitespace(t)
  {
    assert (w + t)[0] == w[0];
    assert (w + t)[1..] == w[1..] + t;
    DropWhitespaceRun(w[1..], t);
  }

  lemma {:induction false} TakeUnitsKeepsShort(s: string, n: nat)
    requires Utf16Length(s) <= n
    ensures TakeUnits(s, n) == s
  {
    if |s| > 0 {
      TakeUnitsKeepsShort(s[1..], n - |CodeUnits(s[0])|);
      assert s == [s[0]] + s[1..];
    }
  }

  /** A clean fragment is its own sanitized form. */
  lemma SanitizeKeepsClean(s: string)
    requires IsCleanFileName(s)
    ensures SanitizeFileName(s) == s
  {
    RemoveIllegalKeepsClean(s);
    CollapseKeepsClean(s);
    TakeUnitsKeepsShort(s, 50);
  }

  /** Sanitizing twice is sanitizing once. */
  lemma SanitizeIdempotent(s: string)
    ensures SanitizeFileName(SanitizeFileName(s)) == SanitizeFileName(s)
  {
    SanitizeKeepsClean(SanitizeFileName(s));
  }

  // ---------------------------------------------------------------------
  // Date-time formatters over the Date getters

  /** `String(v).padStart(2, '0')`. */
  function Pad2(v: int): string
  {
    PadStart2(IntToString(v))
  }

  /** formatDateTime: `YYYYMMDDhhmm`, the id stamp of a task. */
  function FormatDateTime(t: Instant): (r: string)
    ensures NoNewline(r)
  {
    IntToStringNoNewline(t.year);
    Pad2NoNewline(t.month + 1);
    Pad2NoNewline(t.day);
    Pad2NoNewline(t.hours);
    Pad2NoNewline(t.minutes);
    IntToString(t.year) + Pad2(t.month + 1) + Pad2(t.day) + Pad2(t.hours) + Pad2(t.minutes)
  }

  /** formatDateTimeReadable: `YYYY-MM-DD hh:mm`. */
  function FormatDateTimeReadable(t: Instant): string
  {
    IntToString(t.year) + "-" + Pad2(t.month + 1) + "-" + Pad2(t.day) + " " + Pad2(t.hours) + ":" + Pad2(t.minutes)
  }

  /** formatDateTimeWithSeconds: `YYYY-MM-DD hh:mm:ss`. */
  function FormatDateTimeWithSeconds(t: Instant): string
  {
    IntToString(t.year) + "-" + Pad2(t.month + 1) + "-" + Pad2(t.day) + " " + Pad2(t.hours) + ":" + Pad2(t.minutes) + ":" + Pad2(t.seconds)
  }

  /** A real clock reading with a four-digit year. */
  predicate IsFourDigitYear(t: Instant) {
    ValidInstant(t) && 1000 <= t.year < 10000
  }

  /** Where the five fields of the id stamp sit in it. */
  lemma StampLayout(year: string, month: string, day: string, hours: string, minutes: string)
    requires |year| == 4 && |month| == 2 && |day| == 2 && |hours| == 2 && |minutes| == 2
    requires AllRadixDigits(year, 10) && AllRadixDigits(month, 10) && AllRadixDigits(day, 10)
    requires AllRadixDigits(hours, 10) && AllRadixDigits(minutes, 10)
    ensures var r := year + month + day + hours + minutes;
      && |r| == 12 && AllRadixDigits(r, 10)
      && r[..4] == year && r[4..6] == month && r[6..8] == day && r[8..10] == hours && r[10..12] == minutes
  {
    var r := year + month + day + hours + minutes;
    forall i | 0 <= i < |r|
      ensures IsRadixDigit(r[i], 10)
    {
      if i < 4 { assert r[i] == year[i]; }
      else if i < 6 { assert r[i] == month[i - 4]; }
      else if i < 8 { assert r[i] == day[i - 6]; }
      else if i < 10 { assert r[i] == hours[i - 8]; }
      else { assert r[i] == minutes[i - 10]; }
    }
  }

  /** Where the five fields of the readable form sit in it. */
  lemma ReadableLayout(year: string, month: string, day: string, hours: string, minutes: string)
    requires |year| == 4 && |month| == 2 && |day| == 2 && |hours| == 2 && |minutes| == 2
    ensures var r := year + "-" + month + "-" + day + " " + hours + ":" + minutes;
      && |r| == 16
      && r[4] == '-' && r[7] == '-' && r[10] == ' ' && r[13] == ':'
      && r[..4] == year && r[5..7] == month && r[8..10] == day && r[11..13] == hours && r[14..] == minutes
  {
  }

  /** The id stamp is twelve digits from which every field reads back. */
  lemma FormatDateTimeFields(t: Instant)
    requires IsFourDigitYear(t)
    ensures var r := FormatDateTime(t);
      && |r| == 12 && AllRadixDigits(r, 10)
      && FromRadix(r[..4], 10) == t.year
      && FromRadix(r[4..6], 10) == t.month + 1
      && FromRadix(r[6..8], 10) == t.day
      && FromRadix(r[8..10], 10) == t.hours
      && FromRadix(r[10..12], 10) == t.minutes
  {
    FourDigits(t.year);
    TwoDigits(t.month + 1);
    TwoDigits(t.day);
    TwoDigits(t.hours);
    TwoDigits(t.minutes);
    StampLayout(IntToString(t.year), Pad2(t.month + 1), Pad2(t.day), Pad2(t.hours), Pad2(t.minutes));
  }

  /** The readable form lays the same fields out with separators. */
  lemma FormatDateTimeReadableFields(t: Instant)
    requires IsFourDigitYear(t)
    ensures var r := FormatDateTimeReadable(t);
      && |r| == 16
      && r[4] == '-' && r[7] == '-' && r[10] == ' ' && r[13] == ':'
      && r[..4] + r[5..7] + r[8..10] + r[11..13] + r[14..] == FormatDateTime(t)
  {
    FourDigits(t.year);
    TwoDigits(t.month + 1);
    TwoDigits(t.day);
    TwoDigits(t.hours);
    TwoDigits(t.minutes);
    ReadableLayout(IntToString(t.year), Pad2(t.month + 1), Pad2(t.day), Pad2(t.hours), Pad2(t.minutes));
  }

  /** The form with seconds is the readable form followed by `:ss`. */
  lemma FormatDateTimeWithSecondsExtends(t: Instant)
    requires IsFourDigitYear(t)
    ensures var r := FormatDateTimeWithSeconds(t);
      && |r| == 19
      && r[..16] == FormatDateTimeReadable(t) && r[16] == ':'
      && AllRadixDigits(r[17..], 10) && FromRadix(r[17..], 10) == t.seconds
  {
    FormatDateTimeReadableFields(t);
    TwoDigits(t.seconds);
    var readable, seconds := FormatDateTimeReadable(t), Pad2(t.seconds);
    assert FormatDateTimeWithSeconds(t) == readable + ":" + seconds;
    assert (readable + ":" + seconds)[17..] == seconds;
  }

  // ---------------------------------------------------------------------
  // The task note

  /** `${gtdDirectory}/${taskId}_${sanitizeFileName(content)}.md`. */
  function TaskPath(gtdDirectory: string, stamp: string, content: string): string
  {
    gtdDirectory + "/" + stamp + "_" + SanitizeFileName(content) + ".md"
  }

  /** Every task note lies inside the GTD directory. */
  lemma TaskPathInDir(gtdDirectory: string, stamp: string, content: string)
    ensures IsPrefix(gtdDirectory + "/", TaskPath(gtdDirectory, stamp, content))
  {
    PathUnder(gtdDirectory, stamp + "_", SanitizeFileName(content));
  }

  /** `dir/middle` + `name` + `.md` starts with `dir/`. */
  lemma PathUnder(dir: string, middle: string, name: string)
    ensures IsPrefix(dir + "/", dir + "/" + middle + name + ".md")
  {
    var head := dir + "/";
    assert dir + "/" + middle + name + ".md" == head + (middle + name + ".md");
    assert (head + (middle + name + ".md"))[..|head|] == head;
  }

  /** `[[<sourceFile>]]`, the wiki link back to the note holding the marker. */
  function SourceFileLink(sourceFile: string): string
  {
    "[[" + sourceFile + "]]"
  }

  /**
   * The lines of the template literal, one per line, with the rendered
   * source line number and the two creation times already filled in.
   */
  function TemplateLines(stamp: string, todo: TodoItem, lineText: string, created: string, createdWithSeconds: string): seq<string>
  {
    var link := SourceFileLink(todo.sourceFile);
    [ "---",
      "ID: " + stamp,
      "created: " + created,
      "title: " + todo.content,
      "aliases: ",
      "deadline: ",
      "scheduled date: ",
      "project: ",
      "task kind: ",
      "task status: " + NOT_YET,
      "created_from: todo",
      "source_file: \"" + link + "\"",
      "source_line: " + lineText,
      "todo_id: " + todo.taskId,
      "---",
      "",
      "## 作成元",
      "このタスクは以下のファイルの#TODOから自動作成されました：",
      "- ファイル: " + link,
      "- 行番号: " + lineText,
      "- 作成日時: " + createdWithSeconds,
      "",
      "## タスク内容",
      todo.content,
      "" ]
  }

  /** generateTaskContent: the template, lines joined by line feeds, ending in one. */
  function GenerateTaskContent(stamp: string, todo: TodoItem, now: Instant): (r: string)
    ensures IsPrefix("---" + "\n" + ("ID: " + stamp) + "\n", r)
  {
    var lines := TemplateLines(stamp, todo, IntToString(todo.lineNumber),
      FormatDateTimeReadable(now), FormatDateTimeWithSeconds(now));
    TemplateLinesFields(stamp, todo, IntToString(todo.lineNumber), FormatDateTimeReadable(now), FormatDateTimeWithSeconds(now));
    JoinOpens(lines);
    Join(lines)
  }

  /** The text of three or more lines opens with the first two and their line feeds. */
  lemma JoinOpens(lines: seq<string>)
    requires |lines| >= 3
    ensures IsPrefix(lines[0] + "\n" + lines[1] + "\n", Join(lines))
  {
    var rest := Join(lines[2..]);
    assert lines[1..][1..] == lines[2..];
    assert Join(lines[1..]) == lines[1] + "\n" + rest;
    PrefixOfAppend(lines[0] + "\n" + lines[1] + "\n", rest);
  }

  lemma PrefixOfAppend(p: string, s: string)
    ensures IsPrefix(p, p + s)
  {
    assert (p + s)[..|p|] == p;
  }

  lemma IntToStringNoNewline(i: int)
    ensures NoNewline(IntToString(i))
  {
    var digits := ToRadix(if i < 0 then -i else i, 10);
    assert forall k :: 0 <= k < |digits| ==> IsRadixDigit(digits[k], 10);
    assert '\n' !in digits;
  }

  lemma Pad2NoNewline(v: int)
    ensures NoNewline(Pad2(v))
  {
    IntToStringNoNewline(v);
  }

  lemma FormattedNoNewline(t: Instant)
    ensures NoNewline(FormatDateTimeReadable(t)) && NoNewline(FormatDateTimeWithSeconds(t))
  {
    IntToStringNoNewline(t.year);
    Pad2NoNewline(t.month + 1);
    Pad2NoNewline(t.day);
    Pad2NoNewline(t.hours);
    Pad2NoNewline(t.minutes);
    Pad2NoNewline(t.seconds);
  }

  /** No line of the template holds a line feed when its inputs hold none. */
  lemma TemplateLinesNoNewline(stamp: string, todo: TodoItem, lineText: string, created: string, createdWithSeconds: string)
    requires NoNewline(stamp) && NoNewline(todo.content) && NoNewline(todo.sourceFile) && NoNewline(todo.taskId)
    requires NoNewline(lineText) && NoNewline(created) && NoNewline(createdWithSeconds)
    ensures NoNewlines(TemplateLines(stamp, todo, lineText, created, createdWithSeconds))
  {
    var lines := TemplateLines(stamp, todo, lineText, created, createdWithSeconds);
    forall i | 0 <= i < |lines|
      ensures NoNewline(lines[i])
    {
      if i < 12 {
        FrontMatterLineNoNewline(stamp, todo, lineText, created, createdWithSeconds, i);
      } else {
        BodyLineNoNewline(stamp, todo, lineText, created, createdWithSeconds, i);
      }
    }
  }

  lemma FrontMatterLineNoNewline(stamp: string, todo: TodoItem, lineText: string, created: string, createdWithSeconds: string, i: nat)
    requires NoNewline(stamp) && NoNewline(todo.content) && NoNewline(todo.sourceFile) && NoNewline(created)
    requires i < 12
    ensures NoNewline(TemplateLines(stamp, todo, lineText, created, createdWithSeconds)[i])
  {
    var lines := TemplateLines(stamp, todo, lineText, created, createdWithSeconds);
    var link := SourceFileLink(todo.sourceFile);
    assert NoNewline(link);
    if i == 1 { assert lines[i] == "ID: " + stamp; }
    else if i == 2 { assert lines[i] == "created: " + created; }
    else if i == 3 { assert lines[i] == "title: " + todo.content; }
    else if i == 11 { assert lines[i] == "source_file: \"" + link + "\""; }
    else { assert lines[i] in ["---", "aliases: ", "deadline: ", "scheduled date: ", "project: ", "task kind: ", "task status: " + NOT_YET, "created_from: todo"]; }
  }

  lemma BodyLineNoNewline(stamp: string, todo: TodoItem, lineText: string, created: string, createdWithSeconds: string, i: nat)
    requires NoNewline(todo.content) && NoNewline(todo.sourceFile) && NoNewline(todo.taskId)
    requires NoNewline(lineText) && NoNewline(createdWithSeconds)
    requires 12 <= i < 25
    ensures NoNewline(TemplateLines(stamp, todo, lineText, created, createdWithSeconds)[i])
  {
    var lines := TemplateLines(stamp, todo, lineText, created, createdWithSeconds);
    var link := SourceFileLink(todo.sourceFile);
    assert NoNewline(link);
    if i == 12 { assert lines[i] == "source_line: " + lineText; }
    else if i == 13 { assert lines[i] == "todo_id: " + todo.taskId; }
    else if i == 18 { assert lines[i] == "- ファイル: " + link; }
    else if i == 19 { assert lines[i] == "- 行番号: " + lineText; }
    else if i == 20 { assert lines[i] == "- 作成日時: " + createdWithSeconds; }
    else if i == 23 { assert lines[i] == todo.content; }
    else { assert lines[i] in ["---", "", "## 作成元", "このタスクは以下のファイルの#TODOから自動作成されました：", "## タスク内容"]; }
  }

  lemma TemplateLinesFields(stamp: string, todo: TodoItem, lineText: string, created: string, createdWithSeconds: string)
    ensures var lines := TemplateLines(stamp, todo, lineText, created, createdWithSeconds);
      && |lines| == 25
      && lines[0] == "---" && lines[14] == "---"
      && lines[1] == "ID: " + stamp
      && lines[3] == "title: " + todo.content
      && lines[9] == "task status: " + NOT_YET
      && lines[10] == "created_from: todo"
      && lines[11] == "source_file: \"[[" + todo.sourceFile + "]]\""
      && lines[12] == "source_line: " + lineText
      && lines[13] == "todo_id: " + todo.taskId
      && lines[23] == todo.content
  {
  }

  /**
   * Reading a generated task note back line by line: it opens and closes its
   * front matter with `---`, starts with status not_yet, and records the
   * marker's text, source file, source line and id, provided none of those
   * holds a line feed (marker text and ids never do).
   */
  lemma TaskContentFrontMatter(stamp: string, todo: TodoItem, now: Instant)
    requires NoNewline(stamp) && NoNewline(todo.content) && NoNewline(todo.sourceFile) && NoNewline(todo.taskId)
    ensures var lines := Split(GenerateTaskContent(stamp, todo, now));
      && |lines| == 25
      && lines[0] == "---" && lines[14] == "---"
      && lines[1] == "ID: " + stamp
      && lines[3] == "title: " + todo.content
      && lines[9] == "task status: " + NOT_YET
      && lines[10] == "created_from: todo"
      && lines[11] == "source_file: \"[[" + todo.sourceFile + "]]\""
      && lines[12] == "source_line: " + IntToString(todo.lineNumber)
      && lines[13] == "todo_id: " + todo.taskId
      && lines[23] == todo.content
  {
    var lineText := IntToString(todo.lineNumber);
    var created, createdWithSeconds := FormatDateTimeReadable(now), FormatDateTimeWithSeconds(now);
    var lines := TemplateLines(stamp, todo, lineText, created, createdWithSeconds);
    IntToStringNoNewline(todo.lineNumber);
    FormattedNoNewline(now);
    TemplateLinesNoNewline(stamp, todo, lineText, created, createdWithSeconds);
    SplitJoin(lines);
    TemplateLinesFields(stamp, todo, lineText, created, createdWithSeconds);
  }
}
