# obsidian-GTD: a verified model of the GTD manager

This project models the core of an Obsidian plugin for "Getting Things Done".
The model is written in Dafny. The core is the class `GTDManager`
(`gtd-manager.ts`) together with the data types and constants it uses
(`types.ts`). Its jobs are:

- find `- [ ] #TODO <text>` markers in the notes of a vault;
- create a task note under the GTD directory for every marker not yet known,
  and record the pair in a sync map keyed by a hash of the marker;
- tick the marker's checkbox off once its task note is marked done;
- delete task notes that are done or in the trash;
- move the scheduled date of overdue tasks to today.

The model keeps the source's own structure:

- `GTDManager` is a Dafny class with the source's fields: the settings and
  the sync map, a `map` that the methods reassign.
- The Obsidian host is a class `Host.App`. It holds the vault's notes as a
  map from path to text, the folders, and the front-matter cache. The date
  written by `processFrontMatter` is kept as a separate map. The host's
  operations may fail, as they may throw in the source.
- Every loop of the source is a method with a `while` loop. It is proved
  against a ghost predicate that describes the sweep so far, such as
  `CreateSweep`, `DeleteSweep` or `CheckboxSweep`.
- The pure helpers are Dafny functions with lemmas about them. These are the
  id hash, `sanitizeFileName`, the date formats, the task-note template and
  the marker scanner.

Modules, one per file:

| file | module | what |
|---|---|---|
| wrappers.dfy | Wrappers | `Option` |
| types.dfy | Types | settings, metadata, marker, sync entry, instants, the status and kind constants |
| text.dfy | Text | JavaScript string operations: `indexOf`, `includes`, `replace`, `split('\n')`, `join('\n')`, radix digits, UTF-16 code units |
| task_id.dfy | TaskId | `generateTaskId`: the 32-bit rolling hash and its base-36 rendering |
| host.dfy | Host | the Obsidian vault, front-matter cache and clock |
| markers.dfy | Markers | the marker regular expression, the scanner of `findTodoItems`, the checkbox rewrite |
| format.dfy | Format | `sanitizeFileName`, the three date formats, the task path and the task-note template |
| template_scan.dfy | TemplateScan | what the scanner finds in a generated task note |
| manager.dfy | Manager | the class `GTDManager` and the sweep predicates and lemmas |

## Model

| member | source | states |
|---|---|---|
| Types.StatusesDistinct | types.ts:66-72 | the five task statuses are pairwise different, and of them only `done` makes a note completed |
| Types.KindsDistinct | types.ts:75-82 | the six task kinds are pairwise different, and of them only `ごみ箱` (trash) makes a note trash |
| Types.DefaultSettingsShape | types.ts:50-63 | by default every directory is searched (`['']`), every automatic job is off, and every interval is positive |
| Types.EmptyMetadataIsNeither | gtd-manager.ts:278-284 | a note without front matter (`{}`) is neither completed nor trash |
| Text.IndexOf | gtd-manager.ts:264-265 | `indexOf` is -1 or the first position where the pattern occurs |
| Text.ReplaceFirstInPlace | gtd-manager.ts:265 | replacing the first occurrence by a pattern of equal length keeps the length and changes only that occurrence |
| Text.Split | gtd-manager.ts:198 | `split('\n')` yields at least one piece, and no piece holds a line feed |
| Text.JoinSplit | gtd-manager.ts:260-266 | joining the lines of a text gives the text back |
| Text.SplitJoin | gtd-manager.ts:260-266 | splitting a join of lines without line feeds gives the lines back |
| Text.EditLine | gtd-manager.ts:265-266 | after replacing one line by a line without a line feed and joining, the text splits into the edited lines |
| Text.ToRadix | gtd-manager.ts:308 | `toString(radix)` yields a non-empty string of radix digits with no leading zero |
| Text.FromToRadix | gtd-manager.ts:308 | reading the digits of `toString(radix)` back gives the number |
| Text.CodeUnits | gtd-manager.ts:303-304 | a character is one UTF-16 code unit below U+10000 and two above, each below 0x10000 |
| Text.CodeUnitsDecode | gtd-manager.ts:303-304 | the two code units of a surrogate pair decode back to the character |
| Text.Utf16 | gtd-manager.ts:303-304 | the UTF-16 form of a string has at least as many units as characters, each below 0x10000 |
| Text.Utf16LengthIsLength | gtd-manager.ts:303-304 | `str.length`, which bounds the hash loop and `substring`, is the number of code units that `charCodeAt` indexes |
| TaskId.ToInt32 | gtd-manager.ts:306 | `hash & hash` yields a 32-bit signed integer congruent to its input modulo 2^32 |
| TaskId.HashStepIsTimes31 | gtd-manager.ts:304-306 | one step `(hash << 5) - hash + char` is `31 * hash + char` wrapped to 32 bits |
| TaskId.HashIsPolynomial | gtd-manager.ts:301-306 | the hash of the key is the polynomial in 31 over its code units, wrapped to 32 bits |
| TaskId.TaskIdOf | gtd-manager.ts:299-309 | a marker id is a non-empty string of base-36 digits |
| TaskId.TaskIdDecodes | gtd-manager.ts:308 | the id reads back as the absolute hash, is at most 2^31, and has no leading zero |
| TaskId.GenerateTaskId | gtd-manager.ts:299-309 | the loop over the UTF-16 code units of `path:line:content` computes the id |
| Markers.MatchTodoIff | gtd-manager.ts:201 | a line matches `^- \[ \] #TODO (.+)$` exactly when it is the prefix followed by a non-empty capture without line terminators, and the capture is that text |
| Markers.ScanMarkers | gtd-manager.ts:203-214 | every reported item is a marker on its line, with that line's text, the note's path, the line number and the hash id |
| Markers.ScanBelow | gtd-manager.ts:203-214 | every reported line number is a line of the note |
| Markers.ScanOrdered | gtd-manager.ts:203-214 | items come in strictly increasing line order |
| Markers.ScanFindsEveryMarker | gtd-manager.ts:203-214 | every matching line is reported |
| Markers.ScanNone | gtd-manager.ts:203-214 | a note without a matching line yields no items |
| Markers.ScanTextItem | gtd-manager.ts:196-217 | an item of a note's text has that note as its source, names an existing line that reads `- [ ] #TODO ` plus its text, has a text without line feeds, and has the hash id of its path, line and text |
| Markers.CheckLineInPlace | gtd-manager.ts:264-265 | on a line containing `- [ ] #TODO`, the `replace` changes only the character inside the first occurrence of `- [ ]` (at `indexOf('- [ ]') + 3`) into `x` |
| Markers.CheckLine | gtd-manager.ts:265 | `replace('- [ ]', '- [x]')` keeps the line's length, and leaves a line without `- [ ]` as it is |
| Markers.CheckLineNoNewline | gtd-manager.ts:265 | checking off a line adds no line feed |
| Markers.CheckMarkerLine | gtd-manager.ts:264-265 | a marker line passes the `includes` test, becomes `- [x] #TODO <text>`, and is no longer a marker |
| Format.RemoveIllegal | gtd-manager.ts:314 | the result holds none of `<>:"/\|?*`, only characters of the input, and is no longer than the input |
| Format.RemoveIllegalAppend | gtd-manager.ts:314 | the removal distributes over concatenation, so each character is kept or dropped on its own and the kept ones stay in order |
| Format.RemoveIllegalChar | gtd-manager.ts:314 | a single character is dropped exactly when it is one of `<>:"/\|?*`, and kept otherwise |
| Format.CollapseWhitespace | gtd-manager.ts:315 | the result holds no whitespace, and only `_` and characters of the input |
| Format.CollapseKeepsChar | gtd-manager.ts:315 | a character that `\s` does not match is kept, in front of the collapsed rest |
| Format.CollapseRun | gtd-manager.ts:315 | a maximal run of whitespace becomes exactly one `_`, in front of the collapsed rest |
| Format.DropWhitespaceRun | gtd-manager.ts:315 | the `+` of `\s+` consumes the whole run of whitespace and stops at the first other character |
| Format.TakeUnits | gtd-manager.ts:316 | `substring(0, 50)` is the longest prefix of whole characters whose UTF-16 form has at most 50 code units |
| Format.SanitizeFileName | gtd-manager.ts:311-317 | the file-name fragment has no illegal character, no whitespace and at most 50 code units |
| Format.SanitizeKeepsClean | gtd-manager.ts:311-317 | a fragment that is already clean is left as it is |
| Format.SanitizeIdempotent | gtd-manager.ts:311-317 | sanitizing twice is sanitizing once |
| Format.FormatDateTime | gtd-manager.ts:319-326 | the id stamp holds no line feed, so the `ID:` line of a task note is one line |
| Format.FormatDateTimeFields | gtd-manager.ts:319-326 | for a four-digit year, the id stamp is twelve digits from which year, month, day, hours and minutes read back |
| Format.FormatDateTimeReadableFields | gtd-manager.ts:328-335 | the readable form is sixteen characters: the same fields as the stamp, with `-`, ` ` and `:` between them |
| Format.FormatDateTimeWithSecondsExtends | gtd-manager.ts:337-345 | the form with seconds is the readable form followed by `:` and two digits that read back as the seconds |
| Format.TaskPathInDir | gtd-manager.ts:222-224 | a task path lies under `gtdDirectory + '/'` |
| Format.GenerateTaskContent | gtd-manager.ts:347-351 | a task note opens with `---`, a line feed, `ID: ` and the stamp, and a line feed, whatever the marker holds |
| Format.TemplateLinesNoNewline | gtd-manager.ts:347-375 | no template line holds a line feed when the marker's text, path and id hold none |
| Format.TaskContentFrontMatter | gtd-manager.ts:347-375 | a generated task note has 25 lines: front matter between `---` lines, with id stamp, title, status `not_yet`, `created_from: todo`, source link, source line and marker id; the marker's text is on line 23 |
| TemplateScan.TaskNoteHasNoMarker | gtd-manager.ts:347-375 | a task note holds no marker unless the marker's own text is itself a marker line |
| TemplateScan.TaskNoteEchoesMarker | gtd-manager.ts:347-375 | a marker whose text is `- [ ] #TODO <c>` reappears with text `c` on line 23 of its task note |
| Manager.Filter | gtd-manager.ts:170-173 | `filter` keeps exactly the elements that pass the test, and never more elements than there were |
| Manager.FilterAppend | gtd-manager.ts:183-188 | filtering distributes over concatenation, so the relative order is kept |
| Manager.FilterKeepsAll | gtd-manager.ts:179-180 | a filter that keeps everything is the identity |
| Manager.FilterKeepsNone | gtd-manager.ts:179-180 | a filter that keeps nothing yields the empty list |
| Manager.FilterDistinct | gtd-manager.ts:170-173 | filtering a list without repeats gives a list without repeats |
| Manager.MarkdownFilesInScope | gtd-manager.ts:176-189 | the notes searched are exactly those under some search directory; `[]` means every note, not none, and `['']` agrees with the general rule |
| Manager.NewSyncEntry | gtd-manager.ts:236-243 | a new entry carries the marker's id, note and line, and its task note lies under the GTD directory |
| Manager.ScannedIsVaultMarker | gtd-manager.ts:196-217 | an item scanned from a note in scope is a vault marker, and its id is among the marker ids |
| Manager.ScannedTracked | gtd-manager.ts:115-119 | when every marker id of the scope is already in the map, every item scanned from a kept note is tracked, so the `has` guard skips it |
| Manager.CreatedNotesOnly | gtd-manager.ts:109-131 | the only new notes are the task notes of new entries; nothing created means the vault is unchanged |
| Manager.CreatedAreMarkers | gtd-manager.ts:113-124 | every id the sweep adds is the id of a marker of the old vault in scope |
| Manager.CreatedCount | gtd-manager.ts:113-127 | new ids are untracked marker ids; there are at most as many as untracked ids; all of them means every marker is tracked afterwards; none are created when every marker was already tracked |
| Manager.CreateSweepWithin | gtd-manager.ts:109-131 | the create sweep's count is bounded by the untracked marker ids, and, when none is untracked, no entry, note or folder changes, given that the folders were left alone in that case |
| Manager.NewNotesAddNoMarker | gtd-manager.ts:109-131 | task notes made for markers whose text is not a marker line bring no new marker id into scope |
| Manager.SecondRunCreatesNothing | gtd-manager.ts:109-131 | after a run that created every missing task, a second run creates nothing and changes no entry, note or folder |
| Manager.OnlyTargetStep | gtd-manager.ts:252-276 | one more line rewrite that keeps the line count keeps all other lines and notes as they were |
| Manager.CheckboxSweepDone | gtd-manager.ts:134-165 | at the end of the checkbox sweep, the removed entries are exactly the stale ones plus the rewritten ones; every rewritten one was done and pointed at a line that contained `- [ ] #TODO`; a line that only one rewritten entry points at now holds that line checked off; and no other line changed |
| Manager.RewritesCheckedStep | gtd-manager.ts:149-156 | checking off one more line that contains `- [ ] #TODO` keeps every rewritten entry's line a marker line of the original vault, and keeps each line of a lone rewritten entry checked off |
| Manager.OthersStayCheckedOff | gtd-manager.ts:264-266 | rewriting one line leaves the checked-off lines of the other rewritten entries as they were |
| Manager.CheckedOffElsewhere | gtd-manager.ts:264-266 | rewriting line `n` of a note leaves a checked-off line at any other place as it is |
| Manager.UnmarkedEntrySurvives | gtd-manager.ts:262-271 | a done entry whose line does not contain `- [ ] #TODO` is not counted and stays in the map, and its line is left as it was unless another rewritten entry points at it |
| Manager.RewriteChangesVault | gtd-manager.ts:264-266 | a sweep that rewrote an entry alone on its line changed the vault |
| Manager.ReconcileStep | gtd-manager.ts:137-161 | one entry of the checkbox sweep leaves the work list, is counted exactly when its rewrite succeeded, and a rewrite keeps the checked-off lines of the sweep |
| Manager.DeleteSweepStep | gtd-manager.ts:35-51 | deleting one more qualifying note, and retiring the entry found for it, extends the delete sweep |
| Manager.DeleteSweepBounds | gtd-manager.ts:30-55 | entries of notes that were not deleted survive unchanged; the count is at most the number of qualifying notes, with equality only when all were deleted; no qualifying note means no change |
| Manager.DeleteCoverStep | gtd-manager.ts:42-47 | after one more deletion, every entry of a deleted note still has a retired entry for that note |
| Manager.DeleteDistinctStep | gtd-manager.ts:42-47 | the `break` retires one entry per deleted note: no two retired entries share a task note |
| Manager.IsTaskOverdue | gtd-manager.ts:286-297 | a note without a scheduled date, or with an empty one, is never overdue; an overdue note's date lies before local midnight |
| Manager.UncachedNoteUntouched | gtd-manager.ts:191-194 | a note without cached front matter is neither done, nor trash, nor overdue, so none of the sweeps that read it (lines 36, 64 and 93) deletes or reschedules it |
| Manager.RescheduledNotOverdue | gtd-manager.ts:94-97 | the date `updateOverdueTasks` writes is not itself overdue while today is not in the past, which the source does not guarantee (see "Left out") |
| Manager.CreatedKeyedById | gtd-manager.ts:236-243 | the entries `createTasksFromTodos` adds are stored under their own `todoId`, as the old ones were |
| Manager.RemovedKeyedById | gtd-manager.ts:42-47 | removing entries, as every sweep does, keeps the remaining ones under their own `todoId` |
| Manager.TargetsStep | gtd-manager.ts:149-156 | rewriting one more entry adds exactly its note and line to the rewritten targets |
| Host.MetadataOf | gtd-manager.ts:191-194 | the parsed front matter of a note is its cache entry, and `{}` (`EMPTY_METADATA`) for a note without cached front matter |
| Host.App.Metadata | gtd-manager.ts:191-194 | the same, read from the app's metadata cache |
| Host.App.ListMarkdownFiles | gtd-manager.ts:169 | the listing holds every note exactly once |
| Host.App.Create | gtd-manager.ts:233 | creating succeeds only for a new path and then adds just that note |
| Host.App.Modify | gtd-manager.ts:266 | modifying succeeds only for an existing note and then changes just that note |
| Host.App.Delete | gtd-manager.ts:38 | deleting succeeds only for an existing note and then removes it and its cached metadata |
| Host.App.ProcessScheduledDate | gtd-manager.ts:95-97 | writing the scheduled date records it for that note alone |
| Host.App.Read | gtd-manager.ts:197 | reading yields the note's text, or fails; a missing note is never read |
| Host.App.Exists | gtd-manager.ts:227 | a path exists exactly when it is a note or a folder |
| Host.App.CreateFolder | gtd-manager.ts:228 | creating a folder adds at most that folder and changes no note |
| Host.App.Now | gtd-manager.ts:221 | the clock yields an instant whose local fields are in range |
| Manager.GTDManager.constructor | gtd-manager.ts:9-12 | a new manager has the given app and settings and an empty sync map |
| Manager.GTDManager.UpdateSettings | gtd-manager.ts:15-17 | the settings are replaced and the sync map is kept |
| Manager.GTDManager.LoadSyncData | gtd-manager.ts:20-22 | the sync map becomes the given data, so that a later `getSyncData` returns it |
| Manager.GTDManager.GetSyncData | gtd-manager.ts:25-27 | returns the sync map as it is |
| Manager.GTDManager.GetTaskFiles | gtd-manager.ts:168-174 | returns each note under the GTD directory, or the note at that path, exactly once |
| Manager.GTDManager.GetMarkdownFiles | gtd-manager.ts:176-189 | returns each note admitted by the search directories exactly once, in listing order |
| Manager.GTDManager.FindTodoItems | gtd-manager.ts:196-217 | returns the scan of the note's text, or nothing when the note cannot be read |
| Manager.GTDManager.CreateTaskFromTodo | gtd-manager.ts:219-250 | on success, exactly one new note, the generated task note at a fresh path under the GTD directory, and one entry keyed by the marker id; on failure, the notes and the map as they were; in both cases the recorded dates are unchanged and the folders gain at most the GTD directory, which exists (as a folder or a note) after a success |
| Manager.GTDManager.UpdateCheckboxInFile | gtd-manager.ts:252-276 | true only when the note and line exist, the line contains `- [ ] #TODO`, and the write succeeds; then only that line changes, to its checked form; otherwise the notes are unchanged; the folders and the recorded dates never change |
| Manager.GTDManager.RemoveEntryFor | gtd-manager.ts:42-47 | removes one entry whose task note is the given path, or none when no entry points there |
| Manager.GTDManager.DeleteIfQualifies | gtd-manager.ts:35-51 | one note of the delete sweep: deleted only when its metadata qualifies, and then at most one entry is retired; the folders and the recorded dates are unchanged |
| Manager.GTDManager.DeleteCompletedTasks | gtd-manager.ts:30-55 | the deleted notes are completed task notes, the settings are unchanged and the qualifying set is taken in the GTD directory as it was; the count is their number; the notes and the cached metadata lose exactly the deleted notes, and the map loses exactly one entry per deleted note that had any; the folders and the recorded dates are unchanged |
| Manager.GTDManager.DeleteTasksWhere | gtd-manager.ts:30-83 | the delete loop both sweeps share, for a test on a task note's metadata: the deleted notes qualify, the count is their number, and the map loses one entry per deleted note that had any; the folders and the recorded dates are unchanged |
| Manager.GTDManager.DeleteTasksAmong | gtd-manager.ts:34-52 | the loop over the listed task notes keeps the delete sweep, from nothing deleted to the count of deleted notes; the folders and the recorded dates are unchanged |
| Manager.GTDManager.DeleteTrashTasks | gtd-manager.ts:58-83 | the same, for task notes whose kind is trash: settings kept, notes and cached metadata lose exactly the deleted notes, folders and recorded dates unchanged |
| Manager.GTDManager.UpdateOverdueTasks | gtd-manager.ts:86-106 | the updated notes are overdue task notes, the count is their number, and each gets today's date; no note text changes in the model, since `processFrontMatter` is modelled only by the recorded date; the folders are unchanged |
| Manager.GTDManager.UpdateOverdueAmong | gtd-manager.ts:91-103 | the loop over the task notes records today's date for exactly the overdue notes it updated, and counts them; no note, cached metadata or folder changes |
| Manager.GTDManager.ReconcileEntry | gtd-manager.ts:137-161 | one entry: dropped when its task note is gone; when done and its line contained `- [ ] #TODO`, that line is checked off and the entry dropped and counted; otherwise kept with nothing changed; the folders and the recorded dates are unchanged |
| Manager.GTDManager.ReconcileInSweep | gtd-manager.ts:137-161 | one turn of the loop keeps the checkbox sweep, with the rewritten set growing by the entry exactly when it succeeded; the folders and the recorded dates are unchanged |
| Manager.GTDManager.ReconcileAll | gtd-manager.ts:137-161 | the loop over all entries establishes the checkbox sweep, including the checked-off lines, with the count equal to the rewritten entries; the folders and the recorded dates are unchanged |
| Manager.GTDManager.UpdateCheckboxesFromTasks | gtd-manager.ts:134-165 | the map loses exactly the stale entries and the rewritten ones; every rewritten one was done and its line contained `- [ ] #TODO`; a line only one rewritten entry points at is checked off; the count is their number; no other line changes; the folders and the recorded dates are unchanged |
| Manager.GTDManager.CreateTasksFor | gtd-manager.ts:116-124 | the markers of one note that are not yet tracked get task notes, extending the create sweep; the recorded dates are unchanged and the folders gain at most the GTD directory, and none when every item's id was tracked at the start |
| Manager.GTDManager.CreateTasksInNotes | gtd-manager.ts:113-127 | over the notes in scope: new entries for untracked markers only, new notes only for them, and a count within the untracked marker ids; zero with no entry, note or folder changed when every marker is tracked; the recorded dates are unchanged and the folders gain at most the GTD directory |
| Manager.GTDManager.CreateTasksInNote | gtd-manager.ts:113-127 | one note of the outer loop extends the create sweep, adding one id per task made; the recorded dates are unchanged and the folders gain at most the GTD directory, and none when every marker id was tracked at the start |
| Manager.GTDManager.CreateTasksInEach | gtd-manager.ts:113-127 | the outer loop over the notes in scope establishes the create sweep, with the count equal to the number of new ids; the recorded dates are unchanged and the folders gain at most the GTD directory, and none when every marker id was tracked at the start |
| Manager.GTDManager.CreateTasksFromTodos | gtd-manager.ts:109-131 | every created entry is a new-entry record for a marker in scope; the old entries and notes stay; the count is the number of new entries, at most the untracked marker ids, and zero with no entry, note or folder changed when every marker is tracked; the recorded dates are unchanged and the folders gain at most the GTD directory |

## Left out

- `main.ts` and `settings.ts` are not part of this model. They hold the plugin's start-up, its timers, its commands and the settings page.
- The source's `async` operations run here one after another. Errors that are caught and logged with `console.error` become a `false` result, or a skipped note, with the state the failing step left.
- `isTaskOverdue` parses the date and compares it with local midnight. The model takes that comparison as a parameter `isPast`. `new Date().toISOString()` for "today" is the parameter `today`, and the creation time `now.toISOString()` is the field `Instant.iso`. The clock is `App.Now`, which may return any valid instant.
- Front matter is abstract. The cache is a map from path to `TaskMetadata`, and the model makes no claim that writing front matter can be read back. The template writes the keys `task status`, `task kind` and `scheduled date`, while `isTaskCompleted`, `isTaskTrash` and `isTaskOverdue` read `taskStatus`, `taskKind` and `scheduledDate`. `updateOverdueTasks` likewise writes `scheduled date`. Whether Obsidian's cache maps one onto the other is outside the model. `processFrontMatter` is modelled only by the date it records, in `App.scheduledDates`.
- The front-matter cache is not refreshed after the plugin's own writes. A note created in a sweep has no cached metadata, which is how the source behaves until Obsidian re-indexes it.
- Manager.RescheduledNotOverdue: it holds only while `isPast(today)` is false, and the source does not ensure that. `today` is the UTC date of the clock (gtd-manager.ts:89), while `isTaskOverdue` compares `new Date(scheduledDate)`, which is midnight UTC of that date, with local midnight (gtd-manager.ts:290-293). West of UTC, midnight UTC of the local date lies before local midnight, so at UTC-5 the written date already counts as overdue from 00:00 to 19:00 local time. East of UTC the same happens while the UTC date is still yesterday's, from 00:00 to 09:00 local time at UTC+9. The next sweep then rewrites the date. The lemma covers only the case where today is not in the past, and the model does not tie `today` and `isPast` to the clock.
- Strings are sequences of Unicode scalar values, so lone UTF-16 surrogates cannot be represented.
- Format.TakeUnits: when a character outside the Basic Multilingual Plane straddles code unit 50, `substring(0, 50)` keeps its high surrogate alone, giving 50 units; the model drops the whole character and keeps 49, because a lone surrogate is not a Dafny character. Format.SanitizeFileName inherits this.
- Vault listings hold Markdown notes only. `getAbstractFileByPath(..) instanceof TFile` is modelled as "the path is a note of the vault".
- `adapter.exists` never fails in the model.
- Manager.CheckboxSweep: for a line that two or more rewritten entries point at, it states only that the line contained `- [ ] #TODO` at the start, not what it holds at the end. Each rewrite checks off the first box of the line as it then is, and the order of the entries is the host's.
- A JavaScript `Map` iterates in insertion order. `RemoveEntryFor` and the checkbox loop take the entries in any order, so "the first entry pointing at the note" becomes "some entry pointing at the note".
- `Object.entries` and `Object.fromEntries` in `loadSyncData` and `getSyncData` are taken as the identity on maps. Keys such as `__proto__` are not modelled.
- `sourceLine` comes from stored JSON and could be any number. The model takes it as an integer, so a fractional line is not modelled.
- Two markers handled within the same minute may get the same task path when their sanitized texts agree. The second `create` then fails, and `createTaskFromTodo` returns false. The model keeps that failure but does not predict when it happens.
- With the default scope `['']`, the task notes themselves are scanned for markers. A task note holds a marker only when the marker's own text starts with `- [ ] #TODO ` (`TemplateScan.TaskNoteEchoesMarker`). `Manager.SecondRunCreatesNothing` therefore assumes no such marker, and no line feed in a marker's note path.
- Types.DefaultSettingsShape: states that the intervals are positive, not their values (24 and 1 hours). The values only matter to the timers in `main.ts`.

