/**
 * GTDManager (gtd-manager.ts:4-376): the sync map from marker id to task
 * note, and the sweeps that reconcile `- [ ] #TODO` markers in the notes
 * with task notes in the GTD directory.
 */
module Manager {
  import opened Wrappers
  import opened Types
  import opened Text
  import opened TaskId
  import opened Markers
  import opened Format
  import opened Host
  import opened TemplateScan

  // ---------------------------------------------------------------------
  // Directory scopes (gtd-manager.ts:168-189)
  // ---------------------------------------------------------------------

  /** `path.startsWith(dir + '/') || path === dir`. */
  predicate InDir(path: string, dir: string) {
    path == dir || IsPrefix(dir + "/", path)
  }

  /** The `directories.some(...)` test: an empty entry admits every path. */
  predicate SomeDirAdmits(dirs: seq<string>, path: string) {
    exists i :: 0 <= i < |dirs| && (dirs[i] == "" || InDir(path, dirs[i]))
  }

  /** The early return of getMarkdownFiles: no directories, or the single empty one. */
  predicate SearchesEverything(dirs: seq<string>) {
    |dirs| == 0 || (|dirs| == 1 && dirs[0] == "")
  }

  /** A note getMarkdownFiles keeps for `dirs`. */
  predicate Admitted(dirs: seq<string>, path: string) {
    SearchesEverything(dirs) || SomeDirAdmits(dirs, path)
  }

  /** `paths.filter(keep)`. */
  function Filter(paths: seq<string>, keep: string -> bool): (r: seq<string>)
    ensures |r| <= |paths|
    ensures forall p :: p in r <==> p in paths && keep(p)
  {
    if |paths| == 0 then []
    else
      var last := paths[|paths| - 1];
      Filter(paths[..|paths| - 1], keep) + if keep(last) then [last] else []
  }

  /** Filtering a list with one more note at its end. */
  lemma FilterSnoc(s: seq<string>, x: string, keep: string -> bool)
    ensures Filter(s + [x], keep) == Filter(s, keep) + if keep(x) then [x] else []
  {
    assert (s + [x])[..|s|] == s;
  }

  /** Filtering keeps the relative order: it distributes over concatenation. */
  lemma {:induction false} FilterAppend(a: seq<string>, b: seq<string>, keep: string -> bool)
    ensures Filter(a + b, keep) == Filter(a, keep) + Filter(b, keep)
    decreases |b|
  {
    if |b| > 0 {
      var n := |b| - 1;
      var init, x := b[..n], b[n];
      assert b == init + [x];
      assert a + b == (a + init) + [x];
      FilterAppend(a, init, keep);
      FilterSnoc(a + init, x, keep);
      FilterSnoc(init, x, keep);
    } else {
      assert a + b == a;
    }
  }

  /** A filter that keeps everything is the identity. */
  lemma {:induction false} FilterKeepsAll(paths: seq<string>, keep: string -> bool)
    requires forall i :: 0 <= i < |paths| ==> keep(paths[i])
    ensures Filter(paths, keep) == paths
    decreases |paths|
  {
    if |paths| > 0 {
      var n := |paths| - 1;
      var init := paths[..n];
      FilterKeepsAll(init, keep);
      calc {
        Filter(paths, keep);
        Filter(init, keep) + [paths[n]];
        init + [paths[n]];
        paths;
      }
    }
  }

  /** A filter that keeps nothing yields the empty list. */
  lemma {:induction false} FilterKeepsNone(paths: seq<string>, keep: string -> bool)
    requires forall p :: p in paths ==> !keep(p)
    ensures Filter(paths, keep) == []
    decreases |paths|
  {
    if |paths| > 0 {
      FilterKeepsNone(paths[..|paths| - 1], keep);
    }
  }

  /** The kept notes of a list without repeats have no repeats. */
  lemma {:induction false} FilterDistinct(paths: seq<string>, keep: string -> bool)
    requires PairwiseDistinct(paths)
    ensures PairwiseDistinct(Filter(paths, keep))
    decreases |paths|
  {
    if |paths| > 0 {
      var n := |paths| - 1;
      assert PairwiseDistinct(paths[..n]) by {
        forall i, j | 0 <= i < j < n
          ensures paths[..n][i] != paths[..n][j]
        {
          assert paths[..n][i] == paths[i] && paths[..n][j] == paths[j];
        }
      }
      FilterDistinct(paths[..n], keep);
      assert paths[n] !in paths[..n] by {
        forall i | 0 <= i < n
          ensures paths[..n][i] != paths[n]
        {
          assert paths[..n][i] == paths[i];
        }
      }
    }
  }

  /** getTaskFiles: the notes at or below the GTD directory, in listing order. */
  function TaskFilesIn(all: seq<string>, gtdDirectory: string): seq<string>
  {
    Filter(all, p => InDir(p, gtdDirectory))
  }

  /** getMarkdownFiles: every note, or those at or below one of `dirs`, in listing order. */
  function MarkdownFilesIn(all: seq<string>, dirs: seq<string>): seq<string>
  {
    if SearchesEverything(dirs) then all else Filter(all, p => SomeDirAdmits(dirs, p))
  }

  /** The notes getMarkdownFiles keeps are exactly the admitted ones, in order;
      `['']` agrees with the general rule, while `[]` means every note rather
      than none. */
  lemma MarkdownFilesInScope(all: seq<string>, dirs: seq<string>)
    ensures forall p :: p in MarkdownFilesIn(all, dirs) <==> p in all && Admitted(dirs, p)
    ensures dirs == [] ==> MarkdownFilesIn(all, dirs) == all && Filter(all, p => SomeDirAdmits(dirs, p)) == []
    ensures dirs == [""] ==> MarkdownFilesIn(all, dirs) == Filter(all, p => SomeDirAdmits(dirs, p)) == all
    ensures !SearchesEverything(dirs) ==> MarkdownFilesIn(all, dirs) == Filter(all, p => SomeDirAdmits(dirs, p))
  {
    if dirs == [] {
      FilterKeepsNone(all, p => SomeDirAdmits(dirs, p));
    }
    if dirs == [""] {
      var keep := p => SomeDirAdmits(dirs, p);
      forall i | 0 <= i < |all|
        ensures keep(all[i])
      {
        assert dirs[0] == "";
      }
      FilterKeepsAll(all, keep);
    }
  }

  // ---------------------------------------------------------------------
  // Sync entries, markers in the vault, overdue tasks
  // ---------------------------------------------------------------------

  /** The entry createTaskFromTodo records for `todo`, made at `now` with GTD directory `dir`
      (gtd-manager.ts:221-242). */
  function NewSyncEntry(todo: TodoItem, dir: string, now: Instant): (e: TaskSyncData)
    ensures e.todoId == todo.taskId && e.sourceFile == todo.sourceFile && e.sourceLine == todo.lineNumber
    ensures IsPrefix(dir + "/", e.taskFile)
  {
    TaskPathInDir(dir, FormatDateTime(now), todo.content);
    TaskSyncData(todo.taskId, TaskPath(dir, FormatDateTime(now), todo.content), todo.sourceFile, todo.lineNumber, now.iso)
  }

  /** The text of the task note made for `todo` at `now`. */
  function TaskNote(todo: TodoItem, now: Instant): string
  {
    GenerateTaskContent(FormatDateTime(now), todo, now)
  }

  /** `item` is a marker findTodoItems reports for a note of `files` in the search scope `dirs`. */
  ghost predicate IsVaultMarker(files: map<string, string>, dirs: seq<string>, item: TodoItem) {
    && item.sourceFile in files
    && Admitted(dirs, item.sourceFile)
    && item in ScanText(item.sourceFile, files[item.sourceFile])
  }

  /** The ids of all markers in the search scope. */
  ghost function MarkerIds(files: map<string, string>, dirs: seq<string>): set<string>
  {
    set p, item | p in files && Admitted(dirs, p) && item in ScanText(p, files[p]) :: item.taskId
  }

  /** Every item scanned from a note in scope passes any test that every vault marker passes. */
  lemma ScannedAreMarkers(files: map<string, string>, dirs: seq<string>, isMarker: TodoItem -> bool,
                          path: string, items: seq<TodoItem>)
    requires path in files && Admitted(dirs, path) && items == ScanText(path, files[path])
    requires forall m :: IsVaultMarker(files, dirs, m) ==> isMarker(m)
    ensures forall item :: item in items ==> isMarker(item)
  {
    forall item | item in items
      ensures isMarker(item)
    {
      ScannedIsVaultMarker(files, dirs, path, item);
    }
  }

  /** The same for a note scanned after the sweep has added notes but kept the old ones. */
  lemma ScannedFromKeptNote(files0: map<string, string>, files: map<string, string>,
                            fileOf: map<string, string>, textOf: map<string, string>, dirs: seq<string>,
                            isMarker: TodoItem -> bool, path: string, items: seq<TodoItem>)
    requires NotesAdded(files0, files, fileOf, textOf)
    requires path in files0 && Admitted(dirs, path) && path in files && items == ScanText(path, files[path])
    requires forall m :: IsVaultMarker(files0, dirs, m) ==> isMarker(m)
    ensures forall item :: item in items ==> isMarker(item)
  {
    ScannedAreMarkers(files0, dirs, isMarker, path, items);
  }

  /** When every marker id of the scope is already in the map, so is the id of
      every item scanned from a note the sweep has kept. */
  lemma ScannedTracked(files0: map<string, string>, files: map<string, string>,
                       fileOf: map<string, string>, textOf: map<string, string>, dirs: seq<string>,
                       sync0: map<string, TaskSyncData>, path: string, items: seq<TodoItem>)
    requires NotesAdded(files0, files, fileOf, textOf)
    requires path in files0 && Admitted(dirs, path) && path in files && items == ScanText(path, files[path])
    requires MarkerIds(files0, dirs) <= sync0.Keys
    ensures forall item :: item in items ==> item.taskId in sync0
  {
    forall item | item in items
      ensures item.taskId in sync0
    {
      ScannedIsVaultMarker(files0, dirs, path, item);
    }
  }

  /** A marker reported for a note is a marker of the vault, and its id is among the marker ids. */
  lemma ScannedIsVaultMarker(files: map<string, string>, dirs: seq<string>, path: string, item: TodoItem)
    requires path in files && Admitted(dirs, path) && item in ScanText(path, files[path])
    ensures IsVaultMarker(files, dirs, item) && item.taskId in MarkerIds(files, dirs)
  {
    ScanTextItem(path, files[path], item);
  }

  /** From `files0` to `files` the notes are kept and one note is added per id
      of `fileOf`, at path `fileOf[k]` with text `textOf[k]`. */
  ghost predicate NotesAdded(files0: map<string, string>, files: map<string, string>,
                             fileOf: map<string, string>, textOf: map<string, string>) {
    && fileOf.Keys == textOf.Keys
    && (forall p :: p in files0 ==> p in files && files[p] == files0[p])
    && (forall k :: k in fileOf ==> fileOf[k] !in files0 && fileOf[k] in files && files[fileOf[k]] == textOf[k])
    && (forall p :: p in files && p !in files0 ==> exists k :: k in fileOf && fileOf[k] == p)
  }

  lemma NotesStep(files0: map<string, string>, files: map<string, string>,
                  fileOf: map<string, string>, textOf: map<string, string>, id: string, path: string, text: string)
    requires NotesAdded(files0, files, fileOf, textOf)
    requires id !in fileOf && path !in files
    ensures NotesAdded(files0, files[path := text], fileOf[id := path], textOf[id := text])
  {
    var files', fileOf' := files[path := text], fileOf[id := path];
    forall p | p in files' && p !in files0
      ensures exists k :: k in fileOf' && fileOf'[k] == p
    {
      if p == path {
        assert fileOf'[id] == p;
      } else {
        var k :| k in fileOf && fileOf[k] == p;
        assert fileOf'[k] == p;
      }
    }
  }

  /** The state of the create sweep: `origin` maps each id created so far to
      its marker (one for which `isMarker` holds), `times` to the clock reading
      of its creation, `fileOf` to its task note and `textOf` to that note's
      text. The map is the old one plus the entry `entryOf` gives for each
      created id, and the vault is the old one plus the note `noteOf` gives
      for each created id. The entry and note makers are parameters so that
      the step proofs need not look inside them. */
  ghost predicate CreateSweep(sync0: map<string, TaskSyncData>, files0: map<string, string>,
                              isMarker: TodoItem -> bool,
                              entryOf: (TodoItem, Instant) -> TaskSyncData, noteOf: (TodoItem, Instant) -> string,
                              origin: map<string, TodoItem>, times: map<string, Instant>,
                              fileOf: map<string, string>, textOf: map<string, string>,
                              syncData: map<string, TaskSyncData>, files: map<string, string>) {
    && SweepKeys(sync0, origin, times, fileOf, syncData)
    && (forall k :: k in origin ==> origin[k].taskId == k && isMarker(origin[k]))
    && SweepEntries(sync0, entryOf, origin, times, syncData)
    && NotesAdded(files0, files, fileOf, textOf)
    && SweepNotes(noteOf, origin, times, fileOf, textOf, syncData)
  }

  ghost predicate SweepKeys(sync0: map<string, TaskSyncData>, origin: map<string, TodoItem>, times: map<string, Instant>,
                            fileOf: map<string, string>, syncData: map<string, TaskSyncData>) {
    && origin.Keys == times.Keys == fileOf.Keys && origin.Keys !! sync0.Keys
    && syncData.Keys == sync0.Keys + origin.Keys
  }

  ghost predicate SweepEntries(sync0: map<string, TaskSyncData>, entryOf: (TodoItem, Instant) -> TaskSyncData,
                               origin: map<string, TodoItem>, times: map<string, Instant>, syncData: map<string, TaskSyncData>)
    requires origin.Keys <= times.Keys && sync0.Keys + origin.Keys <= syncData.Keys
  {
    && (forall k :: k in sync0 ==> syncData[k] == sync0[k])
    && (forall k :: k in origin ==> syncData[k] == entryOf(origin[k], times[k]))
  }

  ghost predicate SweepNotes(noteOf: (TodoItem, Instant) -> string, origin: map<string, TodoItem>, times: map<string, Instant>,
                             fileOf: map<string, string>, textOf: map<string, string>, syncData: map<string, TaskSyncData>)
  {
    forall k :: k in origin && k in times && k in fileOf && k in textOf && k in syncData ==>
      fileOf[k] == syncData[k].taskFile && textOf[k] == noteOf(origin[k], times[k])
  }

  lemma SweepKeysStep(sync0: map<string, TaskSyncData>, origin: map<string, TodoItem>, times: map<string, Instant>,
                      fileOf: map<string, string>, syncData: map<string, TaskSyncData>,
                      id: string, todo: TodoItem, now: Instant, path: string, e: TaskSyncData)
    requires SweepKeys(sync0, origin, times, fileOf, syncData) && id !in syncData
    ensures SweepKeys(sync0, origin[id := todo], times[id := now], fileOf[id := path], syncData[id := e])
  {
  }

  lemma SweepEntriesStep(sync0: map<string, TaskSyncData>, entryOf: (TodoItem, Instant) -> TaskSyncData,
                         origin: map<string, TodoItem>, times: map<string, Instant>, syncData: map<string, TaskSyncData>,
                         todo: TodoItem, now: Instant)
    requires origin.Keys == times.Keys && syncData.Keys == sync0.Keys + origin.Keys
    requires SweepEntries(sync0, entryOf, origin, times, syncData) && todo.taskId !in syncData
    ensures var id := todo.taskId;
      SweepEntries(sync0, entryOf, origin[id := todo], times[id := now], syncData[id := entryOf(todo, now)])
  {
  }

  lemma SweepNotesStep(noteOf: (TodoItem, Instant) -> string, origin: map<string, TodoItem>, times: map<string, Instant>,
                       fileOf: map<string, string>, textOf: map<string, string>, syncData: map<string, TaskSyncData>,
                       todo: TodoItem, now: Instant, e: TaskSyncData)
    requires SweepNotes(noteOf, origin, times, fileOf, textOf, syncData)
    ensures var id := todo.taskId;
      SweepNotes(noteOf, origin[id := todo], times[id := now], fileOf[id := e.taskFile], textOf[id := noteOf(todo, now)], syncData[id := e])
  {
  }

  /** Creating the task note of a marker whose id is not in the map extends the state by that id. */
  lemma CreateSweepStep(sync0: map<string, TaskSyncData>, files0: map<string, string>,
                        isMarker: TodoItem -> bool,
                        entryOf: (TodoItem, Instant) -> TaskSyncData, noteOf: (TodoItem, Instant) -> string,
                        origin: map<string, TodoItem>, times: map<string, Instant>,
                        fileOf: map<string, string>, textOf: map<string, string>,
                        syncData: map<string, TaskSyncData>, files: map<string, string>,
                        todo: TodoItem, now: Instant)
    requires CreateSweep(sync0, files0, isMarker, entryOf, noteOf, origin, times, fileOf, textOf, syncData, files)
    requires isMarker(todo) && todo.taskId !in syncData && entryOf(todo, now).taskFile !in files
    ensures var id, e, text := todo.taskId, entryOf(todo, now), noteOf(todo, now);
      CreateSweep(sync0, files0, isMarker, entryOf, noteOf, origin[id := todo], times[id := now],
                  fileOf[id := e.taskFile], textOf[id := text], syncData[id := e], files[e.taskFile := text])
  {
    var id, e, text := todo.taskId, entryOf(todo, now), noteOf(todo, now);
    SweepKeysStep(sync0, origin, times, fileOf, syncData, id, todo, now, e.taskFile, e);
    SweepEntriesStep(sync0, entryOf, origin, times, syncData, todo, now);
    NotesStep(files0, files, fileOf, textOf, id, e.taskFile, text);
    SweepNotesStep(noteOf, origin, times, fileOf, textOf, syncData, todo, now, e);
  }

  /** Each created id has a new note holding its text. */
  lemma CreatedNotesPresent(sync0: map<string, TaskSyncData>, files0: map<string, string>, noteOf: (TodoItem, Instant) -> string,
                            origin: map<string, TodoItem>, times: map<string, Instant>,
                            fileOf: map<string, string>, textOf: map<string, string>,
                            syncData: map<string, TaskSyncData>, files: map<string, string>)
    requires SweepKeys(sync0, origin, times, fileOf, syncData)
    requires NotesAdded(files0, files, fileOf, textOf)
    requires SweepNotes(noteOf, origin, times, fileOf, textOf, syncData)
    ensures forall k :: k in origin ==>
      var e := syncData[k];
      e.taskFile !in files0 && e.taskFile in files && files[e.taskFile] == noteOf(origin[k], times[k])
  {
    forall k | k in origin
      ensures var e := syncData[k];
        e.taskFile !in files0 && e.taskFile in files && files[e.taskFile] == noteOf(origin[k], times[k])
    {
      assert fileOf[k] == syncData[k].taskFile && textOf[k] == noteOf(origin[k], times[k]);
      assert k in fileOf;
    }
  }

  /** Every new note belongs to a created id; with none created, the vault is unchanged. */
  lemma CreatedNotesOnly(sync0: map<string, TaskSyncData>, files0: map<string, string>, noteOf: (TodoItem, Instant) -> string,
                         origin: map<string, TodoItem>, times: map<string, Instant>,
                         fileOf: map<string, string>, textOf: map<string, string>,
                         syncData: map<string, TaskSyncData>, files: map<string, string>)
    requires SweepKeys(sync0, origin, times, fileOf, syncData)
    requires NotesAdded(files0, files, fileOf, textOf)
    requires SweepNotes(noteOf, origin, times, fileOf, textOf, syncData)
    ensures forall p :: p in files && p !in files0 ==> exists k :: k in origin && syncData[k].taskFile == p
    ensures origin == map[] ==> files == files0
  {
    forall p | p in files && p !in files0
      ensures exists k :: k in origin && syncData[k].taskFile == p
    {
      var k :| k in fileOf && fileOf[k] == p;
      assert syncData[k].taskFile == p;
    }
    if origin == map[] {
      assert files.Keys == files0.Keys;
    }
  }

  /** Every created id is the id of a marker of the vault. */
  lemma CreatedAreMarkers(files0: map<string, string>, dirs: seq<string>, isMarker: TodoItem -> bool,
                          origin: map<string, TodoItem>)
    requires forall k :: k in origin ==> origin[k].taskId == k && isMarker(origin[k])
    requires forall m :: isMarker(m) ==> IsVaultMarker(files0, dirs, m)
    ensures forall k :: k in origin ==> IsVaultMarker(files0, dirs, origin[k])
    ensures origin.Keys <= MarkerIds(files0, dirs)
  {
    forall k | k in origin
      ensures k in MarkerIds(files0, dirs)
    {
      var item := origin[k];
      ScannedIsVaultMarker(files0, dirs, item.sourceFile, item);
    }
  }

  /** The entries the sweep adds are those of newSyncEntry. */
  lemma CreatedEntries(dir: string, entryOf: (TodoItem, Instant) -> TaskSyncData,
                       origin: map<string, TodoItem>, times: map<string, Instant>, syncData: map<string, TaskSyncData>)
    requires origin.Keys <= times.Keys && origin.Keys <= syncData.Keys
    requires forall k :: k in origin ==> syncData[k] == entryOf(origin[k], times[k])
    requires forall t, n :: entryOf(t, n) == NewSyncEntry(t, dir, n)
    ensures forall k :: k in origin ==> syncData[k] == NewSyncEntry(origin[k], dir, times[k])
  {
  }

  /** The count of the create sweep (one per created id) is at most the
      number of untracked ids of any set `markerIds` holding the created ids;
      it reaches it only when every id of `markerIds` is tracked, and when
      every one was tracked already the map is unchanged. */
  lemma CreatedCount(sync0: map<string, TaskSyncData>, markerIds: set<string>,
                     entryOf: (TodoItem, Instant) -> TaskSyncData,
                     origin: map<string, TodoItem>, times: map<string, Instant>,
                     fileOf: map<string, string>, syncData: map<string, TaskSyncData>)
    requires SweepKeys(sync0, origin, times, fileOf, syncData)
    requires SweepEntries(sync0, entryOf, origin, times, syncData)
    requires origin.Keys <= markerIds
    ensures origin.Keys <= markerIds - sync0.Keys
    ensures |origin.Keys| <= |markerIds - sync0.Keys|
    ensures |origin.Keys| == |markerIds - sync0.Keys| ==> markerIds <= syncData.Keys
    ensures markerIds <= sync0.Keys ==> origin == map[] && syncData == sync0
  {
    var untracked := markerIds - sync0.Keys;
    SubsetSameSize(origin.Keys, untracked);
    if markerIds <= sync0.Keys {
      assert origin.Keys == {};
      assert syncData.Keys == sync0.Keys;
    }
  }

  /** What createTasksFromTodos does to the map: every id it adds is the id of
      a marker in the search scope `dirs` of the old vault, was not in the map
      before, and gets the entry newSyncEntry makes for the marker and the
      moment its note was made; the old entries stay. */
  ghost predicate CreatedEntriesFrom(sync0: map<string, TaskSyncData>, files0: map<string, string>, dirs: seq<string>,
                                     dir: string, origin: map<string, TodoItem>, times: map<string, Instant>,
                                     syncData: map<string, TaskSyncData>) {
    && origin.Keys == times.Keys && origin.Keys !! sync0.Keys
    && (forall k :: k in origin ==> origin[k].taskId == k && IsVaultMarker(files0, dirs, origin[k]))
    && syncData.Keys == sync0.Keys + origin.Keys
    && (forall k :: k in sync0 ==> syncData[k] == sync0[k])
    && (forall k :: k in origin ==> syncData[k] == NewSyncEntry(origin[k], dir, times[k]))
  }

  /** The entries createTasksFromTodos adds are stored under their own id, as
      the old ones were. */
  lemma CreatedKeyedById(sync0: map<string, TaskSyncData>, files0: map<string, string>, dirs: seq<string>,
                         dir: string, origin: map<string, TodoItem>, times: map<string, Instant>,
                         syncData: map<string, TaskSyncData>)
    requires CreatedEntriesFrom(sync0, files0, dirs, dir, origin, times, syncData)
    requires KeyedById(sync0)
    ensures KeyedById(syncData)
  {
    forall k | k in syncData
      ensures syncData[k].todoId == k
    {
      if k in sync0 {
        assert syncData[k] == sync0[k];
      } else {
        assert k in origin && origin[k].taskId == k;
        assert syncData[k] == NewSyncEntry(origin[k], dir, times[k]);
      }
    }
  }

  /** Removing entries, as the delete and checkbox sweeps do, keeps every
      remaining entry under its own id. */
  lemma RemovedKeyedById(sync0: map<string, TaskSyncData>, gone: set<string>)
    requires KeyedById(sync0)
    ensures KeyedById(sync0 - gone)
  {
  }

  /** What createTasksFromTodos does to the vault: the old notes stay as they
      were, each added id has a new note at its entry's path holding the
      generated task note, and no other note appears. */
  ghost predicate CreatedNotesFrom(files0: map<string, string>, noteOf: (TodoItem, Instant) -> string,
                                   origin: map<string, TodoItem>, times: map<string, Instant>,
                                   syncData: map<string, TaskSyncData>, files: map<string, string>) {
    && origin.Keys <= times.Keys && origin.Keys <= syncData.Keys
    && (forall p :: p in files0 ==> p in files && files[p] == files0[p])
    && (forall k :: k in origin ==>
          var e := syncData[k];
          e.taskFile !in files0 && e.taskFile in files && files[e.taskFile] == noteOf(origin[k], times[k]))
    && (forall p :: p in files && p !in files0 ==> exists k :: k in origin && syncData[k].taskFile == p)
  }

  /** How many notes createTasksFromTodos makes: at most one per marker id of
      the scope not yet in the map, all of them only if afterwards every marker
      id is in the map, and none (with no entry, note or folder changed) when
      every marker id was already there. */
  ghost predicate CreatedWithinMarkers(sync0: map<string, TaskSyncData>, files0: map<string, string>, folders0: set<string>,
                                       dirs: seq<string>, origin: map<string, TodoItem>, syncData: map<string, TaskSyncData>,
                                       files: map<string, string>, folders: set<string>) {
    var untracked := MarkerIds(files0, dirs) - sync0.Keys;
    && |origin.Keys| <= |untracked|
    && (|origin.Keys| == |untracked| ==> MarkerIds(files0, dirs) <= syncData.Keys)
    && (MarkerIds(files0, dirs) <= sync0.Keys ==> origin == map[] && syncData == sync0 && files == files0 && folders == folders0)
  }

  /** The map the create sweep ends with, for the marker test and entry maker of the source. */
  lemma CreateSweepEntries(sync0: map<string, TaskSyncData>, files0: map<string, string>, dirs: seq<string>, dir: string,
                           isMarker: TodoItem -> bool, entryOf: (TodoItem, Instant) -> TaskSyncData,
                           origin: map<string, TodoItem>, times: map<string, Instant>,
                           fileOf: map<string, string>, syncData: map<string, TaskSyncData>)
    requires SweepKeys(sync0, origin, times, fileOf, syncData)
    requires forall k :: k in origin ==> origin[k].taskId == k && isMarker(origin[k])
    requires SweepEntries(sync0, entryOf, origin, times, syncData)
    requires forall m :: IsVaultMarker(files0, dirs, m) <==> isMarker(m)
    requires forall t, n :: entryOf(t, n) == NewSyncEntry(t, dir, n)
    ensures CreatedEntriesFrom(sync0, files0, dirs, dir, origin, times, syncData)
  {
    CreatedAreMarkers(files0, dirs, isMarker, origin);
    CreatedEntries(dir, entryOf, origin, times, syncData);
  }

  /** The vault the create sweep ends with. */
  lemma CreateSweepNotes(sync0: map<string, TaskSyncData>, files0: map<string, string>,
                         isMarker: TodoItem -> bool, entryOf: (TodoItem, Instant) -> TaskSyncData,
                         noteOf: (TodoItem, Instant) -> string,
                         origin: map<string, TodoItem>, times: map<string, Instant>,
                         fileOf: map<string, string>, textOf: map<string, string>,
                         syncData: map<string, TaskSyncData>, files: map<string, string>)
    requires CreateSweep(sync0, files0, isMarker, entryOf, noteOf, origin, times, fileOf, textOf, syncData, files)
    ensures CreatedNotesFrom(files0, noteOf, origin, times, syncData, files)
  {
    CreatedNotesPresent(sync0, files0, noteOf, origin, times, fileOf, textOf, syncData, files);
    CreatedNotesOnly(sync0, files0, noteOf, origin, times, fileOf, textOf, syncData, files);
  }

  /** The count of the create sweep against the marker ids of the scope; the
      folders are those of a sweep that left them alone when no id was untracked. */
  lemma CreateSweepWithin(sync0: map<string, TaskSyncData>, files0: map<string, string>, folders0: set<string>, dirs: seq<string>,
                          isMarker: TodoItem -> bool, entryOf: (TodoItem, Instant) -> TaskSyncData,
                          noteOf: (TodoItem, Instant) -> string,
                          origin: map<string, TodoItem>, times: map<string, Instant>,
                          fileOf: map<string, string>, textOf: map<string, string>,
                          syncData: map<string, TaskSyncData>, files: map<string, string>, folders: set<string>)
    requires CreateSweep(sync0, files0, isMarker, entryOf, noteOf, origin, times, fileOf, textOf, syncData, files)
    requires forall m :: IsVaultMarker(files0, dirs, m) <==> isMarker(m)
    requires MarkerIds(files0, dirs) <= sync0.Keys ==> folders == folders0
    ensures CreatedWithinMarkers(sync0, files0, folders0, dirs, origin, syncData, files, folders)
  {
    CreatedAreMarkers(files0, dirs, isMarker, origin);
    CreatedNotesOnly(sync0, files0, noteOf, origin, times, fileOf, textOf, syncData, files);
    CreatedCount(sync0, MarkerIds(files0, dirs), entryOf, origin, times, fileOf, syncData);
  }

  /** The task notes a create sweep adds bring no marker id into the scope,
      as long as no marker's own text is itself a marker line and no marker's
      note path holds a line feed. */
  lemma NewNotesAddNoMarker(sync0: map<string, TaskSyncData>, files0: map<string, string>, dirs: seq<string>, dir: string,
                            origin: map<string, TodoItem>, times: map<string, Instant>,
                            syncData: map<string, TaskSyncData>, files: map<string, string>)
    requires CreatedEntriesFrom(sync0, files0, dirs, dir, origin, times, syncData)
    requires CreatedNotesFrom(files0, TaskNote, origin, times, syncData, files)
    requires forall k :: k in origin ==> NoNewline(origin[k].sourceFile) && MatchTodo(origin[k].content).None?
    ensures MarkerIds(files, dirs) <= MarkerIds(files0, dirs)
  {
    forall q | q in files && q !in files0
      ensures ScanText(q, files[q]) == []
    {
      var k :| k in origin && syncData[k].taskFile == q;
      NewNoteEmpty(files0, dirs, origin[k], times[k], q);
    }
    AddedEmptyNotes(files0, files, dirs);
  }

  /** Notes added to the vault without any marker leave the marker ids of the scope as they were or fewer. */
  lemma AddedEmptyNotes(files0: map<string, string>, files: map<string, string>, dirs: seq<string>)
    requires forall p :: p in files0 ==> p in files && files[p] == files0[p]
    requires forall q :: q in files && q !in files0 ==> ScanText(q, files[q]) == []
    ensures MarkerIds(files, dirs) <= MarkerIds(files0, dirs)
  {
    forall id | id in MarkerIds(files, dirs)
      ensures id in MarkerIds(files0, dirs)
    {
      var p, item :| p in files && Admitted(dirs, p) && item in ScanText(p, files[p]) && item.taskId == id;
      ScannedIsVaultMarker(files0, dirs, p, item);
    }
  }

  /** The task note made for a vault marker whose text is not a marker line holds no marker. */
  lemma NewNoteEmpty(files0: map<string, string>, dirs: seq<string>, t: TodoItem, now: Instant, p: string)
    requires IsVaultMarker(files0, dirs, t)
    requires NoNewline(t.sourceFile) && MatchTodo(t.content).None?
    ensures ScanText(p, TaskNote(t, now)) == []
  {
    ScanTextItem(t.sourceFile, files0[t.sourceFile], t);
    RadixNoNewline(t.taskId);
    TaskNoteHasNoMarker(p, FormatDateTime(now), t, now);
  }

  /** Running createTasksFromTodos again on the vault a fully successful run
      left behind creates nothing and changes no entry, note or folder, when the task notes it
      made hold no marker (see NewNotesAddNoMarker). */
  lemma SecondRunCreatesNothing(sync0: map<string, TaskSyncData>, files0: map<string, string>, folders0: set<string>,
                                dirs: seq<string>, dir: string,
                                origin1: map<string, TodoItem>, times1: map<string, Instant>,
                                sync1: map<string, TaskSyncData>, files1: map<string, string>, folders1: set<string>,
                                origin2: map<string, TodoItem>, sync2: map<string, TaskSyncData>, files2: map<string, string>,
                                folders2: set<string>)
    requires CreatedEntriesFrom(sync0, files0, dirs, dir, origin1, times1, sync1)
    requires CreatedNotesFrom(files0, TaskNote, origin1, times1, sync1, files1)
    requires CreatedWithinMarkers(sync0, files0, folders0, dirs, origin1, sync1, files1, folders1)
    requires |origin1.Keys| == |MarkerIds(files0, dirs) - sync0.Keys|
    requires forall k :: k in origin1 ==> NoNewline(origin1[k].sourceFile) && MatchTodo(origin1[k].content).None?
    requires CreatedWithinMarkers(sync1, files1, folders1, dirs, origin2, sync2, files2, folders2)
    ensures origin2 == map[] && sync2 == sync1 && files2 == files1 && folders2 == folders1
  {
    NewNotesAddNoMarker(sync0, files0, dirs, dir, origin1, times1, sync1, files1);
  }

  /** isTaskOverdue (gtd-manager.ts:286-297), with the date comparison against
      local midnight a parameter: no date, or the empty one, is never overdue. */
  predicate IsTaskOverdue(metadata: TaskMetadata, isPast: string -> bool): (r: bool)
    ensures metadata.scheduledDate.None? || metadata.scheduledDate == Some("") ==> !r
    ensures r ==> metadata.scheduledDate.Some? && isPast(metadata.scheduledDate.value)
  {
    metadata.scheduledDate.Some? && metadata.scheduledDate.value != "" && isPast(metadata.scheduledDate.value)
  }

  /** A note whose scheduled date is `today` is not overdue while `today` is
      not before local midnight: the date updateOverdueTasks writes is not
      itself overdue. */
  lemma RescheduledNotOverdue(metadata: TaskMetadata, today: string, isPast: string -> bool)
    requires !isPast(today)
    ensures !IsTaskOverdue(metadata.(scheduledDate := Some(today)), isPast)
  {
  }

  /** A note the metadata cache has no front matter for is taken by none of
      the sweeps: it is neither done, nor trash, nor overdue. */
  lemma UncachedNoteUntouched(metadata: map<string, TaskMetadata>, path: string, isPast: string -> bool)
    requires path !in metadata
    ensures !IsTaskCompleted(MetadataOf(metadata, path)) && !IsTaskTrash(MetadataOf(metadata, path))
    ensures !IsTaskOverdue(MetadataOf(metadata, path), isPast)
  {
    EmptyMetadataIsNeither();
  }

  /** In a walk over distinct paths, the current path is none of those already handled. */
  lemma NotYetVisited(paths: seq<string>, i: nat, visited: set<string>)
    requires PairwiseDistinct(paths) && i < |paths|
    requires forall p :: p in visited ==> p in paths[..i]
    ensures paths[i] !in visited
  {
    forall j | 0 <= j < i
      ensures paths[..i][j] != paths[i]
    {
      assert paths[..i][j] == paths[j];
    }
  }

  /** Handling `paths[i]` keeps the handled paths within the prefix walked. */
  lemma VisitStep(paths: seq<string>, i: nat, visited: set<string>, next: set<string>)
    requires i < |paths|
    requires forall p :: p in visited ==> p in paths[..i]
    requires next <= visited + {paths[i]}
    ensures forall p :: p in next ==> p in paths[..i + 1]
  {
    assert paths[..i + 1] == paths[..i] + [paths[i]];
  }

  /** The task notes whose metadata qualifies for a sweep. */
  ghost function Qualifying(files: map<string, string>, metadata: map<string, TaskMetadata>, dir: string,
                            qualifies: TaskMetadata -> bool): set<string>
  {
    set p | p in files && InDir(p, dir) && qualifies(MetadataOf(metadata, p))
  }

  /** The entries whose task note is gone. */
  ghost function StaleIds(syncData: map<string, TaskSyncData>, files: map<string, string>): set<string>
  {
    set k | k in syncData && syncData[k].taskFile !in files
  }

  /** The entries whose task note is there and done. */
  ghost function CompletedIds(syncData: map<string, TaskSyncData>, files: map<string, string>,
                              metadata: map<string, TaskMetadata>): set<string>
  {
    set k | k in syncData && syncData[k].taskFile in files && IsTaskCompleted(MetadataOf(metadata, syncData[k].taskFile))
  }

  /** The (note, line) pairs the given entries point at. */
  ghost function Targets(syncData: map<string, TaskSyncData>, ids: set<string>): set<(string, int)>
    requires ids <= syncData.Keys
  {
    set k | k in ids :: (syncData[k].sourceFile, syncData[k].sourceLine)
  }

  /** From `before` to `after` the same notes exist, each keeps its number of
      lines, lines other than `targets` are unchanged, and notes without a
      target are unchanged altogether. */
  ghost predicate OnlyTargetLinesChanged(before: map<string, string>, after: map<string, string>, targets: set<(string, int)>) {
    && after.Keys == before.Keys
    && (forall p :: p in before ==>
         && |Split(after[p])| == |Split(before[p])|
         && forall j :: 0 <= j < |Split(before[p])| && (p, j) !in targets ==> Split(after[p])[j] == Split(before[p])[j])
    && (forall p :: p in before && p !in (set t | t in targets :: t.0) ==> after[p] == before[p])
  }

  /** One more line rewrite keeps the notes within the grown target set. */
  lemma OnlyTargetStep(before: map<string, string>, mid: map<string, string>, targets: set<(string, int)>,
                       path: string, n: int, line: string, text: string)
    requires OnlyTargetLinesChanged(before, mid, targets)
    requires path in mid && 0 <= n < |Split(mid[path])|
    requires Split(text) == Split(mid[path])[n := line]
    ensures OnlyTargetLinesChanged(before, mid[path := text], targets + {(path, n)})
  {
    var after := mid[path := text];
    var grown := targets + {(path, n)};
    assert (path, n).0 == path;
    forall p | p in before && p !in (set t | t in grown :: t.0)
      ensures after[p] == before[p]
    {
      assert p != path;
    }
    forall p | p in before
      ensures |Split(after[p])| == |Split(before[p])|
      ensures forall j :: 0 <= j < |Split(before[p])| && (p, j) !in grown ==> Split(after[p])[j] == Split(before[p])[j]
    {
      if p == path {
        assert Split(after[p]) == Split(mid[p])[n := line];
        forall j | 0 <= j < |Split(before[p])| && (p, j) !in grown
          ensures Split(after[p])[j] == Split(before[p])[j]
        {
          assert j != n && (p, j) !in targets;
        }
      } else {
        assert after[p] == mid[p];
      }
    }
  }

  /** The state of the checkbox sweep once the ids outside `keys` are handled:
      `dropped` are the handled entries that are stale or were checked off, and
      only the target lines of `rewritten` have changed. */
  ghost predicate CheckboxSweep(sync0: map<string, TaskSyncData>, files0: map<string, string>, meta0: map<string, TaskMetadata>,
                                keys: set<string>, rewritten: set<string>, dropped: set<string>,
                                syncData: map<string, TaskSyncData>, files: map<string, string>) {
    && keys <= sync0.Keys && rewritten <= sync0.Keys && rewritten !! keys
    && rewritten <= CompletedIds(sync0, files0, meta0)
    && (forall k :: k in dropped <==> k in sync0 && k !in keys && (sync0[k].taskFile !in files0 || k in rewritten))
    && syncData == sync0 - dropped
    && OnlyTargetLinesChanged(files0, files, Targets(sync0, rewritten))
    && RewritesChecked(sync0, files0, files, rewritten)
  }

  /** The (note, line) pair entry `k` points at. */
  ghost function TargetOf(sync0: map<string, TaskSyncData>, k: string): (string, int)
    requires k in sync0
  {
    (sync0[k].sourceFile, sync0[k].sourceLine)
  }

  /** Line `t` exists in `files` and contains `- [ ] #TODO`. */
  ghost predicate HeldMarker(files: map<string, string>, t: (string, int)) {
    t.0 in files && 0 <= t.1 < |Split(files[t.0])| && Includes(Split(files[t.0])[t.1], UNCHECKED_TODO)
  }

  /** Line `t` held `- [ ] #TODO` in `files0` and holds its checked-off form in `files`. */
  ghost predicate CheckedOff(files0: map<string, string>, files: map<string, string>, t: (string, int)) {
    && HeldMarker(files0, t)
    && t.0 in files && |Split(files[t.0])| == |Split(files0[t.0])|
    && Split(files[t.0])[t.1] == CheckLine(Split(files0[t.0])[t.1])
  }

  /** No other entry of `rewritten` points at the line of `k`. */
  ghost predicate SoleTarget(sync0: map<string, TaskSyncData>, rewritten: set<string>, k: string)
    requires rewritten <= sync0.Keys && k in sync0
  {
    forall l :: l in rewritten && l != k ==> TargetOf(sync0, l) != TargetOf(sync0, k)
  }

  /** Every rewritten entry pointed at a line that contained `- [ ] #TODO` at
      the start of the sweep, and a line that only one rewritten entry points
      at now holds that line checked off. */
  ghost predicate RewritesChecked(sync0: map<string, TaskSyncData>, files0: map<string, string>,
                                  files: map<string, string>, rewritten: set<string>) {
    && rewritten <= sync0.Keys
    && (forall k :: k in rewritten ==> HeldMarker(files0, TargetOf(sync0, k)))
    && (forall k :: k in rewritten && SoleTarget(sync0, rewritten, k) ==> CheckedOff(files0, files, TargetOf(sync0, k)))
  }

  /** Checking off one more line that contains `- [ ] #TODO` keeps RewritesChecked. */
  lemma RewritesCheckedStep(sync0: map<string, TaskSyncData>, files0: map<string, string>, files: map<string, string>,
                            rewritten: set<string>, id: string, text: string)
    requires RewritesChecked(sync0, files0, files, rewritten)
    requires OnlyTargetLinesChanged(files0, files, Targets(sync0, rewritten))
    requires id in sync0 && id !in rewritten
    requires var e := sync0[id];
      && e.sourceFile in files && 0 <= e.sourceLine < |Split(files[e.sourceFile])|
      && Includes(Split(files[e.sourceFile])[e.sourceLine], UNCHECKED_TODO)
      && Split(text) == Split(files[e.sourceFile])[e.sourceLine := CheckLine(Split(files[e.sourceFile])[e.sourceLine])]
    ensures RewritesChecked(sync0, files0, files[sync0[id].sourceFile := text], rewritten + {id})
  {
    var t := TargetOf(sync0, id);
    var p, n := t.0, t.1;
    var cur := Split(files[p]);
    var after := files[p := text];
    var grown := rewritten + {id};
    var targets := Targets(sync0, rewritten);
    assert p in files0;
    if t !in targets {
      assert cur[n] == Split(files0[p])[n];
    } else {
      var l :| l in rewritten && (sync0[l].sourceFile, sync0[l].sourceLine) == t;
      assert TargetOf(sync0, l) == t;
    }
    assert HeldMarker(files0, t);
    if SoleTarget(sync0, grown, id) {
      assert cur[n] == Split(files0[p])[n];
      assert Split(after[p]) == cur[n := CheckLine(cur[n])];
    }
    OthersStayCheckedOff(sync0, files0, files, rewritten, id, CheckLine(cur[n]), text);
  }

  /** Rewriting the line of `id` leaves the checked-off lines of the other
      rewritten entries that are alone on their line as they were. */
  lemma OthersStayCheckedOff(sync0: map<string, TaskSyncData>, files0: map<string, string>, files: map<string, string>,
                             rewritten: set<string>, id: string, line: string, text: string)
    requires RewritesChecked(sync0, files0, files, rewritten)
    requires id in sync0 && id !in rewritten
    requires var e := sync0[id];
      && e.sourceFile in files && 0 <= e.sourceLine < |Split(files[e.sourceFile])|
      && Split(text) == Split(files[e.sourceFile])[e.sourceLine := line]
    ensures forall k :: k in rewritten && SoleTarget(sync0, rewritten + {id}, k) ==>
      CheckedOff(files0, files[sync0[id].sourceFile := text], TargetOf(sync0, k))
  {
    var t := TargetOf(sync0, id);
    forall k | k in rewritten && SoleTarget(sync0, rewritten + {id}, k)
      ensures CheckedOff(files0, files[t.0 := text], TargetOf(sync0, k))
    {
      assert SoleTarget(sync0, rewritten, k);
      CheckedOffElsewhere(files0, files, TargetOf(sync0, k), t.0, t.1, line, text);
    }
  }

  /** Rewriting line `n` of note `p` leaves a checked-off line elsewhere as it is. */
  lemma CheckedOffElsewhere(files0: map<string, string>, files: map<string, string>, tk: (string, int),
                            p: string, n: int, line: string, text: string)
    requires CheckedOff(files0, files, tk) && tk != (p, n)
    requires p in files && 0 <= n < |Split(files[p])| && Split(text) == Split(files[p])[n := line]
    ensures CheckedOff(files0, files[p := text], tk)
  {
    if tk.0 == p {
      assert Split(text)[tk.1] == Split(files[p])[tk.1];
    }
  }

  /** An entry whose task note is gone is dropped. */
  lemma CheckboxSweepStale(sync0: map<string, TaskSyncData>, files0: map<string, string>, meta0: map<string, TaskMetadata>,
                           keys: set<string>, rewritten: set<string>, dropped: set<string>,
                           syncData: map<string, TaskSyncData>, files: map<string, string>, id: string)
    requires CheckboxSweep(sync0, files0, meta0, keys, rewritten, dropped, syncData, files)
    requires id in keys && sync0[id].taskFile !in files
    ensures CheckboxSweep(sync0, files0, meta0, keys - {id}, rewritten, dropped + {id}, syncData - {id}, files)
  {
    MapMinusStep(sync0, dropped, id);
  }

  /** An entry whose task is not done, or whose rewrite failed, stays. */
  lemma CheckboxSweepKeep(sync0: map<string, TaskSyncData>, files0: map<string, string>, meta0: map<string, TaskMetadata>,
                          keys: set<string>, rewritten: set<string>, dropped: set<string>,
                          syncData: map<string, TaskSyncData>, files: map<string, string>, id: string)
    requires CheckboxSweep(sync0, files0, meta0, keys, rewritten, dropped, syncData, files)
    requires id in keys && sync0[id].taskFile in files
    ensures CheckboxSweep(sync0, files0, meta0, keys - {id}, rewritten, dropped, syncData, files)
  {
  }

  /** A done entry whose marker was checked off is dropped, and its line joins the targets. */
  lemma CheckboxSweepRewrite(sync0: map<string, TaskSyncData>, files0: map<string, string>, meta0: map<string, TaskMetadata>,
                             keys: set<string>, rewritten: set<string>, dropped: set<string>,
                             syncData: map<string, TaskSyncData>, files: map<string, string>, id: string, text: string)
    requires CheckboxSweep(sync0, files0, meta0, keys, rewritten, dropped, syncData, files)
    requires id in keys && sync0[id].taskFile in files
    requires IsTaskCompleted(MetadataOf(meta0, sync0[id].taskFile))
    requires var e := sync0[id];
      && e.sourceFile in files && 0 <= e.sourceLine < |Split(files[e.sourceFile])|
      && Includes(Split(files[e.sourceFile])[e.sourceLine], UNCHECKED_TODO)
      && Split(text) == Split(files[e.sourceFile])[e.sourceLine := CheckLine(Split(files[e.sourceFile])[e.sourceLine])]
    ensures CheckboxSweep(sync0, files0, meta0, keys - {id}, rewritten + {id}, dropped + {id}, syncData - {id},
                          files[sync0[id].sourceFile := text])
  {
    var e := sync0[id];
    RewritesCheckedStep(sync0, files0, files, rewritten, id, text);
    OnlyTargetStep(files0, files, Targets(sync0, rewritten), e.sourceFile, e.sourceLine,
                   CheckLine(Split(files[e.sourceFile])[e.sourceLine]), text);
    TargetsStep(sync0, rewritten, id);
    CheckboxRetire(sync0, files0, meta0, keys, rewritten, dropped, syncData, id);
  }

  /** The bookkeeping half of a rewrite: the id moves from `keys` to `rewritten` and `dropped`. */
  lemma CheckboxRetire(sync0: map<string, TaskSyncData>, files0: map<string, string>, meta0: map<string, TaskMetadata>,
                       keys: set<string>, rewritten: set<string>, dropped: set<string>,
                       syncData: map<string, TaskSyncData>, id: string)
    requires keys <= sync0.Keys && rewritten <= sync0.Keys && rewritten !! keys
    requires rewritten <= CompletedIds(sync0, files0, meta0)
    requires forall k :: k in dropped <==> k in sync0 && k !in keys && (sync0[k].taskFile !in files0 || k in rewritten)
    requires syncData == sync0 - dropped
    requires id in keys && sync0[id].taskFile in files0 && IsTaskCompleted(MetadataOf(meta0, sync0[id].taskFile))
    ensures rewritten + {id} <= CompletedIds(sync0, files0, meta0) && rewritten + {id} !! keys - {id}
    ensures forall k :: k in dropped + {id} <==> k in sync0 && k !in keys - {id} && (sync0[k].taskFile !in files0 || k in rewritten + {id})
    ensures syncData - {id} == sync0 - (dropped + {id})
  {
    MapMinusStep(sync0, dropped, id);
  }

  /** One entry of the checkbox sweep, given what reconcileEntry did to it:
      the entry leaves `keys`, and joins the rewritten ids exactly when it succeeded. */
  lemma ReconcileStep(sync0: map<string, TaskSyncData>, files0: map<string, string>, meta0: map<string, TaskMetadata>,
                      keys: set<string>, rewritten0: set<string>, dropped0: set<string>,
                      syncData: map<string, TaskSyncData>, files: map<string, string>, id: string,
                      success: bool, syncAfter: map<string, TaskSyncData>, filesAfter: map<string, string>)
    returns (rewritten: set<string>, dropped: set<string>)
    requires id in keys
    requires CheckboxSweep(sync0, files0, meta0, keys, rewritten0, dropped0, syncData, files)
    requires var e := syncData[id];
      e.taskFile !in files ==> !success && filesAfter == files && syncAfter == syncData - {id}
    requires var e := syncData[id];
      e.taskFile in files && !success ==> filesAfter == files && syncAfter == syncData
    requires var e := syncData[id];
      success ==>
        && e.taskFile in files && IsTaskCompleted(MetadataOf(meta0, e.taskFile))
        && syncAfter == syncData - {id}
        && e.sourceFile in files
        && var lines := Split(files[e.sourceFile]);
        && 0 <= e.sourceLine < |lines|
        && Includes(lines[e.sourceLine], UNCHECKED_TODO)
        && e.sourceFile in filesAfter
        && filesAfter == files[e.sourceFile := filesAfter[e.sourceFile]]
        && Split(filesAfter[e.sourceFile]) == lines[e.sourceLine := CheckLine(lines[e.sourceLine])]
    ensures rewritten == if success then rewritten0 + {id} else rewritten0
    ensures |rewritten| == if success then |rewritten0| + 1 else |rewritten0|
    ensures CheckboxSweep(sync0, files0, meta0, keys - {id}, rewritten, dropped, syncAfter, filesAfter)
  {
    assert id !in rewritten0;
    assert id in syncData && syncData[id] == sync0[id];
    var e := syncData[id];
    rewritten := rewritten0;
    if e.taskFile !in files {
      CheckboxSweepStale(sync0, files0, meta0, keys, rewritten0, dropped0, syncData, files, id);
      dropped := dropped0 + {id};
    } else if success {
      CheckboxSweepRewrite(sync0, files0, meta0, keys, rewritten0, dropped0, syncData, files, id, filesAfter[e.sourceFile]);
      rewritten := rewritten0 + {id};
      AddFresh(rewritten0, id);
      dropped := dropped0 + {id};
    } else {
      CheckboxSweepKeep(sync0, files0, meta0, keys, rewritten0, dropped0, syncData, files, id);
      dropped := dropped0;
    }
  }

  /** With every id handled, the dropped entries are the stale ones and the rewritten ones. */
  lemma CheckboxSweepDone(sync0: map<string, TaskSyncData>, files0: map<string, string>, meta0: map<string, TaskMetadata>,
                          rewritten: set<string>, dropped: set<string>,
                          syncData: map<string, TaskSyncData>, files: map<string, string>)
    requires CheckboxSweep(sync0, files0, meta0, {}, rewritten, dropped, syncData, files)
    ensures rewritten <= CompletedIds(sync0, files0, meta0)
    ensures syncData == sync0 - (StaleIds(sync0, files0) + rewritten)
    ensures OnlyTargetLinesChanged(files0, files, Targets(sync0, rewritten))
    ensures RewritesChecked(sync0, files0, files, rewritten)
  {
    assert dropped == StaleIds(sync0, files0) + rewritten;
  }

  /** A done entry whose line no longer contains `- [ ] #TODO` (the user
      edited it) survives the checkbox sweep, and so does its line when no
      rewritten entry points at it. */
  lemma UnmarkedEntrySurvives(sync0: map<string, TaskSyncData>, files0: map<string, string>, meta0: map<string, TaskMetadata>,
                              rewritten: set<string>, dropped: set<string>,
                              syncData: map<string, TaskSyncData>, files: map<string, string>, k: string)
    requires CheckboxSweep(sync0, files0, meta0, {}, rewritten, dropped, syncData, files)
    requires k in sync0 && sync0[k].taskFile in files0
    requires !HeldMarker(files0, TargetOf(sync0, k))
    ensures k !in rewritten && k in syncData && syncData[k] == sync0[k]
    ensures var t := TargetOf(sync0, k);
      t.0 in files0 && 0 <= t.1 < |Split(files0[t.0])| && t !in Targets(sync0, rewritten) ==>
        Split(files[t.0])[t.1] == Split(files0[t.0])[t.1]
  {
    assert k !in dropped;
  }

  /** Checking off a line that contains `- [ ] #TODO` changes it, so a sweep
      that rewrote an entry alone on its line changed the vault. */
  lemma RewriteChangesVault(sync0: map<string, TaskSyncData>, files0: map<string, string>, files: map<string, string>,
                            rewritten: set<string>, k: string)
    requires RewritesChecked(sync0, files0, files, rewritten)
    requires k in rewritten && SoleTarget(sync0, rewritten, k)
    ensures files != files0
  {
    var t := TargetOf(sync0, k);
    var line := Split(files0[t.0])[t.1];
    CheckLineInPlace(line);
    var i := IndexOf(line, UNCHECKED_BOX);
    assert line[i + 3] == ' ' by {
      assert line[i..i + 5] == UNCHECKED_BOX;
      assert line[i..i + 5][3] == line[i + 3];
    }
    assert CheckLine(line)[i + 3] == 'x';
  }

  lemma TargetsStep(syncData: map<string, TaskSyncData>, ids: set<string>, id: string)
    requires ids <= syncData.Keys && id in syncData
    ensures Targets(syncData, ids + {id}) == Targets(syncData, ids) + {(syncData[id].sourceFile, syncData[id].sourceLine)}
  {
  }

  /** The state of a delete sweep over the qualifying task notes `q`: the
      notes `deleted` so far are gone from the vault and the cache, and the
      entries `retired` are gone from the map, one per deleted note that had
      any, each pointing at a deleted note. */
  ghost predicate DeleteSweep(q: set<string>, files0: map<string, string>, meta0: map<string, TaskMetadata>,
                              sync0: map<string, TaskSyncData>, deleted: set<string>, retired: set<string>,
                              files: map<string, string>, metadata: map<string, TaskMetadata>,
                              syncData: map<string, TaskSyncData>) {
    && deleted <= q
    && files == files0 - deleted && metadata == meta0 - deleted
    && retired <= sync0.Keys && syncData == sync0 - retired
    && (forall k :: k in retired ==> sync0[k].taskFile in deleted)
    && (forall k, l :: k in retired && l in retired && sync0[k].taskFile == sync0[l].taskFile ==> k == l)
    && (forall k :: k in sync0 && sync0[k].taskFile in deleted ==>
          exists l :: l in retired && sync0[l].taskFile == sync0[k].taskFile)
  }

  /** Deleting one more qualifying note, and retiring the entry found for it if any, extends the sweep. */
  lemma DeleteSweepStep(q: set<string>, files0: map<string, string>, meta0: map<string, TaskMetadata>,
                        sync0: map<string, TaskSyncData>, deleted: set<string>, retired: set<string>,
                        file: string, removed: Option<string>)
    requires DeleteSweep(q, files0, meta0, sync0, deleted, retired, files0 - deleted, meta0 - deleted, sync0 - retired)
    requires file in q && file !in deleted
    requires removed.None? ==> forall k :: k in sync0 - retired ==> (sync0 - retired)[k].taskFile != file
    requires removed.Some? ==> removed.value in sync0 - retired && sync0[removed.value].taskFile == file
    ensures var retired' := if removed.Some? then retired + {removed.value} else retired;
      DeleteSweep(q, files0, meta0, sync0, deleted + {file}, retired',
                  files0 - (deleted + {file}), meta0 - (deleted + {file}), sync0 - retired')
  {
    var deleted' := deleted + {file};
    var retired' := if removed.Some? then retired + {removed.value} else retired;
    assert retired' <= sync0.Keys;
    assert forall k :: k in retired' ==> sync0[k].taskFile in deleted';
    DeleteCoverStep(sync0, deleted, retired, file, removed);
    DeleteDistinctStep(sync0, deleted, retired, file, removed);
  }

  /** After one more deletion, every entry of a deleted note still has a
      retired entry for that note. */
  lemma DeleteCoverStep(sync0: map<string, TaskSyncData>, deleted: set<string>, retired: set<string>,
                        file: string, removed: Option<string>)
    requires retired <= sync0.Keys && file !in deleted
    requires forall k :: k in retired ==> sync0[k].taskFile in deleted
    requires forall k :: k in sync0 && sync0[k].taskFile in deleted ==>
               exists l :: l in retired && sync0[l].taskFile == sync0[k].taskFile
    requires removed.None? ==> forall k :: k in sync0 - retired ==> (sync0 - retired)[k].taskFile != file
    requires removed.Some? ==> removed.value in sync0 && sync0[removed.value].taskFile == file
    ensures var retired' := if removed.Some? then retired + {removed.value} else retired;
      forall k :: k in sync0 && sync0[k].taskFile in deleted + {file} ==>
        exists l :: l in retired' && sync0[l].taskFile == sync0[k].taskFile
  {
    var retired' := if removed.Some? then retired + {removed.value} else retired;
    forall k | k in sync0 && removed.None?
      ensures sync0[k].taskFile != file
    {
      if k in retired {
        assert sync0[k].taskFile in deleted;
      } else {
        assert k in sync0 - retired;
      }
    }
    forall k | k in sync0 && sync0[k].taskFile in deleted + {file}
      ensures exists l :: l in retired' && sync0[l].taskFile == sync0[k].taskFile
    {
      if sync0[k].taskFile != file {
        var l :| l in retired && sync0[l].taskFile == sync0[k].taskFile;
        assert l in retired';
      } else if removed.Some? {
        assert removed.value in retired';
      }
    }
  }

  /** After one more deletion, no two retired entries share a task note. */
  lemma DeleteDistinctStep(sync0: map<string, TaskSyncData>, deleted: set<string>, retired: set<string>,
                           file: string, removed: Option<string>)
    requires retired <= sync0.Keys && file !in deleted
    requires forall k :: k in retired ==> sync0[k].taskFile in deleted
    requires forall k, l :: k in retired && l in retired && sync0[k].taskFile == sync0[l].taskFile ==> k == l
    requires removed.Some? ==> removed.value in sync0 && sync0[removed.value].taskFile == file
    ensures var retired' := if removed.Some? then retired + {removed.value} else retired;
      forall k, l :: k in retired' && l in retired' && sync0[k].taskFile == sync0[l].taskFile ==> k == l
  {
    var retired' := if removed.Some? then retired + {removed.value} else retired;
    forall k, l | k in retired' && l in retired' && sync0[k].taskFile == sync0[l].taskFile
      ensures k == l
    {
      assert k in retired ==> sync0[k].taskFile in deleted;
      assert l in retired ==> sync0[l].taskFile in deleted;
    }
  }

  /** Removing keys one at a time is removing them all at once. */
  lemma MapMinusStep<K, V>(m: map<K, V>, r: set<K>, k: K)
    ensures (m - r) - {k} == m - (r + {k})
  {
  }

  /** What a delete sweep's outcome implies: entries of surviving notes stay,
      the count is bounded by the qualifying notes and reaches it only when all
      of them went, and with nothing qualifying nothing changes. */
  lemma DeleteSweepBounds(q: set<string>, deleted: set<string>, retired: set<string>, count: nat,
                          files0: map<string, string>, files1: map<string, string>,
                          sync0: map<string, TaskSyncData>, sync1: map<string, TaskSyncData>)
    requires deleted <= q && count == |deleted| && files1 == files0 - deleted
    requires retired <= sync0.Keys && sync1 == sync0 - retired
    requires forall k :: k in retired ==> sync0[k].taskFile in deleted
    ensures forall k :: k in sync0 && sync0[k].taskFile !in deleted ==> k in sync1 && sync1[k] == sync0[k]
    ensures count <= |q| && (count == |q| ==> deleted == q)
    ensures q == {} ==> count == 0 && files1 == files0 && sync1 == sync0
  {
    SubsetSameSize(deleted, q);
    if q == {} {
      assert retired == {};
    }
  }

  /** Writing one more note's date extends the map of written dates by that note. */
  lemma StampStep(dates: map<string, string>, written: set<string>, path: string, date: string)
    ensures (dates + map p | p in written :: date)[path := date] == dates + map p | p in written + {path} :: date
  {
  }

  /** Adding a new element grows a set by one. */
  lemma AddFresh<T>(s: set<T>, x: T)
    requires x !in s
    ensures |s + {x}| == |s| + 1
  {
  }

  /** A subset as large as its superset is the superset. */
  lemma SubsetSameSize<T>(a: set<T>, b: set<T>)
    requires a <= b
    ensures |a| <= |b|
    ensures |a| == |b| ==> a == b
  {
    if |a| == |b| && a != b {
      var x :| x in b && x !in a;
      assert a <= b - {x};
      SubsetSmaller(a, b - {x});
    } else {
      SubsetSmaller(a, b);
    }
  }

  lemma {:induction false} SubsetSmaller<T>(a: set<T>, b: set<T>)
    requires a <= b
    ensures |a| <= |b|
    decreases |b|
  {
    if b != {} {
      var x :| x in b;
      SubsetSmaller(a - {x}, b - {x});
    }
  }

  // ---------------------------------------------------------------------
  // The manager
  // ---------------------------------------------------------------------

  class GTDManager {
    const app: App
    var settings: GTDSettings
    /** Marker id to sync entry (gtd-manager.ts:7). */
    var syncData: map<string, TaskSyncData>

    constructor(app: App, settings: GTDSettings)
      ensures this.app == app && this.settings == settings && syncData == map[]
    {
      this.app := app;
      this.settings := settings;
      syncData := map[];
    }

    /** updateSettings (gtd-manager.ts:15-17). */
    method UpdateSettings(settings: GTDSettings)
      modifies this
      ensures this.settings == settings && syncData == old(syncData)
    {
      this.settings := settings;
    }

    /** loadSyncData (gtd-manager.ts:20-22): the persisted record replaces the map. */
    method LoadSyncData(data: map<string, TaskSyncData>)
      modifies this
      ensures syncData == data && settings == old(settings)
    {
      syncData := data;
    }

    /** getSyncData (gtd-manager.ts:25-27): a snapshot for persisting, which
        loadSyncData turns back into the same map. */
    method GetSyncData() returns (data: map<string, TaskSyncData>)
      ensures data == syncData
    {
      data := syncData;
    }

    /** getTaskFiles (gtd-manager.ts:168-174). */
    method GetTaskFiles() returns (files: seq<string>, ghost listing: seq<string>)
      ensures PairwiseDistinct(listing) && forall p :: p in listing <==> p in app.files
      ensures files == TaskFilesIn(listing, settings.gtdDirectory)
      ensures PairwiseDistinct(files)
      ensures forall p :: p in files <==> p in app.files && InDir(p, settings.gtdDirectory)
    {
      var all := app.ListMarkdownFiles();
      listing := all;
      var dir := settings.gtdDirectory;
      files := Filter(all, p => InDir(p, dir));
      FilterDistinct(all, p => InDir(p, dir));
    }

    /** getMarkdownFiles (gtd-manager.ts:176-189). */
    method GetMarkdownFiles(directories: seq<string>) returns (files: seq<string>, ghost listing: seq<string>)
      ensures PairwiseDistinct(listing) && forall p :: p in listing <==> p in app.files
      ensures files == MarkdownFilesIn(listing, directories)
      ensures PairwiseDistinct(files)
      ensures forall p :: p in files <==> p in app.files && Admitted(directories, p)
    {
      var all := app.ListMarkdownFiles();
      listing := all;
      MarkdownFilesInScope(all, directories);
      if SearchesEverything(directories) {
        return all, listing;
      }
      files := Filter(all, p => SomeDirAdmits(directories, p));
      FilterDistinct(all, p => SomeDirAdmits(directories, p));
    }

    /** findTodoItems (gtd-manager.ts:196-217): the markers of a note, in line
        order; None when the note cannot be read. */
    method FindTodoItems(path: string) returns (r: Option<seq<TodoItem>>)
      ensures r.Some? ==> path in app.files && r.value == ScanText(path, app.files[path])
      ensures path !in app.files ==> r.None?
    {
      var content := app.Read(path);
      if content.None? {
        return None;
      }
      var lines := Split(content.value);
      var items: seq<TodoItem> := [];
      var i := 0;
      while i < |lines|
        invariant 0 <= i <= |lines|
        invariant items == Scan(path, lines[..i])
      {
        ScanStep(path, lines, i);
        var m := MatchTodo(lines[i]);
        if m.Some? {
          var taskId := GenerateTaskId(path, i, m.value);
          items := items + [TodoItem(m.value, path, i, taskId)];
        }
        i := i + 1;
      }
      assert lines[..i] == lines;
      return Some(items);
    }

    /** createTaskFromTodo (gtd-manager.ts:219-250): a new task note under the
        GTD directory and an entry keyed by the marker's id; on any host failure
        false, with the notes and the map as they were. The GTD directory may
        have been created even when the note then could not be. */
    method CreateTaskFromTodo(todo: TodoItem) returns (success: bool, ghost now: Instant)
      modifies this, app
      ensures settings == old(settings) && app.metadata == old(app.metadata)
      ensures app.scheduledDates == old(app.scheduledDates)
      ensures old(app.folders) <= app.folders && app.folders <= old(app.folders) + {settings.gtdDirectory}
      ensures success ==> settings.gtdDirectory in app.folders || settings.gtdDirectory in old(app.files)
      ensures ValidInstant(now)
      ensures success ==>
        var entry := NewSyncEntry(todo, settings.gtdDirectory, now);
        && entry.taskFile !in old(app.files)
        && app.files == old(app.files)[entry.taskFile := TaskNote(todo, now)]
        && syncData == old(syncData)[todo.taskId := entry]
      ensures !success ==> app.files == old(app.files) && syncData == old(syncData)
    {
      var t := app.Now();
      now := t;
      var stamp := FormatDateTime(t);
      var dir := settings.gtdDirectory;
      var taskPath := TaskPath(dir, stamp, todo.content);
      var present := app.Exists(dir);
      if !present {
        var made := app.CreateFolder(dir);
        if !made {
          return false, now;
        }
      }
      var taskContent := GenerateTaskContent(stamp, todo, t);
      var created := app.Create(taskPath, taskContent);
      if !created {
        return false, now;
      }
      syncData := syncData[todo.taskId := TaskSyncData(todo.taskId, taskPath, todo.sourceFile, todo.lineNumber, t.iso)];
      return true, now;
    }

    /** updateCheckboxInFile (gtd-manager.ts:252-276): checks off the marker on
        one line of a note. True only when the note exists, the line exists and
        contains `- [ ] #TODO`, and the write succeeds; then that line alone
        changes. A negative line number makes the source throw, hence false. */
    method UpdateCheckboxInFile(filePath: string, lineNumber: int) returns (success: bool)
      modifies app
      ensures app.metadata == old(app.metadata) && app.folders == old(app.folders) && app.scheduledDates == old(app.scheduledDates)
      ensures success ==>
        && filePath in old(app.files)
        && var lines := Split(old(app.files)[filePath]);
        && 0 <= lineNumber < |lines|
        && Includes(lines[lineNumber], UNCHECKED_TODO)
        && app.files == old(app.files)[filePath := Join(lines[lineNumber := CheckLine(lines[lineNumber])])]
        && Split(app.files[filePath]) == lines[lineNumber := CheckLine(lines[lineNumber])]
      ensures !success ==> app.files == old(app.files)
    {
      if filePath !in app.files {
        return false;
      }
      var content := app.Read(filePath);
      if content.None? {
        return false;
      }
      var lines := Split(content.value);
      if lineNumber < 0 {
        return false;
      }
      if lineNumber < |lines| {
        var line := lines[lineNumber];
        if Includes(line, UNCHECKED_TODO) {
          var checked := CheckLine(line);
          CheckLineNoNewline(line);
          EditLine(content.value, lineNumber, checked);
          lines := lines[lineNumber := checked];
          success := app.Modify(filePath, Join(lines));
          return success;
        }
      }
      return false;
    }
  
    /** The inner loop of the delete sweeps (gtd-manager.ts:42-47): drops the
        first entry whose task note is `path`, if there is one. The map's
        insertion order is not modelled, so "first" is any matching entry. */
    method RemoveEntryFor(path: string) returns (ghost removed: Option<string>)
      modifies this
      ensures settings == old(settings)
      ensures removed.None? ==>
        syncData == old(syncData) && forall k :: k in old(syncData) ==> old(syncData)[k].taskFile != path
      ensures removed.Some? ==>
        && removed.value in old(syncData) && old(syncData)[removed.value].taskFile == path
        && syncData == old(syncData) - {removed.value}
    {
      removed := None;
      var keys := syncData.Keys;
      while keys != {}
        invariant keys <= syncData.Keys
        invariant syncData == old(syncData) && settings == old(settings)
        invariant forall k :: k in old(syncData) && k !in keys ==> old(syncData)[k].taskFile != path
        decreases |keys|
      {
        var key :| key in keys;
        keys := keys - {key};
        if syncData[key].taskFile == path {
          syncData := syncData - {key};
          removed := Some(key);
          return;
        }
      }
    }

    /** One turn of the delete sweeps (gtd-manager.ts:35-51): deletes task note
        `file` when its metadata qualifies, and then drops an entry pointing at
        it; true when the note was deleted. */
    method DeleteIfQualifies(file: string, qualifies: TaskMetadata -> bool, ghost q: set<string>,
                             ghost files0: map<string, string>, ghost meta0: map<string, TaskMetadata>,
                             ghost sync0: map<string, TaskSyncData>, ghost deleted: set<string>, ghost retired0: set<string>)
      returns (gone: bool, ghost retired: set<string>)
      modifies this, app
      requires file in files0 && InDir(file, settings.gtdDirectory) && file !in deleted
      requires q == Qualifying(files0, meta0, settings.gtdDirectory, qualifies)
      requires DeleteSweep(q, files0, meta0, sync0, deleted, retired0, app.files, app.metadata, syncData)
      ensures settings == old(settings) && app.folders == old(app.folders) && app.scheduledDates == old(app.scheduledDates)
      ensures DeleteSweep(q, files0, meta0, sync0, if gone then deleted + {file} else deleted, retired,
                          app.files, app.metadata, syncData)
    {
      retired := retired0;
      var metadata := app.Metadata(file);
      assert metadata == MetadataOf(meta0, file);
      if !qualifies(metadata) {
        return false, retired;
      }
      assert file in q;
      var ok := app.Delete(file);
      if !ok {
        return false, retired;
      }
      MapMinusStep(files0, deleted, file);
      MapMinusStep(meta0, deleted, file);
      var removed := RemoveEntryFor(file);
      if removed.Some? {
        MapMinusStep(sync0, retired, removed.value);
      }
      DeleteSweepStep(q, files0, meta0, sync0, deleted, retired, file, removed);
      if removed.Some? {
        retired := retired + {removed.value};
      }
      return true, retired;
    }

    /** The loop both delete sweeps share (gtd-manager.ts:30-83), for the test
        `qualifies` on a task note's metadata. Each deleted note retires at most
        one entry, one whose task note it is, and exactly one when any exists. */
    method DeleteTasksWhere(qualifies: TaskMetadata -> bool) returns (count: nat, ghost deleted: set<string>, ghost retired: set<string>)
      modifies this, app
      ensures settings == old(settings) && app.folders == old(app.folders) && app.scheduledDates == old(app.scheduledDates)
      ensures count == |deleted|
      ensures DeleteSweep(Qualifying(old(app.files), old(app.metadata), settings.gtdDirectory, qualifies),
                          old(app.files), old(app.metadata), old(syncData), deleted, retired, app.files, app.metadata, syncData)
    {
      var taskFiles, listing := GetTaskFiles();
      count, deleted, retired := DeleteTasksAmong(taskFiles, qualifies);
    }

    /** The loop of the delete sweeps over the task notes `taskFiles`. */
    method DeleteTasksAmong(taskFiles: seq<string>, qualifies: TaskMetadata -> bool)
      returns (count: nat, ghost deleted: set<string>, ghost retired: set<string>)
      modifies this, app
      requires PairwiseDistinct(taskFiles)
      requires forall p :: p in taskFiles ==> p in app.files && InDir(p, settings.gtdDirectory)
      ensures settings == old(settings) && app.folders == old(app.folders) && app.scheduledDates == old(app.scheduledDates)
      ensures count == |deleted|
      ensures DeleteSweep(Qualifying(old(app.files), old(app.metadata), settings.gtdDirectory, qualifies),
                          old(app.files), old(app.metadata), old(syncData), deleted, retired, app.files, app.metadata, syncData)
    {
      ghost var files0, meta0, sync0 := app.files, app.metadata, syncData;
      ghost var q := Qualifying(files0, meta0, settings.gtdDirectory, qualifies);
      count, deleted, retired := 0, {}, {};
      var i := 0;
      while i < |taskFiles|
        invariant 0 <= i <= |taskFiles|
        invariant settings == old(settings) && app.folders == old(app.folders) && app.scheduledDates == old(app.scheduledDates)
        invariant forall p :: p in deleted ==> p in taskFiles[..i]
        invariant count == |deleted|
        invariant DeleteSweep(q, files0, meta0, sync0, deleted, retired, app.files, app.metadata, syncData)
      {
        var file := taskFiles[i];
        NotYetVisited(taskFiles, i, deleted);
        var gone;
        gone, retired := DeleteIfQualifies(file, qualifies, q, files0, meta0, sync0, deleted, retired);
        ghost var before := deleted;
        if gone {
          count := count + 1;
          deleted := deleted + {file};
        }
        VisitStep(taskFiles, i, before, deleted);
        i := i + 1;
      }
    }

    /** deleteCompletedTasks (gtd-manager.ts:30-55): deletes the task notes whose
        status is done; the count is the number of notes deleted. */
    method DeleteCompletedTasks() returns (count: nat, ghost deleted: set<string>, ghost retired: set<string>)
      modifies this, app
      ensures settings == old(settings)
      ensures deleted <= Qualifying(old(app.files), old(app.metadata), old(settings).gtdDirectory, IsTaskCompleted)
      ensures count == |deleted|
      ensures app.files == old(app.files) - deleted && app.metadata == old(app.metadata) - deleted
      ensures app.folders == old(app.folders) && app.scheduledDates == old(app.scheduledDates)
      ensures retired <= old(syncData).Keys && syncData == old(syncData) - retired
      ensures forall k :: k in retired ==> old(syncData)[k].taskFile in deleted
      ensures forall k, l :: k in retired && l in retired && old(syncData)[k].taskFile == old(syncData)[l].taskFile ==> k == l
      ensures forall k :: k in old(syncData) && old(syncData)[k].taskFile in deleted ==>
        exists l :: l in retired && old(syncData)[l].taskFile == old(syncData)[k].taskFile
      ensures forall k :: k in old(syncData) && old(syncData)[k].taskFile !in deleted ==>
        k in syncData && syncData[k] == old(syncData)[k]
      ensures var q := Qualifying(old(app.files), old(app.metadata), old(settings).gtdDirectory, IsTaskCompleted);
        count <= |q| && (count == |q| ==> deleted == q)
      ensures Qualifying(old(app.files), old(app.metadata), old(settings).gtdDirectory, IsTaskCompleted) == {} ==>
        count == 0 && app.files == old(app.files) && syncData == old(syncData)
    {
      ghost var files0, sync0 := app.files, syncData;
      ghost var q := Qualifying(app.files, app.metadata, settings.gtdDirectory, IsTaskCompleted);
      count, deleted, retired := DeleteTasksWhere(IsTaskCompleted);
      DeleteSweepBounds(q, deleted, retired, count, files0, app.files, sync0, syncData);
    }

    /** deleteTrashTasks (gtd-manager.ts:58-83): the same sweep for the task
        notes whose kind is trash. */
    method DeleteTrashTasks() returns (count: nat, ghost deleted: set<string>, ghost retired: set<string>)
      modifies this, app
      ensures settings == old(settings)
      ensures deleted <= Qualifying(old(app.files), old(app.metadata), old(settings).gtdDirectory, IsTaskTrash)
      ensures count == |deleted|
      ensures app.files == old(app.files) - deleted && app.metadata == old(app.metadata) - deleted
      ensures app.folders == old(app.folders) && app.scheduledDates == old(app.scheduledDates)
      ensures retired <= old(syncData).Keys && syncData == old(syncData) - retired
      ensures forall k :: k in retired ==> old(syncData)[k].taskFile in deleted
      ensures forall k, l :: k in retired && l in retired && old(syncData)[k].taskFile == old(syncData)[l].taskFile ==> k == l
      ensures forall k :: k in old(syncData) && old(syncData)[k].taskFile in deleted ==>
        exists l :: l in retired && old(syncData)[l].taskFile == old(syncData)[k].taskFile
      ensures forall k :: k in old(syncData) && old(syncData)[k].taskFile !in deleted ==>
        k in syncData && syncData[k] == old(syncData)[k]
      ensures var q := Qualifying(old(app.files), old(app.metadata), old(settings).gtdDirectory, IsTaskTrash);
        count <= |q| && (count == |q| ==> deleted == q)
      ensures Qualifying(old(app.files), old(app.metadata), old(settings).gtdDirectory, IsTaskTrash) == {} ==>
        count == 0 && app.files == old(app.files) && syncData == old(syncData)
    {
      ghost var files0, sync0 := app.files, syncData;
      ghost var q := Qualifying(app.files, app.metadata, settings.gtdDirectory, IsTaskTrash);
      count, deleted, retired := DeleteTasksWhere(IsTaskTrash);
      DeleteSweepBounds(q, deleted, retired, count, files0, app.files, sync0, syncData);
    }
  
    /** updateOverdueTasks (gtd-manager.ts:86-106): writes `today` as the
        scheduled date of every task note that is overdue, counting the writes
        that succeed. `today` (the UTC date of the clock) and `isPast` (the
        comparison with local midnight) are parameters. */
    method UpdateOverdueTasks(today: string, isPast: string -> bool) returns (count: nat, ghost updated: set<string>)
      modifies app
      ensures updated <= Qualifying(old(app.files), old(app.metadata), settings.gtdDirectory, m => IsTaskOverdue(m, isPast))
      ensures count == |updated|
      ensures app.files == old(app.files) && app.metadata == old(app.metadata) && app.folders == old(app.folders)
      ensures app.scheduledDates == old(app.scheduledDates) + map p | p in updated :: today
    {
      var taskFiles, listing := GetTaskFiles();
      count, updated := UpdateOverdueAmong(taskFiles, today, isPast);
    }

    /** The loop of updateOverdueTasks over the task notes `taskFiles`. */
    method UpdateOverdueAmong(taskFiles: seq<string>, today: string, isPast: string -> bool)
      returns (count: nat, ghost updated: set<string>)
      modifies app
      requires PairwiseDistinct(taskFiles)
      requires forall p :: p in taskFiles ==> p in app.files && InDir(p, settings.gtdDirectory)
      ensures updated <= Qualifying(old(app.files), old(app.metadata), settings.gtdDirectory, m => IsTaskOverdue(m, isPast))
      ensures count == |updated|
      ensures app.files == old(app.files) && app.metadata == old(app.metadata) && app.folders == old(app.folders)
      ensures app.scheduledDates == old(app.scheduledDates) + map p | p in updated :: today
    {
      ghost var dates0 := app.scheduledDates;
      var dir := settings.gtdDirectory;
      ghost var q := Qualifying(old(app.files), old(app.metadata), dir, m => IsTaskOverdue(m, isPast));
      count, updated := 0, {};
      var i := 0;
      while i < |taskFiles|
        invariant 0 <= i <= |taskFiles|
        invariant app.files == old(app.files) && app.metadata == old(app.metadata) && app.folders == old(app.folders)
        invariant forall p :: p in updated ==> p in taskFiles[..i]
        invariant updated <= q
        invariant count == |updated|
        invariant app.scheduledDates == dates0 + map p | p in updated :: today
      {
        var file := taskFiles[i];
        NotYetVisited(taskFiles, i, updated);
        var metadata := app.Metadata(file);
        var ok := false;
        if IsTaskOverdue(metadata, isPast) {
          ok := app.ProcessScheduledDate(file, today);
          if ok {
            assert file in q;
            StampStep(dates0, updated, file, today);
          }
        }
        ghost var before := updated;
        if ok {
          count := count + 1;
          updated := updated + {file};
        }
        VisitStep(taskFiles, i, before, updated);
        i := i + 1;
      }
    }

    /** One turn of the loop of updateCheckboxesFromTasks (gtd-manager.ts:137-161)
        for entry `todoId`: true when its marker was checked off. */
    method ReconcileEntry(todoId: string) returns (success: bool)
      requires todoId in syncData
      modifies this, app
      ensures settings == old(settings) && app.metadata == old(app.metadata)
      ensures app.folders == old(app.folders) && app.scheduledDates == old(app.scheduledDates)
      ensures var e := old(syncData)[todoId];
        e.taskFile !in old(app.files) ==> !success && app.files == old(app.files) && syncData == old(syncData) - {todoId}
      ensures var e := old(syncData)[todoId];
        e.taskFile in old(app.files) && !success ==> app.files == old(app.files) && syncData == old(syncData)
      ensures var e := old(syncData)[todoId];
        success ==>
          && e.taskFile in old(app.files) && IsTaskCompleted(MetadataOf(old(app.metadata), e.taskFile))
          && syncData == old(syncData) - {todoId}
          && e.sourceFile in old(app.files)
          && var lines := Split(old(app.files)[e.sourceFile]);
          && 0 <= e.sourceLine < |lines|
          && Includes(lines[e.sourceLine], UNCHECKED_TODO)
          && e.sourceFile in app.files
          && app.files == old(app.files)[e.sourceFile := app.files[e.sourceFile]]
          && Split(app.files[e.sourceFile]) == lines[e.sourceLine := CheckLine(lines[e.sourceLine])]
    {
      var entry := syncData[todoId];
      if entry.taskFile !in app.files {
        syncData := syncData - {todoId};
        return false;
      }
      var metadata := app.Metadata(entry.taskFile);
      if !IsTaskCompleted(metadata) {
        return false;
      }
      success := UpdateCheckboxInFile(entry.sourceFile, entry.sourceLine);
      if success {
        syncData := syncData - {todoId};
      }
    }

    /** One turn of the loop of updateCheckboxesFromTasks (gtd-manager.ts:137-161)
        inside the sweep: the entry `todoId` is handled and leaves `keys`. */
    method ReconcileInSweep(todoId: string, ghost sync0: map<string, TaskSyncData>, ghost files0: map<string, string>,
                            ghost meta0: map<string, TaskMetadata>, ghost keys: set<string>,
                            ghost rewritten0: set<string>, ghost dropped0: set<string>)
      returns (success: bool, ghost rewritten: set<string>, ghost dropped: set<string>)
      modifies this, app
      requires todoId in keys && app.metadata == meta0
      requires CheckboxSweep(sync0, files0, meta0, keys, rewritten0, dropped0, syncData, app.files)
      ensures settings == old(settings) && app.metadata == old(app.metadata)
      ensures app.folders == old(app.folders) && app.scheduledDates == old(app.scheduledDates)
      ensures rewritten == if success then rewritten0 + {todoId} else rewritten0
      ensures |rewritten| == if success then |rewritten0| + 1 else |rewritten0|
      ensures CheckboxSweep(sync0, files0, meta0, keys - {todoId}, rewritten, dropped, syncData, app.files)
    {
      ghost var mid, midSync := app.files, syncData;
      success := ReconcileEntry(todoId);
      rewritten, dropped := ReconcileStep(sync0, files0, meta0, keys, rewritten0, dropped0, midSync, mid, todoId,
                                          success, syncData, app.files);
    }

    /** The loop of updateCheckboxesFromTasks (gtd-manager.ts:137-161) over every
        id of the map, in an order the host chooses. */
    method ReconcileAll() returns (count: nat, ghost rewritten: set<string>, ghost dropped: set<string>)
      modifies this, app
      ensures settings == old(settings) && app.metadata == old(app.metadata)
      ensures app.folders == old(app.folders) && app.scheduledDates == old(app.scheduledDates)
      ensures CheckboxSweep(old(syncData), old(app.files), old(app.metadata), {}, rewritten, dropped, syncData, app.files)
      ensures count == |rewritten|
    {
      ghost var sync0, files0, meta0 := syncData, app.files, app.metadata;
      dropped := {};
      var keys := syncData.Keys;
      count, rewritten := 0, {};
      while keys != {}
        invariant CheckboxSweep(sync0, files0, meta0, keys, rewritten, dropped, syncData, app.files)
        invariant settings == old(settings) && app.metadata == meta0
        invariant app.folders == old(app.folders) && app.scheduledDates == old(app.scheduledDates)
        invariant count == |rewritten|
        decreases |keys|
      {
        var todoId :| todoId in keys;
        var success;
        success, rewritten, dropped := ReconcileInSweep(todoId, sync0, files0, meta0, keys, rewritten, dropped);
        if success {
          count := count + 1;
        }
        keys := keys - {todoId};
      }
    }

    /** updateCheckboxesFromTasks (gtd-manager.ts:134-165): drops the entries
        whose task note is gone, and checks off the marker of each entry whose
        task is done, dropping the entry when that succeeds. Done entries whose
        rewrite failed and entries whose task is not done stay. */
    method UpdateCheckboxesFromTasks() returns (count: nat, ghost rewritten: set<string>)
      modifies this, app
      ensures settings == old(settings) && app.metadata == old(app.metadata)
      ensures app.folders == old(app.folders) && app.scheduledDates == old(app.scheduledDates)
      ensures rewritten <= CompletedIds(old(syncData), old(app.files), old(app.metadata))
      ensures syncData == old(syncData) - (StaleIds(old(syncData), old(app.files)) + rewritten)
      ensures count == |rewritten|
      ensures OnlyTargetLinesChanged(old(app.files), app.files, Targets(old(syncData), rewritten))
      ensures RewritesChecked(old(syncData), old(app.files), app.files, rewritten)
    {
      ghost var sync0, files0, meta0 := syncData, app.files, app.metadata;
      ghost var dropped;
      count, rewritten, dropped := ReconcileAll();
      CheckboxSweepDone(sync0, files0, meta0, rewritten, dropped, syncData, app.files);
    }
  
    /** The inner loop of createTasksFromTodos (gtd-manager.ts:115-126): a task
        note and an entry for each of `items` whose id is not yet in the map,
        which extends the sweep state by one id per note made. */
    method CreateTasksFor(items: seq<TodoItem>, ghost sync0: map<string, TaskSyncData>, ghost files0: map<string, string>,
                          ghost isMarker: TodoItem -> bool, ghost entryOf: (TodoItem, Instant) -> TaskSyncData,
                          ghost noteOf: (TodoItem, Instant) -> string, ghost origin0: map<string, TodoItem>, ghost times0: map<string, Instant>,
                          ghost fileOf0: map<string, string>, ghost textOf0: map<string, string>)
      returns (made: nat, ghost origin: map<string, TodoItem>, ghost times: map<string, Instant>,
               ghost fileOf: map<string, string>, ghost textOf: map<string, string>)
      modifies this, app
      requires forall item :: item in items ==> isMarker(item)
      requires forall t, n :: entryOf(t, n) == NewSyncEntry(t, settings.gtdDirectory, n)
      requires forall t, n :: noteOf(t, n) == TaskNote(t, n)
      requires CreateSweep(sync0, files0, isMarker, entryOf, noteOf, origin0, times0, fileOf0, textOf0, syncData, app.files)
      ensures settings == old(settings) && app.metadata == old(app.metadata)
      ensures app.scheduledDates == old(app.scheduledDates)
      ensures old(app.folders) <= app.folders && app.folders <= old(app.folders) + {settings.gtdDirectory}
      ensures CreateSweep(sync0, files0, isMarker, entryOf, noteOf, origin, times, fileOf, textOf, syncData, app.files)
      ensures |origin.Keys| == |origin0.Keys| + made
      ensures (forall item :: item in items ==> item.taskId in sync0) ==> app.folders == old(app.folders)
    {
      made, origin, times, fileOf, textOf := 0, origin0, times0, fileOf0, textOf0;
      var j := 0;
      while j < |items|
        invariant 0 <= j <= |items|
        invariant settings == old(settings) && app.metadata == old(app.metadata)
        invariant app.scheduledDates == old(app.scheduledDates)
        invariant old(app.folders) <= app.folders && app.folders <= old(app.folders) + {settings.gtdDirectory}
        invariant CreateSweep(sync0, files0, isMarker, entryOf, noteOf, origin, times, fileOf, textOf, syncData, app.files)
        invariant |origin.Keys| == |origin0.Keys| + made
        invariant (forall item :: item in items ==> item.taskId in sync0) ==> app.folders == old(app.folders)
      {
        var todo := items[j];
        if todo.taskId !in syncData {
          assert todo.taskId !in sync0 && todo in items;
          ghost var midSync, midFiles := syncData, app.files;
          var success, now := CreateTaskFromTodo(todo);
          if success {
            ghost var e, text := entryOf(todo, now), noteOf(todo, now);
            CreateSweepStep(sync0, files0, isMarker, entryOf, noteOf, origin, times, fileOf, textOf, midSync, midFiles, todo, now);
            made := made + 1;
            origin := origin[todo.taskId := todo];
            times := times[todo.taskId := now];
            fileOf := fileOf[todo.taskId := e.taskFile];
            textOf := textOf[todo.taskId := text];
          }
        }
        j := j + 1;
      }
    }

    /** One turn of the outer loop of createTasksFromTodos (gtd-manager.ts:113-127):
        the markers of one note in the search scope get their task notes; a
        note that cannot be read is skipped. */
    method CreateTasksInNote(path: string, ghost dirs: seq<string>,
                             ghost sync0: map<string, TaskSyncData>, ghost files0: map<string, string>,
                             ghost isMarker: TodoItem -> bool, ghost entryOf: (TodoItem, Instant) -> TaskSyncData,
                             ghost noteOf: (TodoItem, Instant) -> string, ghost origin0: map<string, TodoItem>, ghost times0: map<string, Instant>,
                             ghost fileOf0: map<string, string>, ghost textOf0: map<string, string>)
      returns (made: nat, ghost origin: map<string, TodoItem>, ghost times: map<string, Instant>,
               ghost fileOf: map<string, string>, ghost textOf: map<string, string>)
      modifies this, app
      requires path in files0 && Admitted(dirs, path)
      requires forall m :: IsVaultMarker(files0, dirs, m) ==> isMarker(m)
      requires forall t, n :: entryOf(t, n) == NewSyncEntry(t, settings.gtdDirectory, n)
      requires forall t, n :: noteOf(t, n) == TaskNote(t, n)
      requires CreateSweep(sync0, files0, isMarker, entryOf, noteOf, origin0, times0, fileOf0, textOf0, syncData, app.files)
      ensures settings == old(settings) && app.metadata == old(app.metadata)
      ensures app.scheduledDates == old(app.scheduledDates)
      ensures old(app.folders) <= app.folders && app.folders <= old(app.folders) + {settings.gtdDirectory}
      ensures CreateSweep(sync0, files0, isMarker, entryOf, noteOf, origin, times, fileOf, textOf, syncData, app.files)
      ensures |origin.Keys| == |origin0.Keys| + made
      ensures MarkerIds(files0, dirs) <= sync0.Keys ==> app.folders == old(app.folders)
    {
      var found := FindTodoItems(path);
      if found.None? {
        return 0, origin0, times0, fileOf0, textOf0;
      }
      var items := found.value;
      ScannedFromKeptNote(files0, app.files, fileOf0, textOf0, dirs, isMarker, path, items);
      if MarkerIds(files0, dirs) <= sync0.Keys {
        ScannedTracked(files0, app.files, fileOf0, textOf0, dirs, sync0, path, items);
      }
      made, origin, times, fileOf, textOf := CreateTasksFor(items, sync0, files0, isMarker, entryOf, noteOf, origin0, times0, fileOf0, textOf0);
    }

    /** The outer loop of createTasksFromTodos (gtd-manager.ts:113-127) over the
        notes `paths` of the search scope `dirs`. The marker test, the entry
        maker and the note maker are parameters equal to those of the source,
        so that the loop reasons about them abstractly. */
    method CreateTasksInEach(paths: seq<string>, ghost dirs: seq<string>,
                      ghost isMarker: TodoItem -> bool, ghost entryOf: (TodoItem, Instant) -> TaskSyncData,
                      ghost noteOf: (TodoItem, Instant) -> string)
      returns (count: nat, ghost origin: map<string, TodoItem>, ghost times: map<string, Instant>,
               ghost fileOf: map<string, string>, ghost textOf: map<string, string>)
      modifies this, app
      requires forall p :: p in paths ==> p in app.files && Admitted(dirs, p)
      requires forall m :: IsVaultMarker(app.files, dirs, m) <==> isMarker(m)
      requires forall t, n :: entryOf(t, n) == NewSyncEntry(t, settings.gtdDirectory, n)
      requires forall t, n :: noteOf(t, n) == TaskNote(t, n)
      ensures settings == old(settings) && app.metadata == old(app.metadata)
      ensures app.scheduledDates == old(app.scheduledDates)
      ensures old(app.folders) <= app.folders && app.folders <= old(app.folders) + {settings.gtdDirectory}
      ensures CreateSweep(old(syncData), old(app.files), isMarker, entryOf, noteOf, origin, times, fileOf, textOf, syncData, app.files)
      ensures count == |origin.Keys|
      ensures MarkerIds(old(app.files), dirs) <= old(syncData).Keys ==> app.folders == old(app.folders)
    {
      ghost var sync0, files0 := syncData, app.files;
      count, origin, times, fileOf, textOf := 0, map[], map[], map[], map[];
      var f := 0;
      while f < |paths|
        invariant 0 <= f <= |paths|
        invariant settings == old(settings) && app.metadata == old(app.metadata)
        invariant app.scheduledDates == old(app.scheduledDates)
        invariant old(app.folders) <= app.folders && app.folders <= old(app.folders) + {settings.gtdDirectory}
        invariant CreateSweep(sync0, files0, isMarker, entryOf, noteOf, origin, times, fileOf, textOf, syncData, app.files)
        invariant count == |origin.Keys|
        invariant MarkerIds(files0, dirs) <= sync0.Keys ==> app.folders == old(app.folders)
      {
        var made;
        made, origin, times, fileOf, textOf := CreateTasksInNote(paths[f], dirs, sync0, files0, isMarker, entryOf, noteOf, origin, times, fileOf, textOf);
        count := count + made;
        f := f + 1;
      }
    }

    /** What the sweep over `paths` achieves, stated in terms of the vault and the map it started from. */
    method CreateTasksInNotes(paths: seq<string>, ghost dirs: seq<string>,
                              ghost isMarker: TodoItem -> bool, ghost entryOf: (TodoItem, Instant) -> TaskSyncData,
                              ghost noteOf: (TodoItem, Instant) -> string)
      returns (count: nat, ghost origin: map<string, TodoItem>, ghost times: map<string, Instant>)
      modifies this, app
      requires forall p :: p in paths ==> p in app.files && Admitted(dirs, p)
      requires forall m :: IsVaultMarker(app.files, dirs, m) <==> isMarker(m)
      requires forall t, n :: entryOf(t, n) == NewSyncEntry(t, settings.gtdDirectory, n)
      requires forall t, n :: noteOf(t, n) == TaskNote(t, n)
      ensures settings == old(settings) && app.metadata == old(app.metadata)
      ensures app.scheduledDates == old(app.scheduledDates)
      ensures old(app.folders) <= app.folders && app.folders <= old(app.folders) + {settings.gtdDirectory}
      ensures CreatedEntriesFrom(old(syncData), old(app.files), dirs, settings.gtdDirectory, origin, times, syncData)
      ensures CreatedNotesFrom(old(app.files), noteOf, origin, times, syncData, app.files)
      ensures CreatedWithinMarkers(old(syncData), old(app.files), old(app.folders), dirs, origin, syncData, app.files, app.folders)
      ensures count == |origin.Keys|
    {
      ghost var sync0, files0 := syncData, app.files;
      ghost var fileOf: map<string, string>, textOf: map<string, string>;
      count, origin, times, fileOf, textOf := CreateTasksInEach(paths, dirs, isMarker, entryOf, noteOf);
      CreateSweepEntries(sync0, files0, dirs, settings.gtdDirectory, isMarker, entryOf, origin, times, fileOf, syncData);
      CreateSweepNotes(sync0, files0, isMarker, entryOf, noteOf, origin, times, fileOf, textOf, syncData, app.files);
      CreateSweepWithin(sync0, files0, old(app.folders), dirs, isMarker, entryOf, noteOf, origin, times, fileOf, textOf, syncData, app.files, app.folders);
    }

    /** createTasksFromTodos (gtd-manager.ts:109-131): a task note and an entry
        for every marker in the search scope whose id is not yet in the map.
        The presence check is the only guard: no id gets a second entry, and
        existing entries and notes are kept. */
    method CreateTasksFromTodos() returns (count: nat, ghost origin: map<string, TodoItem>, ghost times: map<string, Instant>)
      modifies this, app
      ensures settings == old(settings) && app.metadata == old(app.metadata)
      ensures app.scheduledDates == old(app.scheduledDates)
      ensures old(app.folders) <= app.folders && app.folders <= old(app.folders) + {settings.gtdDirectory}
      ensures CreatedEntriesFrom(old(syncData), old(app.files), settings.searchDirectories, settings.gtdDirectory, origin, times, syncData)
      ensures CreatedNotesFrom(old(app.files), TaskNote, origin, times, syncData, app.files)
      ensures CreatedWithinMarkers(old(syncData), old(app.files), old(app.folders), settings.searchDirectories, origin, syncData, app.files, app.folders)
      ensures count == |origin.Keys|
    {
      ghost var files0 := app.files;
      var dirs, dir := settings.searchDirectories, settings.gtdDirectory;
      var paths, listing := GetMarkdownFiles(dirs);
      ghost var isMarker := m => IsVaultMarker(files0, dirs, m);
      ghost var entryOf := (t, n) => NewSyncEntry(t, dir, n);
      count, origin, times := CreateTasksInNotes(paths, dirs, isMarker, entryOf, TaskNote);
    }
  }
}
