/**
 * The record shapes and constants of types.ts: settings, front-matter
 * metadata, discovered to-do markers, sync entries, and the status and kind
 * vocabularies that the predicates of the manager compare against.
 */
module Types {
  import opened Wrappers

  /** Plugin settings (types.ts:4-17). Intervals are hours. */
  datatype GTDSettings = GTDSettings(
    gtdDirectory: string,
    searchDirectories: seq<string>,
    autoDeleteCompleted: bool,
    autoDeleteTrash: bool,
    autoUpdateSchedule: bool,
    autoCreateFromTodo: bool,
    autoUpdateCheckbox: bool,
    deleteCompletedInterval: int,
    deleteTrashInterval: int,
    updateScheduleInterval: int,
    createFromTodoInterval: int,
    updateCheckboxInterval: int)

  /**
   * Parsed front matter of a task note, as the metadata cache hands it out
   * (types.ts:19-33). Every field is optional; an absent cache entry reads
   * as the record with every field absent.
   */
  datatype TaskMetadata = TaskMetadata(
    id: Option<string>,
    created: Option<string>,
    title: Option<string>,
    aliases: Option<seq<string>>,
    deadline: Option<string>,
    scheduledDate: Option<string>,
    project: Option<string>,
    taskKind: Option<string>,
    taskStatus: Option<string>,
    createdFrom: Option<string>,
    sourceFile: Option<string>,
    sourceLine: Option<int>,
    todoId: Option<string>)

  const EMPTY_METADATA: TaskMetadata :=
    TaskMetadata(None, None, None, None, None, None, None, None, None, None, None, None, None)

  /** A `- [ ] #TODO` marker found in a note (types.ts:35-40). */
  datatype TodoItem = TodoItem(content: string, sourceFile: string, lineNumber: nat, taskId: string)

  /**
   * The link between a marker and the task note made from it (types.ts:42-48),
   * stored in the sync map under its own `todoId`. `sourceLine` is an
   * arbitrary number once it has been persisted and loaded back.
   */
  datatype TaskSyncData = TaskSyncData(
    todoId: string,
    taskFile: string,
    sourceFile: string,
    sourceLine: int,
    created: string)

  /**
   * A moment of the host clock, as the manager reads it: the local calendar
   * fields of a JavaScript Date (`month` is getMonth(), counted from 0) and
   * its UTC `toISOString()` rendering, which the model keeps opaque.
   */
  datatype Instant = Instant(year: int, month: int, day: int, hours: int, minutes: int, seconds: int, iso: string)

  /** The ranges the Date getters return. */
  predicate ValidInstant(t: Instant) {
    && 0 <= t.month < 12
    && 1 <= t.day <= 31
    && 0 <= t.hours < 24
    && 0 <= t.minutes < 60
    && 0 <= t.seconds < 60
  }

  // Task status values (types.ts:66-72)
  const NOT_YET: string := "not_yet"
  const DOING: string := "doing"
  const DONE: string := "done"
  const HOLD: string := "hold"
  const CANCEL: string := "cancel"
  const TASK_STATUSES: seq<string> := [NOT_YET, DOING, DONE, HOLD, CANCEL]

  // Task kind values (types.ts:75-82); TRASH is the Japanese word for "trash can"
  const TRASH: string := "ごみ箱"
  const INBOX: string := "inbox"
  const NEXT_ACTION: string := "next_action"
  const PROJECT: string := "project"
  const SOMEDAY: string := "someday"
  const REFERENCE: string := "reference"
  const TASK_KINDS: seq<string> := [TRASH, INBOX, NEXT_ACTION, PROJECT, SOMEDAY, REFERENCE]

  /** DEFAULT_SETTINGS (types.ts:50-63). */
  const DEFAULT_SETTINGS: GTDSettings := GTDSettings(
    "GTD/Tasks", [""],
    false, false, false, false, false,
    24, 24, 24, 1, 1)

  /** isTaskCompleted (gtd-manager.ts:278-280): the status field is exactly DONE. */
  predicate IsTaskCompleted(metadata: TaskMetadata) {
    metadata.taskStatus == Some(DONE)
  }

  /** isTaskTrash (gtd-manager.ts:282-284): the kind field is exactly TRASH. */
  predicate IsTaskTrash(metadata: TaskMetadata) {
    metadata.taskKind == Some(TRASH)
  }

  predicate PairwiseDistinct(values: seq<string>) {
    forall i, j :: 0 <= i < j < |values| ==> values[i] != values[j]
  }

  /** The status vocabulary has five distinct values, and only DONE counts as completed. */
  lemma StatusesDistinct()
    ensures |TASK_STATUSES| == 5 && PairwiseDistinct(TASK_STATUSES)
    ensures forall i :: 0 <= i < |TASK_STATUSES| ==>
      (IsTaskCompleted(EMPTY_METADATA.(taskStatus := Some(TASK_STATUSES[i]))) <==> TASK_STATUSES[i] == DONE)
  {
  }

  /** The kind vocabulary has six distinct values, and only TRASH counts as trash. */
  lemma KindsDistinct()
    ensures |TASK_KINDS| == 6 && PairwiseDistinct(TASK_KINDS)
    ensures forall i :: 0 <= i < |TASK_KINDS| ==>
      (IsTaskTrash(EMPTY_METADATA.(taskKind := Some(TASK_KINDS[i]))) <==> TASK_KINDS[i] == TRASH)
  {
  }

  /** Metadata without a status or kind (an empty cache entry) is neither completed nor trash. */
  lemma EmptyMetadataIsNeither()
    ensures !IsTaskCompleted(EMPTY_METADATA) && !IsTaskTrash(EMPTY_METADATA)
  {
  }

  /** The defaults: search everywhere, every automatic run off, every interval positive. */
  lemma DefaultSettingsShape()
    ensures DEFAULT_SETTINGS.searchDirectories == [""]
    ensures !DEFAULT_SETTINGS.autoDeleteCompleted && !DEFAULT_SETTINGS.autoDeleteTrash
    ensures !DEFAULT_SETTINGS.autoUpdateSchedule && !DEFAULT_SETTINGS.autoCreateFromTodo
    ensures !DEFAULT_SETTINGS.autoUpdateCheckbox
    ensures DEFAULT_SETTINGS.deleteCompletedInterval > 0 && DEFAULT_SETTINGS.deleteTrashInterval > 0
    ensures DEFAULT_SETTINGS.updateScheduleInterval > 0 && DEFAULT_SETTINGS.createFromTodoInterval > 0
    ensures DEFAULT_SETTINGS.updateCheckboxInterval > 0
  {
  }

  /** Sync entries are stored under their own id. */
  ghost predicate KeyedById(syncData: map<string, TaskSyncData>) {
    forall k :: k in syncData ==> syncData[k].todoId == k
  }
}
