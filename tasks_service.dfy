/**
 * The task service: the task `createTask` returns, and the field merge of
 * `updateTask`, where an absent field keeps the stored value, an explicit `null`
 * assignee clears it and a value replaces it. The store is the sequence of task rows,
 * read by id within a room; ids and timestamps are inputs.
 */
module TasksService {
  import opened Wrappers
  import opened JsStrings
  import opened Json
  import opened Schemas
  import opened Domain
  import opened ServerMessages

  /** The task `createTask` returns: open, never updated, with the request's title and
      assignee. The creator is not stored. */
  function CreateTask(roomId: string, input: CreateTaskInput, taskId: string, createdAt: string): (t: Task)
    ensures t.id == taskId && t.roomId == roomId && t.title == input.title && t.assignee == input.assignee
    ensures t.status == Open && t.createdAt == createdAt && t.updatedAt == t.createdAt
  {
    Task(taskId, roomId, input.title, Open, createdAt, createdAt, input.assignee)
  }

  /** A validated create request yields a task valid for the domain and the wire. */
  lemma CreateTaskValid(roomId: string, input: CreateTaskInput, taskId: string, createdAt: string)
    requires ValidCreateTask(input) && NonEmpty(roomId) && NonEmpty(taskId) && NonEmpty(createdAt)
    ensures ValidTask(CreateTask(roomId, input, taskId, createdAt))
    ensures ValidServerMessage(TaskCreatedMsg(CreateTask(roomId, input, taskId, createdAt)))
  {
  }

  /** `SELECT … WHERE id = ? AND room_id = ?` then `.first()`. */
  function FindTask(rows: seq<Task>, roomId: string, taskId: string): (r: Option<Task>)
    ensures r.Some? ==> r.value in rows && r.value.id == taskId && r.value.roomId == roomId
    ensures r.None? <==> forall i :: 0 <= i < |rows| ==> !(rows[i].id == taskId && rows[i].roomId == roomId)
  {
    if rows == [] then None
    else if rows[0].id == taskId && rows[0].roomId == roomId then Some(rows[0])
    else
      var rest := FindTask(rows[1..], roomId, taskId);
      assert forall i :: 1 <= i < |rows| ==> rows[i] == rows[1..][i - 1];
      rest
  }

  /** The row after an update: `input.title ?? title`, `input.status ?? status`, the
      assignee patched, the new timestamp; id, room and creation time are kept. */
  function MergeTask(existing: Task, input: UpdateTaskInput, updatedAt: string): (t: Task)
    ensures t.id == existing.id && t.roomId == existing.roomId && t.createdAt == existing.createdAt
    ensures t.updatedAt == updatedAt
    ensures t.title == input.title.GetOr(existing.title)
    ensures t.status == input.status.GetOr(existing.status)
    ensures input.assignee.Keep? ==> t.assignee == existing.assignee
    ensures input.assignee.Clear? ==> t.assignee.None?
    ensures input.assignee.SetTo? ==> t.assignee == Some(input.assignee.value)
  {
    var assignee :=
      match input.assignee
      case Keep => existing.assignee
      case Clear => None
      case SetTo(a) => Some(a);
    Task(existing.id, existing.roomId, input.title.GetOr(existing.title),
         input.status.GetOr(existing.status), existing.createdAt, updatedAt, assignee)
  }

  /** `updateTask`: `None` (the source's `null`) when the room has no task with that id,
      else the merged task. */
  function UpdateTask(rows: seq<Task>, roomId: string, taskId: string, input: UpdateTaskInput,
                      updatedAt: string): (r: Option<Task>)
    ensures r.None? <==> FindTask(rows, roomId, taskId).None?
    ensures r.Some? ==> r.value.id == taskId && r.value.roomId == roomId && r.value.updatedAt == updatedAt
    ensures r.Some? ==> r.value == MergeTask(FindTask(rows, roomId, taskId).value, input, updatedAt)
  {
    match FindTask(rows, roomId, taskId)
    case None => None
    case Some(existing) => Some(MergeTask(existing, input, updatedAt))
  }

  /** An update with no fields changes only the timestamp; so does the JSON body `{}`. */
  lemma EmptyUpdateTouchesOnlyTimestamp(existing: Task, updatedAt: string)
    ensures MergeTask(existing, UpdateTaskInput(None, None, Keep), updatedAt) == existing.(updatedAt := updatedAt)
    ensures DecodeUpdateTask(JObject(map[])).Some?
    ensures MergeTask(existing, DecodeUpdateTask(JObject(map[])).value, updatedAt) == existing.(updatedAt := updatedAt)
  {
    UpdateTaskEmptyAndNull();
  }

  /** `{assignee: null}` clears the assignee, which then reads back as absent. */
  lemma NullAssigneeClears(existing: Task, updatedAt: string)
    ensures DecodeUpdateTask(JObject(map["assignee" := JNull])).Some?
    ensures MergeTask(existing, DecodeUpdateTask(JObject(map["assignee" := JNull])).value, updatedAt)
         == existing.(updatedAt := updatedAt, assignee := None)
  {
    UpdateTaskEmptyAndNull();
  }

  /** Applying the same update twice gives the same task as applying it once. */
  lemma MergeIdempotent(existing: Task, input: UpdateTaskInput, updatedAt: string)
    ensures MergeTask(MergeTask(existing, input, updatedAt), input, updatedAt) == MergeTask(existing, input, updatedAt)
  {
  }

  /** A validated update of a valid task at a non-empty time is a valid task, so it
      can be sent as `task:updated`. */
  lemma MergeKeepsValid(existing: Task, input: UpdateTaskInput, updatedAt: string)
    requires ValidTask(existing) && ValidUpdateTask(input) && NonEmpty(updatedAt)
    ensures ValidTask(MergeTask(existing, input, updatedAt))
    ensures ValidServerMessage(TaskUpdatedMsg(MergeTask(existing, input, updatedAt)))
  {
  }

  /** A task just created in a room is found there by id by a later update. */
  lemma CreatedTaskIsUpdatable(rows: seq<Task>, roomId: string, input: CreateTaskInput, taskId: string,
                               createdAt: string, update: UpdateTaskInput, updatedAt: string)
    requires forall i :: 0 <= i < |rows| ==> rows[i].id != taskId
    ensures UpdateTask(rows + [CreateTask(roomId, input, taskId, createdAt)], roomId, taskId, update, updatedAt)
         == Some(MergeTask(CreateTask(roomId, input, taskId, createdAt), update, updatedAt))
  {
    var t := CreateTask(roomId, input, taskId, createdAt);
    var all := rows + [t];
    assert all[|rows|] == t;
    var found := FindTask(all, roomId, taskId);
    assert found.Some?;
    assert found.value == t by {
      var i :| 0 <= i < |all| && all[i] == found.value;
    }
  }
}
