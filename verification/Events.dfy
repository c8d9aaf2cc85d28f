/** The rows of the two event tables (src/taskowl/models.py). */
module Events {
  import opened Rows
  import opened Values

  type TaskId = int

  /** A task_events row without its key and timestamp. `details` stands for the columns no query of this
      model looks into: retries, eta, expires, pid, terminated, signum, expired and requeue. */
  datatype TaskEvent = TaskEvent(
    eventType: string,
    taskId: TaskId,
    hostname: Option<string>,
    name: Option<string>,
    args: Value,
    kwargs: Value,
    queue: Option<string>,
    rootId: Option<TaskId>,
    parentId: Option<TaskId>,
    result: Value,
    runtime: Option<real>,
    exception: Option<string>,
    traceback: Option<string>,
    details: map<string, Value>,
    dedupeKey: Option<string>)

  /** `details` stands for active, processed, freq and the software fields. */
  datatype WorkerEvent = WorkerEvent(
    eventType: string,
    hostname: string,
    details: map<string, Value>,
    dedupeKey: Option<string>)

  /** A name for each task, as a FIRST_VALUE window over (name IS NULL, timestamp) resolves it. Which
      resolutions are legitimate is Queries.IsEarliestName. */
  type Names = TaskId -> Option<string>

  function TaskOf(): TaskEvent -> TaskId {
    (e: TaskEvent) => e.taskId
  }

  function HostOf(): WorkerEvent -> string {
    (e: WorkerEvent) => e.hostname
  }
}
