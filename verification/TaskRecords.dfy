/** Run records, the operations of a task store, and the stale detection both backends share. */
module TaskRecords {
  import opened Wrappers

  datatype Status = Running | Completed | Failed | Stale

  datatype StaleReason = WorkerLost | RunStale

  /** Times are milliseconds. */
  datatype RunRecord = RunRecord(
    taskId: string, status: Status, createdAt: int, updatedAt: int, result: Option<string>, error: Option<string>,
    staleReason: Option<StaleReason>, workerId: string, sample: Option<string>)

  datatype Timing = Timing(ttlSeconds: nat, staleThresholdMs: nat, workerId: string)

  datatype Op =
    | CreateRun(runId: string, taskId: string)
    | GetRun(runId: string)
    | CompleteRun(runId: string, result: string)
    | FailRun(runId: string, error: string)
    | Heartbeat(runId: string, sample: Option<string>)

  function NewRecord(t: Timing, taskId: string, now: int): RunRecord {
    RunRecord(taskId, Running, now, now, None, None, None, t.workerId, None)
  }

  /** A record that has idled past the threshold while running becomes stale, and is stamped with the time of detection. */
  function ApplyStaleDetection(t: Timing, r: RunRecord, now: int): RunRecord {
    if r.status != Running || now - r.updatedAt <= t.staleThresholdMs then r
    else r.(status := Stale, staleReason := Some(if r.workerId == t.workerId then RunStale else WorkerLost), updatedAt := now)
  }

  /** What getRun may answer for the stored record `was`: it is stale when it was before, or when it had been running and idle
      for longer than the threshold; the owner decides the reason; any other record comes back as it was. */
  ghost predicate Judged(t: Timing, was: RunRecord, answer: RunRecord, now: int) {
    && (answer.status == Stale <==>
        was.status == Stale || (was.status == Running && now > was.updatedAt + t.staleThresholdMs))
    && (answer.status == Stale && was.status == Running ==>
        && answer.staleReason == Some(if was.workerId == t.workerId then RunStale else WorkerLost)
        && answer.updatedAt == now
        && answer == was.(status := Stale, staleReason := answer.staleReason, updatedAt := now))
    && (answer.status == was.status ==> answer == was)
    && (answer.status != was.status ==> answer.status == Stale)
  }

  /** What an operation stores over the record it read, or None when it leaves the record alone. */
  function Update(t: Timing, op: Op, read: Option<RunRecord>, now: int): Option<RunRecord> {
    match op
    case CreateRun(_, taskId) => Some(NewRecord(t, taskId, now))
    case GetRun(_) =>
      if read.Some? && ApplyStaleDetection(t, read.value, now) != read.value then Some(ApplyStaleDetection(t, read.value, now))
          else None
    case CompleteRun(_, result) =>
      if read.Some? then Some(read.value.(status := Completed, result := Some(result), updatedAt := now)) else None
    case FailRun(_, error) =>
      if read.Some? then Some(read.value.(status := Failed, error := Some(error), updatedAt := now)) else None
    case Heartbeat(_, sample) =>
      if read.Some? && read.value.status == Running
      then Some(read.value.(updatedAt := now, workerId := t.workerId,
          sample := if sample.Some? then sample else read.value.sample))
      else None
  }

  /** Every stored record is stamped with the time it was stored. */
  lemma UpdateStamps(t: Timing, op: Op, read: Option<RunRecord>, now: int)
    ensures Update(t, op, read, now).Some? ==> Update(t, op, read, now).value.updatedAt == now
  {}

  /** Taken as one step, no operation but createRun makes a record running that was not, and none but completeRun,
      failRun and createRun touches one that has ended. */
  lemma OnlyCreateMakesRunning(t: Timing, op: Op, read: Option<RunRecord>, now: int)
    requires !op.CreateRun? && Update(t, op, read, now).Some?
    ensures read.Some?
    ensures Update(t, op, read, now).value.status == Running ==> read.value.status == Running
    ensures read.value.status != Running ==> op.CompleteRun? || op.FailRun?
  {}
}
