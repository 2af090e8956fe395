/** The two store backends as the source writes them: one map of records mutated in place, one keyed store with expiry. */
module TaskStores {
  import opened Wrappers
  import opened TaskRecords

  predicate IsExpired(t: Timing, r: RunRecord, now: int) {
    now - r.updatedAt > t.ttlSeconds * 1000
  }

  type Runs = map<string, RunRecord>

  /** What one in-memory operation leaves in the map. Only getRun looks at expiry. */
  function MemoryAfter(t: Timing, runs: Runs, op: Op, now: int): Runs {
    var id := op.runId;
    if op.GetRun? && id in runs && IsExpired(t, runs[id], now) then runs - {id}
    else
      var update := Update(t, op, if id in runs then Some(runs[id]) else None, now);
      if update.Some? then runs[id := update.value] else runs
  }

  /** What an operation answers; only createRun and getRun answer anything. */
  function MemoryAnswer(t: Timing, runs: Runs, op: Op, now: int): Option<RunRecord> {
    match op
    case CreateRun(_, taskId) => Some(NewRecord(t, taskId, now))
    case GetRun(id) =>
      if id in runs && !IsExpired(t, runs[id], now) then Some(ApplyStaleDetection(t, runs[id], now)) else None
    case _ => None
  }

  class InMemoryTaskStore {
    const timing: Timing
    var runs: Runs

    constructor (timing: Timing)
      ensures this.timing == timing && runs == map[]
    {
      this.timing := timing;
      runs := map[];
    }

    method CreateRun(runId: string, taskId: string, now: int) returns (record: RunRecord)
      modifies this
      ensures runs == MemoryAfter(timing, old(runs), Op.CreateRun(runId, taskId), now)
      ensures Some(record) == MemoryAnswer(timing, old(runs), Op.CreateRun(runId, taskId), now)
      ensures record == RunRecord(taskId, Running, now, now, None, None, None, timing.workerId, None)
      ensures runId in runs && runs[runId] == record
    {
      record := NewRecord(timing, taskId, now);
      runs := runs[runId := record];
    }

    method GetRun(runId: string, now: int) returns (answer: Option<RunRecord>)
      modifies this
      ensures runs == MemoryAfter(timing, old(runs), Op.GetRun(runId), now)
      ensures answer == MemoryAnswer(timing, old(runs), Op.GetRun(runId), now)
      ensures answer.Some? <==> runId in old(runs) && now <= old(runs)[runId].updatedAt + timing.ttlSeconds * 1000
      ensures answer.Some? ==> Judged(timing, old(runs)[runId], answer.value, now)
      ensures if answer.Some? then runId in runs && runs[runId] == answer.value else runId !in runs
    {
      if runId !in runs {
        return None;
      }
      if IsExpired(timing, runs[runId], now) {
        runs := runs - {runId};
        return None;
      }
      var record := ApplyStaleDetection(timing, runs[runId], now);
      runs := runs[runId := record];
      answer := Some(record);
    }

    method CompleteRun(runId: string, result: string, now: int)
      modifies this
      ensures runs == MemoryAfter(timing, old(runs), Op.CompleteRun(runId, result), now)
    {
      if runId in runs {
        runs := runs[runId := runs[runId].(status := Completed, result := Some(result), updatedAt := now)];
      }
    }

    method FailRun(runId: string, error: string, now: int)
      modifies this
      ensures runs == MemoryAfter(timing, old(runs), Op.FailRun(runId, error), now)
    {
      if runId in runs {
        runs := runs[runId := runs[runId].(status := Failed, error := Some(error), updatedAt := now)];
      }
    }

    method Heartbeat(runId: string, sample: Option<string>, now: int)
      modifies this
      ensures runs == MemoryAfter(timing, old(runs), Op.Heartbeat(runId, sample), now)
      ensures runId in old(runs) && old(runs)[runId].status == Running ==>
        && runId in runs && runs[runId].status == Running && runs[runId].updatedAt == now
        && runs[runId].workerId == timing.workerId
        && runs[runId].sample == (if sample.Some? then sample else old(runs)[runId].sample)
    {
      if runId !in runs || runs[runId].status != Running {
        return;
      }
      var record := runs[runId].(updatedAt := now, workerId := timing.workerId);
      if sample.Some? {
        record := record.(sample := sample);
      }
      runs := runs[runId := record];
    }
  }

  /** A stored value and the last instant at which the server still returns it. */
  datatype Stored = Stored(record: RunRecord, expiresAt: int)

  type Keys = map<string, Stored>

  function ReadKey(keys: Keys, id: string, now: int): Option<RunRecord> {
    if id in keys && now <= keys[id].expiresAt then Some(keys[id].record) else None
  }

  function WriteKey(t: Timing, keys: Keys, id: string, record: RunRecord, now: int): Keys {
    keys[id := Stored(record, now + t.ttlSeconds * 1000)]
  }

  function RedisAfter(t: Timing, keys: Keys, op: Op, now: int): Keys {
    var update := Update(t, op, ReadKey(keys, op.runId, now), now);
    if update.Some? then WriteKey(t, keys, op.runId, update.value, now) else keys
  }

  function RedisAnswer(t: Timing, keys: Keys, op: Op, now: int): Option<RunRecord> {
    match op
    case CreateRun(_, taskId) => Some(NewRecord(t, taskId, now))
    case GetRun(id) =>
      var read := ReadKey(keys, id, now);
      if read.Some? then Some(ApplyStaleDetection(t, read.value, now)) else None
    case _ => None
  }

  /** The keyed store, each operation run to its end before the next one starts. */
  class RedisTaskStore {
    const timing: Timing
    var keys: Keys

    constructor (timing: Timing)
      ensures this.timing == timing && keys == map[]
    {
      this.timing := timing;
      keys := map[];
    }

    method Read(runId: string, now: int) returns (record: Option<RunRecord>)
      ensures record == ReadKey(keys, runId, now)
    {
      record := None;
      if runId in keys && now <= keys[runId].expiresAt {
        record := Some(keys[runId].record);
      }
    }

    method Write(runId: string, record: RunRecord, now: int)
      modifies this
      ensures keys == WriteKey(timing, old(keys), runId, record, now)
    {
      keys := keys[runId := Stored(record, now + timing.ttlSeconds * 1000)];
    }

    method CreateRun(runId: string, taskId: string, now: int) returns (record: RunRecord)
      modifies this
      ensures keys == RedisAfter(timing, old(keys), Op.CreateRun(runId, taskId), now)
      ensures Some(record) == RedisAnswer(timing, old(keys), Op.CreateRun(runId, taskId), now)
      ensures record == RunRecord(taskId, Running, now, now, None, None, None, timing.workerId, None)
      ensures runId in keys && keys[runId] == Stored(record, now + timing.ttlSeconds * 1000)
    {
      record := NewRecord(timing, taskId, now);
      Write(runId, record, now);
    }

    method GetRun(runId: string, now: int) returns (answer: Option<RunRecord>)
      modifies this
      ensures keys == RedisAfter(timing, old(keys), Op.GetRun(runId), now)
      ensures answer == RedisAnswer(timing, old(keys), Op.GetRun(runId), now)
      ensures answer.Some? <==> runId in old(keys) && now <= old(keys)[runId].expiresAt
      ensures answer.Some? ==> Judged(timing, old(keys)[runId].record, answer.value, now)
      ensures answer.Some? ==> runId in keys && keys[runId].record == answer.value
      ensures answer.Some? && answer.value != old(keys)[runId].record ==> keys[runId].expiresAt == now + timing.ttlSeconds * 1000
      ensures answer.None? || answer.value == old(keys)[runId].record ==> keys == old(keys)
    {
      var record := Read(runId, now);
      if record.None? {
        return None;
      }
      var wasRunning := record.value.status == Running;
      var detected := ApplyStaleDetection(timing, record.value, now);
      if wasRunning && detected.status == Stale {
        Write(runId, detected, now);
      }
      answer := Some(detected);
    }

    method CompleteRun(runId: string, result: string, now: int)
      modifies this
      ensures keys == RedisAfter(timing, old(keys), Op.CompleteRun(runId, result), now)
    {
      var record := Read(runId, now);
      if record.Some? {
        Write(runId, record.value.(status := Completed, result := Some(result), updatedAt := now), now);
      }
    }

    method FailRun(runId: string, error: string, now: int)
      modifies this
      ensures keys == RedisAfter(timing, old(keys), Op.FailRun(runId, error), now)
    {
      var record := Read(runId, now);
      if record.Some? {
        Write(runId, record.value.(status := Failed, error := Some(error), updatedAt := now), now);
      }
    }

    method Heartbeat(runId: string, sample: Option<string>, now: int)
      modifies this
      ensures keys == RedisAfter(timing, old(keys), Op.Heartbeat(runId, sample), now)
      ensures runId in old(keys) && now <= old(keys)[runId].expiresAt && old(keys)[runId].record.status == Running ==>
        && runId in keys && keys[runId].expiresAt == now + timing.ttlSeconds * 1000
        && keys[runId].record.status == Running && keys[runId].record.updatedAt == now
        && keys[runId].record.workerId == timing.workerId
        && keys[runId].record.sample == (if sample.Some? then sample else old(keys)[runId].record.sample)
    {
      var record := Read(runId, now);
      if record.None? || record.value.status != Running {
        return;
      }
      var updated := record.value.(updatedAt := now, workerId := timing.workerId);
      if sample.Some? {
        updated := updated.(sample := sample);
      }
      Write(runId, updated, now);
    }
  }
}
