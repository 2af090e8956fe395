/** What is answered about one run over a whole sequence of calls, on either backend. */
module RunLifetimes {
  import opened Wrappers
  import opened TaskRecords
  import opened TaskStores
  import opened StoreSimulation

  /** A stored record is answered until its lifetime has passed, and judged as above, on both backends. */
  lemma AnsweredExactly(t: Timing, r: RunRecord, runs: Runs, keys: Keys, id: string, now: int)
    requires id in runs && runs[id] == r
    requires id in keys && keys[id] == Stored(r, r.updatedAt + t.ttlSeconds * 1000)
    ensures MemoryAnswer(t, runs, GetRun(id), now).Some? <==> now <= r.updatedAt + t.ttlSeconds * 1000
    ensures RedisAnswer(t, keys, GetRun(id), now).Some? <==> now <= r.updatedAt + t.ttlSeconds * 1000
    ensures now <= r.updatedAt + t.ttlSeconds * 1000 ==>
      Judged(t, r, MemoryAnswer(t, runs, GetRun(id), now).value, now)
    ensures now <= r.updatedAt + t.ttlSeconds * 1000 ==> Judged(t, r, RedisAnswer(t, keys, GetRun(id), now).value, now)
  {}

  /** Every call on run `id` is a heartbeat or a getRun, and comes within `gap` of the last stamp, first `last` and then each
      heartbeat's time. */
  ghost predicate Beating(id: string, calls: seq<Call>, last: int, gap: int)
    decreases |calls|
  {
    calls == []
    || (var c := calls[0];
        if c.op.runId != id then Beating(id, calls[1..], last, gap)
        else
          && (c.op.GetRun? || c.op.Heartbeat?)
          && c.at <= last + gap
          && Beating(id, calls[1..], if c.op.Heartbeat? then c.at else last, gap))
  }

  /** Every getRun of `id` is answered with a running record. */
  ghost predicate AnsweredRunning(id: string, calls: seq<Call>, answers: seq<Option<RunRecord>>) {
    && |answers| == |calls|
    && forall k :: 0 <= k < |calls| && calls[k].op == GetRun(id) ==> answers[k].Some? && answers[k].value.status == Running
  }

  lemma AnsweredOneMore(id: string, calls: seq<Call>, answer: Option<RunRecord>, rest: seq<Option<RunRecord>>)
    requires calls != [] && AnsweredRunning(id, calls[1..], rest)
    requires calls[0].op == GetRun(id) ==> answer.Some? && answer.value.status == Running
    ensures AnsweredRunning(id, calls, [answer] + rest)
  {
    forall k | 0 <= k < |calls| && calls[k].op == GetRun(id)
      ensures ([answer] + rest)[k].Some? && ([answer] + rest)[k].value.status == Running
    {
      if k > 0 {
        assert calls[1..][k - 1] == calls[k];
      }
    }
  }

  lemma {:induction false} BeatingInMemory(t: Timing, runs: Runs, id: string, calls: seq<Call>, gap: int)
    requires id in runs && runs[id].status == Running
    requires gap <= t.staleThresholdMs && gap <= t.ttlSeconds * 1000
    requires Beating(id, calls, runs[id].updatedAt, gap)
    ensures AnsweredRunning(id, calls, MemoryRun(t, runs, calls))
    decreases |calls|
  {
    if calls != [] {
      var op, at := calls[0].op, calls[0].at;
      var left := MemoryAfter(t, runs, op, at);
      BeatingInMemory(t, left, id, calls[1..], gap);
      AnsweredOneMore(id, calls, MemoryAnswer(t, runs, op, at), MemoryRun(t, left, calls[1..]));
    }
  }

  lemma {:induction false} BeatingInRedis(t: Timing, keys: Keys, id: string, calls: seq<Call>, gap: int)
    requires id in keys && keys[id].record.status == Running
    requires keys[id].expiresAt == keys[id].record.updatedAt + t.ttlSeconds * 1000
    requires gap <= t.staleThresholdMs && gap <= t.ttlSeconds * 1000
    requires Beating(id, calls, keys[id].record.updatedAt, gap)
    ensures AnsweredRunning(id, calls, RedisRun(t, keys, calls))
    decreases |calls|
  {
    if calls != [] {
      var op, at := calls[0].op, calls[0].at;
      var left := RedisAfter(t, keys, op, at);
      BeatingInRedis(t, left, id, calls[1..], gap);
      AnsweredOneMore(id, calls, RedisAnswer(t, keys, op, at), RedisRun(t, left, calls[1..]));
    }
  }

  function Least(a: int, b: int): int {
    if a <= b then a else b
  }

  /** From createRun on, and before the run is completed, failed or created again: as long as each heartbeat and each getRun comes
      within the threshold, and within the lifetime, of the last stamp, every getRun answers that the run is running, whatever
      happens to other runs in between. */
  lemma BeatingRunsStayRunning(t: Timing, runs: Runs, keys: Keys, id: string, taskId: string, start: int, calls: seq<Call>)
    requires Beating(id, calls, start, Least(t.staleThresholdMs, t.ttlSeconds * 1000))
    ensures AnsweredRunning(id, calls, MemoryRun(t, MemoryAfter(t, runs, CreateRun(id, taskId), start), calls))
    ensures AnsweredRunning(id, calls, RedisRun(t, RedisAfter(t, keys, CreateRun(id, taskId), start), calls))
  {
    var gap := Least(t.staleThresholdMs, t.ttlSeconds * 1000);
    BeatingInMemory(t, MemoryAfter(t, runs, CreateRun(id, taskId), start), id, calls, gap);
    BeatingInRedis(t, RedisAfter(t, keys, CreateRun(id, taskId), start), id, calls, gap);
  }

  /** No call creates, completes or fails run `id`. */
  ghost predicate LeavesAlone(id: string, calls: seq<Call>) {
    forall c :: c in calls && c.op.runId == id ==> c.op.GetRun? || c.op.Heartbeat?
  }

  /** Every getRun of `id` is answered with `r` until its lifetime has passed, and with nothing afterwards. */
  ghost predicate AnsweredWith(t: Timing, id: string, r: RunRecord, calls: seq<Call>, answers: seq<Option<RunRecord>>) {
    && |answers| == |calls|
    && forall k :: 0 <= k < |calls| && calls[k].op == GetRun(id) ==>
      answers[k] == if calls[k].at <= r.updatedAt + t.ttlSeconds * 1000 then Some(r) else None
  }

  lemma AnsweredWithOneMore(t: Timing, id: string, r: RunRecord, calls: seq<Call>, answer: Option<RunRecord>,
      rest: seq<Option<RunRecord>>)
    requires calls != [] && AnsweredWith(t, id, r, calls[1..], rest)
    requires calls[0].op == GetRun(id) ==>
      answer == if calls[0].at <= r.updatedAt + t.ttlSeconds * 1000 then Some(r) else None
    ensures AnsweredWith(t, id, r, calls, [answer] + rest)
  {
    forall k | 0 <= k < |calls| && calls[k].op == GetRun(id)
      ensures ([answer] + rest)[k] == if calls[k].at <= r.updatedAt + t.ttlSeconds * 1000 then Some(r) else None
    {
      if k > 0 {
        assert calls[1..][k - 1] == calls[k];
      }
    }
  }

  /** The record is in the map, or its lifetime has passed and it was dropped. */
  ghost predicate HeldInMemory(t: Timing, runs: Runs, id: string, r: RunRecord, from: int) {
    if id in runs then runs[id] == r else from > r.updatedAt + t.ttlSeconds * 1000
  }

  lemma {:induction false} EndedInMemory(t: Timing, runs: Runs, id: string, r: RunRecord, calls: seq<Call>, from: int)
    requires r.status != Running && HeldInMemory(t, runs, id, r, from)
    requires NonDecreasing(calls, from) && LeavesAlone(id, calls)
    ensures AnsweredWith(t, id, r, calls, MemoryRun(t, runs, calls))
    decreases |calls|
  {
    if calls != [] {
      var op, at := calls[0].op, calls[0].at;
      assert calls[0] in calls;
      var left := MemoryAfter(t, runs, op, at);
      EndedInMemory(t, left, id, r, calls[1..], at);
      AnsweredWithOneMore(t, id, r, calls, MemoryAnswer(t, runs, op, at), MemoryRun(t, left, calls[1..]));
    }
  }

  lemma {:induction false} EndedInRedis(t: Timing, keys: Keys, id: string, r: RunRecord, calls: seq<Call>)
    requires r.status != Running && id in keys && keys[id] == Stored(r, r.updatedAt + t.ttlSeconds * 1000)
    requires LeavesAlone(id, calls)
    ensures AnsweredWith(t, id, r, calls, RedisRun(t, keys, calls))
    decreases |calls|
  {
    if calls != [] {
      var op, at := calls[0].op, calls[0].at;
      assert calls[0] in calls;
      var left := RedisAfter(t, keys, op, at);
      EndedInRedis(t, left, id, r, calls[1..]);
      AnsweredWithOneMore(t, id, r, calls, RedisAnswer(t, keys, op, at), RedisRun(t, left, calls[1..]));
    }
  }

  /** A live run that is completed is answered from then on with the same result, and a failed one with the same error, until the
      lifetime counted from that moment has passed; then it is gone. Heartbeats change nothing about it. */
  lemma EndedRunsStayEnded(t: Timing, r: RunRecord, runs: Runs, keys: Keys, id: string, text: string, now: int, calls: seq<Call>)
    requires id in runs && runs[id] == r
    requires id in keys && keys[id].record == r && now <= keys[id].expiresAt
    requires NonDecreasing(calls, now) && LeavesAlone(id, calls)
    ensures var done := r.(status := Completed, result := Some(text), updatedAt := now);
            && AnsweredWith(t, id, done, calls, MemoryRun(t, MemoryAfter(t, runs, CompleteRun(id, text), now), calls))
            && AnsweredWith(t, id, done, calls, RedisRun(t, RedisAfter(t, keys, CompleteRun(id, text), now), calls))
    ensures var failed := r.(status := Failed, error := Some(text), updatedAt := now);
            && AnsweredWith(t, id, failed, calls, MemoryRun(t, MemoryAfter(t, runs, FailRun(id, text), now), calls))
            && AnsweredWith(t, id, failed, calls, RedisRun(t, RedisAfter(t, keys, FailRun(id, text), now), calls))
  {
    var done, failed := r.(status := Completed, result := Some(text), updatedAt := now),
        r.(status := Failed, error := Some(text), updatedAt := now);
    EndedInMemory(t, MemoryAfter(t, runs, CompleteRun(id, text), now), id, done, calls, now);
    EndedInRedis(t, RedisAfter(t, keys, CompleteRun(id, text), now), id, done, calls);
    EndedInMemory(t, MemoryAfter(t, runs, FailRun(id, text), now), id, failed, calls, now);
    EndedInRedis(t, RedisAfter(t, keys, FailRun(id, text), now), id, failed, calls);
  }

  /** A running record that is asked for after it has been idle past the threshold, its lifetime not being over, is answered as
      stale from then on: no heartbeat brings it back. */
  lemma IdleRunsStayStale(t: Timing, r: RunRecord, runs: Runs, keys: Keys, id: string, now: int, calls: seq<Call>)
    requires r.status == Running && r.updatedAt + t.staleThresholdMs < now <= r.updatedAt + t.ttlSeconds * 1000
    requires id in runs && runs[id] == r
    requires id in keys && keys[id] == Stored(r, r.updatedAt + t.ttlSeconds * 1000)
    requires NonDecreasing(calls, now) && LeavesAlone(id, calls)
    ensures var stale := r.(status := Stale, updatedAt := now,
                staleReason := Some(if r.workerId == t.workerId then RunStale else WorkerLost));
            && AnsweredWith(t, id, stale, calls, MemoryRun(t, MemoryAfter(t, runs, GetRun(id), now), calls))
            && AnsweredWith(t, id, stale, calls, RedisRun(t, RedisAfter(t, keys, GetRun(id), now), calls))
  {
    var stale := r.(status := Stale, updatedAt := now,
        staleReason := Some(if r.workerId == t.workerId then RunStale else WorkerLost));
    EndedInMemory(t, MemoryAfter(t, runs, GetRun(id), now), id, stale, calls, now);
    EndedInRedis(t, RedisAfter(t, keys, GetRun(id), now), id, stale, calls);
  }
}
