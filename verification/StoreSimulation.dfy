/** The two backends answer alike, and exactly when they stop doing so. */
module StoreSimulation {
  import opened Wrappers
  import opened TaskRecords
  import opened TaskStores

  /** What a backend would still show of a run at `now`. */
  function LiveInMemory(t: Timing, runs: Runs, id: string, now: int): Option<RunRecord> {
    if id in runs && !IsExpired(t, runs[id], now) then Some(runs[id]) else None
  }

  /** Both backends show the same records, and each key expires a full lifetime after its record's stamp. */
  ghost predicate Simulates(t: Timing, runs: Runs, keys: Keys, now: int) {
    && (forall id :: id in keys ==> keys[id].expiresAt == keys[id].record.updatedAt + t.ttlSeconds * 1000)
    && (forall id :: LiveInMemory(t, runs, id, now) == ReadKey(keys, id, now))
  }

  /** A write that finds a record already past its lifetime in memory and would change it. */
  predicate HitsExpired(t: Timing, runs: Runs, op: Op, now: int) {
    && (op.CompleteRun? || op.FailRun? || op.Heartbeat?)
    && op.runId in runs
    && IsExpired(t, runs[op.runId], now)
    && (op.Heartbeat? ==> runs[op.runId].status == Running)
  }

  lemma TimePasses(t: Timing, runs: Runs, keys: Keys, now: int, later: int)
    requires Simulates(t, runs, keys, now) && now <= later
    ensures Simulates(t, runs, keys, later)
  {
    forall id
      ensures LiveInMemory(t, runs, id, later) == ReadKey(keys, id, later)
    {
      assert LiveInMemory(t, runs, id, now) == ReadKey(keys, id, now);
    }
  }

  /** One operation gives the same answer on both backends, and keeps them alike exactly when it does not hit an expired
      record. */
  lemma StepSimulates(t: Timing, runs: Runs, keys: Keys, op: Op, now: int)
    requires Simulates(t, runs, keys, now)
    ensures MemoryAnswer(t, runs, op, now) == RedisAnswer(t, keys, op, now)
    ensures Simulates(t, MemoryAfter(t, runs, op, now), RedisAfter(t, keys, op, now), now) <==> !HitsExpired(t, runs, op, now)
  {
    var id := op.runId;
    var runs', keys' := MemoryAfter(t, runs, op, now), RedisAfter(t, keys, op, now);
    assert LiveInMemory(t, runs, id, now) == ReadKey(keys, id, now);
    forall x | x != id
      ensures LiveInMemory(t, runs', x, now) == ReadKey(keys', x, now)
    {
      assert LiveInMemory(t, runs, x, now) == ReadKey(keys, x, now);
    }
    if HitsExpired(t, runs, op, now) {
      assert LiveInMemory(t, runs', id, now) != ReadKey(keys', id, now);
    }
  }

  /** An operation and the time at which it happens. */
  datatype Call = Call(op: Op, at: int)

  ghost predicate NonDecreasing(calls: seq<Call>, from: int) {
    calls == [] || (from <= calls[0].at && NonDecreasing(calls[1..], calls[0].at))
  }

  function MemoryRun(t: Timing, runs: Runs, calls: seq<Call>): seq<Option<RunRecord>>
    decreases |calls|
  {
    if calls == [] then []
    else
      var first, left := MemoryAnswer(t, runs, calls[0].op, calls[0].at), MemoryAfter(t, runs, calls[0].op, calls[0].at);
      [first] + MemoryRun(t, left, calls[1..])
  }

  function RedisRun(t: Timing, keys: Keys, calls: seq<Call>): seq<Option<RunRecord>>
    decreases |calls|
  {
    if calls == [] then []
    else [RedisAnswer(t, keys, calls[0].op, calls[0].at)] + RedisRun(t, RedisAfter(t, keys, calls[0].op, calls[0].at), calls[1..])
  }

  /** No call of the run hits a record that has expired by then. */
  predicate NeverHitsExpired(t: Timing, runs: Runs, calls: seq<Call>)
    decreases |calls|
  {
    calls == [] ||
    (!HitsExpired(t, runs, calls[0].op, calls[0].at)
     && NeverHitsExpired(t, MemoryAfter(t, runs, calls[0].op, calls[0].at), calls[1..]))
  }

  lemma {:induction false} RunsFromAlike(t: Timing, runs: Runs, keys: Keys, calls: seq<Call>, from: int)
    requires Simulates(t, runs, keys, from) && NonDecreasing(calls, from) && NeverHitsExpired(t, runs, calls)
    ensures MemoryRun(t, runs, calls) == RedisRun(t, keys, calls)
    decreases |calls|
  {
    if calls != [] {
      var op, at := calls[0].op, calls[0].at;
      TimePasses(t, runs, keys, from, at);
      StepSimulates(t, runs, keys, op, at);
      RunsFromAlike(t, MemoryAfter(t, runs, op, at), RedisAfter(t, keys, op, at), calls[1..], at);
    }
  }

  /** Two empty stores answer every run alike, call by call, as long as no write hits an expired record. */
  lemma BackendsAnswerAlike(t: Timing, calls: seq<Call>, from: int)
    requires NonDecreasing(calls, from) && NeverHitsExpired(t, map[], calls)
    ensures MemoryRun(t, map[], calls) == RedisRun(t, map[], calls)
  {
    RunsFromAlike(t, map[], map[], calls, from);
  }

  /** A write that does hit one brings the record back in memory only: asking right away tells the backends apart. */
  lemma ExpiredWriteTellsApart(t: Timing, runs: Runs, keys: Keys, op: Op, now: int)
    requires Simulates(t, runs, keys, now) && HitsExpired(t, runs, op, now)
    ensures MemoryRun(t, runs, [Call(op, now), Call(GetRun(op.runId), now)]) != RedisRun(t, keys,
        [Call(op, now), Call(GetRun(op.runId), now)])
  {
    var id, calls := op.runId, [Call(op, now), Call(GetRun(op.runId), now)];
    assert calls[1..] == [Call(GetRun(id), now)];
    assert LiveInMemory(t, runs, id, now) == ReadKey(keys, id, now);
    var runs', keys' := MemoryAfter(t, runs, op, now), RedisAfter(t, keys, op, now);
    assert MemoryRun(t, runs', calls[1..])[0] == MemoryAnswer(t, runs', GetRun(id), now);
    assert RedisRun(t, keys', calls[1..])[0] == RedisAnswer(t, keys', GetRun(id), now);
    assert MemoryRun(t, runs, calls)[1..] == MemoryRun(t, runs', calls[1..]);
    assert RedisRun(t, keys, calls)[1..] == RedisRun(t, keys', calls[1..]);
  }
}
