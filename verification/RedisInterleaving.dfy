/** The keyed store with each operation split where the source awaits: a read step, then later a write step. */
module RedisInterleaving {
  import opened Wrappers
  import opened TaskRecords

  /** One run's record, and for every operation in flight what it will store. */
  datatype State = State(stored: Option<RunRecord>, inFlight: map<nat, Option<RunRecord>>)

  /** An operation reads and decides; it writes; or the server drops the record. */
  datatype Event = ReadStep(id: nat, op: Op, at: int) | WriteStep(id: nat) | Expire

  ghost predicate Enabled(s: State, e: Event) {
    match e
    case ReadStep(id, _, _) => id !in s.inFlight
    case WriteStep(id) => id in s.inFlight
    case Expire => true
  }

  function Step(t: Timing, s: State, e: Event): State
    requires Enabled(s, e)
  {
    match e
    case ReadStep(id, op, at) => s.(inFlight := s.inFlight[id := Update(t, op, s.stored, at)])
    case WriteStep(id) =>
      State(if s.inFlight[id].Some? then s.inFlight[id] else s.stored, s.inFlight - {id})
    case Expire => s.(stored := None)
  }

  ghost predicate Runs(t: Timing, s: State, events: seq<Event>, end: State)
    decreases |events|
  {
    if events == [] then s == end
    else Enabled(s, events[0]) && Runs(t, Step(t, s, events[0]), events[1..], end)
  }

  predicate IsCompleted(r: Option<RunRecord>, result: string) {
    r.Some? && r.value.status == Completed && r.value.result == Some(result)
  }

  /** Nothing in flight will store anything but the completed record. */
  ghost predicate Settled(s: State, result: string) {
    && (s.stored.None? || IsCompleted(s.stored, result))
    && (forall id :: id in s.inFlight ==> s.inFlight[id].None? || IsCompleted(s.inFlight[id], result))
  }

  /** Events that neither create the run again, nor fail it, nor complete it with something else. */
  ghost predicate Harmless(events: seq<Event>, result: string) {
    forall e :: e in events && e.ReadStep? ==> !e.op.CreateRun? && !e.op.FailRun? && (e.op.CompleteRun? ==> e.op.result == result)
  }

  lemma {:induction false} SettledStays(t: Timing, s: State, events: seq<Event>, end: State, result: string)
    requires Settled(s, result) && Runs(t, s, events, end) && Harmless(events, result)
    ensures Settled(end, result)
    decreases |events|
  {
    if events != [] {
      assert events[0] in events;
      SettledStays(t, Step(t, s, events[0]), events[1..], end, result);
    }
  }

  /** Right after completeRun wrote, the record can be lost only to expiry, whatever interleaving follows, exactly when
      no other operation in flight is about to store something else. */
  lemma CompletedStaysExactly(t: Timing, s: State, result: string)
    requires IsCompleted(s.stored, result)
    ensures (forall events, end :: Runs(t, s, events, end) && Harmless(events, result) ==>
        end.stored.None? || IsCompleted(end.stored, result))
            <==> forall id :: id in s.inFlight ==> s.inFlight[id].None? || IsCompleted(s.inFlight[id], result)
  {
    if forall id :: id in s.inFlight ==> s.inFlight[id].None? || IsCompleted(s.inFlight[id], result) {
      forall events, end | Runs(t, s, events, end) && Harmless(events, result)
        ensures end.stored.None? || IsCompleted(end.stored, result)
      {
        SettledStays(t, s, events, end, result);
      }
    } else {
      var id :| id in s.inFlight && s.inFlight[id].Some? && !IsCompleted(s.inFlight[id], result);
      var events := [WriteStep(id)];
      var end := Step(t, s, events[0]);
      assert events[1..] == [];
      assert Runs(t, s, events, end) && Harmless(events, result);
    }
  }

  /** In particular, with no other operation between its read and its write, a completed record stays completed. */
  lemma CompletedStaysWhenAlone(t: Timing, s: State, id: nat, result: string, events: seq<Event>, end: State)
    requires id in s.inFlight && IsCompleted(s.inFlight[id], result) && s.inFlight.Keys == {id}
    requires Runs(t, Step(t, s, WriteStep(id)), events, end) && Harmless(events, result)
    ensures end.stored.None? || IsCompleted(end.stored, result)
  {
    SettledStays(t, Step(t, s, WriteStep(id)), events, end, result);
  }

  /** The heartbeat timer is stopped only after completeRun has returned. A heartbeat that reads right after completeRun did,
      over a connection that answers in order, writes right after it: the completed record is running again, its result gone. */
  lemma HeartbeatUndoesCompletion(t: Timing, taskId: string, result: string, now: int)
    ensures var start := State(Some(NewRecord(t, taskId, now)), map[]);
            var events := [ReadStep(1, CompleteRun("run", result), now + 1), ReadStep(2, Heartbeat("run", None), now + 2),
                WriteStep(1), WriteStep(2)];
            var middle := State(Some(NewRecord(t, taskId, now).(status := Completed, result := Some(result),
                updatedAt := now + 1)),
                                map[2 := Some(NewRecord(t, taskId, now).(updatedAt := now + 2))]);
            var end := State(Some(NewRecord(t, taskId, now).(updatedAt := now + 2)), map[]);
            Runs(t, start, events[..3], middle) && Runs(t, start, events, end)
            && IsCompleted(middle.stored, result) && end.stored.value.status == Running && end.stored.value.result.None?
  {
    var r := NewRecord(t, taskId, now);
    var e1, e2 := ReadStep(1, CompleteRun("run", result), now + 1), ReadStep(2, Heartbeat("run", None), now + 2);
    var s0 := State(Some(r), map[]);
    var s1 := Step(t, s0, e1);
    var s2 := Step(t, s1, e2);
    var s3 := Step(t, s2, WriteStep(1));
    var s4 := Step(t, s3, WriteStep(2));
    var events := [e1, e2, WriteStep(1), WriteStep(2)];
    assert s3.inFlight == map[2 := Some(r.(updatedAt := now + 2))];
    assert s4.inFlight == map[];
    RunsOne(t, s3, WriteStep(2));
    RunsCons(t, s2, WriteStep(1), [WriteStep(2)], s4);
    RunsCons(t, s1, e2, [WriteStep(1), WriteStep(2)], s4);
    RunsCons(t, s0, e1, [e2, WriteStep(1), WriteStep(2)], s4);
    assert events == [e1] + [e2, WriteStep(1), WriteStep(2)];
    RunsOne(t, s2, WriteStep(1));
    RunsCons(t, s1, e2, [WriteStep(1)], s3);
    RunsCons(t, s0, e1, [e2, WriteStep(1)], s3);
    assert events[..3] == [e1] + [e2, WriteStep(1)];
    assert [e2, WriteStep(1), WriteStep(2)] == [e2] + [WriteStep(1), WriteStep(2)];
  }

  lemma RunsCons(t: Timing, s: State, e: Event, rest: seq<Event>, end: State)
    requires Enabled(s, e) && Runs(t, Step(t, s, e), rest, end)
    ensures Runs(t, s, [e] + rest, end)
  {
    assert ([e] + rest)[1..] == rest;
  }

  lemma RunsOne(t: Timing, s: State, e: Event)
    requires Enabled(s, e)
    ensures Runs(t, s, [e], Step(t, s, e))
  {
    assert [e][1..] == [];
  }

  /** Nothing in flight or stored is running. */
  ghost predicate NoneRunning(s: State) {
    && (s.stored.Some? ==> s.stored.value.status != Running)
    && (forall id :: id in s.inFlight && s.inFlight[id].Some? ==> s.inFlight[id].value.status != Running)
  }

  /** Once no record in store or in flight is running, only createRun can make one running, in any interleaving. */
  lemma {:induction false} RunningNeedsCreate(t: Timing, s: State, events: seq<Event>, end: State)
    requires NoneRunning(s) && Runs(t, s, events, end)
    requires forall e :: e in events && e.ReadStep? ==> !e.op.CreateRun?
    ensures NoneRunning(end)
    decreases |events|
  {
    if events != [] {
      assert events[0] in events;
      RunningNeedsCreate(t, Step(t, s, events[0]), events[1..], end);
    }
  }
}
