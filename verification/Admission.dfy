/** How many runs may be in flight: the limiter, and the requests that acquire and release its slots in any interleaving. */
module Admission {

  class ConcurrencyLimiter {
    const max: nat
    var current: nat

    constructor (max: nat)
      ensures this.max == max && current == 0
    {
      this.max := max;
      current := 0;
    }

    method TryAcquire() returns (ok: bool)
      modifies this
      ensures ok <==> old(current) < max
      ensures current == Acquired(max, old(current)) == if ok then old(current) + 1 else old(current)
    {
      ok := current < max;
      if ok {
        current := current + 1;
      }
    }

    method Release()
      modifies this
      ensures current == Released(old(current)) && (old(current) > 0 ==> current == old(current) - 1)
    {
      current := if current - 1 < 0 then 0 else current - 1;
    }
  }

  function Acquired(max: nat, current: nat): nat {
    if current >= max then current else current + 1
  }

  function Released(current: nat): nat {
    if current == 0 then 0 else current - 1
  }

  /** Where an admitted request stands: writing its run record, executing its run, left with a rejected createRun, or done. */
  datatype Phase = Creating | Executing | CreateRejected | Finished

  datatype State = State(max: nat, current: nat, phases: map<nat, Phase>, clamped: bool)

  datatype Event = Arrive(id: nat) | CreateResolves(id: nat) | CreateRejects(id: nat) | RunEnds(id: nat)

  predicate Enabled(s: State, e: Event) {
    match e
    case Arrive(id) => id !in s.phases
    case CreateResolves(id) => id in s.phases && s.phases[id] == Creating
    case CreateRejects(id) => id in s.phases && s.phases[id] == Creating
    case RunEnds(id) => id in s.phases && s.phases[id] == Executing
  }

  /** One step of handleCreateTask. `clamped` records whether a release ever found the counter at zero. */
  function Step(s: State, e: Event): State
    requires Enabled(s, e)
  {
    match e
    case Arrive(id) =>
      if s.current < s.max then s.(current := Acquired(s.max, s.current), phases := s.phases[id := Creating]) else s
    case CreateResolves(id) => s.(phases := s.phases[id := Executing])
    case CreateRejects(id) => s.(phases := s.phases[id := CreateRejected])
    case RunEnds(id) => s.(current := Released(s.current), phases := s.phases[id := Finished],
        clamped := s.clamped || s.current == 0)
  }

  function In(s: State, p: Phase): set<nat> {
    set id | id in s.phases && s.phases[id] == p
  }

  /** The counter is exactly the creates in progress, the runs executing and the creates that were rejected. */
  ghost predicate Counted(s: State) {
    && s.current == |In(s, Creating)| + |In(s, Executing)| + |In(s, CreateRejected)|
    && s.current <= s.max && !s.clamped
  }

  ghost predicate Reaches(s: State, events: seq<Event>, end: State)
    decreases |events|
  {
    if events == [] then s == end
    else Enabled(s, events[0]) && Reaches(Step(s, events[0]), events[1..], end)
  }

  lemma Moved(s: State, e: Event, from: Phase, to: Phase)
    requires Enabled(s, e) && !e.Arrive? && s.phases[e.id] == from && Step(s, e).phases == s.phases[e.id := to] && from != to
    ensures In(Step(s, e), from) == In(s, from) - {e.id} && In(Step(s, e), to) == In(s, to) + {e.id}
    ensures e.id in In(s, from) && e.id !in In(s, to)
    ensures forall p :: p != from && p != to ==> In(Step(s, e), p) == In(s, p)
  {}

  lemma Arrived(s: State, id: nat)
    requires id !in s.phases && s.current < s.max
    ensures In(Step(s, Arrive(id)), Creating) == In(s, Creating) + {id} && id !in In(s, Creating)
    ensures forall p :: p != Creating ==> In(Step(s, Arrive(id)), p) == In(s, p)
  {}

  lemma MoveCounted(s: State, e: Event, from: Phase, to: Phase)
    requires Counted(s) && Enabled(s, e) && !e.Arrive? && s.phases[e.id] == from && Step(s, e).phases == s.phases[e.id := to]
    requires from != to && to != Finished && from != Finished && !e.RunEnds?
    ensures Counted(Step(s, e))
  {
    Moved(s, e, from, to);
    assert |In(Step(s, e), from)| == |In(s, from)| - 1;
    assert |In(Step(s, e), to)| == |In(s, to)| + 1;
  }

  lemma EndCounted(s: State, id: nat)
    requires Counted(s) && Enabled(s, RunEnds(id))
    ensures Counted(Step(s, RunEnds(id)))
  {
    Moved(s, RunEnds(id), Executing, Finished);
    assert |In(Step(s, RunEnds(id)), Executing)| == |In(s, Executing)| - 1;
  }

  /** A request is admitted if and only if fewer slots than the maximum are held; an admitted one holds a slot at once. */
  lemma AdmittedExactly(s: State, id: nat)
    requires Counted(s) && id !in s.phases
    ensures id in Step(s, Arrive(id)).phases <==>
              |In(s, Creating)| + |In(s, Executing)| + |In(s, CreateRejected)| < s.max
    ensures id in Step(s, Arrive(id)).phases ==> Step(s, Arrive(id)).phases[id] == Creating
  {}

  lemma StepCounted(s: State, e: Event)
    requires Counted(s) && Enabled(s, e)
    ensures Counted(Step(s, e)) && Step(s, e).max == s.max
  {
    match e
    case Arrive(id) =>
      if s.current < s.max {
        Arrived(s, id);
        assert |In(Step(s, e), Creating)| == |In(s, Creating)| + 1;
      }
    case CreateResolves(_) => MoveCounted(s, e, Creating, Executing);
    case CreateRejects(_) => MoveCounted(s, e, Creating, CreateRejected);
    case RunEnds(id) => EndCounted(s, id);
  }

  /** In every interleaving the counter counts exactly the slots held, stays within the maximum, and no release ever meets
      its clamp at zero. */
  lemma {:induction false} AlwaysCounted(s: State, events: seq<Event>, end: State)
    requires Counted(s) && Reaches(s, events, end)
    ensures Counted(end) && end.max == s.max
    decreases |events|
  {
    if events != [] {
      StepCounted(s, events[0]);
      AlwaysCounted(Step(s, events[0]), events[1..], end);
    }
  }

  lemma StartCounted(max: nat)
    ensures Counted(State(max, 0, map[], false))
  {
    var s := State(max, 0, map[], false);
    assert forall p :: In(s, p) == {};
  }

  /** One step loses no rejected create; when they fill every slot, it admits no new request either. */
  lemma StepKeepsRejected(s: State, e: Event)
    requires Counted(s) && Enabled(s, e)
    ensures In(s, CreateRejected) <= In(Step(s, e), CreateRejected)
    ensures |In(s, CreateRejected)| == s.max ==>
              In(Step(s, e), CreateRejected) == In(s, CreateRejected) && Step(s, e).phases.Keys == s.phases.Keys
  {
    match e
    case CreateRejects(_) => Moved(s, e, Creating, CreateRejected);
    case CreateResolves(_) => Moved(s, e, Creating, Executing);
    case RunEnds(_) => Moved(s, e, Executing, Finished);
    case Arrive(_) =>
      assert Step(s, e) == s || In(Step(s, e), CreateRejected) == In(s, CreateRejected);
  }

  /** A slot whose createRun was rejected is never given back: once as many creates were rejected as there are slots, no
      later request is admitted, whatever happens. */
  lemma {:induction false} RejectedCreatesKeepSlots(s: State, events: seq<Event>, end: State)
    requires Counted(s) && Reaches(s, events, end)
    ensures In(s, CreateRejected) <= In(end, CreateRejected)
    ensures |In(s, CreateRejected)| == s.max ==> end.phases.Keys == s.phases.Keys && end.current == s.max
    decreases |events|
  {
    if events != [] {
      StepCounted(s, events[0]);
      StepKeepsRejected(s, events[0]);
      RejectedCreatesKeepSlots(Step(s, events[0]), events[1..], end);
    }
  }
}
