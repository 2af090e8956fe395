/** One dealer lookup: typing, the activation ladder, and the selections, with what each run may do and claim. */
module DealerLadder {
  import opened Wrappers
  import opened StageWait

  datatype Event =
    | TypeWithKeyboard | FillInputFallback
    | PressArrowDown | PressEnter | PressTab | ClickTrigger
    | ClickLocationSuggestion | ClickConfirmControl | ClickDealerResult

  datatype Mode = Full | AwaitPendingLookup

  /** The trigger found for the field, if any, and whether its wording rules it out. */
  datatype TriggerInfo = NoTrigger | Trigger(skipped: bool)

  datatype Observed = Observed(result: Option<Found>, activity: bool)

  /** What a click on a result is seen to have committed. */
  datatype Commit = Commit(selectedState: bool, hiddenCommit: bool, selectedSection: bool)

  /** The page as one lookup meets it. Observation 0 follows the typing and observation i + 1 the i-th ladder step; waits are
      numbered in the order they run; `loading(i)` is asked before ladder step i; selection 0 is the location. */
  datatype World = World(
    typedOk: bool, retained: bool, trigger: TriggerInfo,
    observe: nat -> Observed, wait: nat -> StagePoll, loading: nat -> bool,
    scopeTextGrew: bool, hiddenAfterTrigger: bool,
    chance: (nat, nat) -> Chance, commit: nat -> Commit,
    resultAlreadyVisible: bool, confirmControl: bool, hiddenAfterLocation: bool)

  // ---------------------------------------------------------------- input and ladder

  function Ladder(w: World): seq<Event> {
    [PressArrowDown, PressEnter, PressTab] + if w.trigger.Trigger? && !w.trigger.skipped then [ClickTrigger] else []
  }

  function Input(w: World, mode: Mode): seq<Event> {
    if mode == AwaitPendingLookup then [] else if w.typedOk && w.retained then [TypeWithKeyboard]
        else [TypeWithKeyboard, FillInputFallback]
  }

  /** The arrow key first, then Enter, then Tab, and the trigger last, if there is one whose wording does not rule it out. */
  predicate InLadderOrder(w: World, steps: seq<Event>) {
    && |steps| <= 4
    && (|steps| >= 1 ==> steps[0] == PressArrowDown)
    && (|steps| >= 2 ==> steps[1] == PressEnter)
    && (|steps| >= 3 ==> steps[2] == PressTab)
    && (|steps| == 4 ==> steps[3] == ClickTrigger && w.trigger == Trigger(false))
  }

  lemma PrefixInOrder(w: World, steps: seq<Event>)
    requires steps <= Ladder(w)
    ensures InLadderOrder(w, steps)
    ensures |Ladder(w)| == if w.trigger == Trigger(false) then 4 else 3
  {
    var ladder := Ladder(w);
    assert forall i :: 0 <= i < |steps| ==> steps[i] == ladder[i];
  }

  datatype SkipReason = RequestPendingDuringWait | LoadingVisibleAfterWait

  /** Steps of the ladder not taken because a lookup was still running. */
  datatype Skipped = Skipped(reason: SkipReason, stepsNotTried: seq<Event>)

  /** What a run did and learned, in order: events, what was observed after the typing and after each step, ended full waits,
      and the looks for a loading indicator before a step. */
  datatype Entry = Did(event: Event) | Saw(observed: Observed) | Waited(poll: StagePoll) | Looked(loading: bool)

  function Events(trace: seq<Entry>): seq<Event> {
    if trace == [] then []
    else Events(trace[..|trace| - 1]) + if trace[|trace| - 1].Did? then [trace[|trace| - 1].event] else []
  }

  predicate LadderEvent(e: Event) {
    e == PressArrowDown || e == PressEnter || e == PressTab || e == ClickTrigger
  }

  /** A ladder step at `i` comes only when no full wait before it ended with a result or a pending request, and, once a wait
      has run, right after a look that found no loading indicator. */
  predicate StepIsSafe(trace: seq<Entry>, i: nat)
    requires i < |trace|
  {
    trace[i].Did? && LadderEvent(trace[i].event) ==>
      forall j :: 0 <= j < i && trace[j].Waited? ==>
        trace[j].poll.result.None? && !trace[j].poll.pendingAtTimeout && trace[i - 1] == Looked(false)
  }

  ghost predicate NeverResetsALookup(trace: seq<Entry>) {
    forall i :: 0 <= i < |trace| ==> StepIsSafe(trace, i)
  }

  /** Lookup activity hands over to a full wait at once, and nothing follows an observed result. */
  ghost predicate HandsOver(trace: seq<Entry>) {
    forall i :: 0 <= i < |trace| && trace[i].Saw? ==>
      && (trace[i].observed.result.Some? ==> i == |trace| - 1)
      && (trace[i].observed.result.None? && trace[i].observed.activity ==> i + 1 < |trace| && trace[i + 1].Waited?)
  }

  /** The trace may go on: it does not end in an observed result. */
  predicate Open(trace: seq<Entry>) {
    trace == [] || (trace[|trace| - 1].Saw? ==> trace[|trace| - 1].observed.result.None?)
  }

  predicate Active(e: Entry) {
    e.Saw? && e.observed.result.None? && e.observed.activity
  }

  lemma HandsOverSnoc(trace: seq<Entry>, e: Entry)
    requires HandsOver(trace) && Open(trace) && !Active(e)
    ensures HandsOver(trace + [e])
  {
    var t := trace + [e];
    assert forall i :: 0 <= i < |trace| ==> t[i] == trace[i];
  }

  lemma HandsOverWait(trace: seq<Entry>, e: Entry, poll: StagePoll)
    requires HandsOver(trace) && Open(trace) && Active(e)
    ensures HandsOver(trace + [e] + [Waited(poll)]) && Open(trace + [e] + [Waited(poll)])
  {
    var t := trace + [e] + [Waited(poll)];
    assert forall i :: 0 <= i < |trace| ==> t[i] == trace[i];
    assert t[|trace|] == e && t[|trace| + 1] == Waited(poll);
  }

  lemma {:induction false} EventsConcat(x: seq<Entry>, y: seq<Entry>)
    ensures Events(x + y) == Events(x) + Events(y)
    decreases |y|
  {
    if y == [] {
      assert x + y == x;
    } else {
      EventsConcat(x, y[..|y| - 1]);
      assert (x + y)[..|x + y| - 1] == x + y[..|y| - 1];
    }
  }

  lemma EventsOne(e: Entry)
    ensures Events([e]) == if e.Did? then [e.event] else []
  {
    assert [e][..0] == [];
  }

  lemma EventsSnoc(x: seq<Entry>, e: Entry)
    ensures Events(x + [e]) == Events(x) + if e.Did? then [e.event] else []
  {
    EventsConcat(x, [e]);
    EventsOne(e);
  }

  lemma StaysSafe(trace: seq<Entry>, e: Entry)
    requires NeverResetsALookup(trace)
    requires e.Did? && LadderEvent(e.event) ==>
      forall j :: 0 <= j < |trace| && trace[j].Waited? ==>
        trace[j].poll.result.None? && !trace[j].poll.pendingAtTimeout && trace[|trace| - 1] == Looked(false)
    ensures NeverResetsALookup(trace + [e])
  {
    var t := trace + [e];
    forall i | 0 <= i < |t|
      ensures StepIsSafe(t, i)
    {
      if i < |trace| {
        assert StepIsSafe(trace, i);
      }
    }
  }

  function NoPoll(result: Option<Found>): StagePoll {
    StagePoll(result, false, false, false, false)
  }

  predicate NoWaitIn(trace: seq<Entry>) {
    forall j :: 0 <= j < |trace| ==> !trace[j].Waited?
  }

  /** Every ended wait in the trace left no result, and a pending request only if it was the last one. */
  predicate WaitsWereIdle(trace: seq<Entry>, last: StagePoll) {
    forall j :: 0 <= j < |trace| && trace[j].Waited? ==>
      trace[j].poll.result.None? && (trace[j].poll.pendingAtTimeout ==> last.pendingAtTimeout)
  }

  /** The state of the climb after `steps` of the ladder, with what the lookup's first stage is known to be. */
  ghost predicate Climbing(w: World, trace: seq<Entry>, steps: seq<Event>, stage1: StagePoll, waits: nat) {
    && Events(trace) == Input(w, Full) + steps && steps <= Ladder(w)
    && NeverResetsALookup(trace)
    && (waits == 0 <==> NoWaitIn(trace))
    && (stage1.result.None? ==> WaitsWereIdle(trace, stage1))
    && (stage1.result.None? && waits > 0 ==> w.wait(waits - 1).result.None?)
  }

  lemma ClimbEnds(w: World, trace: seq<Entry>, steps: seq<Event>, stage1: StagePoll, waits: nat)
    requires Climbing(w, trace, steps, stage1, waits)
    ensures Events(trace) == Input(w, Full) + steps && steps <= Ladder(w)
    ensures NeverResetsALookup(trace) && (waits == 0 <==> NoWaitIn(trace))
    ensures stage1.result.None? && waits > 0 ==> w.wait(waits - 1).result.None?
  {}

  lemma FoundKeeps(w: World, trace: seq<Entry>, steps: seq<Event>, stage1: StagePoll, waits: nat, found: StagePoll)
    requires Climbing(w, trace, steps, stage1, waits) && found.result.Some?
    ensures Climbing(w, trace, steps, found, waits)
  {}

  lemma WaitKeeps(w: World, trace: seq<Entry>, steps: seq<Event>, stage1: StagePoll, waits: nat, poll: StagePoll)
    requires Climbing(w, trace, steps, stage1, waits) && stage1.result.None? && !stage1.pendingAtTimeout
    requires poll == w.wait(waits)
    ensures Climbing(w, trace + [Waited(poll)], steps, poll, waits + 1)
  {
    var t := trace + [Waited(poll)];
    EventsSnoc(trace, Waited(poll));
    StaysSafe(trace, Waited(poll));
    assert Input(w, Full) + steps + [] == Input(w, Full) + steps;
    assert t[|trace|].Waited?;
  }

  /** Noting an observation changes neither the events nor the waits. */
  lemma SawKeeps(w: World, trace: seq<Entry>, steps: seq<Event>, stage1: StagePoll, waits: nat, o: Observed)
    requires Climbing(w, trace, steps, stage1, waits)
    ensures Climbing(w, trace + [Saw(o)], steps, stage1, waits)
  {
    var t := trace + [Saw(o)];
    EventsSnoc(trace, Saw(o));
    StaysSafe(trace, Saw(o));
    assert Input(w, Full) + steps + [] == Input(w, Full) + steps;
    assert forall j :: 0 <= j < |trace| ==> t[j] == trace[j];
  }

  lemma StepKeeps(w: World, trace: seq<Entry>, steps: seq<Event>, stage1: StagePoll, waits: nat, looked: seq<Entry>)
    requires Climbing(w, trace, steps, stage1, waits) && stage1.result.None? && !stage1.pendingAtTimeout
    requires |steps| < |Ladder(w)|
    requires looked == if waits > 0 then trace + [Looked(false)] else trace
    ensures Climbing(w, looked + [Did(Ladder(w)[|steps|])], steps + [Ladder(w)[|steps|]], stage1, waits)
  {
    var e := Ladder(w)[|steps|];
    if waits > 0 {
      EventsSnoc(trace, Looked(false));
      StaysSafe(trace, Looked(false));
      assert Events(looked) == Events(trace) + [];
    }
    EventsSnoc(looked, Did(e));
    StaysSafe(looked, Did(e));
    assert Input(w, Full) + steps + [e] == Input(w, Full) + (steps + [e]);
    StepWaits(trace, looked, e, stage1);
  }

  lemma StepWaits(trace: seq<Entry>, looked: seq<Entry>, e: Event, last: StagePoll)
    requires looked == trace || looked == trace + [Looked(false)]
    ensures NoWaitIn(looked + [Did(e)]) <==> NoWaitIn(trace)
    ensures WaitsWereIdle(trace, last) ==> WaitsWereIdle(looked + [Did(e)], last)
  {
    var t := looked + [Did(e)];
    assert forall j :: 0 <= j < |trace| ==> t[j] == trace[j];
  }

  /** The typing: keys first, and the value set directly if they failed or the field did not keep it. */
  method TypeValue(w: World) returns (trace: seq<Entry>)
    ensures Climbing(w, trace, [], NoPoll(None), 0) && HandsOver(trace) && Open(trace)
  {
    trace := [Did(TypeWithKeyboard)];
    EventsOne(Did(TypeWithKeyboard));
    if !w.typedOk || !w.retained {
      EventsSnoc(trace, Did(FillInputFallback));
      trace := trace + [Did(FillInputFallback)];
    }
    TypingIsSafe(w, trace);
  }

  lemma TypingIsSafe(w: World, trace: seq<Entry>)
    requires Events(trace) == Input(w, Full)
    requires forall i :: 0 <= i < |trace| ==> trace[i].Did? && !LadderEvent(trace[i].event)
    ensures Climbing(w, trace, [], NoPoll(None), 0)
  {
    assert Input(w, Full) + [] == Input(w, Full);
  }

  /** What follows an observation: its result is taken, activity starts a full wait, anything else goes on as before. */
  method Follow(w: World, trace: seq<Entry>, ghost steps: seq<Event>, stage1: StagePoll, waits: nat, o: Observed)
    returns (stage1': StagePoll, trace': seq<Entry>, waits': nat)
    requires Climbing(w, trace, steps, stage1, waits) && HandsOver(trace) && Open(trace)
    requires stage1.result.None? && !stage1.pendingAtTimeout
    requires waits == 0 ==> stage1 == NoPoll(None)
    ensures Climbing(w, trace', steps, stage1', waits') && HandsOver(trace')
    ensures stage1'.result.None? ==> Open(trace')
    ensures o.result.Some? ==> stage1' == stage1.(result := o.result)
    ensures waits' == 0 && stage1'.result.None? ==> stage1' == NoPoll(None)
  {
    SawKeeps(w, trace, steps, stage1, waits, o);
    stage1', trace', waits' := stage1, trace + [Saw(o)], waits;
    if o.result.Some? {
      HandsOverSnoc(trace, Saw(o));
      FoundKeeps(w, trace', steps, stage1, waits, stage1.(result := o.result));
      stage1' := stage1.(result := o.result);
    } else if o.activity {
      HandsOverWait(trace, Saw(o), w.wait(waits));
      WaitKeeps(w, trace', steps, stage1, waits, w.wait(waits));
      stage1', trace', waits' := w.wait(waits), trace' + [Waited(w.wait(waits))], waits + 1;
    } else {
      HandsOverSnoc(trace, Saw(o));
    }
  }

  /**
   * Typing and the ladder of a full run. The steps taken are a prefix of the ladder; it ends early only at a result, or
   * because a lookup was still pending or loading, and then the rest is reported as not tried.
   */
  method Activate(w: World) returns (stage1: StagePoll, trace: seq<Entry>, steps: seq<Event>, waits: nat,
      skipped: Option<Skipped>)
    ensures Events(trace) == Input(w, Full) + steps && steps <= Ladder(w) && InLadderOrder(w, steps)
    ensures stage1.result.None? && skipped.None? ==> |steps| == if w.trigger == Trigger(false) then 4 else 3
    ensures NeverResetsALookup(trace) && HandsOver(trace)
    ensures stage1.result.None? ==> Open(trace)
    ensures waits == 0 <==> NoWaitIn(trace)
    ensures stage1.result.None? && waits > 0 ==> w.wait(waits - 1).result.None?
    ensures steps < Ladder(w) ==> stage1.result.Some? || skipped.Some?
    ensures skipped.Some? ==>
      && stage1.result.None? && waits > 0
      && steps + skipped.value.stepsNotTried == Ladder(w) && skipped.value.stepsNotTried != []
      && (skipped.value.reason == RequestPendingDuringWait <==> stage1.pendingAtTimeout)
      && (skipped.value.reason == LoadingVisibleAfterWait ==> w.loading(|steps|))
  {
    trace := TypeValue(w);
    steps, skipped := [], None;
    stage1, trace, waits := Follow(w, trace, steps, NoPoll(None), 0, w.observe(0));
    var ladder := Ladder(w);
    while |steps| < |ladder|
      invariant Climbing(w, trace, steps, stage1, waits) == true  // the equation keeps the definition folded
      invariant HandsOver(trace) == true
      invariant stage1.result.None? ==> Open(trace)
      invariant |steps| <= |ladder|
      invariant waits == 0 && stage1.result.None? ==> stage1 == NoPoll(None)
      decreases |ladder| - |steps|
    {
      if stage1.result.Some? {
        break;
      }
      var i := |steps|;
      var looked := trace;
      if waits > 0 {
        if stage1.pendingAtTimeout || w.loading(i) {
          skipped := Some(Skipped(if stage1.pendingAtTimeout then RequestPendingDuringWait else LoadingVisibleAfterWait,
              ladder[i..]));
          break;
        }
        HandsOverSnoc(trace, Looked(false));
        looked := trace + [Looked(false)];
      }
      StepKeeps(w, trace, steps, stage1, waits, looked);
      HandsOverSnoc(looked, Did(ladder[i]));
      trace, steps := looked + [Did(ladder[i])], steps + [ladder[i]];
      stage1, trace, waits := Follow(w, trace, steps, stage1, waits, w.observe(i + 1));
    }
    ClimbEnds(w, trace, steps, stage1, waits);
    PrefixInOrder(w, steps);
  }
}
