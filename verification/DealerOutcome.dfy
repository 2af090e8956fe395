/** The whole of one dealer lookup: activation, the selections, and the outcome it may report. */
module DealerOutcome {
  import opened Wrappers
  import opened StageWait
  import opened DealerLadder

  const FOLLOW_UP_SELECTIONS: nat := 1

  datatype Kind = AutoPopulated | DealerSelected | SuggestionSelected | Unresolved

  datatype Evidence =
    | HiddenCommittedAfterTrigger | NoChangeInScope | ShownInSelectedSection | CarriesSelectedState | HiddenCommittedAfterDealer
    | NoCommittedStateOnResult | HiddenCommittedAfterLocation | HiddenCommittedNoDealerStage | NoStateNorCommitAfterLocation

  datatype Failure = TextChangedNoCommit | NothingChanged | CommitNeverVerified | NoDealerNorCommit

  datatype Outcome = Outcome(
    kind: Kind, locationDetected: bool, locationSelected: bool, resultsDetected: bool, autoPopulated: bool, dealerSelected: bool,
    verified: bool, evidence: Evidence, failure: Option<Failure>)

  predicate Committed(c: Commit) {
    c.selectedState || c.hiddenCommit || c.selectedSection
  }

  /** The widget already shows the location as chosen in a section of its own, and by nothing else. */
  predicate OnlyInSection(c: Commit) {
    c.selectedSection && !c.selectedState && !c.hiddenCommit
  }

  // ---------------------------------------------------------------- what a reader may conclude

  /** The signal an evidence label names, over the page's own answers; `n` is the number of dealer clicks. */
  predicate Held(w: World, found: bool, n: nat, e: Evidence) {
    var last := w.commit(n);
    match e
    case HiddenCommittedAfterTrigger => !found && w.hiddenAfterTrigger
    case NoChangeInScope => !found && !w.hiddenAfterTrigger
    case ShownInSelectedSection => found && last.selectedSection && !last.selectedState && !last.hiddenCommit
    case CarriesSelectedState => found && last.selectedState
    case HiddenCommittedAfterDealer => found && n > 0 && last.hiddenCommit
    case NoCommittedStateOnResult => found && !Committed(last)
    case HiddenCommittedAfterLocation => found && n == 0 && w.hiddenAfterLocation
    case HiddenCommittedNoDealerStage => found && n == 0 && last.hiddenCommit
    case NoStateNorCommitAfterLocation => found && n == 0 && !Committed(last) && !w.hiddenAfterLocation
  }

  /** Only the last selection's own commit verifies, or a hidden value written without any dealer click. */
  predicate Verifies(w: World, found: bool, n: nat) {
    var last := w.commit(n);
    if !found then w.hiddenAfterTrigger
    else last.selectedState || last.hiddenCommit || last.selectedSection || (n == 0 && w.hiddenAfterLocation)
  }

  function Repeat(e: Event, n: nat): seq<Event> {
    if n == 0 then [] else Repeat(e, n - 1) + [e]
  }

  function SelectionEvents(found: bool, confirmed: bool, n: nat): seq<Event> {
    if !found then []
    else [ClickLocationSuggestion] + (if confirmed then [ClickConfirmControl] else []) + Repeat(ClickDealerResult, n)
  }

  /** What one selection's presses are: each lands at most once, and they start at the result the stage found. */
  ghost predicate SelectionsLand(presses: seq<seq<Press>>) {
    forall k :: 0 <= k < |presses| ==> LandsAtMostOnce(presses[k])
  }

  function LastPressed(presses: seq<seq<Press>>): Found
    requires presses != [] && presses[|presses| - 1] != []
  {
    var last := presses[|presses| - 1];
    last[|last| - 1].found
  }

  /** What any run reports, in terms of what the page did. */
  ghost predicate Sincere(w: World, found: bool, n: nat, o: Outcome) {
    && (o.verified <==> Verifies(w, found, n))
    && (o.kind == Unresolved <==> !o.verified)
    && (o.failure.Some? <==> !o.verified)
    && (o.failure == Some(TextChangedNoCommit) <==> !found && !o.verified && w.scopeTextGrew)
    && (o.failure == Some(NothingChanged) <==> !found && !o.verified && !w.scopeTextGrew)
    && (n > 0 && !o.verified ==> o.failure == Some(CommitNeverVerified))
    && Held(w, found, n, o.evidence)
    && (o.kind == AutoPopulated <==> o.autoPopulated)
    && (o.autoPopulated ==> !o.dealerSelected && n == 0)
    && (o.kind == DealerSelected || o.kind == SuggestionSelected ==> o.dealerSelected && o.resultsDetected)
    && (o.locationDetected <==> found)
    && (n > 0 ==> o.locationSelected && o.dealerSelected)
  }

  /** What a run without a dealer click says of itself: unverified, a selectable result that no control confirmed counts as the
      dealer, anything else as a location; a hidden value vouches for a location only when it was confirmed or committed. */
  ghost predicate Accounted(w: World, location: Found, confirmed: bool, o: Outcome) {
    var selectable := location.authoritative && !confirmed;
    && (!o.verified ==>
          && (o.dealerSelected <==> selectable) && (o.resultsDetected <==> selectable) && (o.locationSelected <==> confirmed)
          && (o.failure == Some(CommitNeverVerified) <==> selectable) && (o.failure == Some(NoDealerNorCommit) <==> !selectable)
          && (o.evidence == NoCommittedStateOnResult <==> selectable))
    && (o.autoPopulated ==> !o.resultsDetected && (o.locationSelected <==> confirmed || Committed(w.commit(0))))
    && (o.verified && !o.autoPopulated ==> !o.locationSelected)
  }

  // ---------------------------------------------------------------- the run

  /** Nothing selectable ever appeared: only a hidden value can vouch for a dealer. */
  function NothingFound(w: World): Outcome {
    if w.hiddenAfterTrigger then Outcome(AutoPopulated, false, false, false, true, false, true, HiddenCommittedAfterTrigger, None)
    else Outcome(Unresolved, false, false, false, false, false, false, NoChangeInScope,
        Some(if w.scopeTextGrew then TextChangedNoCommit else NothingChanged))
  }

  /** The location was selected and no dealer stage ever came. */
  function NoDealerStage(w: World, location: Found, confirmed: bool): Outcome {
    var commit := w.commit(0);
    if w.hiddenAfterLocation then
      Outcome(AutoPopulated, true, confirmed || Committed(commit), false, true, false, true, HiddenCommittedAfterLocation, None)
    else if Committed(commit) then
      Outcome(if location.authoritative then DealerSelected else SuggestionSelected, true, false, true, false, true, true,
              if commit.selectedState then CarriesSelectedState else HiddenCommittedNoDealerStage, None)
    else
      var single := location.authoritative && !confirmed;
      Outcome(Unresolved, true, confirmed, single, false, single, false,
              if single then NoCommittedStateOnResult else NoStateNorCommitAfterLocation,
              Some(if single then CommitNeverVerified else NoDealerNorCommit))
  }

  /** The widget already shows the location in its own section: no further stage is awaited. */
  function ShownAlone(location: Found): Outcome {
    Outcome(if location.authoritative then DealerSelected else SuggestionSelected, true, false, true, false, true, true,
            ShownInSelectedSection, None)
  }

  function AfterDealerClicks(commit: Commit, dealer: Found): Outcome {
    var verified := Committed(commit);
    Outcome(
      if !verified then Unresolved else if dealer.authoritative then DealerSelected else SuggestionSelected,
      true, true, true, false, true, verified,
      if !verified then NoCommittedStateOnResult
      else if commit.selectedState then CarriesSelectedState
      else if commit.hiddenCommit then HiddenCommittedAfterDealer else ShownInSelectedSection,
      if verified then None else Some(CommitNeverVerified))
  }

  lemma NoDealerOutcomeSincere(w: World, location: Found, confirmed: bool)
    requires !OnlyInSection(w.commit(0))
    ensures Sincere(w, true, 0, NoDealerStage(w, location, confirmed))
    ensures Accounted(w, location, confirmed, NoDealerStage(w, location, confirmed))
  {}

  lemma ShownAloneSincere(w: World, location: Found)
    requires OnlyInSection(w.commit(0))
    ensures Sincere(w, true, 0, ShownAlone(location)) && Accounted(w, location, false, ShownAlone(location))
  {}

  lemma DealerOutcomeSincere(w: World, n: nat, dealer: Found)
    requires n > 0
    ensures Sincere(w, true, n, AfterDealerClicks(w.commit(n), dealer))
  {}

  /** One or two dealer clicks: the second only when the first committed nothing and a further result came. */
  method SelectDealer(w: World, first: Found, wait: nat)
      returns (dealer: Found, n: nat, presses: seq<seq<Press>>, events: seq<Event>)
    ensures events == Repeat(ClickDealerResult, n)
    ensures 1 <= n <= FOLLOW_UP_SELECTIONS + 1 && |presses| == n && SelectionsLand(presses)
    ensures dealer == LastPressed(presses) && presses[0][0].found == first
    ensures n == 2 ==> !Committed(w.commit(1)) && w.wait(wait).result == Some(presses[1][0].found)
    ensures n == 1 ==> Committed(w.commit(1)) || w.wait(wait).result.None?
  {
    var next := Some(first);
    dealer, n, presses, events := first, 0, [], [];
    while next.Some? && n <= FOLLOW_UP_SELECTIONS
      invariant n == |presses| == |events| <= FOLLOW_UP_SELECTIONS && SelectionsLand(presses)
      invariant events == Repeat(ClickDealerResult, n)
      invariant n > 0 ==> dealer == LastPressed(presses) && presses[0][0].found == first && !Committed(w.commit(1))
      invariant n == 0 ==> next == Some(first)
      invariant n == 1 ==> w.wait(wait).result == next
      decreases FOLLOW_UP_SELECTIONS + 1 - n
    {
      var outcome, pressed;
      var selection := n + 1;
      dealer, outcome, pressed := ClickStageResult((attempt: nat) => w.chance(selection, attempt), next.value);
      presses, events, n := presses + [pressed], events + [ClickDealerResult], selection;
      if Committed(w.commit(n)) || n == FOLLOW_UP_SELECTIONS + 1 {
        break;
      }
      next := w.wait(wait).result;
    }
  }

  /** Everything after the first stage: the location click, a confirm control, the dealer stage. */
  method Select(w: World, location: Found, wait: nat)
    returns (o: Outcome, events: seq<Event>, confirmed: bool, n: nat, presses: seq<seq<Press>>)
    ensures events == SelectionEvents(true, confirmed, n)
    ensures n <= FOLLOW_UP_SELECTIONS + 1 && |presses| == n + 1 && SelectionsLand(presses)
    ensures Sincere(w, true, n, o)
    ensures presses[0][0].found == location
    ensures confirmed ==> w.confirmControl && !w.resultAlreadyVisible
    ensures OnlyInSection(w.commit(0)) ==> !confirmed
    ensures n > 0 <==> !OnlyInSection(w.commit(0)) && w.wait(wait).result.Some?
    ensures n == 2 ==> !Committed(w.commit(1))
    ensures o.verified && !o.autoPopulated ==> (o.kind == DealerSelected <==> LastPressed(presses).authoritative)
    ensures n == 0 ==> Accounted(w, LastPressed(presses), confirmed, o)
  {
    var found, outcome, pressed := ClickStageResult((attempt: nat) => w.chance(0, attempt), location);
    presses, events, confirmed, n := [pressed], [ClickLocationSuggestion], false, 0;
    assert LastPressed(presses) == found && SelectionsLand(presses);
    var commit := w.commit(0);
    if OnlyInSection(commit) {
      ShownAloneSincere(w, found);
      o := ShownAlone(found);
      return;
    }
    if !w.resultAlreadyVisible && w.confirmControl {
      confirmed, events := true, events + [ClickConfirmControl];
    }
    var stage3 := w.wait(wait);
    if stage3.result.Some? {
      var dealer, dealerPresses, dealerEvents;
      dealer, n, dealerPresses, dealerEvents := SelectDealer(w, stage3.result.value, wait + 1);
      presses, events := presses + dealerPresses, events + dealerEvents;
      DealerOutcomeSincere(w, n, dealer);
      o := AfterDealerClicks(w.commit(n), dealer);
    } else {
      NoDealerOutcomeSincere(w, found, confirmed);
      o := NoDealerStage(w, found, confirmed);
    }
  }

  /** Some full wait of the run may end without a result. */
  ghost predicate SomeWaitEmpty(w: World) {
    exists j: nat :: w.wait(j).result.None?
  }

  /** Activation, and a full wait when none has run yet or only a pending lookup is awaited. */
  method FirstStage(w: World, mode: Mode) returns (stage1: StagePoll, trace: seq<Entry>, steps: seq<Event>, waits: nat)
    ensures steps <= Ladder(w) && (mode == AwaitPendingLookup ==> steps == [])
    ensures Events(trace) == Input(w, mode) + steps && NeverResetsALookup(trace) && HandsOver(trace)
    ensures stage1.result.None? ==> !NoWaitIn(trace) && SomeWaitEmpty(w)
  {
    stage1, waits, trace, steps := NoPoll(None), 0, [], [];
    if mode == Full {
      var skipped;
      stage1, trace, steps, waits, skipped := Activate(w);
    }
    if stage1.result.None? && (waits == 0 || mode == AwaitPendingLookup) {
      WaitEndsActivation(trace, w.wait(waits));
      stage1 := w.wait(waits);
      trace, waits := trace + [Waited(stage1)], waits + 1;
    }
  }

  lemma WaitEndsActivation(trace: seq<Entry>, poll: StagePoll)
    requires NeverResetsALookup(trace) && HandsOver(trace) && Open(trace)
    ensures NeverResetsALookup(trace + [Waited(poll)]) && HandsOver(trace + [Waited(poll)])
    ensures Events(trace + [Waited(poll)]) == Events(trace) && !NoWaitIn(trace + [Waited(poll)])
  {
    EventsSnoc(trace, Waited(poll));
    assert Events(trace) + [] == Events(trace);
    StaysSafe(trace, Waited(poll));
    HandsOverSnoc(trace, Waited(poll));
    assert (trace + [Waited(poll)])[|trace|].Waited?;
  }

  /** One run of the lookup, from input to outcome. */
  method ResolveDealerLookup(w: World, mode: Mode)
    returns (o: Outcome, log: seq<Event>, steps: seq<Event>, trace: seq<Entry>, confirmed: bool, n: nat, presses: seq<seq<Press>>)
    ensures log == Input(w, mode) + steps + SelectionEvents(presses != [], confirmed, n)
    ensures steps <= Ladder(w) && InLadderOrder(w, steps) && (mode == AwaitPendingLookup ==> steps == [])
    ensures Events(trace) == Input(w, mode) + steps && NeverResetsALookup(trace) && HandsOver(trace)
    ensures n <= 2 && (presses != [] ==> |presses| == n + 1) && SelectionsLand(presses)
    ensures Sincere(w, presses != [], n, o)
    ensures n == 2 ==> !Committed(w.commit(1))
    ensures presses == [] ==> !NoWaitIn(trace) && !confirmed && n == 0
    ensures n == 0 ==> SomeWaitEmpty(w) || OnlyInSection(w.commit(0))
    ensures presses != [] && o.verified && !o.autoPopulated ==> (o.kind == DealerSelected <==> LastPressed(presses).authoritative)
    ensures presses != [] && n == 0 ==> Accounted(w, LastPressed(presses), confirmed, o)
  {
    var stage1, waits;
    stage1, trace, steps, waits := FirstStage(w, mode);
    PrefixInOrder(w, steps);
    log, confirmed, n, presses := Events(trace), false, 0, [];
    if stage1.result.None? {
      o := NothingFound(w);
      return;
    }
    var events;
    o, events, confirmed, n, presses := Select(w, stage1.result.value, waits);
    log := log + events;
  }

  // ---------------------------------------------------------------- a committed location, an unresolved lookup

  /** After a location selection that committed, the lookup ends unresolved exactly when a dealer was clicked and the last
      dealer click committed nothing. */
  lemma CommittedLocationUnresolvedExactly(w: World, n: nat, o: Outcome)
    requires Sincere(w, true, n, o) && Committed(w.commit(0))
    ensures o.kind == Unresolved <==> n > 0 && !Committed(w.commit(n))
  {}

  /** A page where every wait finds a result, the location commits, and no dealer ever does. */
  function ForgetfulPage(): World {
    World(
      true, true, NoTrigger, (k: nat) => Observed(None, false),
      (k: nat) => StagePoll(Some(Found(k, true)), false, false, false, false), (k: nat) => false, false, false,
      (selection: nat, attempt: nat) => Chance(true, Clicked, None), (n: nat) => Commit(n == 0, false, false), false, false,
          false)
  }

  method LookupOnForgetfulPage(mode: Mode) returns (o: Outcome)
    ensures Committed(ForgetfulPage().commit(0))
    ensures o.kind == Unresolved && o.locationSelected && !o.verified
  {
    var w := ForgetfulPage();
    var log, steps, trace, confirmed, n, presses;
    o, log, steps, trace, confirmed, n, presses := ResolveDealerLookup(w, mode);
    CommittedLocationUnresolvedExactly(w, n, o);
  }
}
