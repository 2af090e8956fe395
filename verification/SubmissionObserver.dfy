/** The bounded, adaptive observation that follows a Submit click. */
module SubmissionObserver {
  import opened Wrappers
  import opened Bounds
  import opened BusinessRequests

  const POST_SUBMIT_RECENT_MUTATION_MS := 2000
  const CHALLENGE_CHECK_INTERVAL_MS := 2000

  datatype Config = Config(baseWindowMs: nat, extensionMs: nat, hardCapMs: nat, pollIntervalMs: nat)

  const DEFAULT_CONFIG := Config(50000, 10000, 75000, 500)

  datatype Terminal = Succeeded | ValidationFailed | ServerRejected | ServerFailed | BlockedOrChallenged | UnknownOutcome

  datatype SuccessSignal = UrlChange | ConfirmationMessage | SuccessStatusSurface | VirtualPageSuccessEvent
      | FormReplacedAfterAcceptedResponse

  datatype Reason = BusinessRequestInFlight | SubmitControlDisabled | LoadingIndicatorActive | DomMutationsContinuing
      | FormReplacementInProgress

  datatype Snapshot = Snapshot(
    formConnected: bool, formVisible: bool, msSinceRegionMutation: Option<int>, statusSuccess: bool, statusError: bool,
    statusDuplicateOrRateLimit: bool, dataLayerSuccessEvent: bool, busy: bool, submitDisabled: bool, ariaInvalidCount: nat)

  /** All that one turn of the loop reads from the page and the clock. The clock readings are in the order taken:
      at the top, at the challenge check, at the deadline test, at the hard-cap test, when extending. */
  datatype Poll = Poll(
    top: int, challengeClock: int, deadlineClock: int, capClock: int, extendClock: int,
    urlChanged: bool, snapshot: Snapshot, confirmationMarkers: nat, requests: seq<Request>, anyBusinessPending: bool,
        challenge: bool)

  /** A run as the page plays it: its polls, what is read once more should turn k be the last, and what was on the page before
      the click. */
  datatype World = World(poll: nat -> Poll, final: nat -> Poll, start: int, site: Site, confirmationBefore: nat,
      ariaInvalidBefore: nat)

  /** The clock never runs back within turn `k`; the next turn comes at least the poll interval later, the last reading
      after it. */
  predicate ClockedAt(w: World, c: Config, k: nat) {
    var p := w.poll(k);
    && w.start <= p.top <= p.challengeClock <= p.deadlineClock <= p.capClock <= p.extendClock
    && p.extendClock + c.pollIntervalMs <= w.poll(k + 1).top
    && p.extendClock <= w.final(k).top
  }

  ghost predicate Clocked(w: World, c: Config) {
    forall k: nat :: ClockedAt(w, c, k)
  }

  function SuccessSignalsFrom(s: Snapshot, confirmationAppeared: bool, business: Option<Request>): seq<SuccessSignal> {
    (if confirmationAppeared then [ConfirmationMessage] else [])
    + (if s.statusSuccess then [SuccessStatusSurface] else [])
    + (if s.dataLayerSuccessEvent then [VirtualPageSuccessEvent] else [])
    + (if business.Some? && business.value.status.Some? && 200 <= business.value.status.value < 300
        && (!s.formConnected || !s.formVisible)
       then [FormReplacedAfterAcceptedResponse] else [])
  }

  function BusinessResponseState(business: Option<Request>): Option<Terminal> {
    if business.None? || business.value.status.None? then None
    else
      var st := business.value.status.value;
      if st == 401 || st == 403 || st == 429 then Some(BlockedOrChallenged)
      else if st == 400 || st == 409 || st == 422 then Some(ServerRejected)
      else if st >= 500 then Some(ServerFailed)
      else None
  }

  function Business(w: World, k: nat): Option<Request> {
    Decisive(SelectBusinessRequests(w.site, w.poll(k).requests))
  }

  /** Time of the last challenge check made before turn `k`; none counts as time 0. */
  function LastChallengeCheck(w: World, k: nat): int {
    if k == 0 then 0
    else
      var last := LastChallengeCheck(w, k - 1);
      if w.poll(k - 1).challengeClock - last > CHALLENGE_CHECK_INTERVAL_MS then w.poll(k - 1).challengeClock else last
  }

  function ConfirmationAppeared(w: World, k: nat): bool {
    w.poll(k).confirmationMarkers > w.confirmationBefore
  }

  /** The decisive signal of turn `k`, in the order the loop tests them. */
  function Verdict(w: World, k: nat): Option<Terminal> {
    var p := w.poll(k);
    var s := p.snapshot;
    if p.urlChanged then Some(Succeeded)
    else if s.statusDuplicateOrRateLimit then Some(BlockedOrChallenged)
    else if SuccessSignalsFrom(s, ConfirmationAppeared(w, k), Business(w, k)) != [] && !s.statusError then Some(Succeeded)
    else if BusinessResponseState(Business(w, k)).Some? then BusinessResponseState(Business(w, k))
    else if s.ariaInvalidCount > w.ariaInvalidBefore || s.statusError then Some(ValidationFailed)
    else if p.challengeClock - LastChallengeCheck(w, k) > CHALLENGE_CHECK_INTERVAL_MS && p.challenge
        then Some(BlockedOrChallenged)
    else None
  }

  function ProgressReasons(p: Poll): seq<Reason> {
    (if p.anyBusinessPending then [BusinessRequestInFlight] else [])
    + (if p.snapshot.submitDisabled then [SubmitControlDisabled] else [])
    + (if p.snapshot.busy then [LoadingIndicatorActive] else [])
    + (if p.snapshot.msSinceRegionMutation.Some? && p.snapshot.msSinceRegionMutation.value < POST_SUBMIT_RECENT_MUTATION_MS
        then [DomMutationsContinuing] else [])
    + (if !p.snapshot.formVisible && p.snapshot.formConnected then [FormReplacementInProgress] else [])
  }

  predicate Extends(w: World, c: Config, deadline: int, k: nat) {
    var p := w.poll(k);
    p.deadlineClock >= deadline && ProgressReasons(p) != [] && p.capClock < w.start + c.hardCapMs
  }

  /** The deadline in force at turn `k`. */
  function Deadline(w: World, c: Config, k: nat): int {
    if k == 0 then w.start + c.baseWindowMs
    else
      var d := Deadline(w, c, k - 1);
      if Extends(w, c, d, k - 1) then Min(w.start + c.hardCapMs, w.poll(k - 1).extendClock + c.extensionMs) else d
  }

  /** Why the deadline was extended, each time it was before turn `k`. */
  function ReasonsBefore(w: World, c: Config, k: nat): seq<seq<Reason>> {
    if k == 0 then []
    else
      ReasonsBefore(w, c, k - 1)
      + if Extends(w, c, Deadline(w, c, k - 1), k - 1) then [ProgressReasons(w.poll(k - 1))] else []
  }

  function Extensions(w: World, c: Config, k: nat): nat {
    |ReasonsBefore(w, c, k)|
  }

  /** Turn `k` ends the observation without a decisive signal: the deadline has passed and may not be extended. */
  predicate GivesUp(w: World, c: Config, k: nat) {
    w.poll(k).deadlineClock >= Deadline(w, c, k) && !Extends(w, c, Deadline(w, c, k), k)
  }

  predicate Sound(c: Config) {
    c.baseWindowMs <= c.hardCapMs && c.extensionMs > 0 && c.pollIntervalMs > 0
  }

  /** The deadline never falls and never passes the hard cap. Each extension but the last buys a full extension, so there
      are at most ceil((hardCap - base) / extension) of them: one fewer would not yet fill the room. */
  lemma {:induction false} DeadlineBounds(w: World, c: Config, k: nat)
    requires Clocked(w, c) && Sound(c)
    ensures w.start + c.baseWindowMs <= Deadline(w, c, k) <= w.start + c.hardCapMs
    ensures k > 0 ==> Deadline(w, c, k - 1) <= Deadline(w, c, k)
    ensures Deadline(w, c, k) < w.start + c.hardCapMs ==>
              Extensions(w, c, k) * c.extensionMs <= Deadline(w, c, k) - (w.start + c.baseWindowMs)
    ensures Extensions(w, c, k) > 0 ==> (Extensions(w, c, k) - 1) * c.extensionMs < c.hardCapMs - c.baseWindowMs
  {
    if k > 0 {
      assert ClockedAt(w, c, k - 1);
      DeadlineBounds(w, c, k - 1);
      var d, n := Deadline(w, c, k - 1), Extensions(w, c, k - 1);
      if Extends(w, c, d, k - 1) {
        assert d < w.start + c.hardCapMs;
        OneMoreExtension(n, c.extensionMs);
      }
    }
  }

  lemma OneMoreExtension(n: nat, extensionMs: nat)
    ensures (n + 1) * extensionMs == n * extensionMs + extensionMs
  {}

  /** With the default windows the deadline moves at most three times and the observation is over 75 seconds after the click. */
  lemma DefaultWindows(w: World, k: nat)
    requires Clocked(w, DEFAULT_CONFIG)
    ensures Extensions(w, DEFAULT_CONFIG, k) <= 3
    ensures w.start + 50000 <= Deadline(w, DEFAULT_CONFIG, k) <= w.start + 75000
  {
    DeadlineBounds(w, DEFAULT_CONFIG, k);
  }

  datatype Observation = Observation(
    minimumObservationMs: nat, extensionCount: nat, extensionReasons: seq<seq<Reason>>, totalObservationMs: int,
    businessRequestDetected: bool, businessRequest: Option<Request>, confirmationDetectedAtMs: Option<int>,
    successSignals: seq<SuccessSignal>, formStillPresentAtEnd: bool, finalProgressReasons: seq<Reason>,
    submitControlDisabledAtEnd: bool, terminalState: Terminal)

  /** What every observation run with `c` guarantees its reader. */
  ghost predicate FromObserver(c: Config, o: Observation) {
    && o.minimumObservationMs == c.baseWindowMs
    && (o.terminalState == UnknownOutcome ==> o.totalObservationMs >= c.baseWindowMs)
    && (o.businessRequestDetected <==> o.businessRequest.Some?)
    && (o.terminalState == Succeeded <==> o.successSignals != [])
    && o.extensionCount == |o.extensionReasons|
  }

  /** What a successful turn `k` reports as its evidence. */
  function SignalsOf(w: World, k: nat): seq<SuccessSignal> {
    if w.poll(k).urlChanged then [UrlChange]
        else SuccessSignalsFrom(w.poll(k).snapshot, ConfirmationAppeared(w, k), Business(w, k))
  }

  /** One turn's tests, in the source's order, with the signals found and the challenge clock moved on. */
  method ReadTurn(w: World, k: nat, lastChallengeCheck: int)
      returns (terminal: Option<Terminal>, signals: seq<SuccessSignal>, checked: int)
    requires lastChallengeCheck == LastChallengeCheck(w, k)
    ensures terminal == Verdict(w, k)
    ensures signals == if terminal == Some(Succeeded) then SignalsOf(w, k) else []
    ensures terminal.None? ==> checked == LastChallengeCheck(w, k + 1)
  {
    var p := w.poll(k);
    var business := Decisive(SelectBusinessRequests(w.site, p.requests));
    terminal, signals, checked := None, [], lastChallengeCheck;
    if p.urlChanged {
      return Some(Succeeded), [UrlChange], checked;
    }
    if p.snapshot.statusDuplicateOrRateLimit {
      return Some(BlockedOrChallenged), [], checked;
    }
    signals := SuccessSignalsFrom(p.snapshot, p.confirmationMarkers > w.confirmationBefore, business);
    if signals != [] && !p.snapshot.statusError {
      return Some(Succeeded), signals, checked;
    }
    signals := [];
    if BusinessResponseState(business).Some? {
      return BusinessResponseState(business), [], checked;
    }
    if p.snapshot.ariaInvalidCount > w.ariaInvalidBefore || p.snapshot.statusError {
      return Some(ValidationFailed), [], checked;
    }
    if p.challengeClock - lastChallengeCheck > CHALLENGE_CHECK_INTERVAL_MS {
      checked := p.challengeClock;
      if p.challenge {
        terminal := Some(BlockedOrChallenged);
      }
    }
  }

  /** Whatever the windows, the deadline is never before the base window is over. */
  lemma {:induction false} DeadlineAfterBase(w: World, c: Config, k: nat)
    requires Clocked(w, c)
    ensures Deadline(w, c, k) >= w.start + c.baseWindowMs
  {
    if k > 0 {
      assert ClockedAt(w, c, k - 1);
      DeadlineAfterBase(w, c, k - 1);
    }
  }

  lemma UnknownIsLate(w: World, c: Config, k: nat)
    requires Clocked(w, c) && GivesUp(w, c, k)
    ensures w.poll(k).deadlineClock - w.start >= c.baseWindowMs
    ensures w.final(k).top - w.start >= c.baseWindowMs
  {
    assert ClockedAt(w, c, k);
    DeadlineAfterBase(w, c, k);
  }

  /** A turn that does not end the observation leaves the cap ahead of it, and the next turn is a poll interval later. */
  lemma TurnAdvances(w: World, c: Config, k: nat)
    requires Clocked(w, c) && Sound(c) && !GivesUp(w, c, k)
    ensures w.poll(k).deadlineClock < w.start + c.hardCapMs
    ensures w.poll(k).deadlineClock < w.poll(k + 1).deadlineClock
  {
    assert ClockedAt(w, c, k) && ClockedAt(w, c, k + 1);
    DeadlineBounds(w, c, k);
  }

  lemma VerdictIsKnown(w: World, k: nat)
    ensures Verdict(w, k) != Some(UnknownOutcome)
    ensures Verdict(w, k) == Some(Succeeded) ==> SignalsOf(w, k) != []
  {}

  lemma {:induction false} ChecksAreBefore(w: World, c: Config, k: nat)
    requires Clocked(w, c) && k > 0
    ensures LastChallengeCheck(w, k) <= Max(0, w.poll(k - 1).challengeClock)
    ensures LastChallengeCheck(w, k) + 2000 >= w.poll(k - 1).challengeClock
  {
    if k > 1 {
      assert ClockedAt(w, c, k - 2) && ClockedAt(w, c, k - 1);
      ChecksAreBefore(w, c, k - 1);
    }
  }

  function Max(a: int, b: int): int {
    if a >= b then a else b
  }

  /** A challenge is looked for in the first turn, once the clock stands past two seconds, and in every turn more than two seconds
      after the one before it. */
  lemma ChallengeIsLookedFor(w: World, c: Config, k: nat)
    requires Clocked(w, c) && w.poll(k).challengeClock > 2000
    requires k > 0 ==> w.poll(k).challengeClock > w.poll(k - 1).challengeClock + 2000
    ensures w.poll(k).challengeClock > LastChallengeCheck(w, k) + 2000
  {
    if k > 0 {
      ChecksAreBefore(w, c, k);
    }
  }

  /** The page shows success, and no error beside it. */
  ghost predicate ShowsSuccess(p: Poll, confirmationBefore: nat, answer: Option<int>) {
    && !p.snapshot.statusError
    && (p.confirmationMarkers > confirmationBefore || p.snapshot.statusSuccess || p.snapshot.dataLayerSuccessEvent
        || (answer.Some? && 200 <= answer.value <= 299 && (!p.snapshot.formConnected || !p.snapshot.formVisible)))
  }

  function Answer(business: Option<Request>): Option<int> {
    if business.Some? then business.value.status else None
  }

  /** Which signal ends the observation at turn `k`, and as what, in terms of the page and of the answer to the decisive business
      request. A notice of a duplicate or a rate limit comes before any sign of success, success before a rejecting answer,
      that before a field marked invalid, and a challenge, looked for every two seconds, last. */
  lemma VerdictExactly(w: World, k: nat)
    ensures var p, answer := w.poll(k), Answer(Decisive(SelectBusinessRequests(w.site, w.poll(k).requests)));
            var duplicate, success := p.snapshot.statusDuplicateOrRateLimit, ShowsSuccess(p, w.confirmationBefore, answer);
            var blocked := answer == Some(401) || answer == Some(403) || answer == Some(429);
            var rejected := answer == Some(400) || answer == Some(409) || answer == Some(422);
            var failed := answer.Some? && answer.value >= 500;
            var invalid := p.snapshot.ariaInvalidCount > w.ariaInvalidBefore || p.snapshot.statusError;
            var challenged := p.challenge && p.challengeClock > LastChallengeCheck(w, k) + 2000;
            && (Verdict(w, k) == Some(Succeeded) <==> p.urlChanged || (!duplicate && success))
            && (Verdict(w, k) == Some(ServerRejected) <==> !p.urlChanged && !duplicate && !success && rejected)
            && (Verdict(w, k) == Some(ServerFailed) <==> !p.urlChanged && !duplicate && !success && failed)
            && (Verdict(w, k) == Some(ValidationFailed) <==>
                  !p.urlChanged && !duplicate && !success && !blocked && !rejected && !failed && invalid)
            && (Verdict(w, k) == Some(BlockedOrChallenged) <==>
                  !p.urlChanged
                  && (duplicate || (!success && (blocked || (!rejected && !failed && !invalid && challenged)))))
  {}

  lemma InFour<T>(a: seq<T>, b: seq<T>, c: seq<T>, d: seq<T>, x: T)
    ensures x in a + b + c + d <==> x in a || x in b || x in c || x in d
  {}

  /** A success is reported with every sign of it that was there, and no other; a change of URL alone. */
  lemma SignalsExactly(w: World, k: nat, signal: SuccessSignal)
    ensures var p, answer := w.poll(k), Answer(Decisive(SelectBusinessRequests(w.site, w.poll(k).requests)));
            signal in SignalsOf(w, k) <==>
              match signal
              case UrlChange => p.urlChanged
              case ConfirmationMessage => !p.urlChanged && p.confirmationMarkers > w.confirmationBefore
              case SuccessStatusSurface => !p.urlChanged && p.snapshot.statusSuccess
              case VirtualPageSuccessEvent => !p.urlChanged && p.snapshot.dataLayerSuccessEvent
              case FormReplacedAfterAcceptedResponse =>
                !p.urlChanged && answer.Some? && 200 <= answer.value <= 299
                && (!p.snapshot.formConnected || !p.snapshot.formVisible)
  {
    var p, business := w.poll(k), Business(w, k);
    var replaced := business.Some? && business.value.status.Some? && 200 <= business.value.status.value < 300
        && (!p.snapshot.formConnected || !p.snapshot.formVisible);
    InFour(if ConfirmationAppeared(w, k) then [ConfirmationMessage] else [],
           if p.snapshot.statusSuccess then [SuccessStatusSurface] else [],
           if p.snapshot.dataLayerSuccessEvent then [VirtualPageSuccessEvent] else [],
           if replaced then [FormReplacedAfterAcceptedResponse] else [], signal);
  }

  /** A business request is pending, the submit control is disabled, something is loading, the page near the form has changed
      within two seconds, or the form is hidden but still there. */
  ghost predicate InProgress(p: Poll) {
    || p.anyBusinessPending || p.snapshot.submitDisabled || p.snapshot.busy
    || (p.snapshot.msSinceRegionMutation.Some? && p.snapshot.msSinceRegionMutation.value < 2000)
    || (p.snapshot.formConnected && !p.snapshot.formVisible)
  }

  /** While something is in progress the observation gives up at the hard cap only: a deadline reached before the cap moves by
      the extension, or to the cap. With nothing in progress it gives up at the deadline. */
  lemma ProgressExtends(w: World, c: Config, k: nat)
    requires w.poll(k).deadlineClock >= Deadline(w, c, k)
    ensures GivesUp(w, c, k) <==> !InProgress(w.poll(k)) || w.poll(k).capClock >= w.start + c.hardCapMs
    ensures !GivesUp(w, c, k) ==>
      Deadline(w, c, k + 1) == Min(w.start + c.hardCapMs, w.poll(k).extendClock + c.extensionMs)
    ensures !GivesUp(w, c, k) && w.poll(k).anyBusinessPending ==>
      BusinessRequestInFlight in ReasonsBefore(w, c, k + 1)[|ReasonsBefore(w, c, k)|]
  {}

  // ---------------------------------------------------------------- the report of a run

  const EMPTY_SNAPSHOT := Snapshot(true, true, None, false, false, false, false, false, false, 0)

  /** The last snapshot read when turn `k` ends the observation: a change of URL ends a turn before it reads one. */
  function LastSnapshot(w: World, k: nat): Snapshot {
    if !w.poll(k).urlChanged then w.poll(k).snapshot
    else if k == 0 then EMPTY_SNAPSHOT
    else w.poll(k - 1).snapshot
  }

  /** Turn `k` is the last: the first with a decisive signal, or whose deadline has passed and may not be extended. */
  ghost predicate StopsAt(w: World, c: Config, k: nat) {
    && (forall j :: 0 <= j < k ==> Verdict(w, j).None? && !GivesUp(w, c, j))
    && (Verdict(w, k).Some? || GivesUp(w, c, k))
  }

  /** The business requests as they are read once more after the last turn. */
  function Selected(w: World, k: nat): seq<Request> {
    SelectBusinessRequests(w.site, w.final(k).requests)
  }

  function Reported(w: World, c: Config, k: nat): Observation {
    var terminal, last, requests := Verdict(w, k).GetOr(UnknownOutcome), LastSnapshot(w, k), Selected(w, k);
    Observation(
      c.baseWindowMs, |ReasonsBefore(w, c, k)|, ReasonsBefore(w, c, k), w.final(k).top - w.start,
      requests != [], Decisive(requests), if terminal == Succeeded then Some(w.poll(k).top - w.start) else None,
      if terminal == Succeeded then SignalsOf(w, k) else [],
      last.formConnected && last.formVisible,
      if terminal == Succeeded then [] else ProgressReasons(w.final(k).(snapshot := last)), last.submitDisabled, terminal)
  }

  lemma ReportedHolds(w: World, c: Config, k: nat)
    requires Clocked(w, c) && StopsAt(w, c, k)
    ensures FromObserver(c, Reported(w, c, k))
    ensures Reported(w, c, k).businessRequest == Decisive(Selected(w, k))
  {
    VerdictIsKnown(w, k);
    if Verdict(w, k).None? {
      UnknownIsLate(w, c, k);
    }
  }

  /** What the report says of the page, in terms of the page: of its last snapshot, of a success and when, of what was still in
      progress, and of a business request among those read last. */
  lemma ReportedExactly(w: World, c: Config, k: nat)
    ensures var o, last := Reported(w, c, k), w.poll(k).snapshot;
            && (!w.poll(k).urlChanged ==>
                  && (o.formStillPresentAtEnd <==> last.formConnected && last.formVisible)
                  && (o.submitControlDisabledAtEnd <==> last.submitDisabled)
                  && (o.terminalState != Succeeded ==>
                        (o.finalProgressReasons != [] <==> InProgress(w.final(k).(snapshot := last)))))
            && (o.confirmationDetectedAtMs ==
                  if Verdict(w, k) == Some(Succeeded) then Some(w.poll(k).top - w.start) else None)
            && o.totalObservationMs == w.final(k).top - w.start
  {}

  lemma RequestReported(w: World, c: Config, k: nat)
    ensures Reported(w, c, k).businessRequestDetected <==>
              exists r :: r in w.final(k).requests && OwnRequest(w.site, r) && (StateChanging(w.site, r) || !KnownRead(r))
  {
    var rs := w.final(k).requests;
    if Selected(w, k) != [] {
      SelectedExactly(w.site, rs, Selected(w, k)[0]);
    }
    if r :| r in rs && OwnRequest(w.site, r) && (StateChanging(w.site, r) || !KnownRead(r)) {
      if p :| p in rs && OwnRequest(w.site, p) && StateChanging(w.site, p) {
        SelectedExactly(w.site, rs, p);
      } else {
        SelectedExactly(w.site, rs, r);
      }
    }
  }

  /** The turns of the observation: they end at the first that decides or may not go on, under sound windows always. */
  method RunTurns(w: World, c: Config)
    returns (turns: nat, terminal: Terminal, signals: seq<SuccessSignal>, extensionReasons: seq<seq<Reason>>, snapshot: Snapshot)
    requires Clocked(w, c) && Sound(c)
    ensures StopsAt(w, c, turns)
    ensures terminal == Verdict(w, turns).GetOr(UnknownOutcome)
    ensures signals == if terminal == Succeeded then SignalsOf(w, turns) else []
    ensures extensionReasons == ReasonsBefore(w, c, turns) && snapshot == LastSnapshot(w, turns)
  {
    var deadline := w.start + c.baseWindowMs;
    var hardDeadline := w.start + c.hardCapMs;
    var lastChallengeCheck, verdict := 0, None;
    extensionReasons, snapshot, turns := [], EMPTY_SNAPSHOT, 0;
    while true
      invariant deadline == Deadline(w, c, turns)
      invariant extensionReasons == ReasonsBefore(w, c, turns)
      invariant lastChallengeCheck == LastChallengeCheck(w, turns)
      invariant snapshot == if turns == 0 then EMPTY_SNAPSHOT else w.poll(turns - 1).snapshot
      invariant forall k :: 0 <= k < turns ==> Verdict(w, k).None? && !GivesUp(w, c, k)
      decreases hardDeadline - w.poll(turns).deadlineClock
    {
      var p := w.poll(turns);
      verdict, signals, lastChallengeCheck := ReadTurn(w, turns, lastChallengeCheck);
      if !p.urlChanged {
        snapshot := p.snapshot;
      }
      if verdict.Some? {
        VerdictIsKnown(w, turns);
        break;
      }
      if p.deadlineClock >= deadline {
        var reasons := ProgressReasons(p);
        if reasons != [] && p.capClock < hardDeadline {
          extensionReasons := extensionReasons + [reasons];
          deadline := Min(hardDeadline, p.extendClock + c.extensionMs);
        } else {
          break;
        }
      }
      TurnAdvances(w, c, turns);
      turns := turns + 1;
    }
    terminal := verdict.GetOr(UnknownOutcome);
  }

  /** Observation and report. */
  method ObserveSubmissionOutcome(w: World, c: Config) returns (o: Observation, turns: nat)
    requires Clocked(w, c) && Sound(c)
    ensures StopsAt(w, c, turns) && o == Reported(w, c, turns)
    ensures o.terminalState == UnknownOutcome <==> Verdict(w, turns).None?
    ensures o.extensionCount > 0 ==> (o.extensionCount - 1) * c.extensionMs < c.hardCapMs - c.baseWindowMs
    ensures FromObserver(c, o)
  {
    var terminal, signals, extensionReasons, snapshot;
    turns, terminal, signals, extensionReasons, snapshot := RunTurns(w, c);
    DeadlineBounds(w, c, turns);
    VerdictIsKnown(w, turns);
    ReportedHolds(w, c, turns);
    var requests := SelectBusinessRequests(w.site, w.final(turns).requests);
    o := Observation(
      c.baseWindowMs, |extensionReasons|, extensionReasons, w.final(turns).top - w.start,
      requests != [], Decisive(requests), if terminal == Succeeded then Some(w.poll(turns).top - w.start) else None, signals,
      snapshot.formConnected && snapshot.formVisible,
      if terminal == Succeeded then [] else ProgressReasons(w.final(turns).(snapshot := snapshot)), snapshot.submitDisabled,
          terminal);
  }

  // ---------------------------------------------------------------- what the requests alone can do

  /** The form stays on the page and nothing on the page speaks of success, whatever the requests do. */
  ghost predicate OnlyRequestsAnswer(w: World) {
    forall k: nat :: SilentTurn(w, k)
  }

  predicate SilentTurn(w: World, k: nat) {
    var s := w.poll(k).snapshot;
    !w.poll(k).urlChanged && s.formConnected && s.formVisible && !s.statusSuccess && !s.dataLayerSuccessEvent
        && !ConfirmationAppeared(w, k)
  }

  /** Accepted answers alone are never success: on such a page no run succeeds. */
  lemma AnswersAloneNeverSucceed(w: World, c: Config, k: nat)
    requires OnlyRequestsAnswer(w) && StopsAt(w, c, k)
    ensures Reported(w, c, k).terminalState != Succeeded && Reported(w, c, k).successSignals == []
  {
    assert SilentTurn(w, k);
  }

  // ---------------------------------------------------------------- observations as such

  /** A request has an answer exactly when it completed, in every last reading. */
  ghost predicate RequestsAnswered(w: World) {
    forall k: nat :: Answered(w.final(k).requests)
  }

  /** Some run under `c` reports `o` with `seen` its business requests, and `found` are those found when the live list of
      captured requests is read again afterwards. */
  ghost predicate Observed(c: Config, o: Observation, seen: seq<Request>, found: seq<Request>) {
    exists w: World, k: nat, later: seq<Request> :: ReportOf(w, c, k, later, o, seen, found)
  }

  ghost predicate ReportOf(
    w: World, c: Config, k: nat, later: seq<Request>, o: Observation, seen: seq<Request>, found: seq<Request>)
  {
    && Clocked(w, c) && RequestsAnswered(w) && StopsAt(w, c, k) && o == Reported(w, c, k) && seen == Selected(w, k)
    && Later(w.final(k).requests, later) && Answered(later) && found == SelectBusinessRequests(w.site, later)
  }

  lemma ObservedHolds(c: Config, o: Observation, seen: seq<Request>, found: seq<Request>)
    requires Observed(c, o, seen, found)
    ensures FromObserver(c, o) && Answered(seen) && Answered(found)
    ensures o.businessRequest == Decisive(seen) && (o.businessRequestDetected <==> seen != [])
  {
    var w: World, k: nat, later: seq<Request> :| ReportOf(w, c, k, later, o, seen, found);
    ReportedHolds(w, c, k);
    SelectedAreBusiness(w.site, w.final(k).requests);
    SelectedAreBusiness(w.site, later);
    assert Answered(w.final(k).requests);
  }

  /** Nothing read later was there for the observer to see: each request has started or has been reclassified since. */
  ghost predicate AllUnseen(c: Config, o: Observation, seen: seq<Request>, found: seq<Request>) {
    exists w: World, k: nat, later: seq<Request> ::
      ReportOf(w, c, k, later, o, seen, found) && forall r :: r in found ==> Unseen(w.final(k).requests, later, r)
  }

  lemma NothingSeenAllUnseen(c: Config, o: Observation, found: seq<Request>)
    requires Observed(c, o, [], found)
    ensures AllUnseen(c, o, [], found)
  {
    var w: World, k: nat, later: seq<Request> :| ReportOf(w, c, k, later, o, [], found);
    forall r | r in found
      ensures Unseen(w.final(k).requests, later, r)
    {
      LaterBusinessIsUnseen(w.site, w.final(k).requests, later, r);
    }
  }

  // ---------------------------------------------------------------- pages that stay as they are

  /** A page that shows the same in every turn, each a poll interval after the one before. */
  function SteadyPage(c: Config, site: Site, snapshot: Snapshot, markers: nat, requests: seq<Request>): World {
    var at := (k: nat) =>
      var t := k * c.pollIntervalMs; Poll(t, t, t, t, t, false, snapshot, markers, requests, false, false);
    World(at, at, 0, site, 0, 0)
  }

  lemma SteadyPageClocked(c: Config, site: Site, snapshot: Snapshot, markers: nat, requests: seq<Request>)
    requires Answered(requests)
    ensures var w := SteadyPage(c, site, snapshot, markers, requests); Clocked(w, c) && RequestsAnswered(w)
  {
    forall k: nat
      ensures ClockedAt(SteadyPage(c, site, snapshot, markers, requests), c, k)
    {
      NextTurn(k, c.pollIntervalMs);
    }
  }

  lemma NextTurn(k: nat, interval: nat)
    ensures k * interval + interval == (k + 1) * interval
  {}

  /** A page on which nothing happens. */
  function StillPage(c: Config, site: Site): World {
    SteadyPage(c, site, EMPTY_SNAPSHOT, 0, [])
  }

  lemma StillPageVerdict(c: Config, site: Site, k: nat)
    ensures Verdict(StillPage(c, site), k).None? && ProgressReasons(StillPage(c, site).poll(k)) == []
  {
    SelectedAreBusiness(site, []);
  }

  /** The loop run on the still page: it waits out the base window, is never extended, and ends unknown. */
  method ObserveStillPage(c: Config, site: Site) returns (o: Observation, turns: nat)
    requires Sound(c)
    ensures Observed(c, o, [], []) && FromObserver(c, o)
    ensures o.terminalState == UnknownOutcome && o.totalObservationMs >= c.baseWindowMs
  {
    SteadyPageClocked(c, site, EMPTY_SNAPSHOT, 0, []);
    o, turns := ObserveSubmissionOutcome(StillPage(c, site), c);
    StillPageVerdict(c, site, turns);
    SelectedAreBusiness(site, []);
    assert ReportOf(StillPage(c, site), c, turns, [], o, [], []);
  }

  /** The turn at which the still page is given up, from turn `k` on. */
  function StopTurn(c: Config, k: nat): (r: nat)
    requires Sound(c)
    ensures k <= r && r * c.pollIntervalMs >= c.baseWindowMs
    ensures forall j :: k <= j < r ==> j * c.pollIntervalMs < c.baseWindowMs
    decreases c.baseWindowMs - k * c.pollIntervalMs
  {
    NextTurn(k, c.pollIntervalMs);
    if k * c.pollIntervalMs >= c.baseWindowMs then k else StopTurn(c, k + 1)
  }

  lemma {:induction false} StillPageDeadline(c: Config, site: Site, k: nat)
    ensures Deadline(StillPage(c, site), c, k) == c.baseWindowMs && ReasonsBefore(StillPage(c, site), c, k) == []
  {
    if k > 0 {
      StillPageDeadline(c, site, k - 1);
      StillPageVerdict(c, site, k - 1);
    }
  }

  lemma StillPageStops(c: Config, site: Site)
    requires Sound(c)
    ensures StopsAt(StillPage(c, site), c, StopTurn(c, 0))
  {
    forall k | 0 <= k <= StopTurn(c, 0)
      ensures Verdict(StillPage(c, site), k).None?
      ensures GivesUp(StillPage(c, site), c, k) <==> k * c.pollIntervalMs >= c.baseWindowMs
    {
      StillPageVerdict(c, site, k);
      StillPageDeadline(c, site, k);
    }
  }
}
